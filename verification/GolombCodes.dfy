/**
 One code of the adaptive Golomb stream: what the two readers dyn_get and dyn_get_32bit return
 in terms of the bits they look at, the readers themselves, and the codes they invert.
 */
module GolombCodes {
  import opened Words
  import opened BitStream
  import opened BitBuffers
  import opened AdaptiveGolomb

  // A decoded value and the position after its code.
  datatype Symbol = Symbol(value: nat, next: nat)

  // The number of one bits at p, at most n.
  function Ones(s: seq<byte>, p: nat, n: nat): (r: nat)
    ensures r <= n
    decreases n, p
  {
    if n == 0 || Bit(s, p) == 0 then 0 else 1 + Ones(s, p + 1, n - 1)
  }

  // A sample code: a prefix of ones, then either the escaped value or a k-bit suffix that is
  // one bit shorter when the remainder is zero.
  function SampleCode(s: seq<byte>, p: nat, m: nat, k: nat, maxbits: nat): Symbol
    requires k >= 1
  {
    var pre := Ones(s, p, MAX_PREFIX);
    if pre >= MAX_PREFIX then Symbol(Bits(s, p + MAX_PREFIX, maxbits), p + MAX_PREFIX + maxbits)
    else if k == 1 then Symbol(pre, p + pre + 1)
    else
      var v := Bits(s, p + pre + 1, k);
      TimesNat(pre, m);
      if v >= 2 then Symbol(Times(pre, m) + v - 1, p + pre + 1 + k) else Symbol(Times(pre, m), p + pre + k)
  }

  // A zero-run code: the same shape with no unary case; the escape has e bits.
  function RunCode(s: seq<byte>, p: nat, m: nat, k: nat, e: nat): Symbol
    requires k >= 1
  {
    var pre := Ones(s, p, MAX_PREFIX);
    if pre >= MAX_PREFIX then Symbol(Bits(s, p + MAX_PREFIX, e), p + MAX_PREFIX + e)
    else ShortRun(pre, Bits(s, p + pre + 1, k), p, m, k)
  }

  function ShortRun(pre: nat, v: nat, p: nat, m: nat, k: nat): Symbol
    requires k >= 1
  {
    TimesNat(pre, m);
    if v >= 2 then Symbol(Times(pre, m) + v - 1, p + pre + 1 + k) else Symbol(Times(pre, m), p + pre + k)
  }

  // ---------- the loaded word ----------

  lemma {:induction false} BitsBit(s: seq<byte>, p: nat, len: nat, i: nat)
    requires i < len
    ensures BitAt(Bits(s, p, len), len - 1 - i) == Bit(s, p + i)
  {
    HalfOfDouble(Bits(s, p, len - 1), Bit(s, p + len - 1));
    if i < len - 1 {
      BitsBit(s, p, len - 1, i);
      BitAtHalf(Bits(s, p, len), len - 1 - i);
    }
  }

  lemma BitAtHalf(x: int, j: nat)
    requires j > 0
    ensures BitAt(x, j) == BitAt(x / 2, j - 1)
  {
  }

  lemma HalfOfDouble(x: int, b: bit)
    ensures (x + x + b) / 2 == x && (x + x + b) % 2 == b
  {
  }

  // read32bit followed by the shift that drops the bits before the position.
  lemma StreamLong(s: seq<byte>, i: nat, off: nat, width: nat)
    requires off < 8 && width == 32
    ensures U32(Scale(Load32(s, i), off)) == Scale(Bits(s, 8 * i + off, width - off), off)
  {
    Load32IsBits(s, i);
    StreamLongOf(s, 8 * i, off, width);
  }

  lemma StreamLongOf(s: seq<byte>, p: nat, off: nat, width: nat)
    requires off < 8 && width == 32
    ensures U32(Scale(Bits(s, p, width), off)) == Scale(Bits(s, p + off, width - off), off)
  {
    LowWord(Scale(Bits(s, p, width), off), width);
    WindowShift(s, p, width, off);
  }

  lemma LowWord(x: int, width: nat)
    requires width == 32
    ensures Low(x, width) == U32(x)
  {
    Pow2Values();
    LowIsMod(x, width, TWO32);
  }

  lemma ZeroAbove(m: nat, n: nat, j: nat)
    requires m < Pow2(n) && n <= j
    ensures BitAt(m, j) == 0
  {
    Pow2Mono(n, j);
    LowOfSmall(m, j);
  }

  lemma LeadBits(m: uint32, i: nat, width: nat)
    requires i < width == 32
    ensures i < LeadSpec(m) ==> BitAt(m, width - 1 - i) == 0
    ensures i == LeadSpec(m) ==> BitAt(m, width - 1 - i) == 1
  {
    BitLengthBounds(m);
    if i < LeadSpec(m) {
      ZeroAbove(m, BitLength(m), width - 1 - i);
    } else if i == LeadSpec(m) {
      TopBit(m, width - 1 - i);
    }
  }

  lemma {:induction false} OnesUnique(s: seq<byte>, p: nat, n: nat, r: nat)
    requires r <= n
    requires forall q: nat | p <= q < p + r :: Bit(s, q) == 1
    requires r < n ==> Bit(s, p + r) == 0
    ensures Ones(s, p, n) == r
    decreases n
  {
    if r > 0 {
      OnesUnique(s, p + 1, n - 1, r - 1);
    }
  }

  // Bit i of the loaded word, counted from the top, is bit i of the stream.
  lemma WordBit(s: seq<byte>, p: nat, len: nat, off: nat, i: nat, width: nat)
    requires i < len && len + off == width
    ensures BitAt(Scale(Bits(s, p, len), off), width - 1 - i) == Bit(s, p + i)
  {
    BitAtScaled(Bits(s, p, len), off, width - 1 - i);
    BitsBit(s, p, len, i);
  }

  lemma NotWordBit(w: uint32, j: nat, width: nat)
    requires j < width == 32
    ensures BitAt(Not32(w), j) == 1 - BitAt(w, j)
  {
    Pow2Values();
    BitAtNot(w, width, j);
  }

  lemma PrefixBit(s: seq<byte>, p: nat, len: nat, off: nat, i: nat, w: uint32, pre: nat, width: nat)
    requires i < len && len + off == width == 32 && w == Scale(Bits(s, p, len), off)
    requires pre == LeadSpec(Not32(w))
    ensures i < pre ==> Bit(s, p + i) == 1
    ensures i == pre ==> Bit(s, p + i) == 0
  {
    WordBit(s, p, len, off, i, width);
    NotWordBit(w, width - 1 - i, width);
    LeadBits(Not32(w), i, width);
  }

  // The leading zeros of the complement count the leading ones of the stream.
  lemma PrefixOf(s: seq<byte>, p: nat, len: nat, off: nat, n: nat, w: uint32, pre: nat, width: nat)
    requires n <= len && len + off == width == 32 && w == Scale(Bits(s, p, len), off)
    requires pre == LeadSpec(Not32(w))
    ensures Ones(s, p, n) == if pre >= n then n else pre
  {
    forall q: nat | p <= q < p + n
      ensures q < p + pre ==> Bit(s, q) == 1
      ensures q == p + pre ==> Bit(s, q) == 0
    {
      PrefixBit(s, p, len, off, q - p, w, pre, width);
    }
    OnesUnique(s, p, n, if pre >= n then n else pre);
  }

  // `streamlong <<= a`, then the top k bits.
  lemma SuffixOf(s: seq<byte>, p: nat, len: nat, off: nat, a: nat, k: nat, w: uint32, width: nat)
    requires a + k <= len && len + off == width == 32 && w == Scale(Bits(s, p, len), off)
    ensures Shr(U32(Scale(w, a)), width - k) == Bits(s, p + a, k)
  {
    var x := Bits(s, p, len);
    LowWord(Scale(w, a), width);
    ScaleScale(x, off, a);
    ScaleScale(x, a, off);
    LowOfScaled(Scale(x, a), off, len);
    WindowShift(s, p, len, a);
    ScaleScale(Bits(s, p + a, len - a), a, off);
    SuffixHead(s, p + a, len - a, a + off, k, width);
  }

  lemma SuffixHead(s: seq<byte>, p: nat, len: nat, off: nat, k: nat, width: nat)
    requires k <= len && len + off == width
    ensures Shr(Scale(Bits(s, p, len), off), width - k) == Bits(s, p, k)
  {
    WindowHead(s, p, len, off, k);
  }

  // ---------- the readers ----------

  // What both readers load: 32 bits, of which the ones before the position are shifted out.
  ghost predicate Loaded(s: seq<byte>, p: nat, w: uint32) {
    exists off: nat :: off < 8 && HoldsFrom(s, p, off, w)
  }

  ghost predicate HoldsFrom(s: seq<byte>, p: nat, off: nat, w: uint32)
    requires off < 8
  {
    w == Scale(Bits(s, p, 32 - off), off)
  }

  method Load(s: seq<byte>, base: nat, bitPos: nat) returns (w: uint32, pre: nat)
    ensures Loaded(s, 8 * base + bitPos, w)
    ensures (if pre >= MAX_PREFIX then MAX_PREFIX else pre) == Ones(s, 8 * base + bitPos, MAX_PREFIX)
  {
    var i, off := base + bitPos / 8, bitPos % 8;
    ghost var p := 8 * base + bitPos;
    assert 8 * i + off == p;
    w := U32(Scale(Load32(s, i), off));
    StreamLong(s, i, off, 32);
    assert HoldsFrom(s, p, off, w);
    pre := Lead(Not32(w));
    PrefixOf(s, p, 32 - off, off, MAX_PREFIX, w, pre, 32);
  }

  // get_next_fromlong after dropping `skip` bits of the loaded word
  method NextFromLong(ghost s: seq<byte>, ghost p: nat, w: uint32, skip: nat, k: nat) returns (v: nat)
    requires skip + k <= 25 && Loaded(s, p, w)
    ensures v == Bits(s, p + skip, k)
  {
    ghost var off: nat :| off < 8 && HoldsFrom(s, p, off, w);
    SuffixOf(s, p, 32 - off, off, skip, k, w, 32);
    v := Shr(U32(Scale(w, skip)), 32 - k);
  }

  method Product(a: nat, m: nat) returns (r: nat)
    ensures r == Times(a, m)
  {
    TimesNat(a, m);
    TimesIsProduct(a, m);
    r := a * m;
  }

  // dyn_get
  method DynGet(s: seq<byte>, base: nat, bitPos: nat, m: nat, k: nat) returns (result: nat, next: nat)
    requires 1 <= k <= 16
    ensures Symbol(result, 8 * base + next) == RunCode(s, 8 * base + bitPos, m, k, MAX_DATATYPE_BITS_16)
  {
    var w, pre := Load(s, base, bitPos);
    ghost var p := 8 * base + bitPos;
    next := bitPos;
    if pre >= MAX_PREFIX {
      pre := MAX_PREFIX;
      next := next + pre;
      result := NextFromLong(s, p, w, pre, MAX_DATATYPE_BITS_16);
      next := next + MAX_DATATYPE_BITS_16;
    } else {
      var v := NextFromLong(s, p, w, pre + 1, k);
      result, next := DynGetShort(p, v, bitPos, pre, m, k);
    }
  }

  method DynGetShort(ghost p: nat, v: nat, bitPos: nat, pre: nat, m: nat, k: nat)
    returns (result: nat, next: nat)
    requires 1 <= k && bitPos <= p
    ensures Symbol(result, p - bitPos + next) == ShortRun(pre, v, p, m, k)
  {
    next := bitPos + pre;
    next := next + 1;
    next := next + k;
    var t := Product(pre, m);
    var r: int := t + v - 1;
    if v < 2 {
      r := r - (v - 1);
      next := next - 1;
    }
    result := r;
  }

  // An escape of no bits behind which a byte starts: the load would be shifted by all its 32 bits.
  predicate BadEscape(s: seq<byte>, p: nat, maxbits: nat) {
    maxbits == 0 && Ones(s, p, MAX_PREFIX) >= MAX_PREFIX && (p + MAX_PREFIX) % 8 == 0
  }

  // dyn_get_32bit
  method DynGet32(s: seq<byte>, base: nat, bitPos: nat, m: nat, k: nat, maxbits: nat) returns (result: nat, next: nat)
    requires 1 <= k <= 16 && maxbits <= 32 && !BadEscape(s, 8 * base + bitPos, maxbits)
    ensures Symbol(result, 8 * base + next) == SampleCode(s, 8 * base + bitPos, m, k, maxbits)
  {
    var w, pre := Load(s, base, bitPos);
    ghost var p := 8 * base + bitPos;
    next := bitPos;
    result := pre;
    if result >= MAX_PREFIX {
      result := DynGetEscape(s, base, next + MAX_PREFIX, maxbits, p);
      EscapeForm(s, p, p + MAX_PREFIX, m, k, maxbits, result);
      next := next + MAX_PREFIX + maxbits;
    } else {
      result, next := DynGetUnary(s, w, p, bitPos, result, m, k, maxbits);
    }
  }

  method DynGetEscape(s: seq<byte>, base: nat, bitoffset: nat, maxbits: nat, ghost p: nat) returns (result: nat)
    requires maxbits <= 32 && 8 * base + bitoffset == p + MAX_PREFIX && Ones(s, p, MAX_PREFIX) == MAX_PREFIX
    requires !BadEscape(s, p, maxbits)
    ensures result == Bits(s, p + MAX_PREFIX, maxbits)
  {
    result := GetStreamBits(s, base, bitoffset, maxbits);
  }

  lemma EscapeForm(s: seq<byte>, p: nat, q: nat, m: nat, k: nat, maxbits: nat, v: nat)
    requires 1 <= k && q == p + MAX_PREFIX && Ones(s, p, MAX_PREFIX) == MAX_PREFIX && v == Bits(s, q, maxbits)
    ensures SampleCode(s, p, m, k, maxbits) == Symbol(v, q + maxbits)
  {
  }

  // The code that is not escaped, its prefix read.
  method DynGetUnary(ghost s: seq<byte>, w: uint32, ghost p: nat, bitPos: nat, pre: nat, m: nat, k: nat,
                     ghost maxbits: nat)
    returns (result: nat, next: nat)
    requires 1 <= k <= 16 && Loaded(s, p, w) && pre == Ones(s, p, MAX_PREFIX) < MAX_PREFIX && bitPos <= p
    ensures Symbol(result, p - bitPos + next) == SampleCode(s, p, m, k, maxbits)
  {
    result := pre;
    next := bitPos + result;
    next := next + 1;
    if k != 1 {
      var v := NextFromLong(s, p, w, result + 1, k);
      next := next + k;
      next := next - 1;
      result := Product(result, m);
      if v >= 2 {
        result := result + (v - 1);
        next := next + 1;
      }
    }
  }

  // getstreambits: up to 32 bits, reaching into a fifth byte when they do not fit in four
  method GetStreamBits(s: seq<byte>, base: nat, bitoffset: nat, numbits: nat) returns (result: nat)
    requires numbits <= 32 && (numbits == 0 ==> bitoffset % 8 != 0)
    ensures result == Bits(s, 8 * base + bitoffset, numbits)
  {
    var i, off := base + bitoffset / 8, bitoffset % 8;
    ghost var p := 8 * base + bitoffset;
    assert 8 * i + off == p;
    var load1 := Load32(s, i);
    if numbits + off > 32 {
      result := ReadFive(s, i, off, numbits, load1, p);
    } else {
      Load32IsBits(s, i);
      FourBytes(s, 8 * i, off, numbits, 32, load1);
      result := Shr(load1, 32 - numbits - off);
    }
    if numbits != 32 {
      LowOfBits(s, p, off, numbits, result);
      result := Low(result, numbits);
    }
  }

  // The five-byte case of getstreambits.
  method ReadFive(s: seq<byte>, i: nat, off: nat, numbits: nat, load1: nat, ghost p: nat) returns (result: nat)
    requires off < 8 && numbits <= 32 < numbits + off && load1 == Load32(s, i) && p == 8 * i + off
    ensures result == Bits(s, p, numbits)
  {
    var x := U32(Scale(load1, off));
    StreamLong(s, i, off, 32);
    var d := numbits + off - 32;
    var load2 := Shr(ByteAt(s, i + 4), 8 - d);
    FiveBytes(s, i, off, numbits, d, x, load2, p);
    result := BitOr(Shr(x, 32 - numbits), load2);
  }

  lemma FourBytes(s: seq<byte>, p: nat, off: nat, n: nat, width: nat, w: nat)
    requires off + n <= width && w == Bits(s, p, width)
    ensures Shr(w, width - n - off) == Bits(s, p, off + n)
  {
    var rest := width - n - off;
    BitsSplit(s, p, off + n, rest);
    BitsBound(s, p + off + n, rest);
    SplitUnique(Bits(s, p, off + n), Bits(s, p + (off + n), rest), rest);
  }

  // The final mask drops whatever stands above the wanted bits.
  lemma LowOfBits(s: seq<byte>, p: nat, off: nat, n: nat, r: nat)
    requires off <= p && (r == Bits(s, p, n) || r == Bits(s, p - off, off + n))
    ensures Low(r, n) == Bits(s, p, n)
  {
    BitsBound(s, p, n);
    if r == Bits(s, p, n) {
      LowOfSmall(r, n);
    } else {
      LowOfTail(s, p - off, p, off, n);
    }
  }

  lemma LowOfTail(s: seq<byte>, start: nat, p: nat, off: nat, n: nat)
    requires start + off == p
    ensures Low(Bits(s, start, off + n), n) == Bits(s, p, n)
  {
    BitsBound(s, p, n);
    BitsSplit(s, start, off, n);
    SplitUnique(Bits(s, start, off), Bits(s, p, n), n);
  }

  lemma {:induction false} ShrOfScale(x: int, a: nat, b: nat, c: nat)
    requires c == a + b
    ensures Shr(Scale(x, c), a) == Scale(x, b)
  {
    ScaleScale(x, b, a);
    ShrScale(Scale(x, b), a);
  }

  lemma FiveBytes(s: seq<byte>, i: nat, off: nat, n: nat, d: nat, x: nat, y: int, p: nat)
    requires off < 8 && n <= 32 && 1 <= d && n + off == 32 + d && p == 8 * i + off
    requires x == Scale(Bits(s, p, 32 - off), off) && y == Shr(ByteAt(s, i + 4), 8 - d)
    ensures Shr(x, 32 - n) >= 0 && y >= 0
    ensures BitOr(Shr(x, 32 - n), y) == Bits(s, p, n)
  {
    var head := Bits(s, p, 32 - off);
    ShrOfScale(head, 32 - n, d, off);
    ByteHeadIsBits(s, i + 4, d);
    assert 8 * (i + 4) == p + (32 - off);
    JoinFive(s, p, 32 - off, d, head, y, 8 * (i + 4), n);
  }

  lemma JoinFive(s: seq<byte>, p: nat, len: nat, d: nat, head: nat, y: nat, q: nat, n: nat)
    requires q == p + len && n == len + d && head == Bits(s, p, len) && y == Bits(s, q, d)
    ensures Scale(head, d) >= 0 && BitOr(Scale(head, d), y) == Bits(s, p, n)
  {
    BitsBound(s, q, d);
    BitOrDisjoint(head, y, d);
    BitsSplit(s, p, len, d);
  }

  // ---------- the codes ----------

  function OneBits(n: nat): (b: seq<bit>)
    ensures |b| == n
  {
    seq(n, i => 1)
  }

  function ZeroBits(n: nat): (b: seq<bit>)
    ensures |b| == n
  {
    seq(n, i => 0)
  }

  // The code of n with modulus m: quotient in unary, remainder in k bits, or k zeros in all for
  // remainder zero (the first of them ends the prefix); escaped when the prefix gets too long.
  function Code(n: nat, m: nat, k: nat, escapeBits: nat): (b: seq<bit>)
    requires m >= 1
  {
    CodeOf(n, n / m, n % m, k, escapeBits)
  }

  // The number of ones in front of an escape.
  const ESCAPE_ONES: nat := 9

  function CodeOf(n: nat, pre: nat, mod: nat, k: nat, escapeBits: nat): (b: seq<bit>) {
    if pre >= ESCAPE_ONES then OneBits(ESCAPE_ONES) + ToBits(n, escapeBits)
    else if mod == 0 then OneBits(pre) + ZeroBits(k)
    else OneBits(pre) + ([0] + ToBits(mod + 1, k))
  }

  lemma CarriesPrefix(s: seq<byte>, p: nat, n: nat, rest: seq<bit>)
    requires Carries(s, p, OneBits(n) + rest) && n <= MAX_PREFIX
    requires n < MAX_PREFIX ==> rest != [] && rest[0] == 0
    ensures Ones(s, p, MAX_PREFIX) == n && Carries(s, p + n, rest)
  {
    CarriesConcat(s, p, OneBits(n), rest);
    forall q: nat | p <= q < p + n
      ensures Bit(s, q) == 1
    {
      CarriesAt(s, p, OneBits(n), q - p);
    }
    if n < MAX_PREFIX {
      CarriesAt(s, p + n, rest, 0);
    }
    OnesUnique(s, p, MAX_PREFIX, n);
  }

  lemma {:induction false} ZeroBitsValue(s: seq<byte>, p: nat, n: nat)
    requires forall q: nat | p <= q < p + n :: Bit(s, q) == 0
    ensures Bits(s, p, n) == 0
    decreases n
  {
    if n > 0 {
      ZeroBitsValue(s, p, n - 1);
    }
  }

  // The k zeros of a zero remainder: after the first, the suffix read is 0 or 1.
  lemma ShortSuffix(s: seq<byte>, p: nat, k: nat)
    requires k >= 1 && Carries(s, p, ZeroBits(k))
    ensures Bits(s, p + 1, k) < 2
  {
    forall q: nat | p + 1 <= q < p + 1 + (k - 1)
      ensures Bit(s, q) == 0
    {
      CarriesAt(s, p, ZeroBits(k), q - p);
    }
    ZeroBitsValue(s, p + 1, k - 1);
  }

  lemma LongSuffix(s: seq<byte>, p: nat, v: nat, k: nat)
    requires Carries(s, p, [0] + ToBits(v, k)) && v < Pow2(k)
    ensures Bits(s, p + 1, k) == v
  {
    CarriesConcat(s, p, [0], ToBits(v, k));
    CarriesValue(s, p + 1, v, k);
  }

  lemma Quotient(n: nat, m: nat)
    requires m >= 1
    ensures n == Times(n / m, m) + n % m && n % m < m
  {
    TimesIsProduct(n / m, m);
  }

  // What is found at p where a code with quotient pre and remainder mod stands.
  ghost predicate Reads(s: seq<byte>, p: nat, n: nat, pre: nat, mod: nat, k: nat, e: nat) {
    if pre >= MAX_PREFIX then Ones(s, p, MAX_PREFIX) == MAX_PREFIX && Bits(s, p + MAX_PREFIX, e) == n
    else
      && Ones(s, p, MAX_PREFIX) == pre
      && (if mod == 0 then Bits(s, p + pre + 1, k) < 2 else Bits(s, p + pre + 1, k) == mod + 1)
  }

  function CodeLength(pre: nat, mod: nat, k: nat, e: nat): nat {
    if pre >= MAX_PREFIX then MAX_PREFIX + e else if mod == 0 then pre + k else pre + 1 + k
  }

  lemma ReadEscape(s: seq<byte>, p: nat, n: nat, e: nat)
    requires n < Pow2(e) && Carries(s, p, OneBits(MAX_PREFIX) + ToBits(n, e))
    ensures Ones(s, p, MAX_PREFIX) == MAX_PREFIX && Bits(s, p + MAX_PREFIX, e) == n
  {
    CarriesPrefix(s, p, MAX_PREFIX, ToBits(n, e));
    CarriesValue(s, p + MAX_PREFIX, n, e);
  }

  lemma ReadZero(s: seq<byte>, p: nat, pre: nat, k: nat)
    requires pre < MAX_PREFIX && k >= 1 && Carries(s, p, OneBits(pre) + ZeroBits(k))
    ensures Ones(s, p, MAX_PREFIX) == pre && Bits(s, p + pre + 1, k) < 2
  {
    CarriesPrefix(s, p, pre, ZeroBits(k));
    ShortSuffix(s, p + pre, k);
  }

  lemma ReadRemainder(s: seq<byte>, p: nat, pre: nat, v: nat, k: nat)
    requires pre < MAX_PREFIX && v < Pow2(k) && Carries(s, p, OneBits(pre) + ([0] + ToBits(v, k)))
    ensures Ones(s, p, MAX_PREFIX) == pre && Bits(s, p + pre + 1, k) == v
  {
    CarriesPrefix(s, p, pre, [0] + ToBits(v, k));
    LongSuffix(s, p + pre, v, k);
  }

  lemma CodeRead(s: seq<byte>, p: nat, n: nat, pre: nat, mod: nat, k: nat, e: nat)
    requires mod + 1 < Pow2(k) && k >= 1 && n < Pow2(e)
    requires Carries(s, p, CodeOf(n, pre, mod, k, e))
    ensures Reads(s, p, n, pre, mod, k, e)
  {
    if pre >= MAX_PREFIX {
      ReadEscape(s, p, n, e);
    } else if mod == 0 {
      ReadZero(s, p, pre, k);
    } else {
      RemainderRead(s, p, n, pre, mod, k, e, mod + 1);
    }
  }

  lemma RemainderRead(s: seq<byte>, p: nat, n: nat, pre: nat, mod: nat, k: nat, e: nat, v: nat)
    requires v == mod + 1 && v < Pow2(k) && mod != 0 && pre < MAX_PREFIX
    requires Carries(s, p, CodeOf(n, pre, mod, k, e))
    ensures Reads(s, p, n, pre, mod, k, e)
  {
    ReadRemainder(s, p, pre, v, k);
  }

  lemma CodeOfLength(n: nat, pre: nat, mod: nat, k: nat, e: nat)
    ensures |CodeOf(n, pre, mod, k, e)| == CodeLength(pre, mod, k, e)
  {
  }

  lemma SampleOf(s: seq<byte>, p: nat, n: nat, pre: nat, mod: nat, m: nat, k: nat, e: nat)
    requires 1 <= k && m == Pow2(k) - 1 && n == Times(pre, m) + mod && mod < m
    requires Reads(s, p, n, pre, mod, k, e)
    ensures SampleCode(s, p, m, k, e) == Symbol(n, p + CodeLength(pre, mod, k, e))
  {
    if k == 1 {
      TimesIsProduct(pre, m);
    }
  }

  lemma RunOf(s: seq<byte>, p: nat, n: nat, pre: nat, mod: nat, m: nat, k: nat, e: nat)
    requires 1 <= k && n == Times(pre, m) + mod && mod < m < Pow2(k)
    requires Reads(s, p, n, pre, mod, k, e)
    ensures RunCode(s, p, m, k, e) == Symbol(n, p + CodeLength(pre, mod, k, e))
  {
  }

  // dyn_get_32bit inverts the sample code and consumes exactly its bits.
  lemma SampleRoundTrip(s: seq<byte>, p: nat, n: nat, m: nat, k: nat, maxbits: nat)
    requires 1 <= k && m == Pow2(k) - 1 && n < Pow2(maxbits)
    requires Carries(s, p, Code(n, m, k, maxbits))
    ensures SampleCode(s, p, m, k, maxbits) == Symbol(n, p + |Code(n, m, k, maxbits)|)
  {
    Quotient(n, m);
    CodeRead(s, p, n, n / m, n % m, k, maxbits);
    CodeOfLength(n, n / m, n % m, k, maxbits);
    SampleOf(s, p, n, n / m, n % m, m, k, maxbits);
  }

  // dyn_get inverts the run code for every run that fits the escape.
  lemma RunRoundTrip(s: seq<byte>, p: nat, n: nat, m: nat, k: nat, e: nat)
    requires 1 <= m < Pow2(k) && k >= 1 && n < Pow2(e)
    requires Carries(s, p, Code(n, m, k, e))
    ensures RunCode(s, p, m, k, e) == Symbol(n, p + |Code(n, m, k, e)|)
  {
    Quotient(n, m);
    CodeRead(s, p, n, n / m, n % m, k, e);
    CodeOfLength(n, n / m, n % m, k, e);
    RunOf(s, p, n, n / m, n % m, m, k, e);
  }
}
