/**
 The abstract bit string every reader of the codec is a view of: bit p of a byte string is
 bit 7 - p%8 of byte p/8.  Bytes past the ones supplied count as zero.
 */
module BitStream {
  import opened Words

  type bit = x: int | 0 <= x < 2

  function ByteAt(s: seq<byte>, i: int): byte {
    if 0 <= i < |s| then s[i] else 0
  }

  function Bit(s: seq<byte>, p: nat): bit {
    Shr(ByteAt(s, p / 8), 7 - p % 8) % 2
  }

  // The n bits at position p, most significant first.
  function Bits(s: seq<byte>, p: nat, n: nat): (r: nat)
    decreases n, p
  {
    if n == 0 then 0 else Bits(s, p, n - 1) + Bits(s, p, n - 1) + Bit(s, p + n - 1)
  }

  // The big-endian value of n bytes from index i.
  function Word(s: seq<byte>, i: nat, n: nat): nat
    decreases n, i
  {
    if n == 0 then 0 else 256 * Word(s, i, n - 1) + ByteAt(s, i + n - 1)
  }

  lemma {:induction false} BitsBound(s: seq<byte>, p: nat, n: nat)
    ensures Bits(s, p, n) < Pow2(n)
  {
    if n > 0 {
      BitsBound(s, p, n - 1);
    }
  }

  lemma {:induction false} BitsSplit(s: seq<byte>, p: nat, a: nat, b: nat)
    ensures Bits(s, p, a + b) == Scale(Bits(s, p, a), b) + Bits(s, p + a, b)
  {
    if b > 0 {
      BitsSplit(s, p, a, b - 1);
    }
  }

  lemma {:induction false} ByteHeadIsBits(s: seq<byte>, i: nat, n: nat)
    requires n <= 8
    ensures Bits(s, 8 * i, n) == Shr(ByteAt(s, i), 8 - n)
  {
    var v := ByteAt(s, i);
    if n == 0 {
      Pow2Values();
      LowOfSmall(v, 8 - n);
    } else {
      ByteHeadIsBits(s, i, n - 1);
      assert (8 * i + n - 1) / 8 == i && (8 * i + n - 1) % 8 == n - 1;
      ShrShr(v, 8 - n, 1);
      var h := Shr(v, 8 - n);
      assert Shr(h, 1) == h / 2;
    }
  }

  lemma ByteIsBits(s: seq<byte>, i: nat, p: nat, n: nat)
    requires n == 8 && p == 8 * i
    ensures Bits(s, p, n) == ByteAt(s, i)
  {
    ByteHeadIsBits(s, i, n);
  }

  lemma AppendByte(s: seq<byte>, p: nat, m: nat, n: nat)
    requires n == 8
    ensures Bits(s, p, m + n) == 256 * Bits(s, p, m) + Bits(s, p + m, n)
  {
    BitsSplit(s, p, m, n);
    ScaleIsProduct(Bits(s, p, m), n);
    Pow2Values();
  }

  lemma {:induction false} WordIsBits(s: seq<byte>, i: nat, n: nat)
    ensures Word(s, i, n) == Bits(s, 8 * i, 8 * n)
  {
    if n > 0 {
      WordIsBits(s, i, n - 1);
      WordStep(s, 8 * i, i + n - 1, 8 * (n - 1), 8);
    }
  }

  lemma WordStep(s: seq<byte>, p: nat, last: nat, m: nat, n: nat)
    requires n == 8 && p + m == 8 * last
    ensures Bits(s, p, m + n) == 256 * Bits(s, p, m) + ByteAt(s, last)
  {
    AppendByte(s, p, m, n);
    ByteIsBits(s, last, p + m, n);
  }

  lemma LowOfShifted(w: nat, h: nat, t: nat, off: nat, rest: nat, width: nat)
    requires w == Scale(h, rest) + t && t < Pow2(rest) && width == off + rest
    ensures Low(Scale(w, off), width) == Scale(t, off)
  {
    LowOfScaled(w, off, rest);
    SplitUnique(h, t, rest);
  }

  // Shifting a window left by off and truncating it to its width drops its first off bits.
  lemma WindowShift(s: seq<byte>, p: nat, width: nat, off: nat)
    requires off <= width
    ensures Low(Scale(Bits(s, p, width), off), width) == Scale(Bits(s, p + off, width - off), off)
  {
    var rest := width - off;
    BitsSplit(s, p, off, rest);
    BitsBound(s, p + off, rest);
    LowOfShifted(Bits(s, p, width), Bits(s, p, off), Bits(s, p + off, rest), off, rest, width);
  }

  lemma HeadOfShifted(w: nat, h: nat, t: nat, off: nat, rest: nat, amount: nat)
    requires w == Scale(h, rest) + t && t < Pow2(rest) && amount == off + rest
    ensures Shr(Scale(w, off), amount) == h
  {
    ShrShr(Scale(w, off), off, rest);
    ShrScale(w, off);
    SplitUnique(h, t, rest);
  }

  // The first n of the len bits at p, seen in a register that holds them shifted up by off.
  lemma WindowHead(s: seq<byte>, p: nat, len: nat, off: nat, n: nat)
    requires n <= len
    ensures Shr(Scale(Bits(s, p, len), off), off + len - n) == Bits(s, p, n)
  {
    var rest := len - n;
    BitsSplit(s, p, n, rest);
    BitsBound(s, p + n, rest);
    HeadOfShifted(Bits(s, p, len), Bits(s, p, n), Bits(s, p + n, rest), off, rest, off + len - n);
  }

  // Shift out, truncate, shift back: the n bits at offset off of the window.
  lemma WindowRead(s: seq<byte>, p: nat, width: nat, off: nat, n: nat)
    requires off + n <= width
    ensures Shr(Low(Scale(Bits(s, p, width), off), width), width - n) == Bits(s, p + off, n)
  {
    WindowShift(s, p, width, off);
    WindowHead(s, p + off, width - off, off, n);
  }

  // ---------- writing bits ----------

  // Does s hold the bit string b at position p?
  ghost predicate Carries(s: seq<byte>, p: nat, b: seq<bit>)
    decreases |b|
  {
    b == [] || (Bit(s, p) == b[0] && Carries(s, p + 1, b[1..]))
  }

  lemma {:induction false} CarriesAt(s: seq<byte>, p: nat, b: seq<bit>, i: nat)
    requires Carries(s, p, b) && i < |b|
    ensures Bit(s, p + i) == b[i]
    decreases i
  {
    if i > 0 {
      CarriesAt(s, p + 1, b[1..], i - 1);
    }
  }

  lemma {:induction false} CarriesIntro(s: seq<byte>, p: nat, b: seq<bit>)
    requires forall q: nat | p <= q < p + |b| :: Bit(s, q) == b[q - p]
    ensures Carries(s, p, b)
    decreases |b|
  {
    if b != [] {
      forall q: nat | p + 1 <= q < p + 1 + |b[1..]|
        ensures Bit(s, q) == b[1..][q - (p + 1)]
      {
        assert Bit(s, q) == b[q - p];
      }
      CarriesIntro(s, p + 1, b[1..]);
    }
  }

  // The low n bits of v, most significant first.
  function ToBits(v: nat, n: nat): (b: seq<bit>)
    ensures |b| == n
    decreases n, v
  {
    if n == 0 then [] else ToBits(v / 2, n - 1) + [v % 2]
  }

  lemma {:induction false} CarriesConcat(s: seq<byte>, p: nat, a: seq<bit>, b: seq<bit>)
    ensures Carries(s, p, a + b) <==> Carries(s, p, a) && Carries(s, p + |a|, b)
    decreases |a|
  {
    if a == [] {
      assert a + b == b;
    } else {
      assert (a + b)[1..] == a[1..] + b;
      CarriesConcat(s, p + 1, a[1..], b);
    }
  }

  // Reading back what ToBits wrote.
  lemma {:induction false} CarriesBits(s: seq<byte>, p: nat, v: nat, n: nat)
    requires Carries(s, p, ToBits(v, n))
    ensures Bits(s, p, n) == Low(v, n)
  {
    if n > 0 {
      CarriesConcat(s, p, ToBits(v / 2, n - 1), [v % 2]);
      CarriesBits(s, p, v / 2, n - 1);
    }
  }

  lemma CarriesValue(s: seq<byte>, p: nat, v: nat, n: nat)
    requires Carries(s, p, ToBits(v, n)) && v < Pow2(n)
    ensures Bits(s, p, n) == v
  {
    CarriesBits(s, p, v, n);
    LowOfSmall(v, n);
  }

  // ---------- packing a bit string into bytes ----------

  function BitOf(b: seq<bit>, i: nat): bit {
    if i < |b| then b[i] else 0
  }

  // The n bits of b from index i as a number.
  function FromBits(b: seq<bit>, i: nat, n: nat): (r: nat)
    ensures r < Pow2(n)
    decreases n, i
  {
    if n == 0 then 0 else FromBits(b, i, n - 1) + FromBits(b, i, n - 1) + BitOf(b, i + n - 1)
  }

  function PackByte(b: seq<bit>, i: nat): (r: byte)
  {
    Pow2Values();
    FromBits(b, i, 8)
  }

  // The bit string in whole bytes, the last one padded with zeros.
  function Pack(b: seq<bit>): (s: seq<byte>)
    ensures |s| == (|b| + 7) / 8
  {
    seq((|b| + 7) / 8, (i: nat) requires i < (|b| + 7) / 8 => PackByte(b, 8 * i))
  }

  lemma {:induction false} FromBitsBit(b: seq<bit>, i: nat, n: nat, j: nat)
    requires j < n
    ensures Shr(FromBits(b, i, n), n - 1 - j) % 2 == BitOf(b, i + j)
  {
    if j < n - 1 {
      FromBitsBit(b, i, n - 1, j);
      assert FromBits(b, i, n) / 2 == FromBits(b, i, n - 1);
    }
  }

  // Whatever bytes follow it, a packed bit string is carried at position 0.
  lemma PackCarries(b: seq<bit>, tail: seq<byte>)
    ensures Carries(Pack(b) + tail, 0, b)
  {
    var s := Pack(b) + tail;
    forall i: nat | 0 <= i < 0 + |b|
      ensures Bit(s, i) == b[i - 0]
    {
      assert ByteAt(s, i / 8) == PackByte(b, 8 * (i / 8));
      FromBitsBit(b, 8 * (i / 8), 8, i % 8);
      assert 8 * (i / 8) + i % 8 == i;
    }
    CarriesIntro(s, 0, b);
  }
}
