/**
 The un-mixers and predictor copies of matrix_dec.c, storing into strided output buffers, and the
 theorem of each width: mixed, shifted-off samples come back exactly. (The source unrolls the tests on
 mixres and bytesShifted out of its loops; here they stand inside one loop a width.)
 */
module Unmixing {
  import opened Words
  import opened Matrix
  import opened Frames

  function At<T(0)>(s: seq<T>, j: nat, none: T): T {
    if j < |s| then s[j] else none
  }

  // ---------- stored samples ----------

  // The three little-endian bytes of a 24-bit sample, `(x >> 8 i) & 0xff`.
  function Bytes3(x: int): (b: seq<byte>)
    ensures |b| == 3
  {
    [x % 256, x / 256 % 256, x / 65536 % 256]
  }

  // The sample three stored bytes stand for.
  function Sample24(b: seq<byte>): int
    requires |b| == 3
  {
    var low: int, middle: int, high: int := b[0], b[1], b[2];
    low + 256 * middle + 65536 * (if high < 128 then high else high - 256)
  }

  // `(h << s) | low`.
  function Recombine(h: int, low: uint16, s: nat): int32 {
    Wrap32(BitOr(U32(Scale(h, s)), low))
  }

  // A 20-bit sample moved to the top of 24 bits.
  function LeftAligned(x: int): int32 {
    Wrap32(16 * x)
  }

  lemma Sample24Back(x: int)
    requires -0x80_0000 <= x < 0x80_0000
    ensures Sample24(Bytes3(x)) == x
  {
    assert x == x % 256 + 256 * (x / 256 % 256) + 65536 * (x / 65536);
  }

  lemma ShiftedWord(h: int, s: nat)
    requires s <= 32
    ensures U32(Scale(h, s)) == Scale(Low(h, 32 - s), s)
  {
    var width := 32;
    Pow2Values();
    LowOfScaled(h, s, width - s);
    LowIsMod(Scale(h, s), width, TWO32);
  }

  // The low part goes below the shifted one without overlap.
  lemma NoOverlap(h: int, low: uint16, s: nat)
    requires s <= 16 && low < Pow2(s)
    ensures Recombine(h, low, s) == Wrap32(Scale(h, s) + low)
  {
    var top := Low(h, 32 - s);
    ShiftedWord(h, s);
    BitOrDisjoint(top, low, s);
    var a := Scale(h, s);
    assert Wrap32(U32(a) + low) == Wrap32(a + low) by {
      Wrap32Shift(U32(a) + low, a / TWO32);
    }
  }

  // A sample split into its shifted-off low bits and the rest is put together again.
  lemma SplitRecombines(x: int32, s: nat)
    requires s <= 16
    ensures 0 <= Low(x, s) < 0x1_0000
    ensures Recombine(Shr(x, s), Low(x, s), s) == x
  {
    var h, low := Shr(x, s), Low(x, s);
    LowShort(x, s);
    NoOverlap(h, low, s);
    Recompose(x, s);
  }

  lemma LowShort(x: int, s: nat)
    requires s <= 16
    ensures Low(x, s) < 0x1_0000
  {
    Pow2Mono(s, 16);
    Pow2Values();
  }

  // ---------- the frames each width stores ----------

  // `(h << shift) | shiftUV[k]` where low bytes were shifted off, h where not.
  function Whole(h: int32, low: uint16, bytesShifted: nat): int32 {
    if bytesShifted != 0 then Recombine(h, low, 8 * bytesShifted) else h
  }

  function Frame16(u: int32, v: int32, mixbits: nat, mixres: int8): (f: seq<int16>)
    ensures |f| == 2
  {
    [Wrap16(UnmixL(u, v, mixbits, mixres)), Wrap16(UnmixR(u, v, mixbits, mixres))]
  }

  function Frame20(u: int32, v: int32, mixbits: nat, mixres: int8): (f: seq<byte>)
    ensures |f| == 6
  {
    Bytes3(LeftAligned(UnmixL(u, v, mixbits, mixres))) + Bytes3(LeftAligned(UnmixR(u, v, mixbits, mixres)))
  }

  function Frame24(u: int32, v: int32, mixbits: nat, mixres: int8, lowL: uint16, lowR: uint16, bytesShifted: nat)
    : (f: seq<byte>)
    ensures |f| == 6
  {
    Bytes3(Whole(UnmixL(u, v, mixbits, mixres), lowL, bytesShifted)) +
    Bytes3(Whole(UnmixR(u, v, mixbits, mixres), lowR, bytesShifted))
  }

  function Frame32(u: int32, v: int32, mixbits: nat, mixres: int8, lowL: uint16, lowR: uint16, bytesShifted: nat)
    : (f: seq<int32>)
    ensures |f| == 2
  {
    if mixres != 0 || bytesShifted != 0 then
      [Recombine(UnmixL(u, v, mixbits, mixres), lowL, 8 * bytesShifted),
       Recombine(UnmixR(u, v, mixbits, mixres), lowR, 8 * bytesShifted)]
    else
      [u, v]
  }

  // The frame each width stores at turn j.
  ghost function Frames16(u: seq<int32>, v: seq<int32>, mixbits: nat, mixres: int8): nat -> seq<int16> {
    (j: nat) => Frame16(At(u, j, 0), At(v, j, 0), mixbits, mixres)
  }

  ghost function Frames20(u: seq<int32>, v: seq<int32>, mixbits: nat, mixres: int8): nat -> seq<byte> {
    (j: nat) => Frame20(At(u, j, 0), At(v, j, 0), mixbits, mixres)
  }

  ghost function Frames24(u: seq<int32>, v: seq<int32>, mixbits: nat, mixres: int8, low: seq<uint16>,
                          bytesShifted: nat): (f: nat -> seq<byte>)
    ensures forall j :: |f(j)| == 6
  {
    (j: nat) => Frame24(At(u, j, 0), At(v, j, 0), mixbits, mixres, At(low, j + j, 0), At(low, j + j + 1, 0),
                        bytesShifted)
  }

  ghost function Frames32(u: seq<int32>, v: seq<int32>, mixbits: nat, mixres: int8, low: seq<uint16>,
                          bytesShifted: nat): nat -> seq<int32> {
    (j: nat) => Frame32(At(u, j, 0), At(v, j, 0), mixbits, mixres, At(low, j + j, 0), At(low, j + j + 1, 0),
                        bytesShifted)
  }

  // ---------- the un-mixers ----------

  method Unmix16(u: array<int32>, v: array<int32>, out: array<int16>, start: nat, stride: nat, n: nat,
                 mixbits: nat, mixres: int8)
    requires n <= u.Length && n <= v.Length && Room(start, stride, 2, n, out.Length)
    requires n > 0 && mixres != 0 ==> mixbits < 32
    modifies out
    ensures out[..] == PutAll(old(out[..]), start, stride, Frames16(u[..n], v[..n], mixbits, mixres), n)
  {
    ghost var was, us, vs := out[..], u[..n], v[..n];
    ghost var f := Frames16(us, vs, mixbits, mixres);
    var op := start;
    for j := 0 to n
      invariant op == start + Times(j, stride)
      invariant out[..] == PutAll(was, start, stride, f, j)
    {
      RoomFor(start, stride, 2, n, out.Length, j);
      var l, r := UnmixPair(u[j], v[j], mixbits, mixres);
      assert us[j] == u[j] && vs[j] == v[j];
      assert f(j) == [Wrap16(l), Wrap16(r)];
      StorePair(out, op, Wrap16(l), Wrap16(r));
      op := op + stride;
    }
  }

  method Store3(out: array<byte>, op: nat, x: int32)
    requires op + 3 <= out.Length
    modifies out
    ensures out[..] == Put(old(out[..]), op, Bytes3(x))
  {
    out[op + 2] := x / 65536 % 256;
    out[op + 1] := x / 256 % 256;
    out[op] := x % 256;
  }

  lemma PutTwice<T>(s: seq<T>, p: nat, a: seq<T>, b: seq<T>, q: nat)
    requires q == p + |a| && q + |b| <= |s|
    ensures Put(Put(s, p, a), q, b) == Put(s, p, a + b)
  {
  }

  method StorePair3(out: array<byte>, op: nat, l: int32, r: int32)
    requires op + 6 <= out.Length
    modifies out
    ensures out[..] == Put(old(out[..]), op, Bytes3(l) + Bytes3(r))
  {
    var q := op + 3;
    PutTwice(out[..], op, Bytes3(l), Bytes3(r), q);
    Store3(out, op, l);
    Store3(out, q, r);
  }

  method StorePair<T>(out: array<T>, op: nat, l: T, r: T)
    requires op + 2 <= out.Length
    modifies out
    ensures out[..] == Put(old(out[..]), op, [l, r])
  {
    out[op] := l;
    out[op + 1] := r;
  }

  method Unmix20(u: array<int32>, v: array<int32>, out: array<byte>, start: nat, stride: nat, n: nat,
                 mixbits: nat, mixres: int8, ghost step: nat)
    requires n <= u.Length && n <= v.Length && 1 <= stride && step == 3 * stride
    requires Room(start, step, 6, n, out.Length) && (n > 0 && mixres != 0 ==> mixbits < 32)
    modifies out
    ensures out[..] == PutAll(old(out[..]), start, step, Frames20(u[..], v[..], mixbits, mixres), n)
  {
    ghost var was, f := out[..], Frames20(u[..], v[..], mixbits, mixres);
    var op := start;
    for j := 0 to n
      invariant op == start + Times(j, step)
      invariant out[..] == PutAll(was, start, step, f, j)
    {
      RoomFor(start, step, 6, n, out.Length, j);
      var l, r := UnmixPair(u[j], v[j], mixbits, mixres);
      l, r := LeftAligned(l), LeftAligned(r);
      assert f(j) == Bytes3(l) + Bytes3(r);
      StorePair3(out, op, l, r);
      op := op + 3 + (stride - 1) * 3;
    }
  }

  method Join(h: int32, low: uint16, bytesShifted: nat) returns (x: int32)
    ensures x == Whole(h, low, bytesShifted)
  {
    x := h;
    if bytesShifted != 0 {
      x := Recombine(h, low, 8 * bytesShifted);
    }
  }

  // A pair un-mixed, its low bytes put back.
  method WholePair(u: int32, v: int32, mixbits: nat, mixres: int8, shiftUV: array<uint16>, k: nat, bytesShifted: nat)
    returns (l: int32, r: int32)
    requires bytesShifted <= 2 && (mixres != 0 ==> mixbits < 32) && (bytesShifted != 0 ==> k + 1 < shiftUV.Length)
    ensures l == Whole(UnmixL(u, v, mixbits, mixres), At(shiftUV[..], k, 0), bytesShifted)
    ensures r == Whole(UnmixR(u, v, mixbits, mixres), At(shiftUV[..], k + 1, 0), bytesShifted)
  {
    l, r := UnmixPair(u, v, mixbits, mixres);
    if bytesShifted != 0 {
      l := Join(l, shiftUV[k], bytesShifted);
      r := Join(r, shiftUV[k + 1], bytesShifted);
    }
  }

  method Unmix24(u: array<int32>, v: array<int32>, out: array<byte>, start: nat, stride: nat, n: nat,
                 mixbits: nat, mixres: int8, shiftUV: array<uint16>, bytesShifted: nat, ghost step: nat)
    requires n <= u.Length && n <= v.Length && 1 <= stride && step == 3 * stride && bytesShifted <= 2
    requires Room(start, step, 6, n, out.Length) && (n > 0 && mixres != 0 ==> mixbits < 32)
    requires bytesShifted != 0 ==> 2 * n <= shiftUV.Length
    modifies out
    ensures out[..] == PutAll(old(out[..]), start, step,
                              Frames24(u[..], v[..], mixbits, mixres, shiftUV[..], bytesShifted), n)
  {
    ghost var was, f := out[..], Frames24(u[..], v[..], mixbits, mixres, shiftUV[..], bytesShifted);
    var op, k := start, 0;
    for j := 0 to n
      invariant op == start + Times(j, step) && k == j + j
      invariant out[..] == PutAll(was, start, step, f, j)
    {
      RoomFor(start, step, 6, n, out.Length, j);
      var l, r := WholePair(u[j], v[j], mixbits, mixres, shiftUV, k, bytesShifted);
      assert f(j) == Bytes3(l) + Bytes3(r);
      StorePair3(out, op, l, r);
      op := op + 3 + (stride - 1) * 3;
      k := k + 2;
    }
  }

  // A pair un-mixed, with the shift buffer or-ed in whenever it is mixed or has bytes shifted off.
  method Pair32(u: int32, v: int32, mixbits: nat, mixres: int8, shiftUV: array<uint16>, k: nat, bytesShifted: nat)
    returns (l: int32, r: int32)
    requires bytesShifted <= 2 && (mixres != 0 ==> mixbits < 32)
    requires mixres != 0 || bytesShifted != 0 ==> k + 1 < shiftUV.Length
    ensures [l, r] == Frame32(u, v, mixbits, mixres, At(shiftUV[..], k, 0), At(shiftUV[..], k + 1, 0), bytesShifted)
  {
    l, r := UnmixPair(u, v, mixbits, mixres);
    if mixres != 0 || bytesShifted != 0 {
      l := Recombine(l, shiftUV[k], 8 * bytesShifted);
      r := Recombine(r, shiftUV[k + 1], 8 * bytesShifted);
    }
  }

  method Unmix32(u: array<int32>, v: array<int32>, out: array<int32>, start: nat, stride: nat, n: nat,
                 mixbits: nat, mixres: int8, shiftUV: array<uint16>, bytesShifted: nat)
    requires n <= u.Length && n <= v.Length && Room(start, stride, 2, n, out.Length) && bytesShifted <= 2
    requires n > 0 && mixres != 0 ==> mixbits < 32
    requires mixres != 0 || bytesShifted != 0 ==> 2 * n <= shiftUV.Length
    requires u != out && v != out
    modifies out
    ensures out[..] == PutAll(old(out[..]), start, stride,
                              Frames32(u[..], v[..], mixbits, mixres, shiftUV[..], bytesShifted), n)
  {
    ghost var was, f := out[..], Frames32(u[..], v[..], mixbits, mixres, shiftUV[..], bytesShifted);
    var op, k := start, 0;
    for j := 0 to n
      invariant op == start + Times(j, stride) && k == j + j
      invariant out[..] == PutAll(was, start, stride, f, j)
    {
      RoomFor(start, stride, 2, n, out.Length, j);
      var l, r := Pair32(u[j], v[j], mixbits, mixres, shiftUV, k, bytesShifted);
      StorePair(out, op, l, r);
      op := op + stride;
      k := k + 2;
    }
  }

  // ---------- the predictor copies of single channels ----------

  ghost function Mono20(u: seq<int32>): nat -> seq<byte> {
    (j: nat) => Bytes3(LeftAligned(At(u, j, 0)))
  }

  ghost function Mono24(u: seq<int32>, low: seq<uint16>, bytesShifted: nat): nat -> seq<byte> {
    (j: nat) => Bytes3(Whole(At(u, j, 0), At(low, j, 0), bytesShifted))
  }

  ghost function Mono32(u: seq<int32>, low: seq<uint16>, bytesShifted: nat): nat -> seq<int32> {
    (j: nat) => [Whole(At(u, j, 0), At(low, j, 0), bytesShifted)]
  }

  lemma ByteShift(a: int, c: int)
    ensures (a + 256 * c) % 256 == a % 256
  {
  }

  lemma MiddleByte(x: int, k: int)
    ensures (16 * x + k * TWO32) / 256 % 256 == x / 16 % 256
  {
    ByteShift(x / 16, k * 65536);
    assert (16 * x + k * TWO32) / 256 == x / 16 + 256 * (k * 65536);
  }

  lemma HighByte(x: int, k: int)
    ensures (16 * x + k * TWO32) / 65536 % 256 == x / 4096 % 256
  {
    ByteShift(x / 4096, k * 256);
    assert (16 * x + k * TWO32) / 65536 == x / 4096 + 256 * (k * 256);
  }

  // The shifts `>> 12`, `>> 4` and `<< 4` of the source pick the bytes of the left-aligned sample.
  lemma AlignedBytes(x: int)
    ensures Bytes3(LeftAligned(x)) == [16 * x % 256, x / 16 % 256, x / 4096 % 256]
  {
    var k := Wrap32Residue(16 * x);
    ByteShift(16 * x, k * 0x100_0000);
    MiddleByte(x, k);
    HighByte(x, k);
  }

  method CopyPredictorTo20(input: array<int32>, out: array<byte>, start: nat, stride: nat, n: nat, ghost step: nat)
    requires n <= input.Length && step == 3 * stride && Room(start, step, 3, n, out.Length)
    modifies out
    ensures out[..] == PutAll(old(out[..]), start, step, Mono20(input[..]), n)
  {
    ghost var was, f := out[..], Mono20(input[..]);
    var op := start;
    for j := 0 to n
      invariant op == start + Times(j, step)
      invariant out[..] == PutAll(was, start, step, f, j)
    {
      RoomFor(start, step, 3, n, out.Length, j);
      var val: int := input[j];
      AlignedBytes(val);
      StoreBytes(out, op, val / 4096 % 256, val / 16 % 256, 16 * val % 256);
      op := op + stride * 3;
    }
  }

  method StoreBytes(out: array<byte>, op: nat, high: byte, middle: byte, low: byte)
    requires op + 3 <= out.Length
    modifies out
    ensures out[..] == Put(old(out[..]), op, [low, middle, high])
  {
    out[op + 2] := high;
    out[op + 1] := middle;
    out[op] := low;
  }

  // copyPredictorTo24 with bytesShifted = 0, copyPredictorTo24Shift otherwise.
  method CopyPredictorTo24(input: array<int32>, shift: array<uint16>, out: array<byte>, start: nat, stride: nat,
                           n: nat, bytesShifted: nat, ghost step: nat)
    requires n <= input.Length && step == 3 * stride && Room(start, step, 3, n, out.Length) && bytesShifted <= 2
    requires bytesShifted != 0 ==> n <= shift.Length
    modifies out
    ensures out[..] == PutAll(old(out[..]), start, step, Mono24(input[..], shift[..], bytesShifted), n)
  {
    ghost var was, f := out[..], Mono24(input[..], shift[..], bytesShifted);
    var op := start;
    for j := 0 to n
      invariant op == start + Times(j, step)
      invariant out[..] == PutAll(was, start, step, f, j)
    {
      RoomFor(start, step, 3, n, out.Length, j);
      var val := input[j];
      if bytesShifted != 0 {
        val := Join(val, shift[j], bytesShifted);
      }
      assert f(j) == Bytes3(val);
      Store3(out, op, val);
      op := op + stride * 3;
    }
  }

  // copyPredictorTo32 with bytesShifted = 0, copyPredictorTo32Shift otherwise.
  method CopyPredictorTo32(input: array<int32>, shift: array<uint16>, out: array<int32>, start: nat, stride: nat,
                           n: nat, bytesShifted: nat)
    requires n <= input.Length && Room(start, stride, 1, n, out.Length) && bytesShifted <= 2 && input != out
    requires bytesShifted != 0 ==> n <= shift.Length
    modifies out
    ensures out[..] == PutAll(old(out[..]), start, stride, Mono32(input[..], shift[..], bytesShifted), n)
  {
    ghost var was, f := out[..], Mono32(input[..], shift[..], bytesShifted);
    var op := start;
    for j := 0 to n
      invariant op == start + Times(j, stride)
      invariant out[..] == PutAll(was, start, stride, f, j)
    {
      RoomFor(start, stride, 1, n, out.Length, j);
      var val := input[j];
      if bytesShifted != 0 {
        val := Join(val, shift[j], bytesShifted);
      }
      assert f(j) == [val];
      StoreOne(out, op, val);
      op := op + stride;
    }
  }

  method StoreOne<T>(out: array<T>, op: nat, x: T)
    requires op < out.Length
    modifies out
    ensures out[..] == Put(old(out[..]), op, [x])
  {
    out[op] := x;
  }

  // ---------- every width gives the samples back ----------

  // The channels an encoder hands over for the pair (l, r): the low bits shifted off, the rest mixed.
  ghost predicate MixedPair(u: int32, v: int32, lowL: uint16, lowR: uint16, l: int, r: int, mixbits: nat,
                            mixres: int8, bytesShifted: nat)
  {
    var s := 8 * bytesShifted;
    u == Wrap32(MixU(Shr(l, s), Shr(r, s), mixbits, mixres)) && v == Wrap32(MixV(Shr(l, s), Shr(r, s), mixres)) &&
    (bytesShifted != 0 ==> lowL == Low(l, s) && lowR == Low(r, s))
  }

  lemma {:induction false} ShrShrinks(x: int, s: nat, w: nat)
    requires 1 <= w && Fits(x, w)
    ensures Fits(Shr(x, s), w)
    decreases s
  {
    if s > 0 {
      var m: int := Pow2(w - 1);
      assert -m <= x / 2 < m;
      ShrShrinks(x / 2, s - 1, w);
    }
  }

  lemma UpperBits(x: int32, bytesShifted: nat)
    requires Fits(x, 24) || 1 <= bytesShifted
    ensures Fits(Shr(x, 8 * bytesShifted), 24)
  {
    if !Fits(x, 24) {
      Pow2Values();
      ShiftsAreArithmetic(x, 8);
      ShrShr(x, 8, 8 * bytesShifted - 8);
      ShrShrinks(Shr(x, 8), 8 * bytesShifted - 8, 24);
    } else {
      ShrShrinks(x, 8 * bytesShifted, 24);
    }
  }

  // A pair of up to 24 bits, or of 32 with low bytes shifted off, comes back from its channels.
  lemma PairRestored(u: int32, v: int32, lowL: uint16, lowR: uint16, l: int32, r: int32, mixbits: nat, mixres: int8,
                     bytesShifted: nat)
    requires MixedPair(u, v, lowL, lowR, l, r, mixbits, mixres, bytesShifted)
    requires mixbits < 32 && bytesShifted <= 2
    requires (Fits(l, 24) && Fits(r, 24)) || 1 <= bytesShifted
    ensures Whole(UnmixL(u, v, mixbits, mixres), lowL, bytesShifted) == l
    ensures Whole(UnmixR(u, v, mixbits, mixres), lowR, bytesShifted) == r
  {
    var s := 8 * bytesShifted;
    UpperBits(l, bytesShifted);
    UpperBits(r, bytesShifted);
    ChannelsUnmixed(u, v, Shr(l, s), Shr(r, s), mixbits, mixres);
    SplitRecombines(l, s);
    SplitRecombines(r, s);
  }

  // Slots q to q + |f(j)| of the buffer, read as one frame.
  lemma FrameSlice<T>(s: seq<T>, start: nat, step: nat, f: nat -> seq<T>, width: nat, n: nat, j: nat, q: nat)
    requires width <= step && Room(start, step, width, n, |s|) && j < n && 0 < width
    requires forall a :: |f(a)| == width
    requires q == start + Times(j, step)
    ensures q + width <= |s| && PutAll(s, start, step, f, n)[q..q + width] == f(j)
  {
    RoomFor(start, step, width, n, |s|, j);
    forall i: nat | i < width
      ensures PutAll(s, start, step, f, n)[q + i] == f(j)[i]
    {
      FrameReadBack(s, start, step, f, width, n, j, i, q + i);
    }
  }

  // 16-bit samples come back exactly.
  lemma Restored16(L: seq<int16>, R: seq<int16>, u: seq<int32>, v: seq<int32>, mixbits: nat, mixres: int8,
                   s: seq<int16>, start: nat, stride: nat, n: nat, j: nat, q: nat)
    requires |L| == |R| == |u| == |v| == n && mixbits < 32 && 2 <= stride && Room(start, stride, 2, n, |s|)
    requires j < n && q == start + Times(j, stride)
    requires MixedPair(u[j], v[j], 0, 0, L[j], R[j], mixbits, mixres, 0)
    ensures q + 2 <= |s|
    ensures PutAll(s, start, stride, Frames16(u, v, mixbits, mixres), n)[q..q + 2] == [L[j], R[j]]
  {
    ShortFits(L[j]);
    ShortFits(R[j]);
    PairRestored(u[j], v[j], 0, 0, L[j], R[j], mixbits, mixres, 0);
    FrameSlice(s, start, stride, Frames16(u, v, mixbits, mixres), 2, n, j, q);
  }

  lemma ShortFits(x: int16)
    ensures Fits(x, 16) && Fits(x, 17) && Fits(x, 24) && Wrap16(x) == x
  {
    Pow2Values();
  }

  // The pair of 24-bit samples a frame of six bytes stands for.
  function Samples24(b: seq<byte>): (int, int)
    requires |b| == 6
  {
    (Sample24(b[..3]), Sample24(b[3..]))
  }

  lemma Samples24Back(l: int, r: int)
    requires Fits(l, 24) && Fits(r, 24)
    ensures Samples24(Bytes3(l) + Bytes3(r)) == (l, r)
  {
    Pow2Values();
    Sample24Back(l);
    Sample24Back(r);
    var b := Bytes3(l) + Bytes3(r);
    assert b[..3] == Bytes3(l) && b[3..] == Bytes3(r);
  }

  lemma Aligned20(x: int)
    requires Fits(x, 20)
    ensures LeftAligned(x) == 16 * x && Fits(16 * x, 24) && Fits(x, 24)
  {
    Pow2Values();
  }

  // 20-bit samples come back in the top 20 bits of their three bytes.
  lemma Restored20(L: seq<int>, R: seq<int>, u: seq<int32>, v: seq<int32>, mixbits: nat, mixres: int8,
                   s: seq<byte>, start: nat, step: nat, n: nat, j: nat, q: nat)
    requires |L| == |R| == |u| == |v| == n && mixbits < 32 && 6 <= step && Room(start, step, 6, n, |s|)
    requires j < n && Fits(L[j], 20) && Fits(R[j], 20) && q == start + Times(j, step)
    requires MixedPair(u[j], v[j], 0, 0, L[j], R[j], mixbits, mixres, 0)
    ensures q + 6 <= |s|
    ensures Samples24(PutAll(s, start, step, Frames20(u, v, mixbits, mixres), n)[q..q + 6]) == (16 * L[j], 16 * R[j])
  {
    Aligned20(L[j]);
    Aligned20(R[j]);
    PairRestored(u[j], v[j], 0, 0, L[j], R[j], mixbits, mixres, 0);
    FrameSlice(s, start, step, Frames20(u, v, mixbits, mixres), 6, n, j, q);
    Samples24Back(16 * L[j], 16 * R[j]);
  }

  lemma Frame24Back(u: int32, v: int32, lowL: uint16, lowR: uint16, l: int32, r: int32, mixbits: nat, mixres: int8,
                    bytesShifted: nat)
    requires MixedPair(u, v, lowL, lowR, l, r, mixbits, mixres, bytesShifted) && mixbits < 32 && bytesShifted <= 2
    requires Fits(l, 24) && Fits(r, 24)
    ensures Samples24(Frame24(u, v, mixbits, mixres, lowL, lowR, bytesShifted)) == (l, r)
  {
    PairRestored(u, v, lowL, lowR, l, r, mixbits, mixres, bytesShifted);
    Samples24Back(l, r);
  }

  // 24-bit samples come back whole, with 0, 8 or 16 low bits shifted off.
  lemma Restored24(L: seq<int32>, R: seq<int32>, u: seq<int32>, v: seq<int32>, low: seq<uint16>, mixbits: nat,
                   mixres: int8, bytesShifted: nat, s: seq<byte>, start: nat, step: nat, n: nat, j: nat, q: nat)
    requires |L| == |R| == |u| == |v| == n && mixbits < 32 && bytesShifted <= 2
    requires 6 <= step && Room(start, step, 6, n, |s|)
    requires j < n && Fits(L[j], 24) && Fits(R[j], 24) && q == start + Times(j, step)
    requires MixedPair(u[j], v[j], At(low, j + j, 0), At(low, j + j + 1, 0), L[j], R[j], mixbits, mixres, bytesShifted)
    ensures q + 6 <= |s|
    ensures Samples24(PutAll(s, start, step, Frames24(u, v, mixbits, mixres, low, bytesShifted), n)[q..q + 6])
            == (L[j], R[j])
  {
    Frame24Back(u[j], v[j], At(low, j + j, 0), At(low, j + j + 1, 0), L[j], R[j], mixbits, mixres, bytesShifted);
    var f := Frames24(u, v, mixbits, mixres, low, bytesShifted);
    Slice24(s, start, step, f, n, j, q, L[j], R[j]);
  }

  lemma Slice24(s: seq<byte>, start: nat, step: nat, f: nat -> seq<byte>, n: nat, j: nat, q: nat, l: int, r: int)
    requires 6 <= step && Room(start, step, 6, n, |s|) && j < n && q == start + Times(j, step)
    requires (forall a :: |f(a)| == 6) && Samples24(f(j)) == (l, r)
    ensures q + 6 <= |s| && Samples24(PutAll(s, start, step, f, n)[q..q + 6]) == (l, r)
  {
    FrameSlice(s, start, step, f, 6, n, j, q);
  }

  // 32-bit samples come back whole when low bytes are shifted off, when nothing is mixed, or when the mix is
  // not shifted and the shift buffer holds zeros.
  lemma Restored32(L: seq<int32>, R: seq<int32>, u: seq<int32>, v: seq<int32>, low: seq<uint16>, mixbits: nat,
                   mixres: int8, bytesShifted: nat, s: seq<int32>, start: nat, stride: nat, n: nat, j: nat, q: nat)
    requires |L| == |R| == |u| == |v| == n && mixbits < 32 && bytesShifted <= 2
    requires mixres == 0 || 1 <= bytesShifted ||
             (mixbits == 0 && At(low, j + j, 0) == 0 && At(low, j + j + 1, 0) == 0)
    requires 2 <= stride && Room(start, stride, 2, n, |s|) && j < n && q == start + Times(j, stride)
    requires MixedPair(u[j], v[j], At(low, j + j, 0), At(low, j + j + 1, 0), L[j], R[j], mixbits, mixres, bytesShifted)
    ensures q + 2 <= |s|
    ensures PutAll(s, start, stride, Frames32(u, v, mixbits, mixres, low, bytesShifted), n)[q..q + 2] == [L[j], R[j]]
  {
    FrameBack(u[j], v[j], At(low, j + j, 0), At(low, j + j + 1, 0), L[j], R[j], mixbits, mixres, bytesShifted);
    FrameSlice(s, start, stride, Frames32(u, v, mixbits, mixres, low, bytesShifted), 2, n, j, q);
  }

  lemma FrameBack(u: int32, v: int32, lowL: uint16, lowR: uint16, l: int32, r: int32, mixbits: nat, mixres: int8,
                  bytesShifted: nat)
    requires MixedPair(u, v, lowL, lowR, l, r, mixbits, mixres, bytesShifted) && mixbits < 32 && bytesShifted <= 2
    requires mixres == 0 || 1 <= bytesShifted || (mixbits == 0 && lowL == 0 && lowR == 0)
    ensures Frame32(u, v, mixbits, mixres, lowL, lowR, bytesShifted) == [l, r]
  {
    if bytesShifted != 0 {
      PairRestored(u, v, lowL, lowR, l, r, mixbits, mixres, bytesShifted);
    } else if mixres != 0 {
      UnshiftedBack(l, r, mixres);
      NothingOred(l);
      NothingOred(r);
    }
  }

  lemma NothingOred(h: int32)
    ensures Recombine(h, 0, 0) == h
  {
  }

  // A single channel comes back in the same way: 20 bits in the top of three bytes, and 24 or 32 bits with the low
  // bytes of a sample, if any were shifted off, put back below the rest.
  lemma MonoRestored20(L: seq<int32>, x: int, s: seq<byte>, start: nat, step: nat, n: nat, j: nat, q: nat)
    requires |L| == n && 3 <= step && Room(start, step, 3, n, |s|) && j < n && x == L[j] && Fits(x, 20)
    requires q == start + Times(j, step)
    ensures q + 3 <= |s| && Sample24(PutAll(s, start, step, Mono20(L), n)[q..q + 3]) == 16 * x
  {
    Aligned20(x);
    FrameSlice(s, start, step, Mono20(L), 3, n, j, q);
    Fits24(16 * x);
    Sample24Back(16 * x);
  }

  lemma Fits24(x: int)
    requires Fits(x, 24)
    ensures -0x80_0000 <= x < 0x80_0000
  {
    Pow2Values();
  }

  // u is the sample l less its low bytes, which low holds.
  ghost predicate Lowered(l: int32, u: int32, low: uint16, bytesShifted: nat) {
    u == Shr(l, 8 * bytesShifted) && (bytesShifted != 0 ==> low == Low(l, 8 * bytesShifted))
  }

  lemma WholeAgain(l: int32, u: int32, low: uint16, bytesShifted: nat)
    requires Lowered(l, u, low, bytesShifted) && bytesShifted <= 2
    ensures Whole(u, low, bytesShifted) == l
  {
    if bytesShifted != 0 {
      SplitRecombines(l, 8 * bytesShifted);
    }
  }

  lemma MonoRestored24(L: seq<int32>, u: seq<int32>, low: seq<uint16>, bytesShifted: nat, s: seq<byte>, start: nat,
                       step: nat, n: nat, j: nat, q: nat)
    requires |L| == |u| == n && bytesShifted <= 2 && 3 <= step && Room(start, step, 3, n, |s|) && j < n
    requires Fits(L[j], 24) && Lowered(L[j], u[j], At(low, j, 0), bytesShifted) && q == start + Times(j, step)
    ensures q + 3 <= |s| && Sample24(PutAll(s, start, step, Mono24(u, low, bytesShifted), n)[q..q + 3]) == L[j]
  {
    WholeAgain(L[j], u[j], At(low, j, 0), bytesShifted);
    FrameSlice(s, start, step, Mono24(u, low, bytesShifted), 3, n, j, q);
    Fits24(L[j]);
    Sample24Back(L[j]);
  }

  lemma MonoRestored32(L: seq<int32>, u: seq<int32>, low: seq<uint16>, bytesShifted: nat, s: seq<int32>, start: nat,
                       stride: nat, n: nat, j: nat, q: nat)
    requires |L| == |u| == n && bytesShifted <= 2 && 1 <= stride && Room(start, stride, 1, n, |s|) && j < n
    requires Lowered(L[j], u[j], At(low, j, 0), bytesShifted) && q == start + Times(j, stride)
    ensures q < |s| && PutAll(s, start, stride, Mono32(u, low, bytesShifted), n)[q] == L[j]
  {
    WholeAgain(L[j], u[j], At(low, j, 0), bytesShifted);
    FrameReadBack(s, start, stride, Mono32(u, low, bytesShifted), 1, n, j, 0, q);
  }

  // The pair arithmetic alone gives all pairs back, their low bytes aside, exactly under these conditions.
  lemma PairsBackExactly(mixbits: nat, mixres: int8, bytesShifted: nat)
    requires mixbits < 32 && bytesShifted <= 2
    ensures (forall l: int32, r: int32 :: UpperBack(l, r, mixbits, mixres, bytesShifted))
            <==> mixres == 0 || mixbits == 0 || 1 <= bytesShifted
  {
    if 1 <= bytesShifted {
      forall l: int32, r: int32
        ensures UpperBack(l, r, mixbits, mixres, bytesShifted)
      {
        UpperBits(l, bytesShifted);
        UpperBits(r, bytesShifted);
        UnmixInvertsMix(Shr(l, 8 * bytesShifted), Shr(r, 8 * bytesShifted), 24, mixbits, mixres);
      }
    } else {
      BackExactly(mixbits, mixres);
      assert forall l: int32, r: int32 :: UpperBack(l, r, mixbits, mixres, 0) <==> Back(l, r, mixbits, mixres);
    }
  }

  // Are the bits above the low bytes of both samples those un-mixed?
  predicate UpperBack(l: int32, r: int32, mixbits: nat, mixres: int8, bytesShifted: nat) {
    Back(Shr(l, 8 * bytesShifted), Shr(r, 8 * bytesShifted), mixbits, mixres)
  }

  // Is every pair of 32-bit samples stored whole, given these low bytes?
  ghost predicate AllStored(lowL: uint16, lowR: uint16, mixbits: nat, mixres: int8, bytesShifted: nat) {
    forall u: int32, v: int32, l: int32, r: int32 ::
      MixedPair(u, v, lowL, lowR, l, r, mixbits, mixres, bytesShifted) ==>
        Frame32(u, v, mixbits, mixres, lowL, lowR, bytesShifted) == [l, r]
  }

  // With mixing and no shifted-off bytes, the 32-bit routine ors in whatever the shift buffer holds.
  lemma StrayLowBytes(lowL: uint16, lowR: uint16, mixbits: nat, mixres: int8)
    requires mixres != 0 && mixbits < 32 && (lowL != 0 || lowR != 0)
    ensures !AllStored(lowL, lowR, mixbits, mixres, 0)
  {
    UnmixInvertsMix(0, 0, 24, mixbits, mixres);
    var u, v := Wrap32(MixU(0, 0, mixbits, mixres)), Wrap32(MixV(0, 0, mixres));
    assert MixedPair(u, v, lowL, lowR, 0, 0, mixbits, mixres, 0);
    assert Recombine(0, lowL, 0) == lowL && Recombine(0, lowR, 0) == lowR;
  }

  lemma MixLost(mixbits: nat, mixres: int8)
    requires mixres != 0 && 1 <= mixbits < 32
    ensures !AllStored(0, 0, mixbits, mixres, 0)
  {
    var l, r := ShiftedLost(mixbits, mixres);
    var u, v := Wrap32(MixU(l, r, mixbits, mixres)), Wrap32(MixV(l, r, mixres));
    assert MixedPair(u, v, 0, 0, l, r, mixbits, mixres, 0);
    NothingOred(UnmixL(u, v, mixbits, mixres));
    NothingOred(UnmixR(u, v, mixbits, mixres));
  }

  // The 32-bit routine stores every pair whole exactly when nothing is mixed, or low bytes are shifted off, or
  // the mix is not shifted and the shift buffer holds zeros.
  lemma StoredExactly(lowL: uint16, lowR: uint16, mixbits: nat, mixres: int8, bytesShifted: nat)
    requires mixbits < 32 && bytesShifted <= 2
    ensures AllStored(lowL, lowR, mixbits, mixres, bytesShifted)
            <==> mixres == 0 || 1 <= bytesShifted || (mixbits == 0 && lowL == 0 && lowR == 0)
  {
    if mixres == 0 || 1 <= bytesShifted || (mixbits == 0 && lowL == 0 && lowR == 0) {
      forall u: int32, v: int32, l: int32, r: int32
        | MixedPair(u, v, lowL, lowR, l, r, mixbits, mixres, bytesShifted)
        ensures Frame32(u, v, mixbits, mixres, lowL, lowR, bytesShifted) == [l, r]
      {
        FrameBack(u, v, lowL, lowR, l, r, mixbits, mixres, bytesShifted);
      }
    } else if lowL != 0 || lowR != 0 {
      StrayLowBytes(lowL, lowR, mixbits, mixres);
    } else {
      MixLost(mixbits, mixres);
    }
  }

  // So for every shift buffer, exactly when nothing is mixed or low bytes are shifted off.
  lemma StoredForEveryBuffer(mixbits: nat, mixres: int8, bytesShifted: nat)
    requires mixbits < 32 && bytesShifted <= 2
    ensures (forall lowL: uint16, lowR: uint16 :: AllStored(lowL, lowR, mixbits, mixres, bytesShifted))
            <==> mixres == 0 || 1 <= bytesShifted
  {
    forall lowL: uint16, lowR: uint16
      ensures AllStored(lowL, lowR, mixbits, mixres, bytesShifted)
              <==> mixres == 0 || 1 <= bytesShifted || (mixbits == 0 && lowL == 0 && lowR == 0)
    {
      StoredExactly(lowL, lowR, mixbits, mixres, bytesShifted);
    }
    var one: uint16 := 1;
    assert AllStored(one, one, mixbits, mixres, bytesShifted) <==> mixres == 0 || 1 <= bytesShifted;
  }
}
