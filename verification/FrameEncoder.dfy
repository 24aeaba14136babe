/**
 The frames an encoder makes, as bit strings, and whole-frame losslessness: what Decode makes of them.
 */
module FrameEncoder {
  import opened Words
  import opened BitStream
  import opened AdaptiveGolomb
  import opened AdaptiveBlocks
  import GolombBlock
  import opened Predictor
  import opened Matrix
  import opened Unmixing
  import opened FrameFormat

  // ---------- fields ----------

  // The first field of a carried bit string, and the rest of it.
  lemma Peel(s: seq<byte>, p: nat, v: nat, n: nat, rest: seq<bit>, q: nat)
    requires q == p + n && Carries(s, p, ToBits(v, n) + rest) && v < Pow2(n)
    ensures Bits(s, p, n) == v && Carries(s, q, rest)
  {
    CarriesConcat(s, p, ToBits(v, n), rest);
    CarriesValue(s, p, v, n);
  }

  lemma Split(s: seq<byte>, p: nat, a: seq<bit>, rest: seq<bit>, q: nat)
    requires q == p + |a| && Carries(s, p, a + rest)
    ensures Carries(s, p, a) && Carries(s, q, rest)
  {
    CarriesConcat(s, p, a, rest);
  }

  lemma FieldPowers()
    ensures Pow2(1) == 2 && Pow2(2) == 4 && Pow2(3) == 8 && Pow2(4) == 16 && Pow2(5) == 32 && Pow2(8) == 256
    ensures Pow2(12) == 4096 && Pow2(16) == 0x1_0000 && Pow2(32) == TWO32
  {
    Pow2Values();
    assert Pow2(8) == 256;
    assert Pow2(12) == 16 * Pow2(8);
  }

  // ---------- headers ----------

  // The tags of the elements an encoder writes.
  const SINGLE_TAG: nat := 0
  const PAIR_TAG: nat := 1
  const LFE_TAG: nat := 3
  const DATA_TAG: nat := 4
  const FILL_TAG: nat := 6

  function CountBits(partial: bool, n: nat): (b: seq<bit>)
    ensures |b| == if partial then 32 else 0
  {
    if partial then ToBits(n, 32) else []
  }

  // Instance tag, unused bits, partial flag, bytes shifted off, escape flag, count.
  function HeaderBits(instance: nat, partial: bool, shifted: nat, escape: nat, n: nat): (b: seq<bit>)
    ensures |b| == if partial then 52 else 20
  {
    ToBits(instance, 4) + (ToBits(0, 12) + (ToBits(if partial then 1 else 0, 1) + (ToBits(shifted, 2) +
    (ToBits(escape, 1) + CountBits(partial, n)))))
  }

  lemma FlagsRead(s: seq<byte>, p: nat, flag: nat, shifted: nat, escape: nat, rest: seq<bit>, p1: nat, p2: nat,
                  p3: nat)
    requires flag < 2 && shifted < 4 && escape < 2 && p1 == p + 1 && p2 == p1 + 2 && p3 == p2 + 1
    requires Carries(s, p, ToBits(flag, 1) + (ToBits(shifted, 2) + (ToBits(escape, 1) + rest)))
    ensures Bits(s, p, 1) == flag && Bits(s, p1, 2) == shifted && Bits(s, p2, 1) == escape && Carries(s, p3, rest)
  {
    FieldPowers();
    Peel(s, p, flag, 1, ToBits(shifted, 2) + (ToBits(escape, 1) + rest), p1);
    Peel(s, p1, shifted, 2, ToBits(escape, 1) + rest, p2);
    Peel(s, p2, escape, 1, rest, p3);
  }

  lemma HeaderFields(s: seq<byte>, p: nat, instance: nat, partial: bool, shifted: nat, escape: nat, n: nat,
                     p1: nat, p2: nat, p3: nat, p4: nat, p5: nat)
    requires instance < 16 && shifted < 4 && escape < 2 && n < TWO32
    requires p1 == p + 4 && p2 == p1 + 12 && p3 == p2 + 1 && p4 == p3 + 2 && p5 == p4 + 1
    requires Carries(s, p, HeaderBits(instance, partial, shifted, escape, n))
    ensures Bits(s, p1, 12) == 0 && Bits(s, p2, 1) == (if partial then 1 else 0) && Bits(s, p3, 2) == shifted
    ensures Bits(s, p4, 1) == escape && (partial ==> Bits(s, p5, 32) == n)
  {
    var flag := if partial then 1 else 0;
    var rest := CountBits(partial, n);
    var flags := ToBits(flag, 1) + (ToBits(shifted, 2) + (ToBits(escape, 1) + rest));
    HeadFields(instance, n);
    Peel(s, p, instance, 4, ToBits(0, 12) + flags, p1);
    Peel(s, p1, 0, 12, flags, p2);
    FlagsRead(s, p2, flag, shifted, escape, rest, p3, p4, p5);
    if partial {
      CarriesValue(s, p5, n, 32);
    }
  }

  lemma HeaderRead(s: seq<byte>, p: nat, instance: nat, partial: bool, shifted: nat, escape: nat, n: nat, count: nat,
                   q: nat)
    requires instance < 16 && shifted < 4 && escape < 2 && n < TWO32
    requires q == p + |HeaderBits(instance, partial, shifted, escape, n)| && (partial || n == count)
    requires Carries(s, p, HeaderBits(instance, partial, shifted, escape, n))
    ensures ReadHeader(s, p, count) == Header(0, shifted, escape, n, q)
  {
    var p1, p2, p3, p4, p5 := p + 4, p + 16, p + 17, p + 19, p + 20;
    HeaderFields(s, p, instance, partial, shifted, escape, n, p1, p2, p3, p4, p5);
    HeaderParts(s, p, count, p1, p2, p3, p4, p5, ReadHeader(s, p, count));
  }

  lemma HeadFields(instance: nat, n: nat)
    requires instance < 16 && n < TWO32
    ensures instance < Pow2(4) && 0 < Pow2(12) && n < Pow2(32)
  {
    FieldPowers();
  }

  // ---------- channel parameters ----------

  function Unsigned16(x: int16): nat {
    x % 0x1_0000
  }

  function CoefBits(coefs: seq<int16>): (b: seq<bit>)
    ensures |b| == 16 * |coefs|
  {
    if coefs == [] then [] else ToBits(Unsigned16(coefs[0]), 16) + CoefBits(coefs[1..])
  }

  function ParamsBits(P: Params): (b: seq<bit>)
    ensures |b| == 16 + 16 * |P.coefs|
  {
    ToBits(P.mode, 4) + (ToBits(P.den, 4) + (ToBits(P.pbFactor, 3) + (ToBits(|P.coefs|, 5) + CoefBits(P.coefs))))
  }

  lemma ShortRange(x: int16)
    ensures Unsigned16(x) < Pow2(16) && Wrap16(Unsigned16(x)) == x
  {
    FieldPowers();
  }

  lemma {:induction false} CoefsRead(s: seq<byte>, p: nat, coefs: seq<int16>)
    requires Carries(s, p, CoefBits(coefs))
    ensures ReadCoefs(s, p, |coefs|) == coefs
    decreases |coefs|
  {
    if coefs != [] {
      var x, q, rest := Unsigned16(coefs[0]), p + 16, coefs[1..];
      ShortRange(coefs[0]);
      Peel(s, p, x, 16, CoefBits(rest), q);
      CoefsRead(s, q, rest);
      CoefsForm(s, p, q, |coefs|, |rest|, x, rest, coefs);
    }
  }

  lemma CoefsForm(s: seq<byte>, p: nat, q: nat, n: nat, m: nat, x: nat, rest: seq<int16>, coefs: seq<int16>)
    requires n == m + 1 && q == p + 16 && Bits(s, p, 16) == x && ReadCoefs(s, q, m) == rest
    requires coefs == [Wrap16(x)] + rest
    ensures ReadCoefs(s, p, n) == coefs
  {
  }

  lemma SettingsFit(P: Params)
    requires P.mode < 16
    ensures P.mode < Pow2(4) && P.den < Pow2(4) && P.pbFactor < Pow2(3) && |P.coefs| < Pow2(5)
  {
    FieldPowers();
  }

  lemma ParamsFields(s: seq<byte>, p: nat, P: Params, p1: nat, p2: nat, p3: nat, p4: nat)
    requires P.mode < 16 && p1 == p + 4 && p2 == p1 + 4 && p3 == p2 + 3 && p4 == p3 + 5
    requires Carries(s, p, ParamsBits(P))
    ensures Bits(s, p, 4) == P.mode && Bits(s, p1, 4) == P.den && Bits(s, p2, 3) == P.pbFactor
    ensures Bits(s, p3, 5) == |P.coefs| && Carries(s, p4, CoefBits(P.coefs))
  {
    var coefs := CoefBits(P.coefs);
    var third := ToBits(|P.coefs|, 5) + coefs;
    var second := ToBits(P.pbFactor, 3) + third;
    SettingsFit(P);
    Peel(s, p, P.mode, 4, ToBits(P.den, 4) + second, p1);
    Peel(s, p1, P.den, 4, second, p2);
    Peel(s, p2, P.pbFactor, 3, third, p3);
    Peel(s, p3, |P.coefs|, 5, coefs, p4);
  }

  lemma ParamsRead(s: seq<byte>, p: nat, P: Params, q: nat)
    requires P.mode < 16 && q == p + |ParamsBits(P)| && Carries(s, p, ParamsBits(P))
    ensures ReadParams(s, p) == (P, q)
  {
    var p1, p2, p3, p4 := p + 4, p + 8, p + 11, p + 16;
    ParamsFields(s, p, P, p1, p2, p3, p4);
    CoefsRead(s, p4, P.coefs);
    ParamsForm(s, p, P, p1, p2, p3, p4, |P.coefs|, q);
  }

  // ---------- compressed channels ----------

  // A channel an encoder may choose: a mode of four bits and taps the decoder can use.
  predicate Choice(P: Params, w: Width, n: nat, frameLength: nat) {
    P.mode < 16 && 1 <= w && Usable(P, w, n, frameLength)
  }

  // Taps, width and scale of a channel; a width or scale that is not used is free.
  function ChosenTaps(P: Params, w: Width): Config {
    Config(|P.coefs|, if w == 0 then 1 else w, if P.den == 0 then 1 else P.den)
  }

  // The parameters of its entropy code.
  function ChosenCoder(P: Params): (A: AgParams)
    ensures A.Valid() && A == CoderOf(P.pbFactor)
  {
    assert Pow2(7) == 128;
    assert Pow2(14) == 128 * Pow2(7);
    AgParams(10, 10 * P.pbFactor, 14, 16383)
  }

  // Forward prediction, once or twice.
  ghost function Residuals(P: Params, signal: seq<int32>, w: Width): (r: seq<int32>)
    ensures |r| == |signal|
  {
    ChannelResiduals(ChosenTaps(P, w), P.mode != 0, signal, P.coefs)
  }

  // And the adaptive Golomb code of the residuals.
  ghost function ChannelBits(P: Params, signal: seq<int32>, w: Width): seq<bit> {
    GolombBlock.Encode(ChosenCoder(P), Residuals(P, signal, w), w)
  }

  // Does every sample code of a channel at bit p begin before the entropy decoder's limit?
  ghost predicate InTime(I: Input, P: Params, signal: seq<int32>, w: Width, p: nat) {
    GolombBlock.Starts(ChosenCoder(P), EntropyLimit(I, p), p, Residuals(P, signal, w), w)
  }

  lemma LimitReaches(I: Input, p: nat, q: nat)
    requires I.byteSize <= I.end && 8 * (I.end - I.byteSize) <= p && 8 * I.byteSize < TWO32 && q <= 8 * I.end
    ensures q <= EntropyLimit(I, p)
  {
  }

  // It does in a buffer whose size in bits fits in 32 of them: the limit lies past everything in the buffer.
  lemma SmallBuffersInTime(I: Input, P: Params, signal: seq<int32>, w: Width, p: nat, q: nat)
    requires I.byteSize <= I.end && 8 * (I.end - I.byteSize) <= p && 8 * I.byteSize < TWO32
    requires q == p + |ChannelBits(P, signal, w)| && q <= 8 * I.end
    ensures InTime(I, P, signal, w, p)
  {
    LimitReaches(I, p, q);
    GolombBlock.EndsInTime(ChosenCoder(P), EntropyLimit(I, p), p, Residuals(P, signal, w), w);
  }

  // A channel of samples does not in a buffer whose size in bits is a multiple of 2^32.
  lemma NeverInTime(I: Input, P: Params, signal: seq<int32>, w: Width, p: nat)
    requires 8 * I.byteSize % TWO32 == 0 && 0 < |signal|
    ensures !InTime(I, P, signal, w, p)
  {
    var residuals := Residuals(P, signal, w);
    assert EntropyLimit(I, p) <= p;
    assert 0 < |residuals|;
  }

  // A channel with bits to its samples has no escape that shifts its load out.
  lemma {:induction false} NeverEscapes(R: Reader, kind: nat -> bool, limit: nat, mb: Mean, zmode: nat, p: nat,
                                        left: nat)
    requires forall q: nat :: !kind(q)
    ensures !Reaches(R, kind, limit, mb, zmode, p, left)
    decreases left
  {
    if left > 0 && p < limit {
      var x := R.sample(mb, zmode, p);
      if x.mean < 128 && left > 1 {
        var run := R.run(x.mean, x.next);
        if run.value <= left - 1 {
          NeverEscapes(R, kind, limit, 0, RunMode(run.value), run.next, left - 1 - run.value);
        }
      } else {
        NeverEscapes(R, kind, limit, x.mean, 0, x.next, left - 1);
      }
    }
  }

  lemma NoEscapes(A: AgParams, s: seq<byte>, limit: nat, p: nat, n: nat, w: nat)
    requires A.Valid() && w >= 1
    ensures !GolombBlock.Escapes(A, s, limit, p, n, w)
  {
    NeverEscapes(GolombBlock.ReaderOf(A, s, w), GolombBlock.Escaping(s, w), limit, A.mb0, 0, p, n);
  }

  // A carried channel is read back as the signal, to the bit behind it, if its codes begin in time; else it is
  // refused.
  lemma ChannelRead(I: Input, p: nat, P: Params, signal: seq<int32>, w: Width, frameLength: nat, q: nat)
    requires Choice(P, w, |signal|, frameLength) && w < 32 && AllFit(signal, w) && |signal| <= frameLength
    requires q == p + |ChannelBits(P, signal, w)| && q <= 8 * I.end && Carries(I.s, p, ChannelBits(P, signal, w))
    ensures var c := ChannelAt(ReaderOf(I, frameLength), p, |signal|, P, w);
            if InTime(I, P, signal, w, p) then c == Restored(signal, q) else c.Broken?
  {
    var A, C, n := ChosenCoder(P), ChosenTaps(P, w), |signal|;
    var residuals := Residuals(P, signal, w);
    var limit := EntropyLimit(I, p);
    var d := GolombBlock.Decode(A, I.s, limit, p, n, w);
    ChannelInversion(C, P.mode != 0, signal, P.coefs);
    BlockRead(A, I.s, limit, p, residuals, w, q);
    NoEscapes(A, I.s, limit, p, n, w);
    ReaderForm(I, frameLength, ReaderOf(I, frameLength), p, n, P, w, A, limit, d, false);
    ReadForm(d, residuals, signal, q, I.end, P, w, frameLength);
  }

  lemma ReadForm(d: Decoded, residuals: seq<int32>, signal: seq<int32>, q: nat, end: nat, P: Params, w: Width,
                 frameLength: nat)
    requires |residuals| == |signal| <= frameLength && |d.vals| <= |signal| && q <= 8 * end
    requires d.ok ==> d == Decoded(true, residuals, q)
    requires Usable(P, w, |signal|, frameLength) && Channel(Taps(P, w), P.mode != 0, residuals, P.coefs) == signal
    ensures var c := ChannelOf(d, false, end, P, w, frameLength);
            if d.ok then c == Restored(signal, q) else c.Broken?
  {
  }

  lemma BlockRead(A: AgParams, s: seq<byte>, limit: nat, p: nat, residuals: seq<int32>, w: Width, q: nat)
    requires A.Valid() && 1 <= w < 32 && AllFit(residuals, w)
    requires q == p + |GolombBlock.Encode(A, residuals, w)| && Carries(s, p, GolombBlock.Encode(A, residuals, w))
    ensures var d := GolombBlock.Decode(A, s, limit, p, |residuals|, w);
            && (d.ok <==> GolombBlock.Starts(A, limit, p, residuals, w)) && |d.vals| <= |residuals|
            && (d.ok ==> d == Decoded(true, residuals, q))
  {
    GolombBlock.DecodedInTime(A, s, limit, p, residuals, w);
    if GolombBlock.Starts(A, limit, p, residuals, w) {
      GolombBlock.EntropyRoundTrip(A, s, limit, p, residuals, w);
      GolombBlock.SurvivorsExact(residuals, w);
    }
  }

  // ---------- bytes shifted off ----------

  // What is left of a sample when its low bytes are shifted off.
  function Upper(x: int16, shifted: nat): int16 {
    ShortStays(x, 8 * shifted);
    Shr(x, 8 * shifted)
  }

  lemma {:induction false} ShortStays(x: int, n: nat)
    requires -0x8000 <= x < 0x8000
    ensures -0x8000 <= Shr(x, n) < 0x8000
    decreases n
  {
    if n > 0 {
      ShortStays(x / 2, n - 1);
    }
  }

  function Uppers(X: seq<int16>, shifted: nat): (r: seq<int16>)
    ensures |r| == |X|
  {
    seq(|X|, (j: nat) requires j < |X| => Upper(X[j], shifted))
  }

  // With no byte shifted off all is left.
  lemma NothingShifted(X: seq<int16>)
    ensures Uppers(X, 0) == X
  {
  }

  // The bits shifted off, in w bits each: of a single channel, and of a pair.
  function LowBits(X: seq<int16>, w: nat): (b: seq<bit>)
    ensures |b| == Skip(|X|, w)
  {
    if X == [] then [] else LowBits(X[..|X| - 1], w) + ToBits(Low(X[|X| - 1], w), w)
  }

  function LowPairBits(X: seq<int16>, Y: seq<int16>, w: nat, both: nat): (b: seq<bit>)
    requires |X| == |Y| && both == w + w
    ensures |b| == Skip(|X|, both)
  {
    if X == [] then []
    else
      var n := |X| - 1;
      LowPairBits(X[..n], Y[..n], w, both) + (ToBits(Low(X[n], w), w) + ToBits(Low(Y[n], w), w))
  }

  lemma {:induction false} SkipBound(n: nat, w: nat)
    requires w <= 32
    ensures Skip(n, w) <= 32 * n
  {
    if n > 0 {
      SkipBound(n - 1, w);
    }
  }

  // For the samples of a frame the skip stays in 32 bits.
  lemma ShortSkip(n: nat, w: nat)
    requires w <= 32 && n <= 65536
    ensures Skip32(n, w) == Skip(n, w)
  {
    SkipBound(n, w);
  }

  // ---------- the two channels of a pair ----------

  // The mid channel in the bits the frame has for it, and the side channel.
  function Mid(L: seq<int16>, R: seq<int16>, mixbits: nat, mixres: int8, w: Width): (u: seq<int32>)
    requires |L| == |R| && 1 <= w
    ensures |u| == |L|
  {
    seq(|L|, (j: nat) requires j < |L| => SignExtend(MixU(L[j], R[j], mixbits, mixres), w))
  }

  function Side(L: seq<int16>, R: seq<int16>, mixres: int8): (v: seq<int32>)
    requires |L| == |R|
    ensures |v| == |L|
  {
    seq(|L|, (j: nat) requires j < |L| => SideValue(L[j], R[j], mixres))
  }

  function SideValue(l: int16, r: int16, mixres: int8): int32 {
    MixV(l, r, mixres)
  }

  // In 17 bits every pair can be mixed; in fewer, those whose channels fit.
  ghost predicate Mixable(L: seq<int16>, R: seq<int16>, mixbits: nat, mixres: int8, w: Width)
    requires |L| == |R| && 1 <= w
  {
    w == 17 || forall j :: 0 <= j < |L| ==>
      Fits(MixU(L[j], R[j], mixbits, mixres), w) && Fits(SideValue(L[j], R[j], mixres), w)
  }

  lemma ChannelsFit(L: seq<int16>, R: seq<int16>, mixbits: nat, mixres: int8, w: Width)
    requires |L| == |R| && 1 <= w && Mixable(L, R, mixbits, mixres, w)
    ensures AllFit(Mid(L, R, mixbits, mixres, w), w) && AllFit(Side(L, R, mixres), w)
  {
    forall j | 0 <= j < |L|
      ensures Fits(SideValue(L[j], R[j], mixres), w)
    {
      SideFits(L[j], R[j], mixres);
    }
  }

  lemma SideFits(l: int16, r: int16, mixres: int8)
    ensures Fits(SideValue(l, r, mixres), 17)
  {
    Pow2Values();
  }

  // A value and its reduction to 17 bits are the same modulo 2^17.
  lemma SignExtendResidue(x: int, b: nat, m: int) returns (k: int)
    requires 1 <= b <= 32 && m == Pow2(b)
    ensures SignExtend(x, b) == x + k * m
  {
    var y := x + Pow2(b - 1);
    LowIsMod(y, b, m);
    k := -(y / m);
    Division(y, m);
  }

  lemma Division(y: int, m: int)
    requires m > 0
    ensures y % m == y + -(y / m) * m
  {
    var q := y / m;
    assert y == m * q + y % m;
    assert m * q == q * m;
  }

  lemma Wrap16Shift(x: int, k: int)
    ensures Wrap16(x + k * 0x2_0000) == Wrap16(x)
  {
    assert (x + k * 0x2_0000 + 0x8000) % 0x1_0000 == (x + 0x8000) % 0x1_0000 by {
      assert x + k * 0x2_0000 + 0x8000 == (x + 0x8000) + (2 * k) * 0x1_0000;
    }
  }

  lemma Wrap16Of32(x: int)
    ensures Wrap16(Wrap32(x)) == Wrap16(x)
  {
    var k := Wrap32Residue(x);
    assert x + k * TWO32 == x + (k * 0x8000) * 0x2_0000;
    Wrap16Shift(x, k * 0x8000);
  }

  lemma UnmixForm(u: int32, v: int32, mixbits: nat, mixres: int8, k: int)
    requires mixres != 0 && -0x100_0000 < v < 0x100_0000 && k == Shr(Mul(mixres, v), mixbits)
    ensures UnmixL(u, v, mixbits, mixres) == Wrap32((u as int) + v - k)
    ensures UnmixR(u, v, mixbits, mixres) == Wrap32(Wrap32((u as int) + v - k) - (v as int))
  {
    ProductFits(mixres, v);
  }

  // However far the mid channel is reduced to 17 bits, the 16-bit stores bring both samples back.
  lemma FrameRestored(l: int16, r: int16, mixbits: nat, mixres: int8, u: int32, v: int32)
    requires u == SignExtend(MixU(l, r, mixbits, mixres), 17) && v == SideValue(l, r, mixres)
    ensures Frame16(u, v, mixbits, mixres) == [l, r]
  {
    if mixres != 0 {
      var d := (l as int) - r;
      var k := Shr(Mul(mixres, d), mixbits);
      MixUForm(l, r, mixbits, mixres);
      UnmixForm(u, v, mixbits, mixres, k);
      ReducedMid(l, r, k, u);
    } else {
      ShortFits(l);
      ShortFits(r);
      SignExtendId(l, 17);
    }
  }

  // A mid channel that fits in fewer bits is the one of 17.
  lemma NarrowMid(x: int, w: Width)
    requires 1 <= w <= 17 && Fits(x, w)
    ensures SignExtend(x, w) == SignExtend(x, 17)
  {
    SignExtendId(x, w);
    Pow2Mono(w - 1, 16);
    SignExtendId(x, 17);
  }

  lemma ReducedMid(l: int16, r: int16, k: int, u: int)
    requires u == SignExtend(k + r, 17)
    ensures Wrap16(Wrap32(u + (l - r) - k)) == l
    ensures Wrap16(Wrap32(Wrap32(u + (l - r) - k) - (l - r))) == r
  {
    assert Pow2(17) == 0x2_0000 by { Pow2Values(); }
    var t := SignExtendResidue(k + r, 17, 0x2_0000);
    var x: int, v: int := u + (l - r) - k, l - r;
    assert x == l + t * 0x2_0000;
    Wrap16Of32(x);
    Wrap16Shift(l, t);
    Wrap32Add(x, -v);
    Wrap16Of32(x - v);
    Wrap16Shift(r, t);
    ShortFits(l);
    ShortFits(r);
  }
}
