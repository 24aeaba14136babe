/**
 A block of residuals: the decoder dyn_decomp, the function of the bit stream it computes, the
 encoder it inverts, and the round trip between the two.
 */
module GolombBlock {
  import opened Words
  import opened BitStream
  import opened AdaptiveGolomb
  import opened GolombCodes
  import opened AdaptiveBlocks
  import opened GolombFormat

  const PARAM_ERROR: int := -50
  const NO_ERR: int := 0

  // The least significant bit of a code is the sign; 32-bit unsigned arithmetic.
  function Unzig(ndecode: uint32): int32 {
    var h := U32(ndecode + 1) / 2;
    if ndecode % 2 == 1 then -h else h
  }

  function Zig(v: int): nat {
    if v < 0 then -v - v - 1 else v + v
  }

  lemma QuietSmall(mb: nat)
    requires mb <= MEAN_LIMIT
    ensures Quiet(mb) <==> mb < 128
  {
  }

  // ---------- reading ----------

  function ReadSample(P: AgParams, s: seq<byte>, maxSize: nat, mb: Mean, zmode: nat, p: nat): Sample
    requires P.Valid()
  {
    var k := SampleBits(P, mb);
    var sym := SampleCode(s, p, Pow2(k) - 1, k, maxSize);
    var z := if zmode == 0 then 0 else 1;
    MeanBounded(P, mb, sym.value, z);
    Sample(Unzig(U32(sym.value + z)), NextMean(P, mb, sym.value, z), sym.next)
  }

  function ReadRun(P: AgParams, s: seq<byte>, mb: QuietMean, p: nat): Symbol
    requires P.Valid()
  {
    var kz := RunBits(mb);
    RunCode(s, p, RunModulus(P, kz), kz, MAX_DATATYPE_BITS_16)
  }

  ghost function ReaderOf(P: AgParams, s: seq<byte>, maxSize: nat): Reader
    requires P.Valid()
  {
    Reader((mb: Mean, zmode: nat, p: nat) => ReadSample(P, s, maxSize, mb, zmode, p),
           (mb: QuietMean, p: nat) => ReadRun(P, s, mb, p))
  }

  // The block of `left` samples at p, from the initial mean.
  ghost function Decode(P: AgParams, s: seq<byte>, limit: nat, p: nat, left: nat, maxSize: nat): Decoded
    requires P.Valid()
  {
    DecodeWith(ReaderOf(P, s, maxSize), limit, P.mb0, 0, p, left)
  }

  // Does decoding a block come to an escape whose load is shifted out whole?
  ghost predicate Escapes(P: AgParams, s: seq<byte>, limit: nat, p: nat, left: nat, maxSize: nat)
    requires P.Valid()
  {
    Reaches(ReaderOf(P, s, maxSize), Escaping(s, maxSize), limit, P.mb0, 0, p, left)
  }

  ghost function Escaping(s: seq<byte>, maxSize: nat): nat -> bool {
    (p: nat) => BadEscape(s, p, maxSize)
  }

  // ---------- writing ----------

  // The code value of v: what is left of its zigzag number after the mode is taken off.
  function CodeValue(zmode: nat, v: int): nat {
    var z := if zmode == 0 then 0 else 1;
    if Zig(v) >= z then Zig(v) - z else 0
  }

  lemma WidthModulus(k: nat)
    requires k >= 1
    ensures Pow2(k) - 1 >= 1
  {
  }

  ghost function WriteSample(P: AgParams, maxSize: nat, mb: Mean, zmode: nat, v: int): seq<bit>
    requires P.Valid()
  {
    var k := SampleWidth(P.kb, mb, 1);
    WidthIs(P, mb);
    WidthModulus(k);
    Code(CodeValue(zmode, v), Pow2(k) - 1, k, maxSize)
  }

  ghost function MeanAfter(P: AgParams, mb: Mean, zmode: nat, v: int): Mean
    requires P.Valid()
  {
    var z := if zmode == 0 then 0 else 1;
    MeanIs(P, mb, CodeValue(zmode, v), z);
    MeanBehind(P.pb, mb, CodeValue(zmode, v), z)
  }

  // The number of bits of an escaped run.
  const RUN_ESCAPE: nat := 16

  ghost function WriteRun(P: AgParams, mb: QuietMean, run: nat): seq<bit>
    requires P.Valid()
  {
    var k := RunWidth(mb);
    RunWidthIs(mb);
    RunSpanIs(P, k);
    Code(run, RunSpan(P.kb, k), k, RUN_ESCAPE)
  }

  // What a value comes back as: the 32-bit increment of the decoder loses the smallest one.
  function Survivor(v: int): int32 {
    if v == -0x8000_0000 then 0 else Wrap32(v)
  }

  ghost function WriterOf(P: AgParams, maxSize: nat): Writer
    requires P.Valid()
  {
    Writer((mb: Mean, zmode: nat, v: int) => WriteSample(P, maxSize, mb, zmode, v),
           (mb: QuietMean, n: nat) => WriteRun(P, mb, n),
           (mb: Mean, zmode: nat, v: int) => MeanAfter(P, mb, zmode, v),
           v => Survivor(v))
  }

  ghost function Encode(P: AgParams, vals: seq<int>, maxSize: nat): seq<bit>
    requires P.Valid()
  {
    EncodeWith(WriterOf(P, maxSize), P.mb0, 0, vals)
  }

  // ---------- the round trip ----------

  lemma SmallWord(v: int, b: nat)
    requires 1 <= b <= 32 && Fits(v, b)
    ensures -0x8000_0000 <= v < 0x8000_0000
  {
    Pow2Mono(b - 1, 31);
    Pow2Values();
  }

  lemma ZigRange(v: int, b: nat)
    requires b >= 1 && Fits(v, b)
    ensures Zig(v) < Pow2(b)
    ensures Zig(v) == 0 <==> v == 0
  {
  }

  lemma UnzigZig(v: int)
    requires -0x8000_0000 <= v < 0x8000_0000
    ensures Zig(v) < TWO32 && Unzig(Zig(v)) == Survivor(v)
  {
    if v >= 0 {
      assert Zig(v) % 2 == 0;
      assert U32(Zig(v) + 1) == v + v + 1;
    } else {
      assert Zig(v) % 2 == 1;
      assert v > -0x8000_0000 ==> U32(Zig(v) + 1) == -v - v;
    }
  }

  lemma ValueStep(zmode: nat, v: int, n: nat, maxSize: nat)
    requires n + zmode == Zig(v) && 1 <= maxSize <= 32 && Fits(v, maxSize)
    ensures Unzig(U32(n + zmode)) == Survivor(v)
  {
    SmallWord(v, maxSize);
    UnzigZig(v);
  }

  lemma CodeNotEmpty(n: nat, m: nat, k: nat, e: nat)
    requires m >= 1 && k >= 1
    ensures Code(n, m, k, e) != []
  {
    var pre, mod := n / m, n % m;
    assert |CodeOf(n, pre, mod, k, e)| >= 1;
  }

  lemma SampleInverse(P: AgParams, s: seq<byte>, maxSize: nat, mb: Mean, zmode: nat, p: nat, v: int)
    requires P.Valid() && zmode <= 1 && 1 <= maxSize <= 32 && Fits(v, maxSize) && (zmode == 1 ==> v != 0)
    requires Carries(s, p, WriteSample(P, maxSize, mb, zmode, v))
    ensures WriteSample(P, maxSize, mb, zmode, v) != []
    ensures ReadSample(P, s, maxSize, mb, zmode, p)
            == Sample(Survivor(v), MeanAfter(P, mb, zmode, v), p + |WriteSample(P, maxSize, mb, zmode, v)|)
  {
    var n, k := CodeValue(zmode, v), SampleBits(P, mb);
    WidthIs(P, mb);
    var m := Pow2(k) - 1;
    var code := Code(n, m, k, maxSize);
    var q := p + |code|;
    CodeValueFits(zmode, v, maxSize);
    SampleRoundTrip(s, p, n, m, k, maxSize);
    CodeNotEmpty(n, m, k, maxSize);
    FromSymbol(P, s, maxSize, mb, zmode, p, v, n, q, k, m);
  }

  lemma CodeValueFits(zmode: nat, v: int, maxSize: nat)
    requires zmode <= 1 && 1 <= maxSize <= 32 && Fits(v, maxSize) && (zmode == 1 ==> v != 0)
    ensures CodeValue(zmode, v) + zmode == Zig(v) && CodeValue(zmode, v) < Pow2(maxSize)
    ensures Unzig(U32(CodeValue(zmode, v) + zmode)) == Survivor(v)
  {
    ZigRange(v, maxSize);
    ValueStep(zmode, v, CodeValue(zmode, v), maxSize);
  }

  lemma FromSymbol(P: AgParams, s: seq<byte>, maxSize: nat, mb: Mean, zmode: nat, p: nat, v: int, n: nat, q: nat,
                   k: nat, m: nat)
    requires P.Valid() && zmode <= 1 && n == CodeValue(zmode, v) && Unzig(U32(n + zmode)) == Survivor(v)
    requires k == SampleBits(P, mb) && m == Pow2(k) - 1
    requires SampleCode(s, p, m, k, maxSize) == Symbol(n, q)
    ensures ReadSample(P, s, maxSize, mb, zmode, p) == Sample(Survivor(v), MeanAfter(P, mb, zmode, v), q)
  {
    MeanIs(P, mb, n, zmode);
  }

  lemma RunInverse(P: AgParams, s: seq<byte>, mb: QuietMean, p: nat, run: nat)
    requires P.Valid() && run <= RUN_CAP
    requires Carries(s, p, WriteRun(P, mb, run))
    ensures ReadRun(P, s, mb, p) == Symbol(run, p + |WriteRun(P, mb, run)|)
  {
    RunFits(run);
    var kz := RunBits(mb);
    RunWidthIs(mb);
    RunSpanIs(P, kz);
    RunRoundTrip(s, p, run, RunModulus(P, kz), kz, MAX_DATATYPE_BITS_16);
  }

  lemma RunFits(run: nat)
    requires run <= RUN_CAP
    ensures run < Pow2(MAX_DATATYPE_BITS_16)
  {
    Pow2Values();
  }

  ghost function PlacedIn(s: seq<byte>): Placement {
    (p: nat, b: seq<bit>) => Carries(s, p, b)
  }

  lemma StreamsSplit(s: seq<byte>)
    ensures Splits(PlacedIn(s))
  {
    var at := PlacedIn(s);
    forall p: nat, a: seq<bit>, b: seq<bit> | at(p, a + b)
      ensures at(p, a) && at(p + |a|, b)
    {
      CarriesConcat(s, p, a, b);
    }
  }

  // The range of the residuals of a block.
  ghost function RangeOf(maxSize: nat): int -> bool
    requires maxSize >= 1
  {
    v => Fits(v, maxSize)
  }

  lemma SymbolsInverse(P: AgParams, s: seq<byte>, maxSize: nat)
    requires P.Valid() && 1 <= maxSize <= 32
    ensures Inverse(ReaderOf(P, s, maxSize), WriterOf(P, maxSize), PlacedIn(s), RangeOf(maxSize))
  {
    var R, W, at := ReaderOf(P, s, maxSize), WriterOf(P, maxSize), PlacedIn(s);
    forall mb: Mean, z: nat, p: nat, v: int
      | z <= 1 && RangeOf(maxSize)(v) && (z == 1 ==> v != 0) && at(p, W.sample(mb, z, v))
      ensures W.sample(mb, z, v) != []
      ensures R.sample(mb, z, p) == Sample(W.back(v), W.mean(mb, z, v), p + |W.sample(mb, z, v)|)
    {
      SampleInverse(P, s, maxSize, mb, z, p, v);
    }
    forall mb: QuietMean, p: nat, n: nat | n <= RUN_CAP && at(p, W.run(mb, n))
      ensures R.run(mb, p) == Symbol(n, p + |W.run(mb, n)|)
    {
      RunInverse(P, s, mb, p, n);
    }
  }

  function Survivors(vals: seq<int>): (r: seq<int32>)
    ensures |r| == |vals|
  {
    seq(|vals|, (i: nat) requires i < |vals| => Survivor(vals[i]))
  }

  // Does every sample code of a block coded from p on begin before the limit?
  ghost predicate Starts(P: AgParams, limit: nat, p: nat, vals: seq<int>, maxSize: nat)
    requires P.Valid()
  {
    Within(WriterOf(P, maxSize), limit, P.mb0, 0, p, vals)
  }

  // A block that ends by the limit does.
  lemma EndsInTime(P: AgParams, limit: nat, p: nat, vals: seq<int>, maxSize: nat)
    requires P.Valid() && p + |Encode(P, vals, maxSize)| <= limit
    ensures Starts(P, limit, p, vals, maxSize)
  {
    var W := WriterOf(P, maxSize);
    forall mb: Mean, z: nat, v: int
      ensures |W.sample(mb, z, v)| > 0
    {
      var k := SampleWidth(P.kb, mb, 1);
      WidthIs(P, mb);
      CodeNotEmpty(CodeValue(z, v), Pow2(k) - 1, k, maxSize);
    }
    EndsWithin(W, limit, P.mb0, 0, p, vals);
  }

  // The block decoded from its encoding, at any position of any stream that carries it.
  lemma EntropyRoundTrip(P: AgParams, s: seq<byte>, limit: nat, p: nat, vals: seq<int>, maxSize: nat)
    requires P.Valid() && 1 <= maxSize <= 32 && AllFit(vals, maxSize)
    requires Carries(s, p, Encode(P, vals, maxSize)) && Starts(P, limit, p, vals, maxSize)
    ensures Decode(P, s, limit, p, |vals|, maxSize)
            == Decoded(true, Survivors(vals), p + |Encode(P, vals, maxSize)|)
  {
    var W := WriterOf(P, maxSize);
    SymbolsInverse(P, s, maxSize);
    StreamsSplit(s);
    BlockRoundTrip(ReaderOf(P, s, maxSize), W, PlacedIn(s), RangeOf(maxSize), limit, P.mb0, 0, p, vals);
    assert Backs(W, vals) == Survivors(vals);
  }

  // And it is decoded only then.
  lemma DecodedInTime(P: AgParams, s: seq<byte>, limit: nat, p: nat, vals: seq<int>, maxSize: nat)
    requires P.Valid() && 1 <= maxSize <= 32 && AllFit(vals, maxSize)
    requires Carries(s, p, Encode(P, vals, maxSize))
    ensures Decode(P, s, limit, p, |vals|, maxSize).ok <==> Starts(P, limit, p, vals, maxSize)
  {
    if Starts(P, limit, p, vals, maxSize) {
      EntropyRoundTrip(P, s, limit, p, vals, maxSize);
    } else {
      SymbolsInverse(P, s, maxSize);
      StreamsSplit(s);
      CutOff(ReaderOf(P, s, maxSize), WriterOf(P, maxSize), PlacedIn(s), RangeOf(maxSize), limit, P.mb0, 0, p, vals);
    }
  }

  // The block comes back unchanged exactly when it avoids the one value the decoder loses,
  // which only 32-bit residuals can hold.
  lemma SurvivorsExact(vals: seq<int>, maxSize: nat)
    requires 1 <= maxSize <= 32 && AllFit(vals, maxSize)
    ensures Survivors(vals) == vals <==> -0x8000_0000 !in vals
    ensures maxSize < 32 ==> Survivors(vals) == vals
  {
    forall i | 0 <= i < |vals|
      ensures vals[i] == -0x8000_0000 ==> maxSize == 32
      ensures Survivor(vals[i]) == vals[i] <==> vals[i] != -0x8000_0000
    {
      SurvivorExact(vals[i], maxSize);
    }
    if -0x8000_0000 in vals {
      var i :| 0 <= i < |vals| && vals[i] == -0x8000_0000;
      assert Survivors(vals)[i] != vals[i];
    }
  }

  lemma Pow2Thirty()
    ensures Pow2(30) == 0x4000_0000
  {
    Pow2Values();
    assert Pow2(31) == 2 * Pow2(30);
  }

  lemma SurvivorExact(v: int, b: nat)
    requires 1 <= b <= 32 && Fits(v, b)
    ensures v == -0x8000_0000 ==> b == 32
    ensures Survivor(v) == v <==> v != -0x8000_0000
  {
    SmallWord(v, b);
    if b < 32 {
      Pow2Mono(b - 1, 30);
      Pow2Thirty();
    }
  }

  // Decoding gives the block itself exactly when it avoids that value.
  lemma DecodedExactly(P: AgParams, s: seq<byte>, limit: nat, p: nat, vals: seq<int>, maxSize: nat)
    requires P.Valid() && 1 <= maxSize <= 32 && AllFit(vals, maxSize)
    requires Carries(s, p, Encode(P, vals, maxSize)) && Starts(P, limit, p, vals, maxSize)
    ensures Decode(P, s, limit, p, |vals|, maxSize).ok
    ensures Decode(P, s, limit, p, |vals|, maxSize).vals == vals <==> -0x8000_0000 !in vals
  {
    EntropyRoundTrip(P, s, limit, p, vals, maxSize);
    SurvivorsExact(vals, maxSize);
  }

  lemma SmallestSurvivor(block: seq<int>, width: nat)
    requires block == [-0x8000_0000] && width == 32
    ensures AllFit(block, width) && Survivors(block) == [0]
  {
    Pow2Values();
  }

  // A stream of one such value is decoded to zero, whatever the parameters and the bytes that follow.
  lemma SmallestResidualLost(P: AgParams, tail: seq<byte>, block: seq<int>, width: nat, code: seq<bit>, limit: nat)
    requires P.Valid() && block == [-0x8000_0000] && width == 32 && code == Encode(P, block, width)
    requires |code| <= limit
    ensures Decode(P, Pack(code) + tail, limit, 0, |block|, width) == Decoded(true, [0], |code|)
  {
    PackCarries(code, tail);
    SmallestSurvivor(block, width);
    EndsInTime(P, limit, 0, block, width);
    EntropyRoundTrip(P, Pack(code) + tail, limit, 0, block, width);
  }
}
