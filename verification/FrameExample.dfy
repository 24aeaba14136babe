/**
 Concrete frames: one with a count above the frame length that the source refuses without harm, and a packet of
 three bytes that it accepts with samples that are not in it.
 */
module FrameExample {
  import opened Words
  import opened BitStream
  import opened AdaptiveGolomb
  import opened GolombCodes
  import opened AdaptiveBlocks
  import GolombBlock
  import opened FrameFormat
  import opened FrameElements
  import opened FrameEncoder
  import opened FrameLossless
  import opened FrameDetermined
  import opened FramePastEnd

  // ---------- a harmless overlong count ----------

  // A sample of value 0, and a run escaped with the largest length.
  function Breaking(): (b: seq<bit>)
    ensures |b| == 26
  {
    [0] + (OneBits(MAX_PREFIX) + ToBits(0xffff, 16))
  }

  // With the factor 0 the mean stays at its start, so a run follows the first sample.
  lemma BreakingSample(A: AgParams, s: seq<byte>, w: nat, p: nat, mb: Mean)
    requires A == CoderOf(0) && mb == MB0 && Bit(s, p) == 0
    ensures GolombBlock.ReadSample(A, s, w, mb, 0, p) == Sample(0, mb, p + 1)
  {
    FirstBits(A, mb);
    assert Ones(s, p, MAX_PREFIX) == 0;
    TimesZero(0);
    TimesZero(mb);
  }

  lemma FirstBits(A: AgParams, mb: Mean)
    requires A == CoderOf(0) && mb == MB0
    ensures A.pb == 0 && A.mb0 == mb && SampleBits(A, mb) == 1
  {
    assert BitLength(3) == 2;
  }

  lemma {:induction false} TimesZero(x: nat)
    ensures Times(0, x) == 0
  {
  }

  lemma BreakingRun(A: AgParams, s: seq<byte>, mb: QuietMean, p: nat)
    requires A.Valid() && Carries(s, p, OneBits(MAX_PREFIX) + ToBits(0xffff, 16))
    ensures GolombBlock.ReadRun(A, s, mb, p) == Symbol(0xffff, p + 25)
  {
    FieldPowers();
    RunBitsRange(mb);
    ReadEscape(s, p, 0xffff, 16);
  }

  // The block breaks off behind one sample, whatever longer block is asked for.
  lemma BlockBreaks(A: AgParams, s: seq<byte>, limit: nat, p: nat, n: nat, w: nat)
    requires A == CoderOf(0) && Carries(s, p, Breaking()) && p < limit && 1 < n <= 0xffff
    ensures GolombBlock.Decode(A, s, limit, p, n, w) == Decoded(false, [0], p + 26)
  {
    var rest := OneBits(MAX_PREFIX) + ToBits(0xffff, 16);
    CarriesConcat(s, p, [0], rest);
    CarriesAt(s, p, [0], 0);
    FirstBits(A, MB0);
    BreakingSample(A, s, w, p, MB0);
    BreakingRun(A, s, MB0, p + 1);
    BreakStep(GolombBlock.ReaderOf(A, s, w), limit, A.mb0, p, n, Sample(0, MB0, p + 1), Symbol(0xffff, p + 26));
  }

  lemma BreakStep(R: Reader, limit: nat, mb: Mean, p: nat, n: nat, x: Sample, run: Symbol)
    requires p < limit && 1 < n && x == R.sample(mb, 0, p) && x.mean < 128
    requires run == R.run(x.mean, x.next) && run.value > n - 1
    ensures DecodeWith(R, limit, mb, 0, p, n) == Decoded(false, [x.value], run.next)
  {
  }

  // A pair of channels without taps, and the parts of its body.
  function Plain(): (P: Params) {
    Settings(0, 0, 0, [])
  }

  ghost function BreakingCode(): ChannelCode {
    (P: Params, signal: seq<int32>) => Breaking()
  }

  function OverlongFrame(): PairFrame {
    PairFrame(0, true, 0, 0, 0, Plain(), Plain())
  }

  // The first channel is refused, so the second is not looked at and nothing is stored past a buffer.
  lemma ChannelBreaks(I: Input, frameLength: nat, p: nat, n: nat, w: Width)
    requires 0 < frameLength && 1 <= w && 1 < n <= 0xffff && Carries(I.s, p, Breaking())
    requires p < EntropyLimit(I, p)
    ensures ChannelAt(ReaderOf(I, frameLength), p, n, Plain(), w) == Broken(p + 26)
  {
    var A, limit := CoderOf(0), EntropyLimit(I, p);
    BlockBreaks(A, I.s, limit, p, n, w);
    NoEscapes(A, I.s, limit, p, n, w);
    var d := Decoded(false, [0], p + 26);
    ReaderForm(I, frameLength, ReaderOf(I, frameLength), p, n, Plain(), w, A, limit, d, false);
  }

  // The body of such a pair, at p, and what it is found as.
  lemma OverlongFound(I: Input, read: ChannelReader, fl: nat, p: nat, n: nat, M: Marks)
    requires read == ReaderOf(I, fl) && 0 < fl && 1 < n <= 0xffff && 8 * I.byteSize < TWO32
    requires I.byteSize <= I.end && 8 * (I.end - I.byteSize) <= p && M.p6 <= 8 * I.end
    requires Carries(I.s, p, PairBodyBits(OverlongFrame(), [], BreakingCode(), [], []))
    requires Marked(OverlongFrame(), [], Breaking(), Breaking(), p, M)
    ensures PairBody(read, I.s, Header(0, 0, 0, n, p), fl) == Exit(PARAM_ERROR, M.p6)
  {
    var F, code, w := OverlongFrame(), BreakingCode(), PairWidth(0);
    BodyParts(I.s, p, F, [], code, [], [], M, Breaking(), Breaking());
    BothParamsRead(I.s, F, M.p2, M.p3, M.p4);
    LimitReaches(I, M.p5, M.p6);
    ChannelBreaks(I, fl, M.p5, n, w);
    var c := Broken(M.p6);
    OverlongBody(read, I, Header(0, 0, 0, n, p), F, fl, M, n, w, c, ChannelAt(read, c.next, n, Plain(), w));
  }

  // A frame with a count above the frame length that is refused like any other damaged one.
  lemma OverlongHarmless(I: Input, D: Shape, p: nat, n: nat, numSamples: nat, out: seq<int16>, start: nat)
    requires D.channels == 2 && numSamples <= D.frameLength < n <= 0xffff && 0 < D.frameLength
    requires Inside(I, p, PairBits(OverlongFrame(), n, [], BreakingCode(), [], [])) && 8 * I.byteSize < TWO32
    requires start == ChannelStart(OverlongFrame(), n, p)
    ensures DecodeFrame(I, D, p, numSamples, out) == Done(PARAM_ERROR, start + 26, numSamples, out)
  {
    var F, code, read, fl := OverlongFrame(), BreakingCode(), ReaderOf(I, D.frameLength), D.frameLength;
    var p1, p2 := p + 3, p + 55;
    HeadRead(I.s, p, p1, p2, ID_CPE, 0, true, 0, 0, n, numSamples, PairBodyBits(F, [], code, [], []));
    var M := BodyMarks(F, [], code, [], [], p2);
    SkipZero(n);
    MarksOf(F, n, [], code, [], [], p, p2, start, start + 26, p + |PairBits(F, n, [], code, [], [])|, M);
    OverlongFound(I, read, fl, p2, n, M);
    var h, e := Header(0, 0, 0, n, p2), Exit(PARAM_ERROR, start + 26);
    ElementForm(read, I, p1, numSamples, fl, h, e, n);
    RefusedEnds(I, D, p, numSamples, out, ID_CPE, p1, e, n);
  }

  lemma {:induction false} SkipZero(n: nat)
    ensures Skip(n, 0) == 0
  {
    if n > 0 {
      SkipZero(n - 1);
    }
  }

  lemma OverlongBody(read: ChannelReader, I: Input, h: Header, F: PairFrame, fl: nat, M: Marks, n: nat, w: Width,
                     c: ChannelData, d: ChannelData)
    requires F == OverlongFrame() && h == Header(0, 0, 0, n, h.next) && w == PairWidth(0) && n <= 65536
    requires M.p1 == h.next + 8 && M.p2 == M.p1 + 8 && M.p5 == M.p4
    requires Bits(I.s, h.next, 8) == 0 && Bits(I.s, M.p1, 8) == 0
    requires ReadParams(I.s, M.p2) == (F.U, M.p3) && ReadParams(I.s, M.p3) == (F.V, M.p4)
    requires c == ChannelAt(read, M.p5, n, F.U, w) && d == ChannelAt(read, c.next, n, F.V, w) && c.Broken?
    ensures PairBody(read, I.s, h, fl) == Exit(PARAM_ERROR, c.next)
  {
    SkipZero(n);
    BodyForm(read, I.s, h, F, fl, M, n, w, c, d);
  }

  // ---------- three bytes ----------

  // A stereo escape frame whose packet ends behind its header.
  const HEADER: seq<byte> := [0x20, 0x00, 0x02]

  lemma HeaderBit(s: seq<byte>, q: nat, i: nat)
    requires 3 <= |s| && s[..3] == HEADER && q < 23 && i == q / 8
    ensures Bit(s, q) == if q == 2 || q == 22 then 1 else 0
  {
    assert s[i] == s[..3][i];
    ByteBit(s[i], 7 - q % 8);
  }

  lemma ByteBit(x: byte, j: nat)
    requires (x == 0x20 || x == 0 || x == 0x02) && j < 8
    ensures Shr(x, j) % 2 == if (x == 0x20 && j == 5) || (x == 0x02 && j == 1) then 1 else 0
  {
    ShiftsAreArithmetic(x, j);
    SmallShifts();
  }

  lemma SmallShifts()
    ensures Pow2(0) == 1 && Pow2(1) == 2 && Pow2(2) == 4 && Pow2(3) == 8 && Pow2(4) == 16 && Pow2(5) == 32
    ensures Pow2(6) == 64 && Pow2(7) == 128
  {
  }

  // Zeros up to a last bit.
  lemma {:induction false} LastBit(s: seq<byte>, p: nat, n: nat, end: nat)
    requires n >= 1 && end == p + n - 1 && forall q: nat | p <= q < end :: Bit(s, q) == 0
    ensures Bits(s, p, n) == Bit(s, end)
    decreases n
  {
    if n > 1 {
      LastBit(s, p, n - 1, end - 1);
    }
  }

  // A field of the header that ends at bit `end`; only bits 2 and 22 are set.
  lemma FieldOfThree(s: seq<byte>, p: nat, n: nat, end: nat)
    requires 3 <= |s| && s[..3] == HEADER && n >= 1 && end == p + n - 1 < 23
    requires end == 2 || (2 < p && end <= 22)
    ensures Bits(s, p, n) == if end == 2 || end == 22 then 1 else 0
  {
    forall q: nat | p <= q <= end
      ensures Bit(s, q) == if q == 2 || q == 22 then 1 else 0
    {
      HeaderBit(s, q, q / 8);
    }
    LastBit(s, p, n, end);
  }

  lemma HeaderFrom(s: seq<byte>, p: nat, count: nat, p1: nat, p2: nat, p3: nat, p4: nat, p5: nat)
    requires p1 == p + 4 && p2 == p + 16 && p3 == p + 17 && p4 == p + 19 && p5 == p + 20
    requires Bits(s, p1, 12) == 0 && Bits(s, p2, 1) == 0 && Bits(s, p3, 2) == 0 && Bits(s, p4, 1) == 1
    ensures ReadHeader(s, p, count) == Header(0, 0, 1, count, p5)
  {
    HeaderParts(s, p, count, p1, p2, p3, p4, p5, ReadHeader(s, p, count));
  }

  lemma HeaderOfThree(s: seq<byte>, count: nat)
    requires 3 <= |s| && s[..3] == HEADER
    ensures Bits(s, 0, 3) == ID_CPE && ReadHeader(s, 3, count) == Header(0, 0, 1, count, 23)
  {
    FieldOfThree(s, 0, 3, 2);
    FieldOfThree(s, 7, 12, 18);
    FieldOfThree(s, 19, 1, 19);
    FieldOfThree(s, 20, 2, 21);
    FieldOfThree(s, 22, 1, 22);
    HeaderFrom(s, 3, count, 7, 19, 20, 22, 23);
  }

  // The packet of three bytes is accepted as a whole frame of samples, none of which is in it; so what comes out
  // depends on the memory behind it.
  lemma ThreeBytesAccepted(I: Input, D: Shape, n: nat, out: seq<int16>)
    requires 3 <= |I.s| && I.s[..3] == HEADER && I.byteSize == I.end == 3
    requires D == Shape(n, 2) && 0 < n && |out| == Times(n, 2)
    ensures var r := DecodeFrame(I, D, 0, n, out); r.Done? && r.status == NO_ERR && r.count == n && r.pos == 23 + 32 * n
    ensures !DeterminedBy(8 * I.end, I, D, 0, n, out)
  {
    var read, h := ReaderOf(I, n), Header(0, 0, 1, n, 23);
    HeaderOfThree(I.s, n);
    ReaderAdvances(I, n);
    var e := Pair(ReadRaw(I.s, 23, 16, 32, n), ReadRaw(I.s, 39, 16, 32, n), 0, 0, 23 + 32 * n);
    ThreeBytesBody(read, I, h, n, 39, e);
    ElementForm(read, I, 3, n, n, h, e, n);
    PairEnds(I, D, 0, n, out, ID_CPE, 3, e, n);
    ThreeBytesRaw(read, I, D, n, e);
    RawDetermined(I, D, 0, n, out, DecodeFrame(I, D, 0, n, out));
  }

  lemma ThreeBytesBody(read: ChannelReader, I: Input, h: Header, n: nat, p': nat, e: Element)
    requires h == Header(0, 0, 1, n, h.next) && p' == h.next + 16
    requires e == Pair(ReadRaw(I.s, h.next, 16, 32, n), ReadRaw(I.s, p', 16, 32, n), 0, 0, h.next + 32 * n)
    ensures PairBody(read, I.s, h, n) == e
  {
  }

  lemma ThreeBytesRaw(read: ChannelReader, I: Input, D: Shape, n: nat, e: Element)
    requires Advances(read, n) && D == Shape(n, 2) && 0 < n && 0 < I.end && Bits(I.s, 0, 3) == ID_CPE && e.Pair?
    requires (e, n) == ReadElement(read, I, ID_CPE, 3, n, 0, 2, n) && ReadHeader(I.s, 3, n).escape == 1
    requires ReadHeader(I.s, 3, n).count == n
    ensures EndsRaw(read, I, D, 0, 0, n)
  {
    ElementProper(read, I, D, ID_CPE, 3, 0, n, e, n);
    EndsRawForm(read, I, D, 0, 0, n, e, n);
    EndsRawHere(read, I, D, 0, 0, n, 3, e, n);
  }
}
