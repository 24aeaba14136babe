/**
 The element loop of ALACDecoder::Decode at a bit depth of 16 as a function of the bit stream: what a
 frame decodes to, that every element moves the cursor on, and that no channel past the last is written.
 */
module FrameElements {
  import opened Words
  import opened BitStream
  import opened AdaptiveGolomb
  import opened AdaptiveBlocks
  import GolombBlock
  import GolombDecoder
  import opened Predictor
  import opened Frames
  import opened Unmixing
  import opened FrameFormat

  // What the caller fixes: samples a frame may hold and channels asked for.
  datatype Shape = Shape(frameLength: nat, channels: nat)

  // Undefined where the source's behaviour is; else status, cursor, sample count and sample buffer.
  datatype Outcome = Undefined | Done(status: int, pos: nat, count: nat, out: seq<int16>)

  // ---------- every element moves the cursor on ----------

  // A reader of codes that always moves on.
  ghost predicate MovesOn(R: Reader) {
    && (forall mb: Mean, zmode: nat, p: nat :: R.sample(mb, zmode, p).next > p)
    && (forall mb: QuietMean, p: nat :: R.run(mb, p).next > p)
  }

  lemma {:induction false} DecodeAdvances(R: Reader, limit: nat, mb: Mean, zmode: nat, p: nat, left: nat)
    requires MovesOn(R)
    ensures DecodeWith(R, limit, mb, zmode, p, left).pos >= p
    decreases left
  {
    if left > 0 && p < limit {
      var x := R.sample(mb, zmode, p);
      if x.mean < 128 && left > 1 {
        var run := R.run(x.mean, x.next);
        if run.value <= left - 1 {
          DecodeAdvances(R, limit, 0, RunMode(run.value), run.next, left - 1 - run.value);
        }
      } else {
        DecodeAdvances(R, limit, x.mean, 0, x.next, left - 1);
      }
    }
  }

  lemma ReaderMovesOn(P: AgParams, s: seq<byte>, R: Reader, maxSize: nat)
    requires P.Valid() && maxSize <= 32 && R == GolombBlock.ReaderOf(P, s, maxSize)
    ensures MovesOn(R)
  {
    forall mb: Mean, zmode: nat, p: nat
      ensures R.sample(mb, zmode, p).next > p
    {
      SampleMoves(P, s, mb, zmode, p, maxSize);
    }
    forall mb: QuietMean, p: nat
      ensures R.run(mb, p).next > p
    {
      RunMoves(P, s, mb, p);
    }
  }

  lemma SampleMoves(P: AgParams, s: seq<byte>, mb: Mean, zmode: nat, p: nat, maxSize: nat)
    requires P.Valid() && maxSize <= 32
    ensures GolombBlock.ReadSample(P, s, maxSize, mb, zmode, p).next > p
  {
    var k := SampleBits(P, mb);
    GolombDecoder.SampleAdvance(s, p, Pow2(k) - 1, k, maxSize);
  }

  lemma RunMoves(P: AgParams, s: seq<byte>, mb: QuietMean, p: nat)
    requires P.Valid()
    ensures GolombBlock.ReadRun(P, s, mb, p).next > p
  {
    var kz := RunBits(mb);
    RunBitsRange(mb);
    GolombDecoder.RunAdvance(s, p, RunModulus(P, kz), kz, MAX_DATATYPE_BITS_16);
  }

  lemma BlockMoves(A: AgParams, s: seq<byte>, limit: nat, p: nat, n: nat, bits: nat)
    requires A.Valid() && bits <= 32
    ensures GolombBlock.Decode(A, s, limit, p, n, bits).pos >= p
  {
    var R := GolombBlock.ReaderOf(A, s, bits);
    ReaderMovesOn(A, s, R, bits);
    DecodeAdvances(R, limit, A.mb0, 0, p, n);
  }

  lemma ChannelMoves(I: Input, frameLength: nat, p: nat, n: nat, P: Params, bits: Width)
    ensures ReadChannel(I, frameLength, p, n, P, bits).next >= p
  {
    BlockMoves(CoderOf(P.pbFactor), I.s, EntropyLimit(I, p), p, n, bits);
  }

  // A reader that never goes back and restores as many samples as asked for, if a frame may hold them.
  ghost predicate Advances(read: ChannelReader, frameLength: nat) {
    forall p: nat, n: nat, P: Params, bits: Width ::
      && read(p, n, P, bits).next >= p
      && (read(p, n, P, bits).Restored? ==> |read(p, n, P, bits).vals| == n <= frameLength)
  }

  lemma ReaderAdvances(I: Input, frameLength: nat)
    ensures Advances(ReaderOf(I, frameLength), frameLength)
  {
    forall p: nat, n: nat, P: Params, bits: Width
      ensures ReadChannel(I, frameLength, p, n, P, bits).next >= p
    {
      ChannelMoves(I, frameLength, p, n, P, bits);
    }
  }

  lemma PairMoves(read: ChannelReader, s: seq<byte>, h: Header, frameLength: nat)
    requires h.shifted <= 2 && Advances(read, frameLength)
    ensures var e := PairBody(read, s, h, frameLength);
            && !e.Single? && !e.Skipped? && !e.NoMoreChannels? && (e.Exit? ==> e.status == PARAM_ERROR)
            && (e.Pair? ==> e.next >= h.next && |e.u| == |e.v| == h.count <= frameLength
                            && (e.mixres != 0 && h.count > 0 ==> e.mixbits < 32))
  {
  }

  lemma SingleMoves(read: ChannelReader, s: seq<byte>, h: Header, frameLength: nat)
    requires h.shifted <= 2 && Advances(read, frameLength)
    ensures var e := SingleBody(read, s, h, frameLength);
            && !e.Pair? && !e.Skipped? && !e.NoMoreChannels? && (e.Exit? ==> e.status == PARAM_ERROR)
            && (e.Single? ==> e.next >= h.next && |e.u| == h.count <= frameLength)
  {
  }

  // An element the loop continues after ends no earlier than its body begins, holds as many samples
  // as are in force, never more than a frame, and fits in the channels left.
  lemma ElementMoves(read: ChannelReader, I: Input, tag: nat, p: nat, count: nat, ch: nat, D: Shape)
    requires ch < D.channels && count <= D.frameLength && Advances(read, D.frameLength)
    ensures var (e, n) := ReadElement(read, I, tag, p, count, ch, D.channels, D.frameLength);
            && (e.Skipped? ==> e.next >= p && n == count)
            && (e.Single? ==> e.next >= p && |e.u| == n <= D.frameLength)
            && (e.Pair? ==> e.next >= p && |e.u| == |e.v| == n <= D.frameLength && ch + 2 <= D.channels
                            && (e.mixres != 0 && n > 0 ==> e.mixbits < 32))
            && (e.NoMoreChannels? ==> n <= D.frameLength && (e.status == NO_ERR || e.status == PARAM_ERROR))
            && (e.Exit? ==> e.status == NO_ERR || e.status == PARAM_ERROR)
  {
    var h := ReadHeader(I.s, p, count);
    if h.shifted <= 2 {
      if tag == ID_CPE {
        PairMoves(read, I.s, h, D.frameLength);
      } else if tag == ID_SCE || tag == ID_LFE {
        SingleMoves(read, I.s, h, D.frameLength);
      }
    }
  }

  // ---------- storing ----------

  ghost function Mono16(u: seq<int32>): nat -> seq<int16> {
    (j: nat) => [Wrap16(At(u, j, 0))]
  }

  ghost function Silence(): nat -> seq<int16> {
    (j: nat) => [0]
  }

  // Channels ch and up filled with zeros.
  ghost function ZeroFill(out: seq<int16>, ch: nat, channels: nat, n: nat): (r: seq<int16>)
    ensures |r| == |out|
    decreases channels - ch
  {
    if ch >= channels then out
    else ZeroFill(PutAll(out, ch, channels, Silence(), n), ch + 1, channels, n)
  }

  // Sample i of frame j behind the fill: zero from channel ch on in the first n frames, and else what it was.
  lemma {:induction false} ZeroFilled(out: seq<int16>, ch: nat, channels: nat, n: nat, j: nat, i: nat, q: nat)
    requires Times(n, channels) <= |out| && i < channels && q == Times(j, channels) + i && q < |out|
    ensures ZeroFill(out, ch, channels, n)[q] == if j < n && ch <= i then 0 else out[q]
    decreases channels - ch
  {
    if ch < channels {
      var next := PutAll(out, ch, channels, Silence(), n);
      if j < n && i == ch {
        FrameReadBack(out, ch, channels, Silence(), 1, n, j, 0, q);
      } else {
        OtherSlotsKept(out, ch, channels, Silence(), 1, n, j, i, q);
      }
      ZeroFilled(next, ch + 1, channels, n, j, i, q);
    }
  }

  // ---------- the loop ----------

  // From bit p on, with ch channels filled, count samples in force and `given` the count reported so far.
  ghost function Elements(read: ChannelReader, I: Input, D: Shape, p: nat, ch: nat, count: nat, given: nat,
                          out: seq<int16>): (r: Outcome)
    requires ch < D.channels && count <= D.frameLength && Advances(read, D.frameLength)
    ensures r.Done? ==> |r.out| == |out|
    decreases if p < 8 * I.end then 8 * I.end - p else 0, 1
  {
    if p / 8 >= I.end then Done(PARAM_ERROR, p, given, out)
    else
      var x := ReadElement(read, I, Bits(I.s, p, 3), p + 3, count, ch, D.channels, D.frameLength);
      ElementProper(read, I, D, Bits(I.s, p, 3), p + 3, ch, count, x.0, x.1);
      Follow(read, I, D, p, ch, given, out, x.0, x.1)
  }

  // What follows the element e found at p.
  ghost function Follow(read: ChannelReader, I: Input, D: Shape, p: nat, ch: nat, given: nat, out: seq<int16>,
                        e: Element, n: nat): (r: Outcome)
    requires ch < D.channels && Advances(read, D.frameLength) && p < 8 * I.end
    requires e.Undefined? || e.Exit? || n <= D.frameLength
    requires e.Skipped? || e.Single? || e.Pair? ==> e.next >= p + 3
    requires e.Pair? ==> ch + 2 <= D.channels
    ensures r.Done? ==> |r.out| == |out|
    decreases if p < 8 * I.end then 8 * I.end - p else 0, 0
  {
    match e
    case Undefined => Outcome.Undefined
    case Exit(status, q) => Done(status, q, given, out)
    case NoMoreChannels(status, q) => Done(status, q, given, ZeroFill(out, ch, D.channels, n))
    case Skipped(q) => Elements(read, I, D, q, ch, n, given, out)
    case Single(u, q) => After(read, I, D, p, q, ch + 1, n, PutAll(out, ch, D.channels, Mono16(u), n))
    case Pair(u, v, mixbits, mixres, q) =>
      After(read, I, D, p, q, ch + 2, n, PutAll(out, ch, D.channels, Frames16(u, v, mixbits, mixres), n))
  }

  // After an element with samples the loop stops when every channel is filled.
  ghost function After(read: ChannelReader, I: Input, D: Shape, p: nat, q: nat, ch: nat, n: nat, out: seq<int16>)
    : (r: Outcome)
    requires ch <= D.channels && n <= D.frameLength && p + 3 <= q && p < 8 * I.end && Advances(read, D.frameLength)
    ensures r.Done? ==> |r.out| == |out|
    decreases if q < 8 * I.end then 8 * I.end - q else 0, 2
  {
    if ch == D.channels then Done(NO_ERR, q, n, out) else Elements(read, I, D, q, ch, n, n, out)
  }

  // What is known of an element the loop looks at.
  ghost predicate Proper(e: Element, n: nat, q: nat, ch: nat, D: Shape) {
    && (e.Undefined? || e.Exit? || n <= D.frameLength)
    && (e.Skipped? || e.Single? || e.Pair? ==> e.next >= q)
    && (e.Pair? ==> ch + 2 <= D.channels && (e.mixres != 0 && n > 0 ==> e.mixbits < 32))
    && (e.Exit? || e.NoMoreChannels? ==> e.status == NO_ERR || e.status == PARAM_ERROR)
  }

  lemma ElementProper(read: ChannelReader, I: Input, D: Shape, tag: nat, q: nat, ch: nat, count: nat, e: Element,
                      n: nat)
    requires ch < D.channels && count <= D.frameLength && Advances(read, D.frameLength)
    requires (e, n) == ReadElement(read, I, tag, q, count, ch, D.channels, D.frameLength)
    ensures Proper(e, n, q, ch, D)
  {
    ElementMoves(read, I, tag, q, count, ch, D);
  }

  lemma ElementsForm(read: ChannelReader, I: Input, D: Shape, p: nat, ch: nat, count: nat, given: nat,
                     out: seq<int16>, q: nat, e: Element, n: nat)
    requires ch < D.channels && count <= D.frameLength && Advances(read, D.frameLength) && p / 8 < I.end && q == p + 3
    requires (e, n) == ReadElement(read, I, Bits(I.s, p, 3), q, count, ch, D.channels, D.frameLength)
    ensures Proper(e, n, q, ch, D)
    ensures Elements(read, I, D, p, ch, count, given, out) == Follow(read, I, D, p, ch, given, out, e, n)
  {
    ElementProper(read, I, D, Bits(I.s, p, 3), q, ch, count, e, n);
    FollowForm(read, I, D, p, ch, count, given, out, e, n);
  }

  lemma FollowForm(read: ChannelReader, I: Input, D: Shape, p: nat, ch: nat, count: nat, given: nat,
                   out: seq<int16>, e: Element, n: nat)
    requires ch < D.channels && count <= D.frameLength && Advances(read, D.frameLength) && p / 8 < I.end
    requires Proper(e, n, p + 3, ch, D)
    requires (e, n) == ReadElement(read, I, Bits(I.s, p, 3), p + 3, count, ch, D.channels, D.frameLength)
    ensures Elements(read, I, D, p, ch, count, given, out) == Follow(read, I, D, p, ch, given, out, e, n)
  {
  }

  // ---------- one turn of the loop ----------

  // Does the element fill the last channel?
  predicate EndsHere(e: Element, ch: nat, D: Shape) {
    (e.Single? && ch + 1 == D.channels) || (e.Pair? && ch + 2 == D.channels)
  }

  // What the loop goes on with behind an element that does not: the channels filled, and what is stored.
  ghost predicate GoesOn(e: Element, ch: nat, n: nat, out: seq<int16>, D: Shape, next: nat, stored: seq<int16>) {
    next < D.channels && n <= D.frameLength && |stored| == |out| &&
    match e
    case Skipped(_) => next == ch && stored == out
    case Single(u, _) => next == ch + 1 && stored == PutAll(out, ch, D.channels, Mono16(u), n)
    case Pair(u, v, mixbits, mixres, _) =>
      next == ch + 2 && stored == PutAll(out, ch, D.channels, Frames16(u, v, mixbits, mixres), n)
    case _ => false
  }

  function GivenOn(e: Element, given: nat, n: nat): nat {
    if e.Skipped? then given else n
  }

  lemma GoneOn(read: ChannelReader, I: Input, D: Shape, p: nat, ch: nat, given: nat, out: seq<int16>, e: Element,
               n: nat, next: nat, stored: seq<int16>)
    requires ch < D.channels && Advances(read, D.frameLength) && p < 8 * I.end && Proper(e, n, p + 3, ch, D)
    requires GoesOn(e, ch, n, out, D, next, stored)
    ensures Follow(read, I, D, p, ch, given, out, e, n)
            == Elements(read, I, D, e.next, next, n, GivenOn(e, given, n), stored)
  {
  }

  // What is stored behind an element that is followed by another.
  lemma Stored(e: Element, ch: nat, n: nat, out: seq<int16>, D: Shape, q: nat) returns (next: nat, stored: seq<int16>)
    requires Proper(e, n, q, ch, D) && ch < D.channels && (e.Skipped? || e.Single? || e.Pair?) && !EndsHere(e, ch, D)
    ensures GoesOn(e, ch, n, out, D, next, stored)
  {
    match e
    case Skipped(_) => next, stored := ch, out;
    case Single(u, _) => next, stored := ch + 1, PutAll(out, ch, D.channels, Mono16(u), n);
    case Pair(u, v, mixbits, mixres, _) =>
      next, stored := ch + 2, PutAll(out, ch, D.channels, Frames16(u, v, mixbits, mixres), n);
  }

  lemma LastOutcome(read: ChannelReader, I: Input, D: Shape, p: nat, ch: nat, given: nat, out: seq<int16>, e: Element,
                    n: nat)
    requires ch < D.channels && Advances(read, D.frameLength) && p < 8 * I.end && Proper(e, n, p + 3, ch, D)
    requires EndsHere(e, ch, D)
    ensures var r := Follow(read, I, D, p, ch, given, out, e, n); r.Done? && r.pos == e.next && r.count == n
  {
  }

  lemma ExitOutcome(read: ChannelReader, I: Input, D: Shape, p: nat, ch: nat, given: nat, out: seq<int16>, e: Element,
                    n: nat)
    requires ch < D.channels && Advances(read, D.frameLength) && p < 8 * I.end && Proper(e, n, p + 3, ch, D)
    requires !e.Skipped? && !e.Single? && !e.Pair? && Follow(read, I, D, p, ch, given, out, e, n).Done?
    ensures !e.Undefined? && Follow(read, I, D, p, ch, given, out, e, n).pos == e.next
    ensures Follow(read, I, D, p, ch, given, out, e, n).status == e.status
  {
  }

  // ---------- whole frames ----------

  // A whole frame at bit p of the input.
  ghost function DecodeFrame(I: Input, D: Shape, p: nat, numSamples: nat, out: seq<int16>): (r: Outcome)
    requires 0 < D.channels && numSamples <= D.frameLength
    ensures r.Done? ==> |r.out| == |out|
  {
    ReaderAdvances(I, D.frameLength);
    Elements(ReaderOf(I, D.frameLength), I, D, p, 0, numSamples, numSamples, out)
  }

  // One of two statuses, and no more samples than a frame holds.
  ghost predicate Ends(r: Outcome, D: Shape) {
    r.Done? ==> r.count <= D.frameLength && (r.status == NO_ERR || r.status == PARAM_ERROR)
  }

  // Whatever the bits, the loop ends with one of two statuses and reports no more samples than a frame
  // holds: every run of elements, since each moves the cursor on.
  lemma {:induction false} LoopEnds(read: ChannelReader, I: Input, D: Shape, p: nat, ch: nat, count: nat, given: nat,
                                    out: seq<int16>)
    requires ch < D.channels && count <= D.frameLength && given <= D.frameLength && Advances(read, D.frameLength)
    ensures Ends(Elements(read, I, D, p, ch, count, given, out), D)
    decreases if p < 8 * I.end then 8 * I.end - p else 0, 1
  {
    if p / 8 < I.end {
      var x := ReadElement(read, I, Bits(I.s, p, 3), p + 3, count, ch, D.channels, D.frameLength);
      ElementProper(read, I, D, Bits(I.s, p, 3), p + 3, ch, count, x.0, x.1);
      FollowForm(read, I, D, p, ch, count, given, out, x.0, x.1);
      BehindEnds(read, I, D, p, ch, given, out, x.0, x.1);
    }
  }

  lemma {:induction false} BehindEnds(read: ChannelReader, I: Input, D: Shape, p: nat, ch: nat, given: nat,
                                      out: seq<int16>, e: Element, n: nat)
    requires ch < D.channels && given <= D.frameLength && Advances(read, D.frameLength) && p < 8 * I.end
    requires Proper(e, n, p + 3, ch, D)
    ensures Ends(Follow(read, I, D, p, ch, given, out, e, n), D)
    decreases if p < 8 * I.end then 8 * I.end - p else 0, 0
  {
    match e
    case Skipped(q) => LoopEnds(read, I, D, q, ch, n, given, out);
    case Single(u, q) => AfterEnds(read, I, D, p, q, ch + 1, n, PutAll(out, ch, D.channels, Mono16(u), n));
    case Pair(u, v, mixbits, mixres, q) =>
      AfterEnds(read, I, D, p, q, ch + 2, n, PutAll(out, ch, D.channels, Frames16(u, v, mixbits, mixres), n));
    case _ =>
  }

  lemma {:induction false} AfterEnds(read: ChannelReader, I: Input, D: Shape, p: nat, q: nat, ch: nat, n: nat,
                                     out: seq<int16>)
    requires ch <= D.channels && n <= D.frameLength && p + 3 <= q && p < 8 * I.end && Advances(read, D.frameLength)
    ensures Ends(After(read, I, D, p, q, ch, n, out), D)
    decreases if q < 8 * I.end then 8 * I.end - q else 0, 2
  {
    if ch < D.channels {
      LoopEnds(read, I, D, q, ch, n, n, out);
    }
  }
}
