/**
 Frames without a sample of their own: what the source answers to a header it does not take, to elements it does not
 know, to a pair for which no channels are left, and to the end of a frame.
 */
module FrameRefusals {
  import opened Words
  import opened BitStream
  import opened FrameFormat
  import opened FrameElements

  // The first element decides, when nothing follows it.
  lemma FirstDecides(I: Input, D: Shape, p: nat, numSamples: nat, out: seq<int16>, tag: nat, e: Element, n: nat)
    requires 0 < D.channels && numSamples <= D.frameLength && p / 8 < I.end && tag == Bits(I.s, p, 3)
    requires (e, n) == ReadElement(ReaderOf(I, D.frameLength), I, tag, p + 3, numSamples, 0, D.channels, D.frameLength)
    requires e.Exit? || (e.NoMoreChannels? && n == numSamples)
    ensures DecodeFrame(I, D, p, numSamples, out)
            == Done(e.status, e.next, numSamples,
                    if e.Exit? then out else ZeroFill(out, 0, D.channels, numSamples))
  {
    var read := ReaderOf(I, D.frameLength);
    ReaderAdvances(I, D.frameLength);
    ElementProper(read, I, D, Bits(I.s, p, 3), p + 3, 0, numSamples, e, n);
    FollowForm(read, I, D, p, 0, numSamples, numSamples, out, e, n);
  }

  // An audio element whose twelve unused bits are not all zero, or that has three bytes shifted off, is refused as soon
  // as that is read, and nothing is stored.
  lemma HeaderRefused(I: Input, D: Shape, p: nat, numSamples: nat, out: seq<int16>)
    requires 0 < D.channels && numSamples <= D.frameLength && p / 8 < I.end
    requires Bits(I.s, p, 3) == 0 || Bits(I.s, p, 3) == 3 || (Bits(I.s, p, 3) == 1 && 2 <= D.channels)
    requires Bits(I.s, p + 7, 12) != 0 || Bits(I.s, p + 20, 2) == 3
    ensures DecodeFrame(I, D, p, numSamples, out)
            == Done(-50, if Bits(I.s, p + 7, 12) != 0 then p + 19 else p + 23, numSamples, out)
  {
    var tag := Bits(I.s, p, 3);
    var x := ReadElement(ReaderOf(I, D.frameLength), I, tag, p + 3, numSamples, 0, D.channels, D.frameLength);
    HeaderBits(I, p, p + 3, numSamples);
    FirstDecides(I, D, p, numSamples, out, tag, x.0, x.1);
  }

  lemma HeaderBits(I: Input, p: nat, q: nat, count: nat)
    requires q == p + 3
    ensures ReadHeader(I.s, q, count).unused == Bits(I.s, p + 7, 12)
    ensures ReadHeader(I.s, q, count).shifted == Bits(I.s, p + 20, 2)
  {
  }

  // The coupling and program config elements are refused, and all channels filled with zeros.
  lemma UnknownRefused(I: Input, D: Shape, p: nat, numSamples: nat, out: seq<int16>)
    requires 0 < D.channels && numSamples <= D.frameLength && p / 8 < I.end
    requires Bits(I.s, p, 3) == 2 || Bits(I.s, p, 3) == 5
    ensures DecodeFrame(I, D, p, numSamples, out)
            == Done(-50, p + 3, numSamples, ZeroFill(out, 0, D.channels, numSamples))
  {
    FirstDecides(I, D, p, numSamples, out, Bits(I.s, p, 3), NoMoreChannels(-50, p + 3), numSamples);
  }

  // A pair where one channel was asked for is no error: the frame is silence.
  lemma PairForOne(I: Input, D: Shape, p: nat, numSamples: nat, out: seq<int16>)
    requires D.channels == 1 && numSamples <= D.frameLength && p / 8 < I.end && Bits(I.s, p, 3) == 1
    ensures DecodeFrame(I, D, p, numSamples, out)
            == Done(0, p + 3, numSamples, ZeroFill(out, 0, 1, numSamples))
  {
    FirstDecides(I, D, p, numSamples, out, 1, NoMoreChannels(0, p + 3), numSamples);
  }

  // The end of a frame in front of every channel is no error either, and leaves the buffer as it was.
  lemma EndedEarly(I: Input, D: Shape, p: nat, numSamples: nat, out: seq<int16>, q: nat)
    requires 0 < D.channels && numSamples <= D.frameLength && p / 8 < I.end && Bits(I.s, p, 3) == 7
    requires p + 3 <= q < p + 11 && q % 8 == 0
    ensures DecodeFrame(I, D, p, numSamples, out) == Done(0, q, numSamples, out)
  {
    FirstDecides(I, D, p, numSamples, out, 7, Exit(0, q), numSamples);
  }

  // A buffer that ends before the first element is refused.
  lemma NothingThere(I: Input, D: Shape, p: nat, numSamples: nat, out: seq<int16>)
    requires 0 < D.channels && numSamples <= D.frameLength && 8 * I.end <= p
    ensures DecodeFrame(I, D, p, numSamples, out) == Done(-50, p, numSamples, out)
  {
  }
}
