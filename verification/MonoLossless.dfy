/**
 Whole frames of one channel, compressed or raw, and what Decode makes of them.
 */
module MonoLossless {
  import opened Words
  import opened BitStream
  import opened Matrix
  import opened Frames
  import opened Unmixing
  import opened FrameFormat
  import opened FrameElements
  import opened FrameEncoder
  import opened FrameLossless

  // The bits of a single channel.
  function SingleWidth(shifted: nat): (w: Width)
    requires shifted <= 1
    ensures 1 <= w <= 16
  {
    16 - 8 * shifted
  }

  // The choices of an encoder for a single channel, or an LFE channel; the mixing fields are read and ignored.
  datatype SingleFrame = SingleFrame(tag: nat, instance: nat, partial: bool, shifted: nat, mixbits: nat, mixres: int8,
                                     P: Params)
  {
    predicate Valid(n: nat, frameLength: nat) {
      && (tag == SINGLE_TAG || tag == LFE_TAG) && instance < 16 && shifted <= 1 && mixbits < 256
      && n <= frameLength <= 65536 && Choice(P, SingleWidth(shifted), n, frameLength)
    }
  }

  ghost function SingleBodyBits(F: SingleFrame, low: seq<bit>, code: ChannelCode, S: seq<int16>): seq<bit> {
    ToBits(F.mixbits, 8) + (ToBits(Unsigned8(F.mixres), 8) + (ParamsBits(F.P) + (low + code(F.P, S))))
  }

  ghost function SingleBits(F: SingleFrame, n: nat, low: seq<bit>, code: ChannelCode, S: seq<int16>): (b: seq<bit>)
    ensures |b| >= 23
  {
    ToBits(F.tag, 3) + (HeaderBits(F.instance, F.partial, F.shifted, 0, n) + SingleBodyBits(F, low, code, S))
  }

  ghost function EncodeSingle(F: SingleFrame, X: seq<int16>): (b: seq<bit>)
    requires F.shifted <= 1
    ensures |b| >= 23
  {
    SingleBits(F, |X|, LowBits(X, 8 * F.shifted), Coder(SingleWidth(F.shifted)), Uppers(X, F.shifted))
  }

  // Where the channel of such a frame at bit p begins, and whether its codes begin in time.
  function SingleStart(F: SingleFrame, n: nat, p: nat): nat {
    p + 3 + |HeaderBits(F.instance, F.partial, F.shifted, 0, n)| + 16 + |ParamsBits(F.P)| + Skip(n, 8 * F.shifted)
  }

  ghost predicate SingleInTime(I: Input, F: SingleFrame, X: seq<int16>, p: nat)
    requires F.shifted <= 1
  {
    TimelyOf(I, F.P, Uppers(X, F.shifted), SingleWidth(F.shifted))(SingleStart(F, |X|, p))
  }

  // The samples of an escape frame, in the bits the shift field leaves.
  function MonoBits(S: seq<int16>, w: nat): (b: seq<bit>)
    ensures |b| == Skip(|S|, w)
  {
    if S == [] then [] else ToBits(Low(S[0], w), w) + MonoBits(S[1..], w)
  }

  ghost function EncodeRawSingle(tag: nat, instance: nat, partial: bool, shifted: nat, S: seq<int16>): (b: seq<bit>)
    requires shifted <= 1
    ensures |b| >= 23
  {
    ToBits(tag, 3) + (HeaderBits(instance, partial, shifted, 1, |S|) + MonoBits(S, SingleWidth(shifted)))
  }

  // ---------- the range of a sample ----------

  lemma {:induction false} ShrFits(x: int, n: nat, b: nat, c: nat)
    requires b >= 1 && c == b + n && Fits(x, c)
    ensures Fits(Shr(x, n), b)
    decreases n
  {
    if n > 0 {
      assert Pow2(c - 1) == Pow2(c - 2) + Pow2(c - 2);
      ShrFits(x / 2, n - 1, b, c - 1);
    }
  }

  // A sample less the byte shifted off fits in what is left.
  lemma UppersFit(X: seq<int16>, shifted: nat, w: Width)
    requires shifted <= 1 && w == SingleWidth(shifted)
    ensures AllFit(Uppers(X, shifted), w)
  {
    forall j | 0 <= j < |X|
      ensures Fits(Upper(X[j], shifted), w)
    {
      ShortFits(X[j]);
      ShrFits(X[j], 8 * shifted, w, 16);
    }
  }

  lemma LowMoved(x: int, k: int, w: nat)
    requires k == Shr(x, w)
    ensures Low(x, w) == x + Scale(-k, w)
  {
    Recompose(x, w);
    ScaleAdd(k, -k, w);
    ScaleZero(w);
  }

  lemma LowExtends(x: int, w: nat)
    requires 1 <= w <= 32 && Fits(x, w)
    ensures SignExtend(Low(x, w), w) == x
  {
    var k := Shr(x, w);
    LowMoved(x, k, w);
    SignExtendId(x, w);
    SignExtendShift(x, -k, w);
  }

  // ---------- reading the body ----------

  // The body's parts, one behind the other.
  lemma SingleParts(s: seq<byte>, p: nat, F: SingleFrame, low: seq<bit>, code: ChannelCode, S: seq<int16>, p1: nat,
                    p2: nat, p3: nat, p4: nat)
    requires F.mixbits < 256 && F.P.mode < 16 && Carries(s, p, SingleBodyBits(F, low, code, S))
    requires p1 == p + 8 && p2 == p1 + 8 && p3 == p2 + |ParamsBits(F.P)| && p4 == p3 + |low|
    ensures ReadParams(s, p2) == (F.P, p3) && Carries(s, p4, code(F.P, S))
  {
    var u := low + code(F.P, S);
    FieldPowers();
    Peel(s, p, F.mixbits, 8, ToBits(Unsigned8(F.mixres), 8) + (ParamsBits(F.P) + u), p1);
    Peel(s, p1, Unsigned8(F.mixres), 8, ParamsBits(F.P) + u, p2);
    Split(s, p2, ParamsBits(F.P), u, p3);
    ParamsRead(s, p2, F.P, p3);
    Split(s, p3, low, code(F.P, S), p4);
  }

  // What a single channel is found as, by whether it begins in time.
  ghost predicate Found(e: Element, timely: bool, S: seq<int16>, q: nat) {
    if timely then e == Single(S, q) else e.Exit? && e.status == PARAM_ERROR
  }

  lemma SingleRead(s: seq<byte>, read: ChannelReader, low: seq<bit>, code: ChannelCode, timely: Timely, h: Header,
                   F: SingleFrame, frameLength: nat, S: seq<int16>, n: nat, end: nat, start: nat, q: nat, w: Width)
    requires F.Valid(n, frameLength) && w == SingleWidth(F.shifted) && h == Header(0, F.shifted, 0, n, h.next)
    requires Carries(s, h.next, SingleBodyBits(F, low, code, S)) && |low| == Skip(n, 8 * F.shifted)
    requires start == h.next + 16 + |ParamsBits(F.P)| + |low| && q == start + |code(F.P, S)| <= end
    requires Undoes(read, code, timely, w, s, F.P, S, n, end)
    ensures Found(SingleBody(read, s, h, frameLength), timely(start), S, q)
  {
    var p1, p2 := h.next + 8, h.next + 16;
    var p3 := p2 + |ParamsBits(F.P)|;
    SingleParts(s, h.next, F, low, code, S, p1, p2, p3, start);
    ShortSkip(n, 8 * F.shifted);
    SingleForm(read, s, h, frameLength, p2, F.P, p3, start, w);
    UndoneAt(read, code, timely, w, s, F.P, S, n, end, start, q);
  }

  lemma {:induction false} MonoRead(s: seq<byte>, p: nat, S: seq<int16>, w: nat)
    requires 1 <= w <= 16 && AllFit(S, w) && Carries(s, p, MonoBits(S, w))
    ensures ReadRaw(s, p, w, w, |S|) == S
    decreases |S|
  {
    if S != [] {
      var q := p + w;
      LowExtends(S[0], w);
      Peel(s, p, Low(S[0], w), w, MonoBits(S[1..], w), q);
      MonoRead(s, q, S[1..], w);
      MonoForm(s, p, q, |S|, |S[1..]|, S[0], S[1..], S, w);
    }
  }

  lemma MonoForm(s: seq<byte>, p: nat, q: nat, n: nat, m: nat, x: int16, rest: seq<int16>, all: seq<int16>, w: nat)
    requires 1 <= w <= 16 && n == m + 1 && q == p + w && SignExtend(Bits(s, p, w), w) == x
    requires ReadRaw(s, q, w, w, m) == rest && all == [x] + rest
    ensures ReadRaw(s, p, w, w, n) == all
  {
  }

  lemma RawSingleRead(s: seq<byte>, read: ChannelReader, h: Header, frameLength: nat, S: seq<int16>, n: nat, q: nat,
                      w: Width)
    requires n == |S| <= frameLength && h == Header(0, h.shifted, 1, n, h.next) && h.shifted <= 1
    requires w == SingleWidth(h.shifted) && AllFit(S, w)
    requires Carries(s, h.next, MonoBits(S, w)) && q == h.next + |MonoBits(S, w)|
    ensures SingleBody(read, s, h, frameLength) == Single(S, q)
  {
    MonoRead(s, h.next, S, w);
    RawSingleForm(read, s, h, frameLength, S, n, q, w);
  }

  lemma RawSingleForm(read: ChannelReader, s: seq<byte>, h: Header, frameLength: nat, S: seq<int16>, n: nat, q: nat,
                      w: Width)
    requires n <= frameLength && h == Header(0, h.shifted, 1, n, h.next) && h.shifted <= 1
    requires w == SingleWidth(h.shifted) && ReadRaw(s, h.next, w, w, n) == S && q == h.next + Skip(n, w)
    ensures SingleBody(read, s, h, frameLength) == Single(S, q)
  {
  }

  // ---------- the frame ----------

  lemma SingleForms(read: ChannelReader, I: Input, tag: nat, p: nat, count: nat, fl: nat, h: Header, e: Element, n: nat)
    requires tag == ID_SCE || tag == ID_LFE
    requires ReadHeader(I.s, p, count) == h == Header(0, h.shifted, h.escape, n, h.next) && h.shifted <= 2
    requires SingleBody(read, I.s, h, fl) == e
    ensures ReadElement(read, I, tag, p, count, 0, 1, fl) == (e, n)
  {
  }

  // A single channel found at the start of a mono frame fills it.
  lemma SingleEnds(I: Input, D: Shape, p: nat, numSamples: nat, out: seq<int16>, tag: nat, q: nat, e: Element, n: nat)
    requires D.channels == 1 && numSamples <= D.frameLength && n <= D.frameLength && p / 8 < I.end && q == p + 3
    requires tag == Bits(I.s, p, 3) && e.Single?
    requires (e, n) == ReadElement(ReaderOf(I, D.frameLength), I, tag, q, numSamples, 0, 1, D.frameLength)
    ensures DecodeFrame(I, D, p, numSamples, out) == Done(NO_ERR, e.next, n, PutAll(out, 0, 1, Mono16(e.u), n))
  {
    ReaderAdvances(I, D.frameLength);
    ElementsForm(ReaderOf(I, D.frameLength), I, D, p, 0, numSamples, numSamples, out, q, e, n);
  }

  // The outcome of a mono frame: status, cursor and count, the samples, and the rest of the buffer untouched.
  ghost predicate DeliversMono(r: Outcome, pos: nat, S: seq<int16>, out: seq<int16>) {
    && r.Done? && r.status == NO_ERR && r.pos == pos && r.count == |S| <= |out| == |r.out|
    && r.out[..|S|] == S && r.out[|S|..] == out[|S|..]
  }

  lemma MonoStored(r: Outcome, S: seq<int16>, out: seq<int16>, pos: nat, n: nat)
    requires |S| == n <= |out| && r == Done(NO_ERR, pos, n, PutAll(out, 0, 1, Mono16(S), n))
    ensures DeliversMono(r, pos, S, out)
  {
    var f := Mono16(S);
    if n > 0 {
      TimesIsProduct(n - 1, 1);
    }
    forall j: nat | j < n
      ensures r.out[j] == S[j]
    {
      TimesIsProduct(j, 1);
      ShortFits(S[j]);
      FrameReadBack(out, 0, 1, f, 1, n, j, 0, j);
    }
    forall k: nat | n <= k < |out|
      ensures r.out[k] == out[k]
    {
      TimesIsProduct(k, 1);
      OtherSlotsKept(out, 0, 1, f, 1, n, k, 0, k);
    }
  }

  // Losslessness of a single channel, compressed: its samples less the bytes shifted off, unless a code begins too
  // late.
  lemma SingleLossless(I: Input, D: Shape, p: nat, F: SingleFrame, X: seq<int16>, numSamples: nat, out: seq<int16>,
                       q: nat)
    requires D.channels == 1 && F.Valid(|X|, D.frameLength) && |X| <= |out|
    requires (F.partial || |X| == numSamples) && numSamples <= D.frameLength
    requires Inside(I, p, EncodeSingle(F, X)) && q == p + |EncodeSingle(F, X)|
    ensures var r := DecodeFrame(I, D, p, numSamples, out);
            if SingleInTime(I, F, X, p) then DeliversMono(r, q, Uppers(X, F.shifted), out)
            else r.Done? && r.status == PARAM_ERROR
  {
    var fl, n, w := D.frameLength, |X|, SingleWidth(F.shifted);
    var S, start := Uppers(X, F.shifted), SingleStart(F, n, p);
    var read, code, timely := ReaderOf(I, fl), Coder(w), TimelyOf(I, F.P, S, w);
    UppersFit(X, F.shifted, w);
    ReaderUndoes(I, read, code, timely, w, F.P, S, fl, n);
    SingleOutcome(I, D, p, F, LowBits(X, 8 * F.shifted), S, numSamples, out, q, n, read, code, timely, w, start);
  }

  // What a single channel decodes to, by whether its codes begin in time.
  lemma SingleOutcome(I: Input, D: Shape, p: nat, F: SingleFrame, low: seq<bit>, S: seq<int16>, numSamples: nat,
                      out: seq<int16>, q: nat, n: nat, read: ChannelReader, code: ChannelCode, timely: Timely, w: Width,
                      start: nat)
    requires D.channels == 1 && F.Valid(n, D.frameLength) && n == |S| <= |out| && |low| == Skip(n, 8 * F.shifted)
    requires (F.partial || n == numSamples) && numSamples <= D.frameLength && w == SingleWidth(F.shifted)
    requires read == ReaderOf(I, D.frameLength) && start == SingleStart(F, n, p)
    requires Carries(I.s, p, SingleBits(F, n, low, code, S)) && q == p + |SingleBits(F, n, low, code, S)| <= 8 * I.end
    requires Undoes(read, code, timely, w, I.s, F.P, S, n, 8 * I.end)
    ensures var r := DecodeFrame(I, D, p, numSamples, out);
            if timely(start) then DeliversMono(r, q, S, out) else r.Done? && r.status == PARAM_ERROR
  {
    var fl, p1 := D.frameLength, p + 3;
    var e := SingleFound(I, read, low, code, timely, p, p1, F, fl, S, numSamples, q, n, w, start);
    if timely(start) {
      SingleEnds(I, D, p, numSamples, out, F.tag, p1, e, n);
      MonoStored(DecodeFrame(I, D, p, numSamples, out), S, out, q, n);
    } else {
      RefusedEnds(I, D, p, numSamples, out, F.tag, p1, e, n);
    }
  }

  lemma SingleFound(I: Input, read: ChannelReader, low: seq<bit>, code: ChannelCode, timely: Timely, p: nat, p1: nat,
                    F: SingleFrame, fl: nat, S: seq<int16>, numSamples: nat, q: nat, n: nat, w: Width, start: nat)
    returns (e: Element)
    requires F.Valid(n, fl) && w == SingleWidth(F.shifted) && n == |S| && (F.partial || n == numSamples)
    requires p1 == p + 3 && |low| == Skip(n, 8 * F.shifted) && start == SingleStart(F, n, p)
    requires Carries(I.s, p, SingleBits(F, n, low, code, S)) && q == p + |SingleBits(F, n, low, code, S)| <= 8 * I.end
    requires Undoes(read, code, timely, w, I.s, F.P, S, n, 8 * I.end)
    ensures Bits(I.s, p, 3) == F.tag && p / 8 < I.end
    ensures ReadElement(read, I, F.tag, p1, numSamples, 0, 1, fl) == (e, n)
    ensures Found(e, timely(start), S, q)
  {
    var p2 := p1 + |HeaderBits(F.instance, F.partial, F.shifted, 0, n)|;
    var h := Header(0, F.shifted, 0, n, p2);
    HeadRead(I.s, p, p1, p2, F.tag, F.instance, F.partial, F.shifted, 0, n, numSamples,
             SingleBodyBits(F, low, code, S));
    e := SingleBody(read, I.s, h, fl);
    SingleLength(F, n, low, code, S, p, start, q);
    SingleRead(I.s, read, low, code, timely, h, F, fl, S, n, 8 * I.end, start, q, w);
    SingleForms(read, I, F.tag, p1, numSamples, fl, h, e, n);
  }

  lemma SingleLength(F: SingleFrame, n: nat, low: seq<bit>, code: ChannelCode, S: seq<int16>, p: nat, start: nat,
                     q: nat)
    requires start == SingleStart(F, n, p) && |low| == Skip(n, 8 * F.shifted)
    requires q == p + |SingleBits(F, n, low, code, S)|
    ensures q == start + |code(F.P, S)|
  {
  }

  // In a buffer whose size in bits fits in 32 of them all codes begin in time.
  lemma SinglesInTime(I: Input, F: SingleFrame, X: seq<int16>, p: nat)
    requires F.shifted <= 1 && 8 * I.byteSize < TWO32 && Inside(I, p, EncodeSingle(F, X))
    ensures SingleInTime(I, F, X, p)
  {
    var w, start := SingleWidth(F.shifted), SingleStart(F, |X|, p);
    var S, low := Uppers(X, F.shifted), LowBits(X, 8 * F.shifted);
    var end := p + |EncodeSingle(F, X)|;
    SingleLength(F, |X|, low, Coder(w), S, p, start, end);
    SmallBuffersInTime(I, F.P, S, w, start, end);
    TimelyAt(I, F.P, S, w, TimelyOf(I, F.P, S, w), start);
  }

  // Losslessness of a single channel, uncompressed.
  lemma RawSingleLossless(I: Input, D: Shape, p: nat, tag: nat, instance: nat, partial: bool, shifted: nat,
                          S: seq<int16>, numSamples: nat, out: seq<int16>, q: nat)
    requires D.channels == 1 && D.frameLength <= 65536 && |S| <= D.frameLength && |S| <= |out|
    requires (tag == SINGLE_TAG || tag == LFE_TAG) && instance < 16 && shifted <= 1 && AllFit(S, SingleWidth(shifted))
    requires (partial || |S| == numSamples) && numSamples <= D.frameLength
    requires Inside(I, p, EncodeRawSingle(tag, instance, partial, shifted, S))
    requires q == p + |EncodeRawSingle(tag, instance, partial, shifted, S)|
    ensures DeliversMono(DecodeFrame(I, D, p, numSamples, out), q, S, out)
  {
    var fl, n, p1, w := D.frameLength, |S|, p + 3, SingleWidth(shifted);
    var p2 := p1 + |HeaderBits(instance, partial, shifted, 1, n)|;
    var h := Header(0, shifted, 1, n, p2);
    HeadRead(I.s, p, p1, p2, tag, instance, partial, shifted, 1, n, numSamples, MonoBits(S, w));
    RawSingleRead(I.s, ReaderOf(I, fl), h, fl, S, n, q, w);
    SingleForms(ReaderOf(I, fl), I, tag, p1, numSamples, fl, h, Single(S, q), n);
    SingleEnds(I, D, p, numSamples, out, tag, p1, Single(S, q), n);
    MonoStored(DecodeFrame(I, D, p, numSamples, out), S, out, q, n);
  }
}
