/**
 Whole frames: a pair of channels encoded in any way the format allows, compressed or raw, and what
 Decode makes of it.
 */
module FrameLossless {
  import opened Words
  import opened BitStream
  import opened Matrix
  import opened Frames
  import opened Unmixing
  import opened FrameFormat
  import opened FrameElements
  import opened FrameEncoder

  // The choices of an encoder for a compressed pair.
  datatype PairFrame = PairFrame(instance: nat, partial: bool, shifted: nat, mixbits: nat, mixres: int8, U: Params,
                                 V: Params)
  {
    predicate Valid(n: nat, frameLength: nat) {
      && instance < 16 && shifted <= 2 && mixbits < 256 && (mixres != 0 && n > 0 ==> mixbits < 32)
      && n <= frameLength <= 65536
      && Choice(U, PairWidth(shifted), n, frameLength) && Choice(V, PairWidth(shifted), n, frameLength)
    }
  }

  // The bits of a channel of a pair.
  function PairWidth(shifted: nat): (w: Width)
    requires shifted <= 2
    ensures 1 <= w <= 17
  {
    17 - 8 * shifted
  }

  function Unsigned8(x: int8): nat {
    x % 256
  }

  // How a channel is coded, apart from what the code is.
  type ChannelCode = (Params, seq<int32>) -> seq<bit>

  ghost function Coder(w: Width): ChannelCode {
    (P: Params, signal: seq<int32>) => ChannelBits(P, signal, w)
  }

  // The bits of a compressed pair behind the header: the parameters, the bits shifted off, the channels.
  ghost function PairBodyBits(F: PairFrame, low: seq<bit>, code: ChannelCode, mid: seq<int32>, side: seq<int32>)
    : seq<bit>
  {
    ToBits(F.mixbits, 8) + (ToBits(Unsigned8(F.mixres), 8) + (ParamsBits(F.U) + (ParamsBits(F.V) +
    (low + (code(F.U, mid) + code(F.V, side))))))
  }

  // The channels of a pair: what is left of the samples, mixed.
  ghost function MidOf(F: PairFrame, X: seq<int16>, Y: seq<int16>): (u: seq<int32>)
    requires |X| == |Y| && F.shifted <= 2
    ensures |u| == |X|
  {
    Mid(Uppers(X, F.shifted), Uppers(Y, F.shifted), F.mixbits, F.mixres, PairWidth(F.shifted))
  }

  ghost function SideOf(F: PairFrame, X: seq<int16>, Y: seq<int16>): (v: seq<int32>)
    requires |X| == |Y|
    ensures |v| == |X|
  {
    Side(Uppers(X, F.shifted), Uppers(Y, F.shifted), F.mixres)
  }

  function LowOf(F: PairFrame, X: seq<int16>, Y: seq<int16>): (b: seq<bit>)
    requires |X| == |Y|
    ensures |b| == Skip(|X|, 16 * F.shifted)
  {
    LowPairBits(X, Y, 8 * F.shifted, 16 * F.shifted)
  }

  // A frame of n samples from its parts.
  ghost function PairBits(F: PairFrame, n: nat, low: seq<bit>, code: ChannelCode, mid: seq<int32>, side: seq<int32>)
    : (b: seq<bit>)
    ensures |b| >= 23
  {
    ToBits(PAIR_TAG, 3) + (HeaderBits(F.instance, F.partial, F.shifted, 0, n) + PairBodyBits(F, low, code, mid, side))
  }

  // The whole frame.
  ghost function EncodePair(F: PairFrame, X: seq<int16>, Y: seq<int16>): (b: seq<bit>)
    requires |X| == |Y| && F.shifted <= 2
    ensures |b| >= 23
  {
    PairBits(F, |X|, LowOf(F, X, Y), Coder(PairWidth(F.shifted)), MidOf(F, X, Y), SideOf(F, X, Y))
  }

  // Where the first channel of such a frame at bit p begins.
  function ChannelStart(F: PairFrame, n: nat, p: nat): nat {
    p + 3 + |HeaderBits(F.instance, F.partial, F.shifted, 0, n)| + 16 + |ParamsBits(F.U)| + |ParamsBits(F.V)| +
    Skip(n, 16 * F.shifted)
  }

  // And where the second.
  ghost function SecondStart(F: PairFrame, X: seq<int16>, Y: seq<int16>, p: nat): nat
    requires |X| == |Y| && F.shifted <= 2
  {
    ChannelStart(F, |X|, p) + |Coder(PairWidth(F.shifted))(F.U, MidOf(F, X, Y))|
  }

  // Do the codes of both channels begin in time?
  ghost predicate PairInTime(I: Input, F: PairFrame, X: seq<int16>, Y: seq<int16>, p: nat)
    requires |X| == |Y| && F.shifted <= 2
  {
    TimelyOf(I, F.U, MidOf(F, X, Y), PairWidth(F.shifted))(ChannelStart(F, |X|, p)) &&
    TimelyOf(I, F.V, SideOf(F, X, Y), PairWidth(F.shifted))(SecondStart(F, X, Y, p))
  }

  // ---------- reading the body ----------

  lemma MixFit(F: PairFrame)
    requires F.mixbits < 256
    ensures F.mixbits < Pow2(8) && Unsigned8(F.mixres) < Pow2(8) && Signed8(Unsigned8(F.mixres)) == F.mixres
  {
    FieldPowers();
  }

  // The positions of the parts of the body.
  datatype Marks = Marks(p1: nat, p2: nat, p3: nat, p4: nat, p5: nat, p6: nat, p7: nat)

  // The body's parts, one behind the other from p on, each as long as its bits.
  ghost predicate Marked(F: PairFrame, low: seq<bit>, u: seq<bit>, v: seq<bit>, p: nat, M: Marks) {
    && M.p1 == p + 8 && M.p2 == M.p1 + 8 && M.p3 == M.p2 + |ParamsBits(F.U)| && M.p4 == M.p3 + |ParamsBits(F.V)|
    && M.p5 == M.p4 + |low| && M.p6 == M.p5 + |u| && M.p7 == M.p6 + |v|
  }

  // Every part of the body is carried at its mark.
  lemma BodyParts(s: seq<byte>, p: nat, F: PairFrame, low: seq<bit>, code: ChannelCode, mid: seq<int32>,
                  side: seq<int32>, M: Marks, u: seq<bit>, v: seq<bit>)
    requires F.mixbits < 256 && u == code(F.U, mid) && v == code(F.V, side) && Marked(F, low, u, v, p, M)
    requires Carries(s, p, PairBodyBits(F, low, code, mid, side))
    ensures Bits(s, p, 8) == F.mixbits && Bits(s, M.p1, 8) == Unsigned8(F.mixres)
    ensures Carries(s, M.p2, ParamsBits(F.U)) && Carries(s, M.p3, ParamsBits(F.V))
    ensures Carries(s, M.p5, u) && Carries(s, M.p6, v)
  {
    var channels := low + (u + v);
    var params := ParamsBits(F.V) + channels;
    MixFit(F);
    Peel(s, p, F.mixbits, 8, ToBits(Unsigned8(F.mixres), 8) + (ParamsBits(F.U) + params), M.p1);
    Peel(s, M.p1, Unsigned8(F.mixres), 8, ParamsBits(F.U) + params, M.p2);
    Split(s, M.p2, ParamsBits(F.U), params, M.p3);
    Split(s, M.p3, ParamsBits(F.V), channels, M.p4);
    Split(s, M.p4, low, u + v, M.p5);
    Split(s, M.p5, u, v, M.p6);
  }

  // The body from its parts, for any reader of channels.
  lemma BodyForm(read: ChannelReader, s: seq<byte>, h: Header, F: PairFrame, frameLength: nat, M: Marks, n: nat,
                 w: Width, c: ChannelData, d: ChannelData)
    requires h == Header(0, F.shifted, 0, n, h.next) && F.shifted <= 2 && w == PairWidth(F.shifted) && n <= 65536
    requires F.mixbits < 256 && M.p1 == h.next + 8 && M.p2 == M.p1 + 8 && M.p5 == M.p4 + Skip(n, 16 * F.shifted)
    requires Bits(s, h.next, 8) == F.mixbits && Bits(s, M.p1, 8) == Unsigned8(F.mixres)
    requires ReadParams(s, M.p2) == (F.U, M.p3) && ReadParams(s, M.p3) == (F.V, M.p4)
    requires c == ChannelAt(read, M.p5, n, F.U, w) && d == ChannelAt(read, c.next, n, F.V, w)
    ensures PairBody(read, s, h, frameLength) == PairOf(c, d, n, F.mixbits, F.mixres)
  {
    ShortSkip(n, 16 * F.shifted);
    MixFit(F);
    PairForm(read, s, h, frameLength, M.p1, M.p2, F.U, M.p3, F.V, M.p4, M.p5, F.mixbits, F.mixres);
    ChannelsForm(read, F.shifted, n, F.U, F.V, M.p5, F.mixbits, F.mixres, w, c, d);
  }

  // From which positions the codes of a channel begin in time.
  type Timely = nat -> bool

  ghost function TimelyOf(I: Input, P: Params, signal: seq<int32>, w: Width): Timely {
    (p: nat) => InTime(I, P, signal, w, p)
  }

  // A channel coded from p to q is undone if it begins in time, and refused if not.
  ghost predicate Undone(read: ChannelReader, timely: Timely, w: Width, P: Params, signal: seq<int32>, n: nat, p: nat,
                         q: nat)
  {
    if timely(p) then ChannelAt(read, p, n, P, w) == Restored(signal, q) else ChannelAt(read, p, n, P, w).Broken?
  }

  // A reader that undoes a code for signals of n samples of width w in a stream.
  ghost predicate Undoes(read: ChannelReader, code: ChannelCode, timely: Timely, w: Width, s: seq<byte>, P: Params,
                         signal: seq<int32>, n: nat, end: nat)
  {
    forall p: nat, q: nat | Carries(s, p, code(P, signal)) && q == p + |code(P, signal)| <= end ::
      Undone(read, timely, w, P, signal, n, p, q)
  }

  lemma ChannelUndone(I: Input, read: ChannelReader, timely: Timely, w: Width, P: Params, signal: seq<int32>,
                      frameLength: nat, n: nat, p: nat, q: nat)
    requires Choice(P, w, n, frameLength) && w < 32 && n == |signal| <= frameLength && AllFit(signal, w)
    requires read == ReaderOf(I, frameLength) && timely == TimelyOf(I, P, signal, w)
    requires Carries(I.s, p, ChannelBits(P, signal, w)) && q == p + |ChannelBits(P, signal, w)| <= 8 * I.end
    ensures Undone(read, timely, w, P, signal, n, p, q)
  {
    ChannelRead(I, p, P, signal, w, frameLength, q);
  }

  // The decoder undoes the encoder's code.
  lemma ReaderUndoes(I: Input, read: ChannelReader, code: ChannelCode, timely: Timely, w: Width, P: Params,
                     signal: seq<int32>, frameLength: nat, n: nat)
    requires Choice(P, w, n, frameLength) && w < 32 && n == |signal| <= frameLength && AllFit(signal, w)
    requires read == ReaderOf(I, frameLength) && timely == TimelyOf(I, P, signal, w) && code == Coder(w)
    ensures Undoes(read, code, timely, w, I.s, P, signal, n, 8 * I.end)
  {
    forall p: nat, q: nat | Carries(I.s, p, code(P, signal)) && q == p + |code(P, signal)| <= 8 * I.end
      ensures Undone(read, timely, w, P, signal, n, p, q)
    {
      ChannelUndone(I, read, timely, w, P, signal, frameLength, n, p, q);
    }
  }

  lemma BothParamsRead(s: seq<byte>, F: PairFrame, p: nat, q: nat, r: nat)
    requires F.U.mode < 16 && F.V.mode < 16 && q == p + |ParamsBits(F.U)| && r == q + |ParamsBits(F.V)|
    requires Carries(s, p, ParamsBits(F.U)) && Carries(s, q, ParamsBits(F.V))
    ensures ReadParams(s, p) == (F.U, q) && ReadParams(s, q) == (F.V, r)
  {
    ParamsRead(s, p, F.U, q);
    ParamsRead(s, q, F.V, r);
  }

  // The body read back, by any reader that undoes the code.
  lemma BodyRead(s: seq<byte>, read: ChannelReader, low: seq<bit>, code: ChannelCode, first: Timely, second: Timely,
                 h: Header, F: PairFrame, frameLength: nat, mid: seq<int32>, side: seq<int32>, n: nat, M: Marks,
                 end: nat, w: Width)
    requires F.mixbits < 256 && (F.mixres != 0 && n > 0 ==> F.mixbits < 32) && F.U.mode < 16 && F.V.mode < 16
    requires h == Header(0, F.shifted, 0, n, h.next) && F.shifted <= 2 && w == PairWidth(F.shifted) && n <= 65536
    requires Carries(s, h.next, PairBodyBits(F, low, code, mid, side)) && |low| == Skip(n, 16 * F.shifted)
    requires Marked(F, low, code(F.U, mid), code(F.V, side), h.next, M) && M.p7 <= end
    requires Undoes(read, code, first, w, s, F.U, mid, n, end) && Undoes(read, code, second, w, s, F.V, side, n, end)
    ensures var e := PairBody(read, s, h, frameLength);
            if first(M.p5) && second(M.p6) then e == Pair(mid, side, F.mixbits, F.mixres, M.p7)
            else e.Exit? && e.status == PARAM_ERROR
  {
    var u, v := code(F.U, mid), code(F.V, side);
    BodyParts(s, h.next, F, low, code, mid, side, M, u, v);
    BothParamsRead(s, F, M.p2, M.p3, M.p4);
    var c := ChannelAt(read, M.p5, n, F.U, w);
    BodyForm(read, s, h, F, frameLength, M, n, w, c, ChannelAt(read, c.next, n, F.V, w));
    UndoneAt(read, code, first, w, s, F.U, mid, n, end, M.p5, M.p6);
    UndoneAt(read, code, second, w, s, F.V, side, n, end, M.p6, M.p7);
  }

  lemma UndoneAt(read: ChannelReader, code: ChannelCode, timely: Timely, w: Width, s: seq<byte>, P: Params,
                 signal: seq<int32>, n: nat, end: nat, p: nat, q: nat)
    requires Undoes(read, code, timely, w, s, P, signal, n, end)
    requires Carries(s, p, code(P, signal)) && q == p + |code(P, signal)| <= end
    ensures Undone(read, timely, w, P, signal, n, p, q)
  {
  }

  // ---------- raw pairs ----------

  function RawBits(L: seq<int16>, R: seq<int16>): (b: seq<bit>)
    requires |L| == |R|
    ensures |b| == 32 * |L|
  {
    if L == [] then [] else ToBits(Unsigned16(L[0]), 16) + (ToBits(Unsigned16(R[0]), 16) + RawBits(L[1..], R[1..]))
  }

  // The shift field of an escape frame is read and ignored.
  ghost function EncodeRaw(instance: nat, partial: bool, shifted: nat, L: seq<int16>, R: seq<int16>): (b: seq<bit>)
    requires |L| == |R|
    ensures |b| >= 23
  {
    ToBits(PAIR_TAG, 3) + (HeaderBits(instance, partial, shifted, 1, |L|) + RawBits(L, R))
  }

  lemma RawResidue(x: int16, k: int, w: nat)
    requires w == 16 && k == (if x < 0 then 1 else 0)
    ensures Unsigned16(x) == x + Scale(k, w) && Fits(x, w)
  {
    FieldPowers();
    ScaleIsProduct(k, w);
  }

  lemma RawValue(x: int16, w: nat)
    requires w == 16
    ensures Unsigned16(x) < Pow2(w) && SignExtend(Unsigned16(x), w) == x
  {
    var k := if x < 0 then 1 else 0;
    ShortRange(x);
    RawResidue(x, k, w);
    SignExtendId(x, w);
    SignExtendShift(x, k, w);
  }

  lemma {:induction false} RawRead(s: seq<byte>, p: nat, L: seq<int16>, R: seq<int16>, p': nat)
    requires |L| == |R| && p' == p + 16 && Carries(s, p, RawBits(L, R))
    ensures ReadRaw(s, p, 16, 32, |L|) == L && ReadRaw(s, p', 16, 32, |L|) == R
    decreases |L|
  {
    if L != [] {
      var l, r, q, q', rest, n := L[0], R[0], p + 32, p' + 32, RawBits(L[1..], R[1..]), |L[1..]|;
      RawValue(l, 16);
      RawValue(r, 16);
      Peel(s, p, Unsigned16(l), 16, ToBits(Unsigned16(r), 16) + rest, p');
      Peel(s, p', Unsigned16(r), 16, rest, q);
      RawRead(s, q, L[1..], R[1..], q');
      RawForm(s, p, q, |L|, n, l, L[1..], L, 16, 32);
      RawForm(s, p', q', |L|, n, r, R[1..], R, 16, 32);
    }
  }

  lemma RawForm(s: seq<byte>, p: nat, q: nat, n: nat, m: nat, x: int16, rest: seq<int16>, all: seq<int16>, w: nat,
                step: nat)
    requires w == 16 && n == m + 1 && q == p + step && SignExtend(Bits(s, p, w), w) == x
    requires ReadRaw(s, q, w, step, m) == rest && all == [x] + rest
    ensures ReadRaw(s, p, w, step, n) == all
  {
  }

  // Without mixing the channels are the samples.
  lemma Unmixed(L: seq<int16>, R: seq<int16>)
    requires |L| == |R|
    ensures Mid(L, R, 0, 0, 17) == L && Side(L, R, 0) == R
  {
    forall j | 0 <= j < |L|
      ensures SignExtend(MixU(L[j], R[j], 0, 0), 17) == L[j]
    {
      ShortFits(L[j]);
      SignExtendId(L[j], 17);
    }
  }

  // ---------- the frame ----------

  // A pair found at the start of a stereo frame fills it.
  lemma PairEnds(I: Input, D: Shape, p: nat, numSamples: nat, out: seq<int16>, tag: nat, q: nat, e: Element, n: nat)
    requires D.channels == 2 && numSamples <= D.frameLength && n <= D.frameLength && p / 8 < I.end && q == p + 3
    requires tag == Bits(I.s, p, 3) && e.Pair?
    requires (e, n) == ReadElement(ReaderOf(I, D.frameLength), I, tag, q, numSamples, 0, 2, D.frameLength)
    ensures DecodeFrame(I, D, p, numSamples, out)
            == Done(NO_ERR, e.next, n, PutAll(out, 0, 2, Frames16(e.u, e.v, e.mixbits, e.mixres), n))
  {
    ReaderAdvances(I, D.frameLength);
    ElementsForm(ReaderOf(I, D.frameLength), I, D, p, 0, numSamples, numSamples, out, q, e, n);
  }

  // A refused element ends the frame.
  lemma RefusedEnds(I: Input, D: Shape, p: nat, numSamples: nat, out: seq<int16>, tag: nat, q: nat, e: Element, n: nat)
    requires 0 < D.channels && numSamples <= D.frameLength && p / 8 < I.end && q == p + 3
    requires tag == Bits(I.s, p, 3) && e.Exit? && e.status == PARAM_ERROR
    requires (e, n) == ReadElement(ReaderOf(I, D.frameLength), I, tag, q, numSamples, 0, D.channels, D.frameLength)
    ensures DecodeFrame(I, D, p, numSamples, out) == Done(PARAM_ERROR, e.next, numSamples, out)
  {
    ReaderAdvances(I, D.frameLength);
    ElementsForm(ReaderOf(I, D.frameLength), I, D, p, 0, numSamples, numSamples, out, q, e, n);
  }

  lemma TagRead(s: seq<byte>, p: nat, tag: nat, rest: seq<bit>, q: nat)
    requires tag < 8 && q == p + 3 && Carries(s, p, ToBits(tag, 3) + rest)
    ensures Bits(s, p, 3) == tag && Carries(s, q, rest)
  {
    FieldPowers();
    Peel(s, p, tag, 3, rest, q);
  }

  // The samples in the buffer are those that were mixed.
  lemma StoredPair(L: seq<int16>, R: seq<int16>, mixbits: nat, mixres: int8, w: Width, out: seq<int16>, n: nat, j: nat)
    requires |L| == |R| == n && j < n && Room(0, 2, 2, n, |out|) && 1 <= w <= 17 && Mixable(L, R, mixbits, mixres, w)
    ensures var f := Frames16(Mid(L, R, mixbits, mixres, w), Side(L, R, mixres), mixbits, mixres);
            2 * j + 2 <= |out| && PutAll(out, 0, 2, f, n)[2 * j..2 * j + 2] == [L[j], R[j]]
  {
    var u, v := Mid(L, R, mixbits, mixres, w), Side(L, R, mixres);
    var f := Frames16(u, v, mixbits, mixres);
    if w < 17 {
      NarrowMid(MixU(L[j], R[j], mixbits, mixres), w);
    }
    FrameRestored(L[j], R[j], mixbits, mixres, u[j], v[j]);
    TimesIsProduct(j, 2);
    FrameSlice(out, 0, 2, f, 2, n, j, 2 * j);
  }

  // The outcome of a stereo frame whose samples are L and R: status, cursor and count, the samples
  // interleaved, and the rest of the buffer untouched.
  ghost predicate Delivers(r: Outcome, pos: nat, L: seq<int16>, R: seq<int16>, out: seq<int16>)
    requires |L| == |R|
  {
    && r.Done? && r.status == NO_ERR && r.pos == pos && r.count == |L|
    && |r.out| == |out| && 2 * |L| <= |out|
    && (forall j: nat {:trigger L[j]} | j < |L| :: r.out[2 * j] == L[j] && r.out[2 * j + 1] == R[j])
    && (forall k: nat | 2 * |L| <= k < |out| :: r.out[k] == out[k])
  }

  lemma AllStored(r: Outcome, L: seq<int16>, R: seq<int16>, mixbits: nat, mixres: int8, w: Width, out: seq<int16>,
                  pos: nat, n: nat)
    requires |L| == |R| == n && 2 * n <= |out| && 1 <= w <= 17 && Mixable(L, R, mixbits, mixres, w)
    requires r == Done(NO_ERR, pos, n, PutAll(out, 0, 2, Frames16(Mid(L, R, mixbits, mixres, w), Side(L, R, mixres),
                                                                  mixbits, mixres), n))
    ensures Delivers(r, pos, L, R, out)
  {
    var f := Frames16(Mid(L, R, mixbits, mixres, w), Side(L, R, mixres), mixbits, mixres);
    if n > 0 {
      TimesIsProduct(n - 1, 2);
    }
    forall j: nat | j < n
      ensures r.out[2 * j] == L[j] && r.out[2 * j + 1] == R[j]
    {
      StoredPair(L, R, mixbits, mixres, w, out, n, j);
      var pair := r.out[2 * j..2 * j + 2];
      assert pair[0] == L[j] && pair[1] == R[j];
    }
    forall k: nat | 2 * n <= k < |out|
      ensures r.out[k] == out[k]
    {
      TimesIsProduct(k / 2, 2);
      OtherSlotsKept(out, 0, 2, f, 2, n, k / 2, k % 2, k);
    }
  }

  // A bit string carried by the buffer, within its bounds.
  ghost predicate Inside(I: Input, p: nat, b: seq<bit>) {
    I.byteSize <= I.end && 8 * (I.end - I.byteSize) <= p && p + |b| <= 8 * I.end && Carries(I.s, p, b)
  }

  // Where a frame lies: within the buffer, and room for its samples behind it.
  ghost predicate Placed(I: Input, D: Shape, p: nat, b: seq<bit>, n: nat, out: seq<int16>) {
    D.channels == 2 && D.frameLength <= 65536 && n <= D.frameLength && 2 * n <= |out| && Inside(I, p, b)
  }

  // Can an encoder hold the samples in such a frame?
  ghost predicate Encodable(F: PairFrame, X: seq<int16>, Y: seq<int16>, frameLength: nat)
    requires |X| == |Y|
  {
    F.Valid(|X|, frameLength) &&
    Mixable(Uppers(X, F.shifted), Uppers(Y, F.shifted), F.mixbits, F.mixres, PairWidth(F.shifted))
  }

  // What a pair decodes to, by whether its codes begin in time.
  lemma PairOutcome(I: Input, D: Shape, p: nat, F: PairFrame, X: seq<int16>, Y: seq<int16>, numSamples: nat,
                    out: seq<int16>, q: nat, read: ChannelReader, code: ChannelCode, first: Timely, second: Timely,
                    w: Width, start: nat, next: nat, mid: seq<int32>, side: seq<int32>)
    requires |X| == |Y| && Encodable(F, X, Y, D.frameLength) && (F.partial || |X| == numSamples)
    requires numSamples <= D.frameLength && w == PairWidth(F.shifted) && read == ReaderOf(I, D.frameLength)
    requires D.channels == 2 && 2 * |X| <= |out| && mid == MidOf(F, X, Y) && side == SideOf(F, X, Y)
    requires Carries(I.s, p, PairBits(F, |X|, LowOf(F, X, Y), code, mid, side))
    requires q == p + |PairBits(F, |X|, LowOf(F, X, Y), code, mid, side)| <= 8 * I.end
    requires start == ChannelStart(F, |X|, p) && next == start + |code(F.U, mid)|
    requires Undoes(read, code, first, w, I.s, F.U, mid, |X|, 8 * I.end)
    requires Undoes(read, code, second, w, I.s, F.V, side, |X|, 8 * I.end)
    ensures var r := DecodeFrame(I, D, p, numSamples, out);
            if first(start) && second(next) then Delivers(r, q, Uppers(X, F.shifted), Uppers(Y, F.shifted), out)
            else r.Done? && r.status == PARAM_ERROR
  {
    var fl, n, p1 := D.frameLength, |X|, p + 3;
    var L, R := Uppers(X, F.shifted), Uppers(Y, F.shifted);
    var e := PairFound(I, read, LowOf(F, X, Y), code, first, second, p, p1, F, fl, mid, side, numSamples, q, n, w,
                       start, next);
    if first(start) && second(next) {
      PairEnds(I, D, p, numSamples, out, ID_CPE, p1, e, n);
      AllStored(DecodeFrame(I, D, p, numSamples, out), L, R, F.mixbits, F.mixres, w, out, q, n);
    } else {
      RefusedEnds(I, D, p, numSamples, out, ID_CPE, p1, e, n);
    }
  }

  // Whole-frame losslessness, compressed: every stereo block, every choice of mixing, taps, scale, coefficients,
  // mode and factor, at any bit of any buffer, gives its samples back, less the bytes shifted off; unless a code
  // begins past what the entropy decoder takes for the size of the buffer, when it is refused.
  lemma PairLossless(I: Input, D: Shape, p: nat, F: PairFrame, X: seq<int16>, Y: seq<int16>, numSamples: nat,
                     out: seq<int16>, q: nat)
    requires |X| == |Y| && Encodable(F, X, Y, D.frameLength) && (F.partial || |X| == numSamples)
    requires numSamples <= D.frameLength
    requires Placed(I, D, p, EncodePair(F, X, Y), |X|, out) && q == p + |EncodePair(F, X, Y)|
    ensures var r := DecodeFrame(I, D, p, numSamples, out);
            if PairInTime(I, F, X, Y, p) then Delivers(r, q, Uppers(X, F.shifted), Uppers(Y, F.shifted), out)
            else r.Done? && r.status == PARAM_ERROR
  {
    var fl, n, w := D.frameLength, |X|, PairWidth(F.shifted);
    var mid, side := MidOf(F, X, Y), SideOf(F, X, Y);
    var read, code := ReaderOf(I, fl), Coder(w);
    var first, second := TimelyOf(I, F.U, mid, w), TimelyOf(I, F.V, side, w);
    var start := ChannelStart(F, n, p);
    var next := SecondStart(F, X, Y, p);
    ChannelsFit(Uppers(X, F.shifted), Uppers(Y, F.shifted), F.mixbits, F.mixres, w);
    ReaderUndoes(I, read, code, first, w, F.U, mid, fl, n);
    ReaderUndoes(I, read, code, second, w, F.V, side, fl, n);
    PairOutcome(I, D, p, F, X, Y, numSamples, out, q, read, code, first, second, w, start, next, mid, side);
    BothInTime(I, F, X, Y, p, first, second, start, next);
  }

  lemma TimelyAt(I: Input, P: Params, signal: seq<int32>, w: Width, timely: Timely, p: nat)
    requires timely == TimelyOf(I, P, signal, w)
    ensures timely(p) <==> InTime(I, P, signal, w, p)
  {
  }

  lemma BothInTime(I: Input, F: PairFrame, X: seq<int16>, Y: seq<int16>, p: nat, first: Timely, second: Timely,
                   start: nat, next: nat)
    requires |X| == |Y| && F.shifted <= 2 && start == ChannelStart(F, |X|, p) && next == SecondStart(F, X, Y, p)
    requires first == TimelyOf(I, F.U, MidOf(F, X, Y), PairWidth(F.shifted))
    requires second == TimelyOf(I, F.V, SideOf(F, X, Y), PairWidth(F.shifted))
    ensures PairInTime(I, F, X, Y, p) <==> first(start) && second(next)
  {
  }

  // In a buffer whose size in bits fits in 32 of them all codes begin in time.
  lemma PairsInTime(I: Input, F: PairFrame, X: seq<int16>, Y: seq<int16>, p: nat)
    requires |X| == |Y| && F.shifted <= 2 && 8 * I.byteSize < TWO32 && Inside(I, p, EncodePair(F, X, Y))
    ensures PairInTime(I, F, X, Y, p)
  {
    var w, start := PairWidth(F.shifted), ChannelStart(F, |X|, p);
    var mid, side := MidOf(F, X, Y), SideOf(F, X, Y);
    var next := SecondStart(F, X, Y, p);
    var end := next + |ChannelBits(F.V, side, w)|;
    PairLength(F, |X|, LowOf(F, X, Y), Coder(w), mid, side, p, start, next, end);
    var first, second := TimelyOf(I, F.U, mid, w), TimelyOf(I, F.V, side, w);
    SmallBuffersInTime(I, F.U, mid, w, start, next);
    TimelyAt(I, F.U, mid, w, first, start);
    SmallBuffersInTime(I, F.V, side, w, next, end);
    TimelyAt(I, F.V, side, w, second, next);
    BothInTime(I, F, X, Y, p, first, second, start, next);
  }

  lemma PairLength(F: PairFrame, n: nat, low: seq<bit>, code: ChannelCode, mid: seq<int32>, side: seq<int32>, p: nat,
                   start: nat, next: nat, end: nat)
    requires start == ChannelStart(F, n, p) && |low| == Skip(n, 16 * F.shifted)
    requires next == start + |code(F.U, mid)| && end == next + |code(F.V, side)|
    ensures end == p + |PairBits(F, n, low, code, mid, side)|
  {
  }

  // In one whose size in bits is a multiple of 2^32 those of a pair with samples do not.
  lemma PairNeverInTime(I: Input, F: PairFrame, X: seq<int16>, Y: seq<int16>, p: nat)
    requires |X| == |Y| && 0 < |X| && F.shifted <= 2 && 8 * I.byteSize % TWO32 == 0
    ensures !PairInTime(I, F, X, Y, p)
  {
    var w, start, next := PairWidth(F.shifted), ChannelStart(F, |X|, p), SecondStart(F, X, Y, p);
    var mid, side := MidOf(F, X, Y), SideOf(F, X, Y);
    var first, second := TimelyOf(I, F.U, mid, w), TimelyOf(I, F.V, side, w);
    NeverInTime(I, F.U, mid, w, start);
    TimelyAt(I, F.U, mid, w, first, start);
    BothInTime(I, F, X, Y, p, first, second, start, next);
  }

  // The tag and the header read back, and the body behind them.
  lemma HeadRead(s: seq<byte>, p: nat, p1: nat, p2: nat, tag: nat, instance: nat, partial: bool, shifted: nat,
                 escape: nat, n: nat, count: nat, body: seq<bit>)
    requires tag < 8 && instance < 16 && shifted < 4 && escape < 2 && n < TWO32 && (partial || n == count)
    requires p1 == p + 3 && p2 == p1 + |HeaderBits(instance, partial, shifted, escape, n)|
    requires Carries(s, p, ToBits(tag, 3) + (HeaderBits(instance, partial, shifted, escape, n) + body))
    ensures Bits(s, p, 3) == tag && Carries(s, p2, body)
    ensures ReadHeader(s, p1, count) == Header(0, shifted, escape, n, p2)
  {
    var head := HeaderBits(instance, partial, shifted, escape, n);
    TagRead(s, p, tag, head + body, p1);
    Split(s, p1, head, body, p2);
    HeaderRead(s, p1, instance, partial, shifted, escape, n, count, p2);
  }

  // An encoded pair is found whole, by any reader that undoes the code.
  lemma PairFound(I: Input, read: ChannelReader, low: seq<bit>, code: ChannelCode, first: Timely, second: Timely,
                  p: nat, p1: nat, F: PairFrame, fl: nat, mid: seq<int32>, side: seq<int32>, numSamples: nat, q: nat,
                  n: nat, w: Width, start: nat, next: nat) returns (e: Element)
    requires F.Valid(n, fl) && w == PairWidth(F.shifted) && (F.partial || n == numSamples) && p1 == p + 3
    requires |low| == Skip(n, 16 * F.shifted) && Carries(I.s, p, PairBits(F, n, low, code, mid, side))
    requires q == p + |PairBits(F, n, low, code, mid, side)| <= 8 * I.end
    requires start == ChannelStart(F, n, p) && next == start + |code(F.U, mid)|
    requires Undoes(read, code, first, w, I.s, F.U, mid, n, 8 * I.end)
    requires Undoes(read, code, second, w, I.s, F.V, side, n, 8 * I.end)
    ensures Bits(I.s, p, 3) == ID_CPE && p / 8 < I.end
    ensures ReadElement(read, I, ID_CPE, p1, numSamples, 0, 2, fl) == (e, n)
    ensures if first(start) && second(next) then e == Pair(mid, side, F.mixbits, F.mixres, q)
            else e.Exit? && e.status == PARAM_ERROR
  {
    var p2 := p1 + |HeaderBits(F.instance, F.partial, F.shifted, 0, n)|;
    var h := Header(0, F.shifted, 0, n, p2);
    HeadRead(I.s, p, p1, p2, ID_CPE, F.instance, F.partial, F.shifted, 0, n, numSamples,
             PairBodyBits(F, low, code, mid, side));
    var M := BodyMarks(F, low, code, mid, side, p2);
    MarksOf(F, n, low, code, mid, side, p, p2, start, next, q, M);
    e := BodyFound(I.s, read, low, code, first, second, h, F, fl, mid, side, n, M, 8 * I.end, w);
    ElementForm(read, I, p1, numSamples, fl, h, e, n);
  }

  lemma MarksOf(F: PairFrame, n: nat, low: seq<bit>, code: ChannelCode, mid: seq<int32>, side: seq<int32>, p: nat,
                p2: nat, start: nat, next: nat, q: nat, M: Marks)
    requires p2 == p + 3 + |HeaderBits(F.instance, F.partial, F.shifted, 0, n)| && |low| == Skip(n, 16 * F.shifted)
    requires start == ChannelStart(F, n, p) && next == start + |code(F.U, mid)|
    requires q == p + |PairBits(F, n, low, code, mid, side)| && Marked(F, low, code(F.U, mid), code(F.V, side), p2, M)
    ensures M.p5 == start && M.p6 == next && M.p7 == q
  {
    PairLength(F, n, low, code, mid, side, p, start, next, next + |code(F.V, side)|);
  }

  lemma BodyFound(s: seq<byte>, read: ChannelReader, low: seq<bit>, code: ChannelCode, first: Timely, second: Timely,
                  h: Header, F: PairFrame, frameLength: nat, mid: seq<int32>, side: seq<int32>, n: nat, M: Marks,
                  end: nat, w: Width) returns (e: Element)
    requires F.Valid(n, frameLength) && h == Header(0, F.shifted, 0, n, h.next) && w == PairWidth(F.shifted)
    requires Carries(s, h.next, PairBodyBits(F, low, code, mid, side)) && |low| == Skip(n, 16 * F.shifted)
    requires Marked(F, low, code(F.U, mid), code(F.V, side), h.next, M) && M.p7 <= end
    requires Undoes(read, code, first, w, s, F.U, mid, n, end) && Undoes(read, code, second, w, s, F.V, side, n, end)
    ensures e == PairBody(read, s, h, frameLength)
    ensures if first(M.p5) && second(M.p6) then e == Pair(mid, side, F.mixbits, F.mixres, M.p7)
            else e.Exit? && e.status == PARAM_ERROR
  {
    e := PairBody(read, s, h, frameLength);
    BodyRead(s, read, low, code, first, second, h, F, frameLength, mid, side, n, M, end, w);
  }

  lemma BodyMarks(F: PairFrame, low: seq<bit>, code: ChannelCode, mid: seq<int32>, side: seq<int32>, p: nat)
    returns (M: Marks)
    ensures Marked(F, low, code(F.U, mid), code(F.V, side), p, M)
    ensures M.p7 == p + |PairBodyBits(F, low, code, mid, side)|
    ensures M.p5 == p + 16 + |ParamsBits(F.U)| + |ParamsBits(F.V)| + |low| && M.p6 == M.p5 + |code(F.U, mid)|
  {
    var p3 := p + 16 + |ParamsBits(F.U)|;
    var p4 := p3 + |ParamsBits(F.V)|;
    var p5 := p4 + |low|;
    var p6 := p5 + |code(F.U, mid)|;
    M := Marks(p + 8, p + 16, p3, p4, p5, p6, p6 + |code(F.V, side)|);
  }

  lemma ElementForm(read: ChannelReader, I: Input, p: nat, count: nat, fl: nat, h: Header, e: Element, n: nat)
    requires ReadHeader(I.s, p, count) == h == Header(0, h.shifted, h.escape, n, h.next) && h.shifted <= 2
    requires PairBody(read, I.s, h, fl) == e
    ensures ReadElement(read, I, ID_CPE, p, count, 0, 2, fl) == (e, n)
  {
  }

  // Whole-frame losslessness, uncompressed. The source never tests where raw samples end, so it is enough that the
  // frame starts in the buffer.
  lemma RawLossless(I: Input, D: Shape, p: nat, instance: nat, partial: bool, shifted: nat, L: seq<int16>,
                    R: seq<int16>, numSamples: nat, out: seq<int16>, q: nat)
    requires |L| == |R| <= D.frameLength <= 65536 && D.channels == 2 && 2 * |L| <= |out| && p < 8 * I.end
    requires instance < 16 && shifted <= 2 && (partial || |L| == numSamples) && numSamples <= D.frameLength
    requires Carries(I.s, p, EncodeRaw(instance, partial, shifted, L, R))
    requires q == p + |EncodeRaw(instance, partial, shifted, L, R)|
    ensures Delivers(DecodeFrame(I, D, p, numSamples, out), q, L, R, out)
  {
    var fl, n, p1 := D.frameLength, |L|, p + 3;
    var mid, side := Mid(L, R, 0, 0, 17), Side(L, R, 0);
    var e := Pair(mid, side, 0, 0, q);
    RawFound(I, p, p1, instance, partial, shifted, fl, L, R, mid, side, numSamples, q, n, e);
    PairEnds(I, D, p, numSamples, out, ID_CPE, p1, e, n);
    AllStored(DecodeFrame(I, D, p, numSamples, out), L, R, 0, 0, 17, out, q, n);
  }

  lemma RawFound(I: Input, p: nat, p1: nat, instance: nat, partial: bool, shifted: nat, fl: nat, L: seq<int16>,
                 R: seq<int16>, mid: seq<int32>, side: seq<int32>, numSamples: nat, q: nat, n: nat, e: Element)
    requires instance < 16 && shifted <= 2 && |L| == |R| == n <= fl <= 65536 && (partial || n == numSamples)
    requires p1 == p + 3 && mid == Mid(L, R, 0, 0, 17) && side == Side(L, R, 0) && p < 8 * I.end
    requires Carries(I.s, p, EncodeRaw(instance, partial, shifted, L, R))
    requires q == p + |EncodeRaw(instance, partial, shifted, L, R)| && e == Pair(mid, side, 0, 0, q)
    ensures Bits(I.s, p, 3) == ID_CPE && p / 8 < I.end
    ensures ReadElement(ReaderOf(I, fl), I, ID_CPE, p1, numSamples, 0, 2, fl) == (e, n)
  {
    var body := RawBits(L, R);
    var p2 := p1 + |HeaderBits(instance, partial, shifted, 1, n)|;
    var h := Header(0, shifted, 1, n, p2);
    HeadRead(I.s, p, p1, p2, ID_CPE, instance, partial, shifted, 1, n, numSamples, body);
    RawBodyFound(I.s, ReaderOf(I, fl), h, fl, L, R, mid, side, n, e);
    ElementForm(ReaderOf(I, fl), I, p1, numSamples, fl, h, e, n);
  }

  lemma RawBodyFound(s: seq<byte>, read: ChannelReader, h: Header, fl: nat, L: seq<int16>, R: seq<int16>,
                     mid: seq<int32>, side: seq<int32>, n: nat, e: Element)
    requires |L| == |R| == n <= fl && h == Header(0, h.shifted, 1, n, h.next) && h.shifted <= 2
    requires mid == Mid(L, R, 0, 0, 17) && side == Side(L, R, 0) && Carries(s, h.next, RawBits(L, R))
    requires e == Pair(mid, side, 0, 0, h.next + 32 * n)
    ensures PairBody(read, s, h, fl) == e
  {
    var p' := h.next + 16;
    RawRead(s, h.next, L, R, p');
    Unmixed(L, R);
    RawPairForm(read, s, h, fl, mid, side, n, p', 16);
  }

  lemma RawPairForm(read: ChannelReader, s: seq<byte>, h: Header, fl: nat, u: seq<int32>, v: seq<int32>, n: nat,
                    p': nat, w: nat)
    requires h == Header(0, h.shifted, 1, n, h.next) && h.shifted <= 2 && n <= fl && w == 16 && p' == h.next + w
    requires ReadRaw(s, h.next, w, 32, n) == u && ReadRaw(s, p', w, 32, n) == v
    ensures PairBody(read, s, h, fl) == Pair(u, v, 0, 0, h.next + 32 * n)
  {
  }
}
