/**
 Frames whose cursor ends behind the packet: the source accepts them, and what it gives out then depends on the
 memory behind the packet.
 */
module FramePastEnd {
  import opened Words
  import opened BitStream
  import opened Frames
  import opened Unmixing
  import opened FrameFormat
  import opened FrameElements
  import opened Agreement
  import opened FrameDetermined

  // ---------- the last bit of a raw sample ----------

  lemma {:induction false} RawAt(s: seq<byte>, p: nat, width: nat, step: nat, n: nat, j: nat, q: nat)
    requires 1 <= width <= 32 && j < n && q == p + Skip(j, step)
    ensures ReadRaw(s, p, width, step, n)[j] == SignExtend(Bits(s, q, width), width)
    decreases j
  {
    if j > 0 {
      var next, m, i := p + step, n - 1, j - 1;
      SkipFirst(j, step);
      RawAt(s, next, width, step, m, i, q);
      RawTail(s, p, next, width, step, n, m, j, i);
    }
  }

  lemma RawTail(s: seq<byte>, p: nat, next: nat, width: nat, step: nat, n: nat, m: nat, j: nat, i: nat)
    requires 1 <= width <= 32 && n == m + 1 && next == p + step && j == i + 1 < n
    ensures ReadRaw(s, p, width, step, n)[j] == ReadRaw(s, next, width, step, m)[i]
  {
  }

  lemma {:induction false} SkipFirst(n: nat, w: nat)
    requires n > 0
    ensures Skip(n, w) == w + Skip(n - 1, w)
  {
    if n > 1 {
      SkipFirst(n - 1, w);
    }
  }

  lemma {:induction false} LowParity(x: int, n: nat)
    requires n >= 1
    ensures Low(x, n) % 2 == x % 2
  {
  }

  lemma HalfEven(n: nat, half: int)
    requires n >= 1 && half == Pow2(n)
    ensures half % 2 == 0
  {
    assert half == Pow2(n - 1) + Pow2(n - 1);
  }

  // Sign extension keeps the last bit.
  lemma ExtendParity(x: int, b: nat)
    requires 2 <= b <= 32
    ensures SignExtend(x, b) % 2 == x % 2
  {
    var half := Pow2(b - 1);
    HalfEven(b - 1, half);
    LowParity(x + half, b);
    EvenMoved(x, Low(x + half, b), half);
  }

  lemma EvenMoved(x: int, low: int, half: int)
    requires half % 2 == 0 && low % 2 == (x + half) % 2
    ensures (low - half) % 2 == x % 2
  {
  }

  lemma WrapParity(x: int)
    ensures Wrap16(x) % 2 == x % 2
  {
  }

  // Samples whose last bits differ are stored as different samples.
  lemma StoredDiffer(s: seq<byte>, t: seq<byte>, p: nat, width: nat, q: nat)
    requires 2 <= width <= 32 && q == p + width - 1 && Bit(s, q) != Bit(t, q)
    ensures Wrap16(SignExtend(Bits(s, p, width), width)) != Wrap16(SignExtend(Bits(t, p, width), width))
  {
    var x, y := Bits(s, p, width), Bits(t, p, width);
    assert x % 2 == Bit(s, q) && y % 2 == Bit(t, q);
    ExtendParity(x, width);
    ExtendParity(y, width);
    WrapParity(SignExtend(x, width));
    WrapParity(SignExtend(y, width));
  }

  // ---------- frames that end in a raw element ----------

  // A raw element with samples, behind its tag.
  predicate RawHeader(s: seq<byte>, p: nat, count: nat) {
    ReadHeader(s, p, count).escape != 0 && ReadHeader(s, p, count).count > 0
  }

  // Is the element that fills the last channel a raw one?
  ghost predicate EndsRaw(read: ChannelReader, I: Input, D: Shape, p: nat, ch: nat, count: nat)
    requires ch < D.channels && count <= D.frameLength && Advances(read, D.frameLength)
    decreases if p < 8 * I.end then 8 * I.end - p else 0, 1
  {
    p / 8 < I.end &&
    var x := ReadElement(read, I, Bits(I.s, p, 3), p + 3, count, ch, D.channels, D.frameLength);
    ElementProper(read, I, D, Bits(I.s, p, 3), p + 3, ch, count, x.0, x.1);
    RawBehind(read, I, D, p, ch, count, x)
  }

  // The element found at p, or one behind it.
  ghost predicate RawBehind(read: ChannelReader, I: Input, D: Shape, p: nat, ch: nat, count: nat, x: (Element, nat))
    requires ch < D.channels && Advances(read, D.frameLength) && p < 8 * I.end && Proper(x.0, x.1, p + 3, ch, D)
    decreases if p < 8 * I.end then 8 * I.end - p else 0, 0
  {
    var n := x.1;
    match x.0
    case Skipped(r) => EndsRaw(read, I, D, r, ch, n)
    case Single(_, r) =>
      if ch + 1 == D.channels then RawHeader(I.s, p + 3, count) else EndsRaw(read, I, D, r, ch + 1, n)
    case Pair(_, _, _, _, r) =>
      if ch + 2 == D.channels then RawHeader(I.s, p + 3, count) else EndsRaw(read, I, D, r, ch + 2, n)
    case _ => false
  }

  // ---------- how far past the end an accepted frame runs ----------

  lemma ElementPast(I: Input, read: ChannelReader, tag: nat, q: nat, count: nat, ch: nat, D: Shape, e: Element, n: nat)
    requires EndsNear(read, I) && q <= 8 * I.end + 2
    requires (e, n) == ReadElement(read, I, tag, q, count, ch, D.channels, D.frameLength)
    requires (tag == ID_SCE || tag == ID_LFE || tag == ID_CPE) ==> ReadHeader(I.s, q, count).escape == 0
    requires !e.Undefined? && !(e.Exit? && e.status != NO_ERR) && !(e.NoMoreChannels? && e.status != NO_ERR)
    ensures e.next <= 8 * I.end + 8
  {
    if tag == ID_CPE && ch + 2 > D.channels {
    } else if tag == ID_SCE || tag == ID_LFE || tag == ID_CPE {
      var h := ReadHeader(I.s, q, count);
      if h.unused == 0 && h.shifted <= 2 {
        if tag == ID_CPE {
          PairPast(I, read, h, D.frameLength, h.next + 16, e);
        } else {
          SinglePast(I, read, h, D.frameLength, h.next + 16, e);
        }
      }
    }
  }

  // A channel that is restored ends by the end of the byte behind the packet.
  ghost predicate EndsNear(read: ChannelReader, I: Input) {
    forall p: nat, n: nat, P: Params, w: Width ::
      read(p, n, P, w).Restored? ==> read(p, n, P, w).next <= 8 * I.end + 7
  }

  lemma ReaderEndsNear(I: Input, frameLength: nat)
    ensures EndsNear(ReaderOf(I, frameLength), I)
  {
    forall p: nat, n: nat, P: Params, w: Width | ReadChannel(I, frameLength, p, n, P, w).Restored?
      ensures ReadChannel(I, frameLength, p, n, P, w).next <= 8 * I.end + 7
    {
    }
  }

  lemma ChannelPast(I: Input, read: ChannelReader, p: nat, n: nat, P: Params, w: Width)
    requires EndsNear(read, I) && ChannelAt(read, p, n, P, w).Restored?
    ensures ChannelAt(read, p, n, P, w).next <= 8 * I.end + 7
  {
  }

  lemma SinglePast(I: Input, read: ChannelReader, h: Header, fl: nat, p: nat, e: Element)
    requires EndsNear(read, I) && h.shifted <= 2 && h.escape == 0 && p == h.next + 16
    requires e == SingleBody(read, I.s, h, fl) && e.Single?
    ensures e.next <= 8 * I.end + 7
  {
    var w: Width := BIT_DEPTH - 8 * h.shifted;
    var (P, q) := ReadParams(I.s, p);
    var start := q + Skip32(h.count, 8 * h.shifted);
    SingleForm(read, I.s, h, fl, p, P, q, start, w);
    ChannelPast(I, read, start, h.count, P, w);
  }

  lemma PairPast(I: Input, read: ChannelReader, h: Header, fl: nat, p': nat, e: Element)
    requires EndsNear(read, I) && h.shifted <= 2 && h.escape == 0 && p' == h.next + 16
    requires e == PairBody(read, I.s, h, fl) && e.Pair?
    ensures e.next <= 8 * I.end + 7
  {
    var w: Width := BIT_DEPTH - 8 * h.shifted + 1;
    var p := h.next + 8;
    var (U, q) := ReadParams(I.s, p');
    var (V, r) := ReadParams(I.s, q);
    var start, n := r + Skip32(h.count, 16 * h.shifted), h.count;
    var mixbits, mixres := Bits(I.s, h.next, 8), Signed8(Bits(I.s, p, 8));
    var c := ChannelAt(read, start, n, U, w);
    PairForm(read, I.s, h, fl, p, p', U, q, V, r, start, mixbits, mixres);
    ChannelsForm(read, h.shifted, n, U, V, start, mixbits, mixres, w, c, ChannelAt(read, c.next, n, V, w));
    ChannelPast(I, read, c.next, n, V, w);
  }

  lemma ElementOf(read: ChannelReader, I: Input, tag: nat, q: nat, count: nat, ch: nat, D: Shape)
    returns (e: Element, n: nat)
    ensures (e, n) == ReadElement(read, I, tag, q, count, ch, D.channels, D.frameLength)
  {
    var found := ReadElement(read, I, tag, q, count, ch, D.channels, D.frameLength);
    e, n := found.0, found.1;
  }

  // Whether a frame ends raw, by the element at p: one that fills the last channel, or one the loop goes on behind.
  lemma EndsRawForm(read: ChannelReader, I: Input, D: Shape, p: nat, ch: nat, count: nat, e: Element, n: nat)
    requires ch < D.channels && count <= D.frameLength && Advances(read, D.frameLength) && p / 8 < I.end
    requires Proper(e, n, p + 3, ch, D)
    requires (e, n) == ReadElement(read, I, Bits(I.s, p, 3), p + 3, count, ch, D.channels, D.frameLength)
    ensures EndsRaw(read, I, D, p, ch, count) <==> RawBehind(read, I, D, p, ch, count, (e, n))
  {
  }

  lemma EndsRawHere(read: ChannelReader, I: Input, D: Shape, p: nat, ch: nat, count: nat, q: nat, e: Element, n: nat)
    requires ch < D.channels && Advances(read, D.frameLength) && q == p + 3 && p < 8 * I.end
    requires Proper(e, n, q, ch, D) && EndsHere(e, ch, D)
    ensures RawBehind(read, I, D, p, ch, count, (e, n)) <==> RawHeader(I.s, q, count)
  {
  }

  lemma EndsRawOn(read: ChannelReader, I: Input, D: Shape, p: nat, ch: nat, count: nat, q: nat, e: Element, n: nat,
                  out: seq<int16>, next: nat, stored: seq<int16>)
    requires ch < D.channels && Advances(read, D.frameLength) && q == p + 3 && p < 8 * I.end
    requires Proper(e, n, q, ch, D) && GoesOn(e, ch, n, out, D, next, stored)
    ensures RawBehind(read, I, D, p, ch, count, (e, n)) <==> EndsRaw(read, I, D, e.next, next, n)
  {
  }

  lemma EndsRawOnly(read: ChannelReader, I: Input, D: Shape, p: nat, ch: nat, count: nat, q: nat, e: Element, n: nat)
    requires ch < D.channels && Advances(read, D.frameLength) && q == p + 3 && p < 8 * I.end
    requires Proper(e, n, q, ch, D) && RawBehind(read, I, D, p, ch, count, (e, n))
    ensures e.Skipped? || e.Single? || e.Pair?
  {
  }

  // An accepted frame with samples runs more than a byte past the end only by raw samples.
  lemma {:induction false} AcceptedPast(read: ChannelReader, I: Input, D: Shape, p: nat, ch: nat, count: nat,
                                        given: nat, out: seq<int16>, r: Outcome)
    requires EndsNear(read, I) && ch < D.channels && count <= D.frameLength
    requires Advances(read, D.frameLength) && r == Elements(read, I, D, p, ch, count, given, out)
    requires r.Done? && r.status == NO_ERR && r.count > 0 && !EndsRaw(read, I, D, p, ch, count)
    ensures r.pos <= 8 * I.end + 8
    decreases if p < 8 * I.end then 8 * I.end - p else 0, 1
  {
    var e, n := FoundPast(read, I, D, p, ch, count, given, out, r);
    PastBehind(read, I, D, p, ch, count, given, out, p + 3, e, n, r);
  }

  lemma FoundPast(read: ChannelReader, I: Input, D: Shape, p: nat, ch: nat, count: nat, given: nat, out: seq<int16>,
                  r: Outcome) returns (e: Element, n: nat)
    requires ch < D.channels && count <= D.frameLength && Advances(read, D.frameLength)
    requires r == Elements(read, I, D, p, ch, count, given, out) && r.Done? && r.status == NO_ERR
    ensures p < 8 * I.end && Proper(e, n, p + 3, ch, D)
    ensures (e, n) == ReadElement(read, I, Bits(I.s, p, 3), p + 3, count, ch, D.channels, D.frameLength)
    ensures r == Follow(read, I, D, p, ch, given, out, e, n)
    ensures EndsRaw(read, I, D, p, ch, count) <==> RawBehind(read, I, D, p, ch, count, (e, n))
  {
    StartsInside(read, I, D, p, ch, count, given, out, r);
    e, n := ElementOf(read, I, Bits(I.s, p, 3), p + 3, count, ch, D);
    ElementProper(read, I, D, Bits(I.s, p, 3), p + 3, ch, count, e, n);
    FollowForm(read, I, D, p, ch, count, given, out, e, n);
    EndsRawForm(read, I, D, p, ch, count, e, n);
  }

  lemma StartsInside(read: ChannelReader, I: Input, D: Shape, p: nat, ch: nat, count: nat, given: nat, out: seq<int16>,
                     r: Outcome)
    requires ch < D.channels && count <= D.frameLength && Advances(read, D.frameLength)
    requires r == Elements(read, I, D, p, ch, count, given, out) && r.Done? && r.status == NO_ERR
    ensures p / 8 < I.end && p < 8 * I.end
  {
  }

  // The same from the element found at p.
  lemma {:induction false} PastBehind(read: ChannelReader, I: Input, D: Shape, p: nat, ch: nat, count: nat, given: nat,
                                      out: seq<int16>, q: nat, e: Element, n: nat, r: Outcome)
    requires EndsNear(read, I) && ch < D.channels && Advances(read, D.frameLength)
    requires p < 8 * I.end && q == p + 3 && Proper(e, n, q, ch, D)
    requires (e, n) == ReadElement(read, I, Bits(I.s, p, 3), q, count, ch, D.channels, D.frameLength)
    requires r == Follow(read, I, D, p, ch, given, out, e, n) && r.Done? && r.status == NO_ERR && r.count > 0
    requires !RawBehind(read, I, D, p, ch, count, (e, n))
    ensures r.pos <= 8 * I.end + 8
    decreases if p < 8 * I.end then 8 * I.end - p else 0, 0
  {
    if EndsHere(e, ch, D) {
      EndsRawHere(read, I, D, p, ch, count, q, e, n);
      LastOutcome(read, I, D, p, ch, given, out, e, n);
      LastPast(I, read, Bits(I.s, p, 3), q, count, ch, D, e, n);
    } else if e.Skipped? || e.Single? || e.Pair? {
      var next, stored := Stored(e, ch, n, out, D, q);
      EndsRawOn(read, I, D, p, ch, count, q, e, n, out, next, stored);
      GoneOn(read, I, D, p, ch, given, out, e, n, next, stored);
      AcceptedPast(read, I, D, e.next, next, n, GivenOn(e, given, n), stored, r);
    } else {
      ExitOutcome(read, I, D, p, ch, given, out, e, n);
      OtherPast(I, read, Bits(I.s, p, 3), q, count, ch, D, e, n);
    }
  }

  lemma LastPast(I: Input, read: ChannelReader, tag: nat, q: nat, count: nat, ch: nat, D: Shape, e: Element, n: nat)
    requires EndsNear(read, I) && q <= 8 * I.end + 2 && (e.Single? || e.Pair?) && n > 0
    requires (e, n) == ReadElement(read, I, tag, q, count, ch, D.channels, D.frameLength)
    requires !RawHeader(I.s, q, count)
    ensures e.next <= 8 * I.end + 8
  {
    ElementPast(I, read, tag, q, count, ch, D, e, n);
  }

  lemma OtherPast(I: Input, read: ChannelReader, tag: nat, q: nat, count: nat, ch: nat, D: Shape, e: Element, n: nat)
    requires q <= 8 * I.end + 2 && (e.Exit? || e.NoMoreChannels?) && e.status == NO_ERR
    requires (e, n) == ReadElement(read, I, tag, q, count, ch, D.channels, D.frameLength)
    ensures e.next <= 8 * I.end + 8
  {
  }

  // ---------- what it then depends on ----------

  // Inputs that agree up to bit k and differ there.
  ghost predicate Split(I: Input, J: Input, k: nat) {
    J == Input(J.s, I.byteSize, I.end) && Agree(I.s, J.s, k) && Bit(I.s, k) != Bit(J.s, k)
  }

  // The loop goes on behind every element it follows, so the last one ends last, and behind its header.
  lemma {:induction false} RawEndsLater(read: ChannelReader, I: Input, D: Shape, p: nat, ch: nat, count: nat,
                                        given: nat, out: seq<int16>, r: Outcome)
    requires ch < D.channels && count <= D.frameLength && Advances(read, D.frameLength)
    requires r == Elements(read, I, D, p, ch, count, given, out) && r.Done? && EndsRaw(read, I, D, p, ch, count)
    ensures p + 3 < r.pos
    decreases if p < 8 * I.end then 8 * I.end - p else 0
  {
    var tag, q := Bits(I.s, p, 3), p + 3;
    var e, n := ElementOf(read, I, tag, q, count, ch, D);
    ElementsForm(read, I, D, p, ch, count, given, out, q, e, n);
    EndsRawForm(read, I, D, p, ch, count, e, n);
    if EndsHere(e, ch, D) {
      LastOutcome(read, I, D, p, ch, given, out, e, n);
      RawElementEnds(read, I, tag, q, count, ch, D, e, n);
    } else {
      EndsRawOnly(read, I, D, p, ch, count, q, e, n);
      var next, stored := Stored(e, ch, n, out, D, q);
      EndsRawOn(read, I, D, p, ch, count, q, e, n, out, next, stored);
      GoneOn(read, I, D, p, ch, given, out, e, n, next, stored);
      RawEndsLater(read, I, D, e.next, next, n, GivenOn(e, given, n), stored, r);
    }
  }

  lemma RawElementEnds(read: ChannelReader, I: Input, tag: nat, q: nat, count: nat, ch: nat, D: Shape, e: Element,
                       n: nat)
    requires Advances(read, D.frameLength) && (e.Single? || e.Pair?)
    requires (e, n) == ReadElement(read, I, tag, q, count, ch, D.channels, D.frameLength)
    ensures q < e.next
  {
    var h := ReadHeader(I.s, q, count);
    if h.shifted <= 2 {
      if tag == ID_CPE {
        PairMoves(read, I.s, h, D.frameLength);
      } else {
        SingleMoves(read, I.s, h, D.frameLength);
      }
    }
  }

  // A raw single channel whose last bit differs.
  lemma RawSingleDiffers(read: ChannelReader, read': ChannelReader, s: seq<byte>, t: seq<byte>, h: Header, fl: nat,
                         k: nat, e: Element, n: nat)
    requires h.shifted <= 2 && h.escape != 0 && n == h.count > 0 && e == SingleBody(read, s, h, fl) && e.Single?
    requires e.next == k + 1 && Bit(s, k) != Bit(t, k)
    ensures var e' := SingleBody(read', t, h, fl);
            e'.Single? && e'.next == e.next && |e.u| == |e'.u| == n && Wrap16(e.u[n - 1]) != Wrap16(e'.u[n - 1])
  {
    var w := BIT_DEPTH - 8 * h.shifted;
    var q := h.next + Skip(n - 1, w);
    RawAt(s, h.next, w, w, n, n - 1, q);
    RawAt(t, h.next, w, w, n, n - 1, q);
    StoredDiffer(s, t, q, w, k);
  }

  lemma RawPairForm(read: ChannelReader, s: seq<byte>, h: Header, fl: nat, e: Element)
    requires h.shifted <= 2 && h.escape != 0 && h.count > 0 && e == PairBody(read, s, h, fl) && e.Pair?
    ensures e.mixres == 0 && |e.v| == h.count && e.v == ReadRaw(s, h.next + 16, 16, 32, h.count)
    ensures e.next == h.next + 32 + Skip(h.count - 1, 32) && h.count <= fl
  {
    SkipIsProduct(h.count - 1, 32);
  }

  lemma RawPairDiffers(read: ChannelReader, read': ChannelReader, s: seq<byte>, t: seq<byte>, h: Header, fl: nat,
                       k: nat, e: Element, e': Element, n: nat)
    requires h.shifted <= 2 && h.escape != 0 && n == h.count > 0 && e == PairBody(read, s, h, fl) && e.Pair?
    requires e.next == k + 1 && Bit(s, k) != Bit(t, k) && e' == PairBody(read', t, h, fl)
    ensures e'.Pair? && e'.next == e.next && |e.v| == |e'.v| == n && e.mixres == e'.mixres == 0
    ensures Wrap16(e.v[n - 1]) != Wrap16(e'.v[n - 1])
  {
    RawPairForm(read, s, h, fl, e);
    RawPairForm(read', t, h, fl, e');
    var p', q := h.next + 16, h.next + 16 + Skip(n - 1, 32);
    RawAt(s, p', 16, 32, n, n - 1, q);
    RawAt(t, p', 16, 32, n, n - 1, q);
    StoredDiffer(s, t, q, 16, k);
  }

  // What the last raw element stores differs, so the outcome does.
  lemma LastSingleDiffers(D: Shape, ch: nat, n: nat, out: seq<int16>, u: seq<int32>, u': seq<int32>, i: nat, q: nat)
    requires ch < D.channels && |u| == |u'| == n && n == i + 1 <= D.frameLength
    requires |out| == Times(D.frameLength, D.channels)
    requires Wrap16(u[i]) != Wrap16(u'[i]) && q == ch + Times(i, D.channels)
    ensures PutAll(out, ch, D.channels, Mono16(u), n) != PutAll(out, ch, D.channels, Mono16(u'), n)
  {
    TimesMono(i, D.frameLength, D.channels);
    FrameReadBack(out, ch, D.channels, Mono16(u), 1, n, i, 0, q);
    FrameReadBack(out, ch, D.channels, Mono16(u'), 1, n, i, 0, q);
  }

  lemma LastPairDiffers(D: Shape, ch: nat, n: nat, out: seq<int16>, u: seq<int32>, u': seq<int32>, v: seq<int32>,
                        v': seq<int32>, mixbits: nat, mixbits': nat, i: nat, q: nat)
    requires ch + 2 <= D.channels && |v| == |v'| == n && n == i + 1 <= D.frameLength
    requires |out| == Times(D.frameLength, D.channels)
    requires Wrap16(v[i]) != Wrap16(v'[i]) && q == ch + Times(i, D.channels) + 1
    ensures PutAll(out, ch, D.channels, Frames16(u, v, mixbits, 0), n)
            != PutAll(out, ch, D.channels, Frames16(u', v', mixbits', 0), n)
  {
    TimesMono(i, D.frameLength, D.channels);
    FrameReadBack(out, ch, D.channels, Frames16(u, v, mixbits, 0), 2, n, i, 1, q);
    FrameReadBack(out, ch, D.channels, Frames16(u', v', mixbits', 0), 2, n, i, 1, q);
  }

  // The last element, raw, in both inputs: the same but for its last sample.
  lemma LastSingle(read: ChannelReader, read': ChannelReader, I: Input, J: Input, tag: nat, q: nat, count: nat, ch: nat,
                   D: Shape, k: nat, e: Element, n: nat, e': Element, n': nat)
    requires Split(I, J, k) && (e, n) == ReadElement(read, I, tag, q, count, ch, D.channels, D.frameLength)
    requires (e', n') == ReadElement(read', J, tag, q, count, ch, D.channels, D.frameLength)
    requires e.Single? && e.next == k + 1 && RawHeader(I.s, q, count)
    ensures e'.Single? && e'.next == e.next && n' == n > 0 && |e.u| == |e'.u| == n
    ensures Wrap16(e.u[n - 1]) != Wrap16(e'.u[n - 1])
  {
    var h, h' := ReadHeader(I.s, q, count), ReadHeader(J.s, q, count);
    HeaderBefore(h, BIT_DEPTH - 8 * h.shifted, n, e.next, k);
    HeaderAgrees(I.s, J.s, q, count, k, h, h');
    RawSingleDiffers(read, read', I.s, J.s, h, D.frameLength, k, e, n);
  }

  lemma HeaderBefore(h: Header, w: nat, n: nat, end: nat, k: nat)
    requires n > 0 && w > 0 && end == h.next + Skip(n, w) && end == k + 1
    ensures h.next <= k
  {
  }

  lemma LastPair(read: ChannelReader, read': ChannelReader, I: Input, J: Input, tag: nat, q: nat, count: nat, ch: nat,
                 D: Shape, k: nat, e: Element, n: nat, e': Element, n': nat)
    requires Split(I, J, k) && (e, n) == ReadElement(read, I, tag, q, count, ch, D.channels, D.frameLength)
    requires (e', n') == ReadElement(read', J, tag, q, count, ch, D.channels, D.frameLength)
    requires e.Pair? && e.next == k + 1 && RawHeader(I.s, q, count)
    ensures e'.Pair? && e'.next == e.next && n' == n > 0 && |e.v| == |e'.v| == n && e.mixres == e'.mixres == 0
    ensures Wrap16(e.v[n - 1]) != Wrap16(e'.v[n - 1])
  {
    var h, h' := ReadHeader(I.s, q, count), ReadHeader(J.s, q, count);
    assert h.next <= k;
    HeaderAgrees(I.s, J.s, q, count, k, h, h');
    RawPairDiffers(read, read', I.s, J.s, h, D.frameLength, k, e, e', n);
  }

  // Behind a last element whose samples differ the outcomes differ.
  lemma LastSingleEnds(read: ChannelReader, read': ChannelReader, I: Input, J: Input, D: Shape, p: nat, ch: nat,
                       given: nat, out: seq<int16>, e: Element, e': Element, n: nat)
    requires Advances(read, D.frameLength) && Advances(read', D.frameLength) && J.end == I.end && p < 8 * I.end
    requires ch + 1 == D.channels && 0 < n <= D.frameLength && |out| == Times(D.frameLength, D.channels)
    requires e.Single? && e'.Single? && p + 3 <= e.next == e'.next && |e.u| == |e'.u| == n
    requires Wrap16(e.u[n - 1]) != Wrap16(e'.u[n - 1])
    ensures Follow(read', J, D, p, ch, given, out, e', n) != Follow(read, I, D, p, ch, given, out, e, n)
  {
    var i := n - 1;
    TimesMono(0, i, D.channels);
    LastSingleDiffers(D, ch, n, out, e.u, e'.u, i, ch + Times(i, D.channels));
  }

  lemma LastPairEnds(read: ChannelReader, read': ChannelReader, I: Input, J: Input, D: Shape, p: nat, ch: nat,
                     given: nat, out: seq<int16>, e: Element, e': Element, n: nat)
    requires Advances(read, D.frameLength) && Advances(read', D.frameLength) && J.end == I.end && p < 8 * I.end
    requires ch + 2 == D.channels && 0 < n <= D.frameLength && |out| == Times(D.frameLength, D.channels)
    requires e.Pair? && e'.Pair? && p + 3 <= e.next == e'.next && |e.v| == |e'.v| == n && e.mixres == e'.mixres == 0
    requires Wrap16(e.v[n - 1]) != Wrap16(e'.v[n - 1])
    ensures Follow(read', J, D, p, ch, given, out, e', n) != Follow(read, I, D, p, ch, given, out, e, n)
  {
    var i := n - 1;
    TimesMono(0, i, D.channels);
    LastPairDiffers(D, ch, n, out, e.u, e'.u, e.v, e'.v, e.mixbits, e'.mixbits, i, ch + Times(i, D.channels) + 1);
  }

  // A frame that ends in a raw element decodes differently when its last bit differs.
  lemma {:induction false} RawDepends(read: ChannelReader, read': ChannelReader, I: Input, J: Input, D: Shape, p: nat,
                                      ch: nat, count: nat, given: nat, out: seq<int16>, k: nat, r: Outcome)
    requires Alike(read, read', I, J, D, k) && Split(I, J, k) && ch < D.channels && count <= D.frameLength
    requires r == Elements(read, I, D, p, ch, count, given, out) && r.Done? && r.pos == k + 1
    requires EndsRaw(read, I, D, p, ch, count) && |out| == Times(D.frameLength, D.channels)
    ensures Elements(read', J, D, p, ch, count, given, out) != r
    decreases if p < 8 * I.end then 8 * I.end - p else 0, 1
  {
    var tag, q := Bits(I.s, p, 3), p + 3;
    RawEndsLater(read, I, D, p, ch, count, given, out, r);
    BitsAgree(I.s, J.s, p, 3, k);
    var e, n := ElementOf(read, I, tag, q, count, ch, D);
    var e', n' := ElementOf(read', J, tag, q, count, ch, D);
    ElementsForm(read, I, D, p, ch, count, given, out, q, e, n);
    ElementsForm(read', J, D, p, ch, count, given, out, q, e', n');
    EndsRawForm(read, I, D, p, ch, count, e, n);
    if EndsHere(e, ch, D) {
      EndsRawHere(read, I, D, p, ch, count, q, e, n);
      LastOutcome(read, I, D, p, ch, given, out, e, n);
      LastDepends(read, read', I, J, D, p, q, tag, ch, count, given, out, k, e, n, e', n');
    } else {
      EndsRawOnly(read, I, D, p, ch, count, q, e, n);
      var next, stored := Stored(e, ch, n, out, D, q);
      EndsRawOn(read, I, D, p, ch, count, q, e, n, out, next, stored);
      GoneOn(read, I, D, p, ch, given, out, e, n, next, stored);
      RawEndsLater(read, I, D, e.next, next, n, GivenOn(e, given, n), stored, r);
      ElementAgrees(read, read', I, J, tag, q, count, ch, D, k, e, n);
      GoneOn(read', J, D, p, ch, given, out, e, n, next, stored);
      RawDepends(read, read', I, J, D, e.next, next, n, GivenOn(e, given, n), stored, k, r);
    }
  }

  lemma LastDepends(read: ChannelReader, read': ChannelReader, I: Input, J: Input, D: Shape, p: nat, q: nat, tag: nat,
                    ch: nat, count: nat, given: nat, out: seq<int16>, k: nat, e: Element, n: nat, e': Element, n': nat)
    requires Alike(read, read', I, J, D, k) && Split(I, J, k) && ch < D.channels && n <= D.frameLength && p < 8 * I.end
    requires (e, n) == ReadElement(read, I, tag, q, count, ch, D.channels, D.frameLength) && q == p + 3
    requires (e', n') == ReadElement(read', J, tag, q, count, ch, D.channels, D.frameLength)
    requires Proper(e, n, q, ch, D) && Proper(e', n', q, ch, D) && EndsHere(e, ch, D) && RawHeader(I.s, q, count)
    requires e.next == k + 1 && |out| == Times(D.frameLength, D.channels)
    ensures Follow(read', J, D, p, ch, given, out, e', n') != Follow(read, I, D, p, ch, given, out, e, n)
  {
    if e.Single? {
      LastSingle(read, read', I, J, tag, q, count, ch, D, k, e, n, e', n');
      LastSingleEnds(read, read', I, J, D, p, ch, given, out, e, e', n);
    } else {
      LastPair(read, read', I, J, tag, q, count, ch, D, k, e, n, e', n');
      LastPairEnds(read, read', I, J, D, p, ch, given, out, e, e', n);
    }
  }

  // ---------- the exact condition ----------

  // The same bits up to bit k, and the other one there.
  function FlippedBits(s: seq<byte>, k: nat): (b: seq<bit>)
    ensures |b| == k + 1
  {
    seq(k + 1, (i: nat) => if i == k then 1 - Bit(s, i) else Bit(s, i))
  }

  lemma Flipped(s: seq<byte>, k: nat) returns (t: seq<byte>)
    ensures Agree(s, t, k) && Bit(t, k) != Bit(s, k)
  {
    var b := FlippedBits(s, k);
    t := Pack(b) + [];
    PackCarries(b, []);
    forall q: nat | q <= k
      ensures Bit(t, q) == b[q]
    {
      CarriesAt(t, 0, b, q);
    }
  }

  lemma Shorter(s: seq<byte>, t: seq<byte>, k: nat, m: nat)
    requires Agree(s, t, k) && m <= k
    ensures Agree(s, t, m)
  {
  }

  // A frame that ends in a raw element is determined by the bytes of the packet exactly when its cursor ends
  // within them.
  lemma RawDetermined(I: Input, D: Shape, p: nat, numSamples: nat, out: seq<int16>, r: Outcome)
    requires 0 < D.channels && numSamples <= D.frameLength && |out| == Times(D.frameLength, D.channels)
    requires r == DecodeFrame(I, D, p, numSamples, out) && r.Done?
    requires Advances(ReaderOf(I, D.frameLength), D.frameLength)
    requires EndsRaw(ReaderOf(I, D.frameLength), I, D, p, 0, numSamples)
    ensures DeterminedBy(8 * I.end, I, D, p, numSamples, out) <==> r.pos <= 8 * I.end
  {
    if r.pos <= 8 * I.end {
      CursorDetermines(I, D, p, numSamples, out, 8 * I.end);
    } else {
      var k := r.pos - 1;
      var t := Flipped(I.s, k);
      var J := Input(t, I.byteSize, I.end);
      var read, read' := ReaderOf(I, D.frameLength), ReaderOf(J, D.frameLength);
      ReaderAdvances(J, D.frameLength);
      ChannelsAgree(I, J, read, read', D.frameLength, k);
      RawDepends(read, read', I, J, D, p, 0, numSamples, numSamples, out, k, r);
      Shorter(I.s, t, k, 8 * I.end);
      assert DecodeFrame(J, D, p, numSamples, out) != r;
    }
  }

  // An accepted frame with samples whose cursor is more than a byte past the packet ends in a raw element.
  lemma PastByRaw(I: Input, D: Shape, p: nat, numSamples: nat, out: seq<int16>, r: Outcome)
    requires 0 < D.channels && numSamples <= D.frameLength && r == DecodeFrame(I, D, p, numSamples, out)
    requires r.Done? && r.status == NO_ERR && r.count > 0 && r.pos > 8 * I.end + 8
    ensures Advances(ReaderOf(I, D.frameLength), D.frameLength)
    ensures EndsRaw(ReaderOf(I, D.frameLength), I, D, p, 0, numSamples)
  {
    ReaderAdvances(I, D.frameLength);
    ReaderEndsNear(I, D.frameLength);
    if !EndsRaw(ReaderOf(I, D.frameLength), I, D, p, 0, numSamples) {
      AcceptedPast(ReaderOf(I, D.frameLength), I, D, p, 0, numSamples, numSamples, out, r);
    }
  }
}
