/**
 What a frame is decoded from: only bits before the final cursor. A frame whose cursor stays within the packet is
 decoded alike whatever memory lies behind it.
 */
module FrameDetermined {
  import opened Words
  import opened BitStream
  import opened Matrix
  import opened Frames
  import opened Unmixing
  import opened FrameFormat
  import opened FrameElements
  import opened Agreement

  // ---------- elements ----------

  // A compressed single channel from its parts, in both inputs.
  lemma SingleAgrees(read: ChannelReader, read': ChannelReader, s: seq<byte>, t: seq<byte>, h: Header, fl: nat, k: nat,
                     p: nat, e: Element)
    requires SameChannels(read, read', k) && Agree(s, t, k) && h.shifted <= 2 && p == h.next + 16
    requires e == SingleBody(read, s, h, fl) && !e.Undefined? && e.next <= k
    ensures SingleBody(read', t, h, fl) == e && h.next <= e.next
  {
    var w: Width := BIT_DEPTH - 8 * h.shifted;
    if h.escape == 0 {
      var (P, q) := ReadParams(s, p);
      var start := q + Skip32(h.count, 8 * h.shifted);
      SingleForm(read, s, h, fl, p, P, q, start, w);
      ChannelKept(read, read', start, h.count, P, w, k);
      ParamsAgree(s, t, p, k);
      SingleForm(read', t, h, fl, p, P, q, start, w);
    } else if h.count > 0 {
      RawAgrees(s, t, h.next, w, w, h.count, k);
    }
  }

  lemma ChannelKept(read: ChannelReader, read': ChannelReader, start: nat, n: nat, P: Params, w: Width, k: nat)
    requires SameChannels(read, read', k)
    ensures start <= ChannelAt(read, start, n, P, w).next
    ensures ChannelAt(read, start, n, P, w).next <= k ==>
              ChannelAt(read', start, n, P, w) == ChannelAt(read, start, n, P, w)
  {
  }

  lemma PairChannelsAgree(read: ChannelReader, read': ChannelReader, n: nat, U: Params, V: Params, start: nat,
                          mixbits: nat, mixres: int8, w: Width, k: nat, c: ChannelData, d: ChannelData, e: Element)
    requires SameChannels(read, read', k)
    requires c == ChannelAt(read, start, n, U, w) && d == ChannelAt(read, c.next, n, V, w)
    requires e == PairOf(c, d, n, mixbits, mixres) && !e.Undefined? && e.next <= k
    ensures ChannelAt(read', start, n, U, w) == c && start <= e.next
    ensures PairOf(c, ChannelAt(read', c.next, n, V, w), n, mixbits, mixres) == e
  {
    ChannelKept(read, read', start, n, U, w, k);
    ChannelKept(read, read', c.next, n, V, w, k);
  }

  lemma PairAgrees(read: ChannelReader, read': ChannelReader, s: seq<byte>, t: seq<byte>, h: Header, fl: nat, k: nat,
                   p: nat, p': nat, e: Element)
    requires SameChannels(read, read', k) && Agree(s, t, k) && h.shifted <= 2 && h.escape == 0
    requires p == h.next + 8 && p' == p + 8 && e == PairBody(read, s, h, fl) && !e.Undefined? && e.next <= k
    ensures PairBody(read', t, h, fl) == e && h.next <= e.next
  {
    var w: Width := BIT_DEPTH - 8 * h.shifted + 1;
    var (U, q) := ReadParams(s, p');
    var (V, r) := ReadParams(s, q);
    var start, n := r + Skip32(h.count, 16 * h.shifted), h.count;
    var mixbits, mixres := Bits(s, h.next, 8), Signed8(Bits(s, p, 8));
    var c := ChannelAt(read, start, n, U, w);
    var d, d' := ChannelAt(read, c.next, n, V, w), ChannelAt(read', c.next, n, V, w);
    PairForm(read, s, h, fl, p, p', U, q, V, r, start, mixbits, mixres);
    ChannelsForm(read, h.shifted, n, U, V, start, mixbits, mixres, w, c, d);
    PairChannelsAgree(read, read', n, U, V, start, mixbits, mixres, w, k, c, d, e);
    ParamsAgree(s, t, p', k);
    ParamsAgree(s, t, q, k);
    BitsAgree(s, t, h.next, 8, k);
    BitsAgree(s, t, p, 8, k);
    PairForm(read', t, h, fl, p, p', U, q, V, r, start, mixbits, mixres);
    ChannelsForm(read', h.shifted, n, U, V, start, mixbits, mixres, w, c, d');
  }

  lemma RawPairAgrees(read: ChannelReader, read': ChannelReader, s: seq<byte>, t: seq<byte>, h: Header, fl: nat, k: nat,
                      e: Element)
    requires Agree(s, t, k) && h.shifted <= 2 && h.escape != 0
    requires e == PairBody(read, s, h, fl) && !e.Undefined? && e.next <= k
    ensures PairBody(read', t, h, fl) == e && h.next <= e.next
  {
    var n := h.count;
    if n > 0 {
      SkipIsProduct(n - 1, 32);
      RawAgrees(s, t, h.next, 16, 32, n, k);
      RawAgrees(s, t, h.next + 16, 16, 32, n, k);
    }
  }

  lemma AudioAgrees(read: ChannelReader, read': ChannelReader, s: seq<byte>, t: seq<byte>, pair: bool, h: Header,
                    h': Header, p: nat, count: nat, fl: nat, k: nat, e: Element)
    requires SameChannels(read, read', k) && Agree(s, t, k)
    requires h == ReadHeader(s, p, count) && h' == ReadHeader(t, p, count)
    requires e == AudioElement(read, s, pair, h, p, fl) && !e.Undefined? && e.next <= k
    ensures AudioElement(read', t, pair, h', p, fl) == e && p <= e.next && (e.Exit? || h'.count == h.count)
  {
    if h.unused == 0 && h.shifted <= 2 {
      if pair {
        if h.escape == 0 {
          PairAgrees(read, read', s, t, h, fl, k, h.next + 8, h.next + 16, e);
        } else {
          RawPairAgrees(read, read', s, t, h, fl, k, e);
        }
      } else {
        SingleAgrees(read, read', s, t, h, fl, k, h.next + 16, e);
      }
    }
    HeaderAgrees(s, t, p, count, k, h, h');
  }

  lemma DataStreamAgrees(I: Input, J: Input, p: nat, k: nat)
    requires J == Input(J.s, I.byteSize, I.end) && Agree(I.s, J.s, k) && DataStream(I, p).next <= k
    ensures DataStream(J, p) == DataStream(I, p) && p <= DataStream(I, p).next
  {
    BitsAgree(I.s, J.s, p + 5, 8, k);
    BitsAgree(I.s, J.s, p + 4, 1, k);
    if Bits(I.s, p + 5, 8) == 255 {
      BitsAgree(I.s, J.s, p + 13, 8, k);
    }
  }

  lemma FillAgrees(I: Input, J: Input, p: nat, k: nat)
    requires J == Input(J.s, I.byteSize, I.end) && Agree(I.s, J.s, k) && Fill(I, p).next <= k
    ensures Fill(J, p) == Fill(I, p) && p <= Fill(I, p).next
  {
    BitsAgree(I.s, J.s, p, 4, k);
    if Bits(I.s, p, 4) == 15 {
      BitsAgree(I.s, J.s, p + 4, 8, k);
    }
  }

  // An element that ends by bit k is found alike in both inputs.
  lemma ElementAgrees(read: ChannelReader, read': ChannelReader, I: Input, J: Input, tag: nat, p: nat, count: nat,
                      ch: nat, D: Shape, k: nat, e: Element, n: nat)
    requires J == Input(J.s, I.byteSize, I.end) && Agree(I.s, J.s, k) && SameChannels(read, read', k)
    requires (e, n) == ReadElement(read, I, tag, p, count, ch, D.channels, D.frameLength)
    requires !e.Undefined? && e.next <= k
    ensures var (e', n') := ReadElement(read', J, tag, p, count, ch, D.channels, D.frameLength);
            e' == e && p <= e.next && (e.Exit? || n' == n)
  {
    if tag == ID_CPE && ch + 2 > D.channels {
    } else if tag == ID_SCE || tag == ID_LFE || tag == ID_CPE {
      var h, h' := ReadHeader(I.s, p, count), ReadHeader(J.s, p, count);
      AudioAgrees(read, read', I.s, J.s, tag == ID_CPE, h, h', p, count, D.frameLength, k, e);
    } else if tag == ID_DSE {
      DataStreamAgrees(I, J, p, k);
    } else if tag == ID_FIL {
      FillAgrees(I, J, p, k);
    }
  }

  // ---------- the loop ----------

  // Two runs of the loop over inputs that agree up to bit k.
  ghost predicate Alike(read: ChannelReader, read': ChannelReader, I: Input, J: Input, D: Shape, k: nat) {
    && J == Input(J.s, I.byteSize, I.end) && Agree(I.s, J.s, k) && SameChannels(read, read', k)
    && Advances(read, D.frameLength) && Advances(read', D.frameLength)
  }

  // A run that ends by bit k ends alike, behind where it started.
  lemma {:induction false} LoopAgrees(read: ChannelReader, read': ChannelReader, I: Input, J: Input, D: Shape, p: nat,
                                      ch: nat, count: nat, given: nat, out: seq<int16>, k: nat)
    requires Alike(read, read', I, J, D, k) && ch < D.channels && count <= D.frameLength
    requires Elements(read, I, D, p, ch, count, given, out).Done?
    requires Elements(read, I, D, p, ch, count, given, out).pos <= k
    ensures Elements(read', J, D, p, ch, count, given, out) == Elements(read, I, D, p, ch, count, given, out)
    ensures p <= Elements(read, I, D, p, ch, count, given, out).pos
    decreases if p < 8 * I.end then 8 * I.end - p else 0, 2
  {
    if p / 8 < I.end {
      var q, tag := p + 3, Bits(I.s, p, 3);
      var (e, n) := ReadElement(read, I, tag, q, count, ch, D.channels, D.frameLength);
      ElementsForm(read, I, D, p, ch, count, given, out, q, e, n);
      BehindAgrees(read, read', I, J, D, p, ch, given, out, e, n, k);
      ElementAgrees(read, read', I, J, tag, q, count, ch, D, k, e, n);
      BitsAgree(I.s, J.s, p, 3, k);
      var (e', n') := ReadElement(read', J, tag, q, count, ch, D.channels, D.frameLength);
      ElementsForm(read', J, D, p, ch, count, given, out, q, e', n');
      CountIgnored(read', J, D, p, ch, given, out, e, n, n');
    }
  }

  lemma CountIgnored(read: ChannelReader, I: Input, D: Shape, p: nat, ch: nat, given: nat, out: seq<int16>, e: Element,
                     n: nat, n': nat)
    requires ch < D.channels && Advances(read, D.frameLength) && p < 8 * I.end && (e.Exit? || n' == n)
    requires Proper(e, n, p + 3, ch, D) && Proper(e, n', p + 3, ch, D)
    ensures Follow(read, I, D, p, ch, given, out, e, n') == Follow(read, I, D, p, ch, given, out, e, n)
  {
  }

  lemma {:induction false} BehindAgrees(read: ChannelReader, read': ChannelReader, I: Input, J: Input, D: Shape, p: nat,
                                        ch: nat, given: nat, out: seq<int16>, e: Element, n: nat, k: nat)
    requires Alike(read, read', I, J, D, k) && ch < D.channels && p < 8 * I.end && Proper(e, n, p + 3, ch, D)
    requires Follow(read, I, D, p, ch, given, out, e, n).Done? && Follow(read, I, D, p, ch, given, out, e, n).pos <= k
    ensures Follow(read', J, D, p, ch, given, out, e, n) == Follow(read, I, D, p, ch, given, out, e, n)
    ensures !e.Undefined? && e.next <= Follow(read, I, D, p, ch, given, out, e, n).pos
    decreases if p < 8 * I.end then 8 * I.end - p else 0, 1
  {
    match e
    case Skipped(q) => LoopAgrees(read, read', I, J, D, q, ch, n, given, out, k);
    case Single(u, q) =>
      StoredAgrees(read, read', I, J, D, p, q, ch + 1, n, PutAll(out, ch, D.channels, Mono16(u), n), k);
    case Pair(u, v, mixbits, mixres, q) =>
      StoredAgrees(read, read', I, J, D, p, q, ch + 2, n,
                   PutAll(out, ch, D.channels, Frames16(u, v, mixbits, mixres), n), k);
    case _ =>
  }

  lemma {:induction false} StoredAgrees(read: ChannelReader, read': ChannelReader, I: Input, J: Input, D: Shape, p: nat,
                                        q: nat, ch: nat, n: nat, out: seq<int16>, k: nat)
    requires Alike(read, read', I, J, D, k) && ch <= D.channels && n <= D.frameLength && p + 3 <= q && p < 8 * I.end
    requires After(read, I, D, p, q, ch, n, out).Done? && After(read, I, D, p, q, ch, n, out).pos <= k
    ensures After(read', J, D, p, q, ch, n, out) == After(read, I, D, p, q, ch, n, out)
    ensures q <= After(read, I, D, p, q, ch, n, out).pos
    decreases if q < 8 * I.end then 8 * I.end - q else 0, 3
  {
    if ch < D.channels {
      LoopAgrees(read, read', I, J, D, q, ch, n, n, out, k);
    }
  }

  // ---------- frames ----------

  // Is the outcome the same for all inputs with the same first k bits?
  ghost predicate DeterminedBy(k: nat, I: Input, D: Shape, p: nat, numSamples: nat, out: seq<int16>)
    requires 0 < D.channels && numSamples <= D.frameLength
  {
    forall t: seq<byte> | Agree(I.s, t, k) ::
      DecodeFrame(Input(t, I.byteSize, I.end), D, p, numSamples, out) == DecodeFrame(I, D, p, numSamples, out)
  }

  // A frame is determined by the bits before its final cursor.
  lemma CursorDetermines(I: Input, D: Shape, p: nat, numSamples: nat, out: seq<int16>, k: nat)
    requires 0 < D.channels && numSamples <= D.frameLength
    requires DecodeFrame(I, D, p, numSamples, out).Done? && DecodeFrame(I, D, p, numSamples, out).pos <= k
    ensures DeterminedBy(k, I, D, p, numSamples, out)
  {
    forall t: seq<byte> | Agree(I.s, t, k)
      ensures DecodeFrame(Input(t, I.byteSize, I.end), D, p, numSamples, out) == DecodeFrame(I, D, p, numSamples, out)
    {
      var J := Input(t, I.byteSize, I.end);
      var read, read' := ReaderOf(I, D.frameLength), ReaderOf(J, D.frameLength);
      ReaderAdvances(I, D.frameLength);
      ReaderAdvances(J, D.frameLength);
      ChannelsAgree(I, J, read, read', D.frameLength, k);
      LoopAgrees(read, read', I, J, D, p, 0, numSamples, numSamples, out, k);
    }
  }
}
