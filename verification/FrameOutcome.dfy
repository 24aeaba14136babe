/**
 Which frames the source leaves undefined: those on whose way it stores past a buffer or shifts by an amount C does
 not define. The stores and shifts of its routines are listed here from the routines themselves.
 */
module FrameOutcome {
  import opened Words
  import opened BitStream
  import opened AdaptiveBlocks
  import GolombBlock
  import opened Matrix
  import opened FrameFormat
  import opened FrameElements
  import opened FrameEncoder
  import opened FrameLossless

  // A number of samples stored from the start of a buffer of a channel; or a shift of a 32-bit value whose result is
  // used.
  datatype Step = Store(samples: nat) | Shift(amount: int)

  predicate Legal(step: Step, frameLength: nat) {
    match step
    case Store(samples) => samples <= frameLength
    case Shift(amount) => 0 <= amount < 32
  }

  ghost predicate AllLegal(steps: seq<Step>, frameLength: nat) {
    forall i :: 0 <= i < |steps| ==> Legal(steps[i], frameLength)
  }

  lemma BothLegal(a: seq<Step>, b: seq<Step>, frameLength: nat)
    ensures AllLegal(a + b, frameLength) <==> AllLegal(a, frameLength) && AllLegal(b, frameLength)
  {
    if AllLegal(a + b, frameLength) {
      assert forall i :: 0 <= i < |a| ==> a[i] == (a + b)[i];
      assert forall i :: 0 <= i < |b| ==> b[i] == (a + b)[|a| + i];
    }
  }

  function Most(a: nat, b: nat): nat {
    if a < b then b else a
  }

  // ---------- the steps of the routines ----------

  // unpc_block: the first sample is copied whatever num is, the warm-up runs over all taps, `<< chanshift` belongs
  // to every sample that is added to another, and `1 << (denshift - 1)` is used behind the warm-up.
  function UnpcSteps(taps: nat, bits: nat, den: nat, num: nat): seq<Step> {
    if taps == 0 then [Store(Most(1, num))]
    else if taps == 31 then [Store(Most(1, num))] + (if num > 1 then [Shift(32 - bits)] else [])
    else [Store(Most(taps + 1, num)), Shift(32 - bits)] + (if num > taps + 1 then [Shift(den - 1)] else [])
  }

  // A channel behind its residuals, which the integrator takes first when the mode is not 0.
  function PredictorSteps(P: Params, bits: nat, num: nat): seq<Step> {
    (if P.mode != 0 then UnpcSteps(31, bits, 0, num) else []) + UnpcSteps(|P.coefs|, bits, P.den, num)
  }

  // dyn_decomp stores what it decodes; getstreambits shifts its load down to the bits of an escape.
  ghost function ChannelSteps(I: Input, p: nat, n: nat, P: Params, bits: Width): seq<Step> {
    var A, limit := CoderOf(P.pbFactor), EntropyLimit(I, p);
    var d := GolombBlock.Decode(A, I.s, limit, p, n, bits);
    [Store(|d.vals|)] + (if GolombBlock.Escapes(A, I.s, limit, p, n, bits) then [Shift(32)] else []) +
    (if d.ok && d.pos / 8 <= I.end then PredictorSteps(P, bits, n) else [])
  }

  type StepsOf = (nat, nat, Params, Width) -> seq<Step>

  ghost function Steps(I: Input): StepsOf {
    (p: nat, n: nat, P: Params, bits: Width) => ChannelSteps(I, p, n, P, bits)
  }

  // n raw samples: each is stored and extended by a shift up and down.
  function RawSteps(n: nat, bits: nat): seq<Step> {
    if n == 0 then [] else [Store(n), Shift(32 - bits)]
  }

  // A single channel behind its header.
  ghost function SingleSteps(steps: StepsOf, s: seq<byte>, h: Header): seq<Step>
    requires h.shifted <= 2
  {
    if h.escape == 0 then
      var (P, q) := ReadParams(s, h.next + 16);
      steps(q + Skip32(h.count, 8 * h.shifted), h.count, P, BIT_DEPTH - 8 * h.shifted)
    else RawSteps(h.count, BIT_DEPTH - 8 * h.shifted)
  }

  // A pair: the second channel is only decoded behind the first, and the first product is shifted with the first
  // sample.
  ghost function PairSteps(read: ChannelReader, steps: StepsOf, s: seq<byte>, h: Header): seq<Step>
    requires h.shifted <= 2
  {
    if h.escape == 0 then
      var F := ReadPairFields(s, h);
      ChannelPairSteps(read, steps, h.count, F.U, F.V, BIT_DEPTH - 8 * h.shifted + 1, F.start, F.mixbits, F.mixres)
    else RawSteps(h.count, BIT_DEPTH)
  }

  ghost function ChannelPairSteps(read: ChannelReader, steps: StepsOf, n: nat, U: Params, V: Params, w: Width,
                                  start: nat, mixbits: nat, mixres: int8): seq<Step>
  {
    var c := ChannelAt(read, start, n, U, w);
    steps(start, n, U, w) + if c.Restored? then SecondSteps(read, steps, n, V, w, c.next, mixbits, mixres) else []
  }

  ghost function SecondSteps(read: ChannelReader, steps: StepsOf, n: nat, V: Params, w: Width, start: nat,
                             mixbits: nat, mixres: int8): seq<Step>
  {
    steps(start, n, V, w) +
    if ChannelAt(read, start, n, V, w).Restored? && mixres != 0 && n > 0 then [Shift(mixbits)] else []
  }

  // The element with the given tag, at the bit behind it: the skipped ones take no such step.
  ghost function ElementSteps(read: ChannelReader, steps: StepsOf, I: Input, tag: nat, p: nat, count: nat, ch: nat,
                              channels: nat): seq<Step>
  {
    var h := ReadHeader(I.s, p, count);
    if !(tag == ID_SCE || tag == ID_LFE || (tag == ID_CPE && ch + 2 <= channels)) then []
    else if h.unused != 0 || h.shifted > 2 then []
    else if tag == ID_CPE then PairSteps(read, steps, I.s, h)
    else SingleSteps(steps, I.s, h)
  }

  // ---------- they are legal exactly where the model is defined ----------

  lemma UnpcLegal(taps: nat, bits: Width, den: nat, num: nat, frameLength: nat)
    requires den <= 15 && num <= frameLength && 0 < frameLength
    ensures AllLegal(UnpcSteps(taps, bits, den, num), frameLength) <==> UsableTaps(taps, bits, den, num, frameLength)
  {
    var steps := UnpcSteps(taps, bits, den, num);
    if AllLegal(steps, frameLength) {
      assert forall i :: 0 <= i < |steps| ==> Legal(steps[i], frameLength);
      if taps != 0 && (taps != 31 || num > 1) {
        assert steps[1] == Shift(32 - bits);
      }
      if taps != 0 && taps != 31 {
        assert steps[0] == Store(Most(taps + 1, num));
        if num > taps + 1 {
          assert steps[2] == Shift(den - 1);
        }
      }
    }
  }

  lemma PredictorLegal(P: Params, bits: Width, num: nat, frameLength: nat)
    requires num <= frameLength && 0 < frameLength
    ensures AllLegal(PredictorSteps(P, bits, num), frameLength) <==> Usable(P, bits, num, frameLength)
  {
    var first := if P.mode != 0 then UnpcSteps(31, bits, 0, num) else [];
    UnpcLegal(31, bits, 0, num, frameLength);
    UnpcLegal(|P.coefs|, bits, P.den, num, frameLength);
    BothLegal(first, UnpcSteps(|P.coefs|, bits, P.den, num), frameLength);
  }

  // A channel cannot be used exactly when one of its steps is not legal.
  lemma ChannelLegal(I: Input, frameLength: nat, p: nat, n: nat, P: Params, bits: Width)
    requires 0 < frameLength
    ensures AllLegal(Steps(I)(p, n, P, bits), frameLength)
            <==> !ChannelAt(ReaderOf(I, frameLength), p, n, P, bits).Unusable?
  {
    var A, limit := CoderOf(P.pbFactor), EntropyLimit(I, p);
    var d := GolombBlock.Decode(A, I.s, limit, p, n, bits);
    var escapes := GolombBlock.Escapes(A, I.s, limit, p, n, bits);
    ReaderForm(I, frameLength, ReaderOf(I, frameLength), p, n, P, bits, A, limit, d, escapes);
    OutcomeLegal(d, escapes, I.end, P, bits, frameLength, n);
  }

  lemma OutcomeLegal(d: Decoded, escapes: bool, end: nat, P: Params, bits: Width, frameLength: nat, n: nat)
    requires 0 < frameLength && (d.ok ==> |d.vals| == n)
    ensures AllLegal([Store(|d.vals|)] + (if escapes then [Shift(32)] else []) +
                     (if d.ok && d.pos / 8 <= end then PredictorSteps(P, bits, n) else []), frameLength)
            <==> !ChannelOf(d, escapes, end, P, bits, frameLength).Unusable?
  {
    var store := [Store(|d.vals|)];
    var escape := if escapes then [Shift(32)] else [];
    var rest := if d.ok && d.pos / 8 <= end then PredictorSteps(P, bits, n) else [];
    BothLegal(store + escape, rest, frameLength);
    BothLegal(store, escape, frameLength);
    assert AllLegal(store, frameLength) <==> |d.vals| <= frameLength by {
      assert store[0] == Store(|d.vals|);
    }
    assert AllLegal(escape, frameLength) <==> !escapes by {
      if escapes {
        assert escape[0] == Shift(32);
      }
    }
    if d.ok && |d.vals| <= frameLength {
      PredictorLegal(P, bits, n, frameLength);
    }
  }

  // Steps that tell which channels a reader cannot use.
  ghost predicate Tells(steps: StepsOf, read: ChannelReader, frameLength: nat) {
    forall p: nat, n: nat, P: Params, bits: Width ::
      AllLegal(steps(p, n, P, bits), frameLength) <==> !ChannelAt(read, p, n, P, bits).Unusable?
  }

  lemma ChannelsTell(I: Input, frameLength: nat)
    requires 0 < frameLength
    ensures Tells(Steps(I), ReaderOf(I, frameLength), frameLength)
  {
    forall p: nat, n: nat, P: Params, bits: Width
      ensures AllLegal(Steps(I)(p, n, P, bits), frameLength)
              <==> !ChannelAt(ReaderOf(I, frameLength), p, n, P, bits).Unusable?
    {
      ChannelLegal(I, frameLength, p, n, P, bits);
    }
  }

  lemma RawLegal(n: nat, bits: Width, frameLength: nat)
    ensures AllLegal(RawSteps(n, bits), frameLength) <==> n == 0 || (n <= frameLength && bits > 0)
  {
    var steps := RawSteps(n, bits);
    if n > 0 {
      assert steps[0] == Store(n) && steps[1] == Shift(32 - bits);
    }
  }

  lemma SingleLegal(steps: StepsOf, read: ChannelReader, s: seq<byte>, h: Header, frameLength: nat)
    requires h.shifted <= 2 && Tells(steps, read, frameLength)
    ensures AllLegal(SingleSteps(steps, s, h), frameLength) <==> !SingleBody(read, s, h, frameLength).Undefined?
  {
    RawLegal(h.count, BIT_DEPTH - 8 * h.shifted, frameLength);
  }

  lemma SecondLegal(read: ChannelReader, steps: StepsOf, n: nat, V: Params, w: Width, start: nat, mixbits: nat,
                    mixres: int8, u: seq<int32>, next: nat, frameLength: nat)
    requires Tells(steps, read, frameLength)
    ensures AllLegal(SecondSteps(read, steps, n, V, w, start, mixbits, mixres), frameLength)
            <==> !PairOf(Restored(u, next), ChannelAt(read, start, n, V, w), n, mixbits, mixres).Undefined?
  {
    var d := ChannelAt(read, start, n, V, w);
    var mix := if d.Restored? && mixres != 0 && n > 0 then [Shift(mixbits)] else [];
    BothLegal(steps(start, n, V, w), mix, frameLength);
    if mix != [] {
      assert mix[0] == Shift(mixbits);
    }
  }

  lemma ChannelPairLegal(read: ChannelReader, steps: StepsOf, n: nat, U: Params, V: Params, w: Width, start: nat,
                         mixbits: nat, mixres: int8, frameLength: nat, c: ChannelData)
    requires Tells(steps, read, frameLength) && c == ChannelAt(read, start, n, U, w)
    ensures AllLegal(ChannelPairSteps(read, steps, n, U, V, w, start, mixbits, mixres), frameLength)
            <==> !PairOf(c, ChannelAt(read, c.next, n, V, w), n, mixbits, mixres).Undefined?
  {
    var second := if c.Restored? then SecondSteps(read, steps, n, V, w, c.next, mixbits, mixres) else [];
    BothLegal(steps(start, n, U, w), second, frameLength);
    if c.Restored? {
      SecondLegal(read, steps, n, V, w, c.next, mixbits, mixres, c.vals, c.next, frameLength);
    }
  }

  lemma PairStepsForm(read: ChannelReader, steps: StepsOf, s: seq<byte>, h: Header, p: nat, p': nat, U: Params, q: nat,
                      V: Params, r: nat, start: nat, w: Width, mixbits: nat, mixres: int8)
    requires h.shifted <= 2 && h.escape == 0 && p == h.next + 8 && p' == p + 8
    requires ReadParams(s, p') == (U, q) && ReadParams(s, q) == (V, r) && start == r + Skip32(h.count, 16 * h.shifted)
    requires mixbits == Bits(s, h.next, 8) && mixres == Signed8(Bits(s, p, 8)) && w == BIT_DEPTH - 8 * h.shifted + 1
    ensures PairSteps(read, steps, s, h) == ChannelPairSteps(read, steps, h.count, U, V, w, start, mixbits, mixres)
  {
    FieldsForm(s, h, p, p', U, q, V, r, start, mixbits, mixres);
  }

  lemma CompressedLegal(steps: StepsOf, read: ChannelReader, s: seq<byte>, h: Header, frameLength: nat, p: nat, p': nat)
    requires h.shifted <= 2 && h.escape == 0 && Tells(steps, read, frameLength) && p == h.next + 8 && p' == p + 8
    ensures AllLegal(PairSteps(read, steps, s, h), frameLength) <==> !PairBody(read, s, h, frameLength).Undefined?
  {
    var (U, q) := ReadParams(s, p');
    var (V, r) := ReadParams(s, q);
    var n, w, start := h.count, BIT_DEPTH - 8 * h.shifted + 1, r + Skip32(h.count, 16 * h.shifted);
    var mixbits, mixres := Bits(s, h.next, 8), Signed8(Bits(s, p, 8));
    var c := ChannelAt(read, start, n, U, w);
    PairStepsForm(read, steps, s, h, p, p', U, q, V, r, start, w, mixbits, mixres);
    PairForm(read, s, h, frameLength, p, p', U, q, V, r, start, mixbits, mixres);
    ChannelsForm(read, h.shifted, n, U, V, start, mixbits, mixres, w, c, ChannelAt(read, c.next, n, V, w));
    ChannelPairLegal(read, steps, n, U, V, w, start, mixbits, mixres, frameLength, c);
  }

  lemma PairLegal(steps: StepsOf, read: ChannelReader, s: seq<byte>, h: Header, frameLength: nat)
    requires h.shifted <= 2 && Tells(steps, read, frameLength)
    ensures AllLegal(PairSteps(read, steps, s, h), frameLength) <==> !PairBody(read, s, h, frameLength).Undefined?
  {
    if h.escape == 0 {
      CompressedLegal(steps, read, s, h, frameLength, h.next + 8, h.next + 16);
    } else {
      RawLegal(h.count, BIT_DEPTH, frameLength);
    }
  }

  lemma AudioLegal(steps: StepsOf, read: ChannelReader, I: Input, tag: nat, p: nat, count: nat, ch: nat, D: Shape,
                   h: Header)
    requires tag == ID_SCE || tag == ID_LFE || (tag == ID_CPE && ch + 2 <= D.channels)
    requires Tells(steps, read, D.frameLength) && h == ReadHeader(I.s, p, count)
    ensures AllLegal(ElementSteps(read, steps, I, tag, p, count, ch, D.channels), D.frameLength)
            <==> !AudioElement(read, I.s, tag == ID_CPE, h, p, D.frameLength).Undefined?
  {
    if h.unused == 0 && h.shifted <= 2 {
      if tag == ID_CPE {
        PairLegal(steps, read, I.s, h, D.frameLength);
      } else {
        SingleLegal(steps, read, I.s, h, D.frameLength);
      }
    }
  }

  lemma AudioForm(read: ChannelReader, I: Input, tag: nat, p: nat, count: nat, ch: nat, D: Shape, h: Header, e: Element)
    requires tag == ID_SCE || tag == ID_LFE || (tag == ID_CPE && ch + 2 <= D.channels)
    requires h == ReadHeader(I.s, p, count) && e == AudioElement(read, I.s, tag == ID_CPE, h, p, D.frameLength)
    ensures ReadElement(read, I, tag, p, count, ch, D.channels, D.frameLength).0 == e
  {
  }

  lemma OtherForm(read: ChannelReader, I: Input, tag: nat, p: nat, count: nat, ch: nat, D: Shape)
    requires !(tag == ID_SCE || tag == ID_LFE || (tag == ID_CPE && ch + 2 <= D.channels))
    ensures !ReadElement(read, I, tag, p, count, ch, D.channels, D.frameLength).0.Undefined?
  {
  }

  lemma ElementLegal(steps: StepsOf, read: ChannelReader, I: Input, tag: nat, p: nat, count: nat, ch: nat, D: Shape)
    requires Tells(steps, read, D.frameLength)
    ensures AllLegal(ElementSteps(read, steps, I, tag, p, count, ch, D.channels), D.frameLength)
            <==> !ReadElement(read, I, tag, p, count, ch, D.channels, D.frameLength).0.Undefined?
  {
    if tag == ID_SCE || tag == ID_LFE || (tag == ID_CPE && ch + 2 <= D.channels) {
      var h := ReadHeader(I.s, p, count);
      AudioLegal(steps, read, I, tag, p, count, ch, D, h);
      AudioForm(read, I, tag, p, count, ch, D, h, AudioElement(read, I.s, tag == ID_CPE, h, p, D.frameLength));
    } else {
      OtherForm(read, I, tag, p, count, ch, D);
    }
  }

  // ---------- along the loop ----------

  // What the loop finds at a bit with ch channels filled and count samples in force: the element, the samples in
  // force behind it; and whether that is harmful.
  type Find = (nat, nat, nat) -> (Element, nat)
  type Harm = (nat, nat, nat) -> bool

  ghost function FindOf(read: ChannelReader, I: Input, D: Shape): Find {
    (p: nat, ch: nat, count: nat) =>
      ReadElement(read, I, Bits(I.s, p, 3), p + 3, count, ch, D.channels, D.frameLength)
  }

  ghost function HarmOf(read: ChannelReader, steps: StepsOf, I: Input, D: Shape): Harm {
    (p: nat, ch: nat, count: nat) =>
      !AllLegal(ElementSteps(read, steps, I, Bits(I.s, p, 3), p + 3, count, ch, D.channels), D.frameLength)
  }

  // Elements end behind their tag and hold at most a frame.
  ghost predicate Moves(find: Find, D: Shape) {
    forall p: nat, ch: nat, count: nat | ch < D.channels && count <= D.frameLength ::
      var (e, n) := find(p, ch, count);
      (e.Skipped? || e.Single? || e.Pair? ==> p + 3 <= e.next && n <= D.frameLength)
  }

  // Does the loop reach a harmful element from bit p on?
  ghost predicate ReachesHarm(find: Find, harm: Harm, I: Input, D: Shape, p: nat, ch: nat, count: nat)
    requires ch < D.channels && count <= D.frameLength && Moves(find, D)
    decreases if p < 8 * I.end then 8 * I.end - p else 0, 1
  {
    p / 8 < I.end &&
    var (e, n) := find(p, ch, count);
    harm(p, ch, count) || HarmBehind(find, harm, I, D, p, ch, e, n)
  }

  // Does it behind the element e found at p?
  ghost predicate HarmBehind(find: Find, harm: Harm, I: Input, D: Shape, p: nat, ch: nat, e: Element, n: nat)
    requires ch < D.channels && Moves(find, D) && p < 8 * I.end
    requires e.Skipped? || e.Single? || e.Pair? ==> p + 3 <= e.next && n <= D.frameLength
    decreases if p < 8 * I.end then 8 * I.end - p else 0, 0
  {
    match e
    case Skipped(q) => ReachesHarm(find, harm, I, D, q, ch, n)
    case Single(_, q) => ch + 1 < D.channels && ReachesHarm(find, harm, I, D, q, ch + 1, n)
    case Pair(_, _, _, _, q) => ch + 2 < D.channels && ReachesHarm(find, harm, I, D, q, ch + 2, n)
    case _ => false
  }

  lemma FindMoves(read: ChannelReader, I: Input, D: Shape)
    requires Advances(read, D.frameLength)
    ensures Moves(FindOf(read, I, D), D)
  {
    forall p: nat, ch: nat, count: nat | ch < D.channels && count <= D.frameLength
      ensures var (e, n) := FindOf(read, I, D)(p, ch, count);
              (e.Skipped? || e.Single? || e.Pair? ==> p + 3 <= e.next && n <= D.frameLength)
    {
      var x := FindOf(read, I, D)(p, ch, count);
      ElementProper(read, I, D, Bits(I.s, p, 3), p + 3, ch, count, x.0, x.1);
    }
  }

  ghost predicate Recognizes(find: Find, harm: Harm) {
    forall p: nat, ch: nat, count: nat :: harm(p, ch, count) <==> find(p, ch, count).0.Undefined?
  }

  lemma HarmAt(read: ChannelReader, steps: StepsOf, I: Input, D: Shape, p: nat, ch: nat, count: nat)
    requires Tells(steps, read, D.frameLength)
    ensures HarmOf(read, steps, I, D)(p, ch, count) <==> FindOf(read, I, D)(p, ch, count).0.Undefined?
  {
    ElementLegal(steps, read, I, Bits(I.s, p, 3), p + 3, count, ch, D);
  }

  lemma HarmRecognized(read: ChannelReader, steps: StepsOf, I: Input, D: Shape, find: Find, harm: Harm)
    requires Tells(steps, read, D.frameLength) && find == FindOf(read, I, D) && harm == HarmOf(read, steps, I, D)
    ensures Recognizes(find, harm)
  {
    forall p: nat, ch: nat, count: nat
      ensures harm(p, ch, count) <==> find(p, ch, count).0.Undefined?
    {
      HarmAt(read, steps, I, D, p, ch, count);
    }
  }

  // The loop follows what is found at p.
  lemma FindForm(find: Find, read: ChannelReader, I: Input, D: Shape, p: nat, ch: nat, count: nat, given: nat,
                 out: seq<int16>) returns (e: Element, n: nat)
    requires find == FindOf(read, I, D) && ch < D.channels && count <= D.frameLength && Advances(read, D.frameLength)
    requires p / 8 < I.end
    ensures (e, n) == find(p, ch, count) && Proper(e, n, p + 3, ch, D)
    ensures Elements(read, I, D, p, ch, count, given, out) == Follow(read, I, D, p, ch, given, out, e, n)
  {
    var found := ReadElement(read, I, Bits(I.s, p, 3), p + 3, count, ch, D.channels, D.frameLength);
    e, n := found.0, found.1;
    ElementProper(read, I, D, Bits(I.s, p, 3), p + 3, ch, count, e, n);
    FollowForm(read, I, D, p, ch, count, given, out, e, n);
  }

  lemma ReachesForm(find: Find, harm: Harm, I: Input, D: Shape, p: nat, ch: nat, count: nat, e: Element, n: nat)
    requires ch < D.channels && count <= D.frameLength && Moves(find, D) && Recognizes(find, harm) && p / 8 < I.end
    requires (e, n) == find(p, ch, count) && Proper(e, n, p + 3, ch, D)
    ensures ReachesHarm(find, harm, I, D, p, ch, count)
            <==> e.Undefined? || HarmBehind(find, harm, I, D, p, ch, e, n)
  {
    assert harm(p, ch, count) <==> find(p, ch, count).0.Undefined?;
  }

  lemma HarmOn(find: Find, harm: Harm, I: Input, D: Shape, p: nat, ch: nat, e: Element, n: nat, out: seq<int16>,
               next: nat, stored: seq<int16>)
    requires ch < D.channels && Moves(find, D) && p < 8 * I.end && Proper(e, n, p + 3, ch, D)
    requires GoesOn(e, ch, n, out, D, next, stored)
    ensures !e.Undefined?
    ensures HarmBehind(find, harm, I, D, p, ch, e, n) <==> ReachesHarm(find, harm, I, D, e.next, next, n)
  {
  }

  lemma NoHarmOn(find: Find, harm: Harm, I: Input, D: Shape, p: nat, ch: nat, e: Element, n: nat)
    requires ch < D.channels && Moves(find, D) && p < 8 * I.end && Proper(e, n, p + 3, ch, D)
    requires EndsHere(e, ch, D) || (!e.Skipped? && !e.Single? && !e.Pair?)
    ensures !HarmBehind(find, harm, I, D, p, ch, e, n)
  {
  }

  lemma OtherUndefined(read: ChannelReader, I: Input, D: Shape, p: nat, ch: nat, given: nat, out: seq<int16>,
                       e: Element, n: nat)
    requires ch < D.channels && Advances(read, D.frameLength) && p < 8 * I.end && Proper(e, n, p + 3, ch, D)
    requires !e.Skipped? && !e.Single? && !e.Pair?
    ensures Follow(read, I, D, p, ch, given, out, e, n) == Outcome.Undefined <==> e.Undefined?
  {
  }

  lemma {:induction false} ElementsUndefined(find: Find, harm: Harm, read: ChannelReader, I: Input, D: Shape, p: nat,
                                             ch: nat, count: nat, given: nat, out: seq<int16>)
    requires ch < D.channels && count <= D.frameLength && Advances(read, D.frameLength) && find == FindOf(read, I, D)
    requires Moves(find, D) && Recognizes(find, harm)
    ensures Elements(read, I, D, p, ch, count, given, out) == Outcome.Undefined
            <==> ReachesHarm(find, harm, I, D, p, ch, count)
    decreases if p < 8 * I.end then 8 * I.end - p else 0
  {
    if p / 8 < I.end {
      var e, n := FindForm(find, read, I, D, p, ch, count, given, out);
      ReachesForm(find, harm, I, D, p, ch, count, e, n);
      if EndsHere(e, ch, D) {
        LastOutcome(read, I, D, p, ch, given, out, e, n);
        NoHarmOn(find, harm, I, D, p, ch, e, n);
      } else if e.Skipped? || e.Single? || e.Pair? {
        var next, stored := Stored(e, ch, n, out, D, p + 3);
        GoneOn(read, I, D, p, ch, given, out, e, n, next, stored);
        HarmOn(find, harm, I, D, p, ch, e, n, out, next, stored);
        ElementsUndefined(find, harm, read, I, D, e.next, next, n, GivenOn(e, given, n), stored);
      } else {
        OtherUndefined(read, I, D, p, ch, given, out, e, n);
        NoHarmOn(find, harm, I, D, p, ch, e, n);
      }
    }
  }

  // The frame is undefined exactly when the loop reaches an element with a step that is not legal.
  lemma UndefinedExactly(I: Input, D: Shape, p: nat, numSamples: nat, out: seq<int16>, find: Find, harm: Harm)
    requires 0 < D.channels && numSamples <= D.frameLength && 0 < D.frameLength
    requires find == FindOf(ReaderOf(I, D.frameLength), I, D)
    requires harm == HarmOf(ReaderOf(I, D.frameLength), Steps(I), I, D)
    ensures Moves(find, D)
    ensures DecodeFrame(I, D, p, numSamples, out) == Outcome.Undefined
            <==> ReachesHarm(find, harm, I, D, p, 0, numSamples)
  {
    var read := ReaderOf(I, D.frameLength);
    ReaderAdvances(I, D.frameLength);
    FindMoves(read, I, D);
    ChannelsTell(I, D.frameLength);
    HarmRecognized(read, Steps(I), I, D, find, harm);
    ElementsUndefined(find, harm, read, I, D, p, 0, numSamples, numSamples, out);
  }

  // ---------- counts above the frame length ----------

  // The source does not test the count of a partial frame. A raw pair then stores too much, whatever its bits.
  lemma OverlongRaw(I: Input, D: Shape, p: nat, instance: nat, shifted: nat, n: nat, rest: seq<bit>, numSamples: nat,
                    out: seq<int16>)
    requires 2 <= D.channels && numSamples <= D.frameLength < n < TWO32 && instance < 16 && shifted <= 2
    requires Inside(I, p, ToBits(PAIR_TAG, 3) + (HeaderBits(instance, true, shifted, 1, n) + rest))
    ensures DecodeFrame(I, D, p, numSamples, out) == Outcome.Undefined
  {
    var p1, read := p + 3, ReaderOf(I, D.frameLength);
    HeadRead(I.s, p, p1, p1 + 52, ID_CPE, instance, true, shifted, 1, n, numSamples, rest);
    var (e, k) := ReadElement(read, I, ID_CPE, p1, numSamples, 0, D.channels, D.frameLength);
    RawPairOverlong(read, I, p1, numSamples, D, Header(0, shifted, 1, n, p1 + 52), e);
    ReaderAdvances(I, D.frameLength);
    ElementsForm(read, I, D, p, 0, numSamples, numSamples, out, p1, e, k);
  }

  lemma RawPairOverlong(read: ChannelReader, I: Input, p: nat, count: nat, D: Shape, h: Header, e: Element)
    requires 2 <= D.channels && ReadHeader(I.s, p, count) == h == Header(0, h.shifted, 1, h.count, h.next)
    requires h.shifted <= 2 && h.count > D.frameLength
    requires e == ReadElement(read, I, ID_CPE, p, count, 0, D.channels, D.frameLength).0
    ensures e.Undefined?
  {
  }

  // A compressed channel stores too much only if that many residuals are there to be decoded: if they break off
  // before, it is refused.
  lemma OverlongChannel(I: Input, frameLength: nat, p: nat, n: nat, P: Params, w: Width)
    requires frameLength < n && 1 <= w
    ensures var c := ChannelAt(ReaderOf(I, frameLength), p, n, P, w);
            var d := GolombBlock.Decode(CoderOf(P.pbFactor), I.s, EntropyLimit(I, p), p, n, w);
            if |d.vals| > frameLength then c.Unusable? else c == Broken(d.pos)
  {
    NoEscapes(CoderOf(P.pbFactor), I.s, EntropyLimit(I, p), p, n, w);
  }
}
