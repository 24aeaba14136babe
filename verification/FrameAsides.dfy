/**
 Fill and data stream elements in front of the channels: they are skipped whole, so whatever a frame decodes to
 it also decodes to behind any number of them.
 */
module FrameAsides {
  import opened Words
  import opened BitStream
  import opened GolombCodes
  import opened FrameFormat
  import opened FrameElements
  import opened FrameEncoder
  import opened FrameLossless

  // n bytes of filling, or n bytes of user data that may have to start at a byte.
  datatype Aside =
    | Filler(n: nat, payload: seq<bit>)
    | UserData(instance: nat, align: bool, n: nat, payload: seq<bit>)
  {
    predicate Valid() {
      match this
      case Filler(n, payload) => n <= 269 && |payload| == 8 * n
      case UserData(instance, _, n, payload) => instance < 16 && n <= 510 && |payload| == 8 * n
    }
  }

  // The second count byte, from `first` on.
  function Extension(n: nat, first: nat, base: nat): (b: seq<bit>)
    requires base <= first
    ensures |b| == if n < first then 0 else 8
  {
    if n < first then [] else ToBits(n - base, 8)
  }

  function AsideTag(a: Aside): nat {
    if a.Filler? then FILL_TAG else DATA_TAG
  }

  // The next byte, unless p begins one.
  function NextByte(p: nat): nat {
    p + (8 - p % 8) % 8
  }

  // Behind the tag, which ends at p.
  function AsideBody(a: Aside, p: nat): seq<bit> {
    match a
    case Filler(n, payload) =>
      ToBits(if n < 15 then n else 15, 4) + (Extension(n, 15, 14) + payload)
    case UserData(instance, align, n, payload) =>
      var from := p + 13 + |Extension(n, 255, 255)|;
      var start := if align then NextByte(from) else from;
      ToBits(instance, 4) + (ToBits(if align then 1 else 0, 1) + (ToBits(if n < 255 then n else 255, 8) +
      (Extension(n, 255, 255) + (ZeroBits(start - from) + payload))))
  }

  function AsideBits(a: Aside, p: nat): (b: seq<bit>)
    ensures |b| >= 3
  {
    ToBits(AsideTag(a), 3) + AsideBody(a, p + 3)
  }

  // How an element is coded at a position.
  type AsideCode = (Aside, nat) -> seq<bit>

  function AsideCoder(): AsideCode {
    (a: Aside, p: nat) => AsideBits(a, p)
  }

  function AsidesBits(code: AsideCode, asides: seq<Aside>, p: nat): seq<bit>
    decreases |asides|
  {
    if asides == [] then []
    else
      var b := code(asides[0], p);
      b + AsidesBits(code, asides[1..], p + |b|)
  }

  // ---------- one element ----------

  lemma FillerSkipped(I: Input, p: nat, p1: nat, n: nat, payload: seq<bit>, end: nat)
    requires n <= 269 && |payload| == 8 * n && Carries(I.s, p, AsideBody(Filler(n, payload), p)) && p1 == p + 4
    requires end == p + |AsideBody(Filler(n, payload), p)| <= 8 * I.end
    ensures Fill(I, p) == Skipped(end)
  {
    var more := Extension(n, 15, 14);
    FillerFields(I.s, p, p1, n, more, payload);
    FillerForm(I, p, p1, n, end);
  }

  lemma FillerFields(s: seq<byte>, p: nat, p1: nat, n: nat, more: seq<bit>, payload: seq<bit>)
    requires n <= 269 && p1 == p + 4 && more == Extension(n, 15, 14)
    requires Carries(s, p, ToBits(if n < 15 then n else 15, 4) + (more + payload))
    ensures Bits(s, p, 4) == (if n < 15 then n else 15) && (n >= 15 ==> Bits(s, p1, 8) == n - 14)
  {
    FieldPowers();
    Peel(s, p, if n < 15 then n else 15, 4, more + payload, p1);
    if n >= 15 {
      Peel(s, p1, n - 14, 8, payload, p1 + 8);
    }
  }

  lemma FillerForm(I: Input, p: nat, p1: nat, n: nat, end: nat)
    requires p1 == p + 4 && Bits(I.s, p, 4) == (if n < 15 then n else 15) && (n >= 15 ==> Bits(I.s, p1, 8) == n - 14)
    requires end == p1 + (if n < 15 then 0 else 8) + 8 * n <= 8 * I.end
    ensures Fill(I, p) == Skipped(end)
  {
  }

  lemma UserDataFields(s: seq<byte>, p: nat, p1: nat, p2: nat, p3: nat, instance: nat, flag: nat, low: nat,
                       more: seq<bit>)
    requires instance < 16 && flag < 2 && low < 256 && p1 == p + 4 && p2 == p1 + 1 && p3 == p2 + 8
    requires Carries(s, p, ToBits(instance, 4) + (ToBits(flag, 1) + (ToBits(low, 8) + more)))
    ensures Bits(s, p1, 1) == flag && Bits(s, p2, 8) == low && Carries(s, p3, more)
  {
    FieldPowers();
    Peel(s, p, instance, 4, ToBits(flag, 1) + (ToBits(low, 8) + more), p1);
    Peel(s, p1, flag, 1, ToBits(low, 8) + more, p2);
    Peel(s, p2, low, 8, more, p3);
  }

  lemma ExtensionRead(s: seq<byte>, p: nat, n: nat, rest: seq<bit>, q: nat)
    requires 255 <= n <= 510 && Carries(s, p, Extension(n, 255, 255) + rest) && q == p + 8
    ensures Bits(s, p, 8) == n - 255
  {
    FieldPowers();
    Peel(s, p, n - 255, 8, rest, q);
  }

  lemma UserDataForm(I: Input, p: nat, p1: nat, p2: nat, p3: nat, p4: nat, align: bool, n: nat, from: nat, start: nat,
                     end: nat)
    requires n <= 510 && p1 == p + 4 && p2 == p + 5 && p3 == p + 13 && p4 == p + 21
    requires Bits(I.s, p1, 1) == (if align then 1 else 0) && Bits(I.s, p2, 8) == (if n < 255 then n else 255)
    requires n >= 255 ==> Bits(I.s, p3, 8) == n - 255
    requires from == (if n < 255 then p3 else p4) && start == (if align then Aligned(from) else from)
    requires end == start + 8 * n <= 8 * I.end
    ensures DataStream(I, p) == Skipped(end)
  {
  }

  lemma UserDataBody(a: Aside, p: nat, from: nat, start: nat, flag: nat, low: nat, rest: seq<bit>, more: seq<bit>)
    requires a.UserData? && a.Valid() && from == p + 13 + |Extension(a.n, 255, 255)|
    requires start == (if a.align then NextByte(from) else from) && flag == (if a.align then 1 else 0)
    requires low == (if a.n < 255 then a.n else 255) && rest == ZeroBits(start - from) + a.payload
    requires more == Extension(a.n, 255, 255) + rest
    ensures AsideBody(a, p) == ToBits(a.instance, 4) + (ToBits(flag, 1) + (ToBits(low, 8) + more))
    ensures p + |AsideBody(a, p)| == start + 8 * a.n
  {
  }

  lemma NextByteAligns(p: nat)
    ensures NextByte(p) == Aligned(p)
  {
  }

  lemma UserDataSkipped(I: Input, p: nat, a: Aside, end: nat, p1: nat, p2: nat, p3: nat, p4: nat)
    requires p1 == p + 4 && p2 == p1 + 1 && p3 == p2 + 8 && p4 == p3 + 8
    requires a.UserData? && a.Valid() && Carries(I.s, p, AsideBody(a, p)) && end == p + |AsideBody(a, p)| <= 8 * I.end
    ensures DataStream(I, p) == Skipped(end)
  {
    var from := p3 + |Extension(a.n, 255, 255)|;
    var start := if a.align then NextByte(from) else from;
    var flag, low := if a.align then 1 else 0, if a.n < 255 then a.n else 255;
    var rest := ZeroBits(start - from) + a.payload;
    var more := Extension(a.n, 255, 255) + rest;
    UserDataBody(a, p, from, start, flag, low, rest, more);
    UserDataFields(I.s, p, p1, p2, p3, a.instance, flag, low, more);
    if a.n >= 255 {
      ExtensionRead(I.s, p3, a.n, rest, p4);
    }
    NextByteAligns(from);
    UserDataForm(I, p, p1, p2, p3, p4, a.align, a.n, from, start, end);
  }

  lemma AsideSkipped(read: ChannelReader, I: Input, D: Shape, p: nat, p1: nat, a: Aside, count: nat, q: nat)
    requires a.Valid() && Inside(I, p, AsideBits(a, p)) && p1 == p + 3 && q == p + |AsideBits(a, p)|
    ensures Bits(I.s, p, 3) == AsideTag(a) && p / 8 < I.end
    ensures ReadElement(read, I, AsideTag(a), p1, count, 0, D.channels, D.frameLength) == (Skipped(q), count)
  {
    TagRead(I.s, p, AsideTag(a), AsideBody(a, p1), p1);
    if a.Filler? {
      FillerSkipped(I, p1, p1 + 4, a.n, a.payload, q);
    } else {
      UserDataSkipped(I, p1, a, q, p1 + 4, p1 + 5, p1 + 13, p1 + 21);
    }
  }

  // A frame that starts with such an element decodes like one that starts behind it.
  lemma BehindAside(I: Input, D: Shape, p: nat, a: Aside, numSamples: nat, out: seq<int16>, q: nat)
    requires 0 < D.channels && numSamples <= D.frameLength && a.Valid()
    requires Inside(I, p, AsideBits(a, p)) && q == p + |AsideBits(a, p)|
    ensures DecodeFrame(I, D, p, numSamples, out) == DecodeFrame(I, D, q, numSamples, out)
  {
    var read, p1 := ReaderOf(I, D.frameLength), p + 3;
    ReaderAdvances(I, D.frameLength);
    AsideSkipped(read, I, D, p, p1, a, numSamples, q);
    ElementsForm(read, I, D, p, 0, numSamples, numSamples, out, p1, Skipped(q), numSamples);
  }

  // ---------- any number of them ----------

  // Decoding from a position, where a coded element may be left out.
  ghost predicate Skips(code: AsideCode, I: Input, decode: nat -> Outcome) {
    forall a: Aside, p: nat, q: nat | a.Valid() && Inside(I, p, code(a, p)) && q == p + |code(a, p)| ::
      decode(p) == decode(q)
  }

  lemma {:induction false} AllSkipped(code: AsideCode, I: Input, decode: nat -> Outcome, p: nat, asides: seq<Aside>,
                                      q: nat)
    requires Skips(code, I, decode) && forall i :: 0 <= i < |asides| ==> asides[i].Valid()
    requires Inside(I, p, AsidesBits(code, asides, p)) && q == p + |AsidesBits(code, asides, p)|
    ensures decode(p) == decode(q)
    decreases |asides|
  {
    if asides != [] {
      var b := code(asides[0], p);
      var r := p + |b|;
      Split(I.s, p, b, AsidesBits(code, asides[1..], r), r);
      assert decode(p) == decode(r);
      AllSkipped(code, I, decode, r, asides[1..], q);
    }
  }

  ghost function Decoding(I: Input, D: Shape, numSamples: nat, out: seq<int16>): nat -> Outcome
    requires 0 < D.channels && numSamples <= D.frameLength
  {
    (p: nat) => DecodeFrame(I, D, p, numSamples, out)
  }

  lemma BehindAny(I: Input, D: Shape, numSamples: nat, out: seq<int16>)
    requires 0 < D.channels && numSamples <= D.frameLength
    ensures Skips(AsideCoder(), I, Decoding(I, D, numSamples, out))
  {
    forall a: Aside, p: nat, q: nat | a.Valid() && Inside(I, p, AsideBits(a, p)) && q == p + |AsideBits(a, p)|
      ensures DecodeFrame(I, D, p, numSamples, out) == DecodeFrame(I, D, q, numSamples, out)
    {
      BehindAside(I, D, p, a, numSamples, out, q);
    }
  }

  lemma BehindAsides(I: Input, D: Shape, p: nat, asides: seq<Aside>, numSamples: nat, out: seq<int16>, q: nat)
    requires 0 < D.channels && numSamples <= D.frameLength && (forall i :: 0 <= i < |asides| ==> asides[i].Valid())
    requires Inside(I, p, AsidesBits(AsideCoder(), asides, p)) && q == p + |AsidesBits(AsideCoder(), asides, p)|
    ensures DecodeFrame(I, D, p, numSamples, out) == DecodeFrame(I, D, q, numSamples, out)
  {
    var decode := Decoding(I, D, numSamples, out);
    BehindAny(I, D, numSamples, out);
    AllSkipped(AsideCoder(), I, decode, p, asides, q);
    assert decode(p) == decode(q);
  }
}
