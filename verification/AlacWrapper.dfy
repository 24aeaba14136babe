/**
 The wrapper around the decoder: the cookie that fixes its parameters, configure and decode_frame, and
 losslessness as the wrapper's caller sees it.
 */
module AlacWrapper {
  import opened Words
  import opened Wrappers
  import opened BitStream
  import opened BitBuffers
  import opened FrameFormat
  import opened FrameElements
  import opened FrameEncoder
  import opened FrameLossless
  import opened MonoLossless
  import opened FrameAsides
  import opened Agreement
  import opened FrameDetermined
  import Decoder = AlacDecoder

  // AlacDecoderConfig
  datatype Config = Config(sampleRate: uint32, samplesPerFrame: uint32, channels: uint16, bitsPerSample: uint16)

  // ALACSpecificConfig
  datatype Cookie = Cookie(frameLength: nat, compatibleVersion: nat, bitDepth: nat, pb: nat, mb: nat, kb: nat,
                           numChannels: nat, maxRun: nat, maxFrameBytes: nat, avgBitRate: nat, sampleRate: nat)

  const MAX_RUN_DEFAULT: nat := 255
  const MAX_FRAME_LENGTH: nat := 65536

  // make_magic_cookie
  function MakeMagicCookie(c: Config): (b: seq<byte>)
    ensures |b| == 24
  {
    Be32(c.samplesPerFrame) + [0, c.bitsPerSample % 256, PB0, MB0, KB0, c.channels % 256] +
    Be16(MAX_RUN_DEFAULT) + Be32(0) + Be32(0) + Be32(c.sampleRate)
  }

  predicate HasAtom(c: seq<byte>, name: seq<byte>)
    requires |name| == 4
  {
    8 <= |c| && c[4..8] == name
  }

  const FRMA: seq<byte> := [102, 114, 109, 97]
  const ALAC: seq<byte> := [97, 108, 97, 99]

  // The parsing half of Init: atoms are skipped, the version and the frame length checked.
  function ParseCookie(cookie: seq<byte>): (r: Option<Cookie>)
    requires |cookie| >= 24
  {
    var a := if HasAtom(cookie, FRMA) then cookie[12..] else cookie;
    var b := if HasAtom(a, ALAC) then a[12..] else a;
    if |b| < 24 then None
    else
      var k := Cookie(Word(b, 0, 4), b[4], b[5], b[6], b[7], b[8], b[9], Word(b, 10, 2), Word(b, 12, 4),
                      Word(b, 16, 4), Word(b, 20, 4));
      if k.compatibleVersion > 0 || k.frameLength == 0 || k.frameLength > MAX_FRAME_LENGTH then None else Some(k)
  }

  lemma Word2(s: seq<byte>, i: nat, j: nat)
    requires j == i + 1
    ensures Word(s, i, 2) == 256 * ByteAt(s, i) + ByteAt(s, j)
  {
    assert Word(s, i, 1) == ByteAt(s, i);
  }

  lemma Word4(s: seq<byte>, i: nat, x: uint32)
    requires i + 4 <= |s| && s[i..i + 4] == Be32(x)
    ensures Word(s, i, 4) == x
  {
    var b := s[i..i + 4];
    assert s[i] == b[0] && s[i + 1] == b[1] && s[i + 2] == b[2] && s[i + 3] == b[3];
    Word2(s, i, i + 1);
    assert Word(s, i, 3) == 256 * Word(s, i, 2) + s[i + 2];
    assert Word(s, i, 4) == 256 * Word(s, i, 3) + s[i + 3];
    Bytes4(x);
  }

  lemma Bytes4(x: uint32)
    ensures 256 * (256 * (256 * (x / 0x100_0000) + x / 0x1_0000 % 256) + x / 256 % 256) + x % 256 == x
  {
  }

  // Init reads back what make_magic_cookie wrote, so the parameters are the fixed ones; it is refused
  // exactly when the frame length is out of range.
  lemma CookieRoundTrip(c: Config)
    ensures ParseCookie(MakeMagicCookie(c))
            == if 1 <= c.samplesPerFrame <= MAX_FRAME_LENGTH then
                 Some(Cookie(c.samplesPerFrame, 0, c.bitsPerSample % 256, 40, 10, 14, c.channels % 256, 255, 0, 0,
                             c.sampleRate))
               else None
  {
    var b := MakeMagicCookie(c);
    assert b[4..8] == [0, c.bitsPerSample % 256, PB0, MB0];
    assert b[4..8][0] != FRMA[0] && b[4..8][0] != ALAC[0];
    Word4(b, 0, c.samplesPerFrame);
    Word2(b, 10, 11);
    Word4(b, 12, 0);
    Word4(b, 16, 0);
    Word4(b, 20, c.sampleRate);
  }

  // ---------- the wrapper ----------

  predicate Acceptable(c: Config) {
    1 <= c.channels <= 2 && c.bitsPerSample == 16 && 1 <= c.samplesPerFrame <= MAX_FRAME_LENGTH
  }

  datatype FrameResult = Undefined | Rejected | Frame(pcm: seq<int16>, count: nat)

  function Zeros16(n: nat): (z: seq<int16>)
    ensures |z| == n
  {
    seq(n, i => 0)
  }

  // Decode over a packet and whatever memory lies behind it, from its start, into fresh zeros.
  ghost function PacketOutcome(c: Config, data: seq<byte>, beyond: seq<byte>): (o: Outcome)
    requires Acceptable(c)
  {
    TimesNat(c.samplesPerFrame, c.channels);
    DecodeFrame(Input(data + beyond, |data|, |data|), Shape(c.samplesPerFrame, c.channels), 0, c.samplesPerFrame,
                Zeros16(Times(c.samplesPerFrame, c.channels)))
  }

  // What decode_frame makes of a packet under a configuration.
  ghost function FrameOf(c: Config, data: seq<byte>, beyond: seq<byte>): (r: FrameResult)
    requires Acceptable(c)
  {
    if data == [] || |data| >= TWO32 then Rejected else Judged(PacketOutcome(c, data, beyond), c)
  }

  // The checks behind Decode.
  ghost function Judged(o: Outcome, c: Config): FrameResult {
    match o
    case Undefined => FrameResult.Undefined
    case Done(status, _, count, out) =>
      if status != NO_ERR || count == 0 || count > c.samplesPerFrame || count * c.channels > |out| then Rejected
      else Frame(out[..count * c.channels], count)
  }

  // A packet gives samples exactly when it is neither empty nor of 2^32 bytes or more, is decoded with status 0, and
  // has at least one sample; and they are the first of the buffer.
  lemma FrameGiven(c: Config, data: seq<byte>, beyond: seq<byte>, pcm: seq<int16>, n: nat)
    requires Acceptable(c)
    ensures var o := PacketOutcome(c, data, beyond);
            FrameOf(c, data, beyond) == Frame(pcm, n) <==>
            && 0 < |data| < 0x1_0000_0000 && o.Done? && o.status == 0 && o.count == n > 0
            && n * c.channels <= |o.out| && pcm == o.out[..n * c.channels]
  {
    if PacketOutcome(c, data, beyond).Done? {
      PacketFits(c, data, beyond);
    }
  }

  // The decoder reports no more samples than the buffer holds.
  lemma PacketFits(c: Config, data: seq<byte>, beyond: seq<byte>)
    requires Acceptable(c) && PacketOutcome(c, data, beyond).Done?
    ensures var o := PacketOutcome(c, data, beyond);
            o.count <= c.samplesPerFrame && o.count * c.channels <= |o.out|
  {
    var I, D := Input(data + beyond, |data|, |data|), Shape(c.samplesPerFrame, c.channels);
    TimesNat(c.samplesPerFrame, c.channels);
    var zeros := Zeros16(Times(c.samplesPerFrame, c.channels));
    ReaderAdvances(I, D.frameLength);
    LoopEnds(ReaderOf(I, D.frameLength), I, D, 0, 0, D.frameLength, D.frameLength, zeros);
    TimesIsProduct(c.samplesPerFrame, c.channels);
  }

  // The samples of both channels in the order they are played.
  function Interleaved(L: seq<int16>, R: seq<int16>): (pcm: seq<int16>)
    requires |L| == |R|
    ensures |pcm| == 2 * |L|
  {
    seq(2 * |L|, (k: nat) requires k < 2 * |L| => if k % 2 == 0 then L[k / 2] else R[k / 2])
  }

  lemma InterleavedAt(L: seq<int16>, R: seq<int16>, j: nat)
    requires |L| == |R| && j < |L|
    ensures Interleaved(L, R)[2 * j] == L[j] && Interleaved(L, R)[2 * j + 1] == R[j]
  {
    assert (2 * j) % 2 == 0 && (2 * j + 1) % 2 == 1;
  }

  lemma DeliveredFrame(o: Outcome, c: Config, pos: nat, L: seq<int16>, R: seq<int16>, out: seq<int16>)
    requires |L| == |R| && 0 < |L| <= c.samplesPerFrame && c.channels == 2 && Delivers(o, pos, L, R, out)
    ensures Judged(o, c) == Frame(Interleaved(L, R), |L|)
  {
    var n := 2 * |L|;
    forall k: nat | k < n
      ensures o.out[k] == Interleaved(L, R)[k]
    {
      var j := k / 2;
      InterleavedAt(L, R, j);
      assert o.out[2 * j] == L[j] && o.out[2 * j + 1] == R[j];
    }
    assert o.out[..n] == Interleaved(L, R);
  }

  // ---------- the memory behind a packet ----------

  lemma SameBits(data: seq<byte>, a: seq<byte>, b: seq<byte>, k: nat)
    requires k == 8 * |data|
    ensures Agree(data + a, data + b, k)
  {
    forall q: nat | q < k
      ensures Bit(data + a, q) == Bit(data + b, q)
    {
      var i := q / 8;
      assert i < |data| && (data + a)[i] == data[i] == (data + b)[i];
    }
  }

  // A packet within whose bytes the cursor ends is decoded alike whatever lies behind it.
  lemma PacketDetermined(c: Config, data: seq<byte>, beyond: seq<byte>, other: seq<byte>, k: nat)
    requires Acceptable(c) && 0 < |data| < TWO32 && k == 8 * |data|
    requires PacketOutcome(c, data, beyond).Done? && PacketOutcome(c, data, beyond).pos <= k
    ensures FrameOf(c, data, other) == FrameOf(c, data, beyond)
  {
    TimesNat(c.samplesPerFrame, c.channels);
    var zeros := Zeros16(Times(c.samplesPerFrame, c.channels));
    var I, D := Input(data + beyond, |data|, |data|), Shape(c.samplesPerFrame, c.channels);
    SameBits(data, beyond, other, k);
    CursorDetermines(I, D, 0, c.samplesPerFrame, zeros, k);
    assert DecodeFrame(Input(data + other, I.byteSize, I.end), D, 0, c.samplesPerFrame, zeros)
           == DecodeFrame(I, D, 0, c.samplesPerFrame, zeros);
  }

  // Decoding into fresh zeros that delivers the samples is the packet's result.
  lemma PacketForm(c: Config, data: seq<byte>, beyond: seq<byte>, I: Input, D: Shape, n: nat, zeros: seq<int16>,
                   L: seq<int16>, R: seq<int16>, pos: nat)
    requires Acceptable(c) && c.channels == 2 && n == c.samplesPerFrame && |L| == |R| && 0 < |L| <= n
    requires 0 < |data| < TWO32
    requires I == Input(data + beyond, |data|, |data|) && D == Shape(n, 2) && zeros == Zeros16(2 * n)
    requires Delivers(DecodeFrame(I, D, 0, n, zeros), pos, L, R, zeros)
    ensures FrameOf(c, data, beyond) == Frame(Interleaved(L, R), |L|)
  {
    TimesIsProduct(n, 2);
    DeliveredFrame(DecodeFrame(I, D, 0, n, zeros), c, pos, L, R, zeros);
  }

  // A frame that is refused is a packet rejected.
  lemma RefusedForm(c: Config, data: seq<byte>, beyond: seq<byte>, I: Input, D: Shape, n: nat, zeros: seq<int16>)
    requires Acceptable(c) && n == c.samplesPerFrame && 0 < |data| < TWO32
    requires I == Input(data + beyond, |data|, |data|) && D == Shape(n, c.channels)
    requires zeros == Zeros16(if c.channels == 1 then n else n + n)
    requires DecodeFrame(I, D, 0, n, zeros).Done? && DecodeFrame(I, D, 0, n, zeros).status == PARAM_ERROR
    ensures FrameOf(c, data, beyond) == Rejected
  {
    TimesIsProduct(n, c.channels);
    assert Times(c.samplesPerFrame, c.channels) == if c.channels == 1 then n else n + n;
  }

  lemma PacketPlaced(b: seq<bit>, tail: seq<byte>, data: seq<byte>, beyond: seq<byte>, I: Input)
    requires data == Pack(b) + tail && I == Input(data + beyond, |data|, |data|) && |b| >= 1
    ensures Inside(I, 0, b) && data != []
  {
    PackCarries(b, tail + beyond);
    assert data + beyond == Pack(b) + (tail + beyond);
  }

  // The bits of a packet: elements to be skipped, then the frame.
  ghost function PacketBits(asides: seq<Aside>, frame: seq<bit>): seq<bit> {
    AsidesBits(AsideCoder(), asides, 0) + frame
  }

  // Where its frame starts.
  ghost function FrameStart(asides: seq<Aside>): nat {
    |AsidesBits(AsideCoder(), asides, 0)|
  }

  // A packet is decoded from behind what is skipped, where its frame lies.
  lemma FrameBehind(I: Input, D: Shape, asides: seq<Aside>, frame: seq<bit>, n: nat, zeros: seq<int16>, p: nat)
    requires 0 < D.channels && n <= D.frameLength && forall i :: 0 <= i < |asides| ==> asides[i].Valid()
    requires I.byteSize == I.end && Inside(I, 0, PacketBits(asides, frame)) && p == FrameStart(asides)
    ensures Inside(I, p, frame) && p + |frame| == |PacketBits(asides, frame)|
    ensures DecodeFrame(I, D, 0, n, zeros) == DecodeFrame(I, D, p, n, zeros)
  {
    var front := AsidesBits(AsideCoder(), asides, 0);
    Split(I.s, 0, front, frame, p);
    BehindAsides(I, D, 0, asides, n, zeros, p);
  }

  // What a packet is judged by, when its frame delivers the samples or is refused.
  lemma PairJudged(c: Config, data: seq<byte>, beyond: seq<byte>, I: Input, D: Shape, n: nat, zeros: seq<int16>,
                   p: nat, L: seq<int16>, R: seq<int16>, q: nat, timely: bool)
    requires Acceptable(c) && c.channels == 2 && n == c.samplesPerFrame && |L| == |R| && 0 < |L| <= n
    requires 0 < |data| < TWO32 && I == Input(data + beyond, |data|, |data|) && D == Shape(n, 2)
    requires zeros == Zeros16(2 * n) && DecodeFrame(I, D, 0, n, zeros) == DecodeFrame(I, D, p, n, zeros)
    requires var r := DecodeFrame(I, D, p, n, zeros);
             if timely then Delivers(r, q, L, R, zeros) else r.Done? && r.status == PARAM_ERROR
    ensures FrameOf(c, data, beyond) == if timely then Frame(Interleaved(L, R), |L|) else Rejected
  {
    if timely {
      PacketForm(c, data, beyond, I, D, n, zeros, L, R, q);
    } else {
      RefusedForm(c, data, beyond, I, D, n, zeros);
    }
  }

  // A packet that carries an encoded pair, whatever elements to be skipped go before it and whatever bytes follow
  // it, decodes to exactly its samples less the bytes shifted off, if the codes of both channels begin in time; and
  // is rejected if they do not.
  lemma CompressedPacketLossless(c: Config, asides: seq<Aside>, F: PairFrame, X: seq<int16>, Y: seq<int16>,
                                 tail: seq<byte>, data: seq<byte>, beyond: seq<byte>, I: Input, p: nat)
    requires Acceptable(c) && c.channels == 2 && |X| == |Y| && Encodable(F, X, Y, c.samplesPerFrame)
    requires 0 < |X| && (F.partial || |X| == c.samplesPerFrame)
    requires forall i :: 0 <= i < |asides| ==> asides[i].Valid()
    requires data == Pack(PacketBits(asides, EncodePair(F, X, Y))) + tail && |data| < TWO32
    requires I == Input(data + beyond, |data|, |data|) && p == FrameStart(asides)
    ensures FrameOf(c, data, beyond)
            == if PairInTime(I, F, X, Y, p) then Frame(Interleaved(Uppers(X, F.shifted), Uppers(Y, F.shifted)), |X|)
               else Rejected
  {
    var n: nat := c.samplesPerFrame;
    var b, L, R := EncodePair(F, X, Y), Uppers(X, F.shifted), Uppers(Y, F.shifted);
    var zeros, q, D := Zeros16(2 * n), p + |b|, Shape(n, 2);
    PacketPlaced(PacketBits(asides, b), tail, data, beyond, I);
    FrameBehind(I, D, asides, b, n, zeros, p);
    PairLossless(I, D, p, F, X, Y, n, zeros, q);
    PairJudged(c, data, beyond, I, D, n, zeros, p, L, R, q, PairInTime(I, F, X, Y, p));
  }

  // In a packet below 2^29 bytes they do, so nothing is lost.
  lemma SmallPacketLossless(c: Config, asides: seq<Aside>, F: PairFrame, X: seq<int16>, Y: seq<int16>,
                            tail: seq<byte>, data: seq<byte>, beyond: seq<byte>)
    requires Acceptable(c) && c.channels == 2 && |X| == |Y| && Encodable(F, X, Y, c.samplesPerFrame)
    requires 0 < |X| && (F.partial || |X| == c.samplesPerFrame)
    requires forall i :: 0 <= i < |asides| ==> asides[i].Valid()
    requires data == Pack(PacketBits(asides, EncodePair(F, X, Y))) + tail && |data| < 0x2000_0000
    ensures FrameOf(c, data, beyond) == Frame(Interleaved(Uppers(X, F.shifted), Uppers(Y, F.shifted)), |X|)
    ensures F.shifted == 0 ==> FrameOf(c, data, beyond) == Frame(Interleaved(X, Y), |X|)
  {
    var b, p := EncodePair(F, X, Y), FrameStart(asides);
    var I := Input(data + beyond, |data|, |data|);
    PacketPlaced(PacketBits(asides, b), tail, data, beyond, I);
    Split(I.s, 0, AsidesBits(AsideCoder(), asides, 0), b, p);
    PairsInTime(I, F, X, Y, p);
    CompressedPacketLossless(c, asides, F, X, Y, tail, data, beyond, I, p);
    NothingShifted(X);
    NothingShifted(Y);
  }

  lemma WholeTurn(size: nat)
    requires size == 0x2000_0000
    ensures 8 * size % TWO32 == 0
  {
  }

  // In one of 2^29 bytes, whose size in bits is 0 in 32 of them, they do not: the packet is rejected.
  lemma WrappedPacketRejected(c: Config, asides: seq<Aside>, F: PairFrame, X: seq<int16>, Y: seq<int16>,
                              tail: seq<byte>, data: seq<byte>, beyond: seq<byte>, size: nat)
    requires Acceptable(c) && c.channels == 2 && |X| == |Y| && Encodable(F, X, Y, c.samplesPerFrame)
    requires 0 < |X| && (F.partial || |X| == c.samplesPerFrame)
    requires forall i :: 0 <= i < |asides| ==> asides[i].Valid()
    requires data == Pack(PacketBits(asides, EncodePair(F, X, Y))) + tail && |data| == size == 0x2000_0000
    ensures FrameOf(c, data, beyond) == Rejected
  {
    var I, p := Input(data + beyond, size, size), FrameStart(asides);
    WholeTurn(size);
    PairNeverInTime(I, F, X, Y, p);
    CompressedPacketLossless(c, asides, F, X, Y, tail, data, beyond, I, p);
  }

  lemma RawPacketLossless(c: Config, asides: seq<Aside>, instance: nat, partial: bool, shifted: nat, L: seq<int16>,
                          R: seq<int16>, tail: seq<byte>, data: seq<byte>, beyond: seq<byte>)
    requires Acceptable(c) && c.channels == 2 && instance < 16 && shifted <= 2 && |L| == |R|
    requires 0 < |L| <= c.samplesPerFrame && (partial || |L| == c.samplesPerFrame)
    requires forall i :: 0 <= i < |asides| ==> asides[i].Valid()
    requires data == Pack(PacketBits(asides, EncodeRaw(instance, partial, shifted, L, R))) + tail && |data| < TWO32
    ensures FrameOf(c, data, beyond) == Frame(Interleaved(L, R), |L|)
  {
    var n: nat := c.samplesPerFrame;
    var b, p := EncodeRaw(instance, partial, shifted, L, R), FrameStart(asides);
    var zeros, q := Zeros16(2 * n), p + |b|;
    var I, D := Input(data + beyond, |data|, |data|), Shape(n, 2);
    PacketPlaced(PacketBits(asides, b), tail, data, beyond, I);
    FrameBehind(I, D, asides, b, n, zeros, p);
    RawLossless(I, D, p, instance, partial, shifted, L, R, n, zeros, q);
    PacketForm(c, data, beyond, I, D, n, zeros, L, R, q);
  }

  // A raw frame whose packet ends anywhere behind its first byte is accepted all the same, with what the memory
  // behind the packet holds for the samples that are not in it.
  lemma ShortPacketAccepted(c: Config, instance: nat, shifted: nat, L: seq<int16>, R: seq<int16>, frame: seq<byte>,
                            k: nat)
    requires Acceptable(c) && c.channels == 2 && instance < 16 && shifted <= 2 && |L| == |R| == c.samplesPerFrame
    requires frame == Pack(EncodeRaw(instance, false, shifted, L, R)) && 1 <= k <= |frame| && k < TWO32
    ensures FrameOf(c, frame[..k], frame[k..]) == Frame(Interleaved(L, R), |L|)
  {
    var n: nat := c.samplesPerFrame;
    var b, zeros, data := EncodeRaw(instance, false, shifted, L, R), Zeros16(2 * n), frame[..k];
    var I, D := Input(data + frame[k..], |data|, |data|), Shape(n, 2);
    assert data + frame[k..] == frame == Pack(b) + [];
    PackCarries(b, []);
    RawLossless(I, D, 0, instance, false, shifted, L, R, n, zeros, |b|);
    PacketForm(c, data, frame[k..], I, D, n, zeros, L, R, |b|);
  }

  // ---------- one channel ----------

  lemma MonoPacketForm(c: Config, data: seq<byte>, beyond: seq<byte>, I: Input, D: Shape, n: nat, zeros: seq<int16>,
                       S: seq<int16>, pos: nat)
    requires Acceptable(c) && c.channels == 1 && n == c.samplesPerFrame && 0 < |S| <= n && 0 < |data| < TWO32
    requires I == Input(data + beyond, |data|, |data|) && D == Shape(n, 1) && zeros == Zeros16(n)
    requires DeliversMono(DecodeFrame(I, D, 0, n, zeros), pos, S, zeros)
    ensures FrameOf(c, data, beyond) == Frame(S, |S|)
  {
    TimesIsProduct(n, 1);
  }

  // The same for a single channel, compressed and not.
  lemma MonoPacketLossless(c: Config, asides: seq<Aside>, F: SingleFrame, X: seq<int16>, tail: seq<byte>,
                           data: seq<byte>, beyond: seq<byte>, I: Input, p: nat)
    requires Acceptable(c) && c.channels == 1 && F.Valid(|X|, c.samplesPerFrame)
    requires 0 < |X| && (F.partial || |X| == c.samplesPerFrame)
    requires forall i :: 0 <= i < |asides| ==> asides[i].Valid()
    requires data == Pack(PacketBits(asides, EncodeSingle(F, X))) + tail && |data| < TWO32
    requires I == Input(data + beyond, |data|, |data|) && p == FrameStart(asides)
    ensures FrameOf(c, data, beyond)
            == if SingleInTime(I, F, X, p) then Frame(Uppers(X, F.shifted), |X|) else Rejected
  {
    var n: nat := c.samplesPerFrame;
    var b := EncodeSingle(F, X);
    var zeros, q, D := Zeros16(n), p + |b|, Shape(n, 1);
    PacketPlaced(PacketBits(asides, b), tail, data, beyond, I);
    FrameBehind(I, D, asides, b, n, zeros, p);
    SingleLossless(I, D, p, F, X, n, zeros, q);
    if SingleInTime(I, F, X, p) {
      MonoPacketForm(c, data, beyond, I, D, n, zeros, Uppers(X, F.shifted), q);
    } else {
      RefusedForm(c, data, beyond, I, D, n, zeros);
    }
  }

  lemma SmallMonoPacketLossless(c: Config, asides: seq<Aside>, F: SingleFrame, X: seq<int16>, tail: seq<byte>,
                                data: seq<byte>, beyond: seq<byte>)
    requires Acceptable(c) && c.channels == 1 && F.Valid(|X|, c.samplesPerFrame)
    requires 0 < |X| && (F.partial || |X| == c.samplesPerFrame)
    requires forall i :: 0 <= i < |asides| ==> asides[i].Valid()
    requires data == Pack(PacketBits(asides, EncodeSingle(F, X))) + tail && |data| < 0x2000_0000
    ensures FrameOf(c, data, beyond) == Frame(Uppers(X, F.shifted), |X|)
    ensures F.shifted == 0 ==> FrameOf(c, data, beyond) == Frame(X, |X|)
  {
    var b, p := EncodeSingle(F, X), FrameStart(asides);
    var I := Input(data + beyond, |data|, |data|);
    PacketPlaced(PacketBits(asides, b), tail, data, beyond, I);
    Split(I.s, 0, AsidesBits(AsideCoder(), asides, 0), b, p);
    SinglesInTime(I, F, X, p);
    MonoPacketLossless(c, asides, F, X, tail, data, beyond, I, p);
    NothingShifted(X);
  }

  lemma RawMonoPacketLossless(c: Config, asides: seq<Aside>, tag: nat, instance: nat, partial: bool, shifted: nat,
                              S: seq<int16>, tail: seq<byte>, data: seq<byte>, beyond: seq<byte>)
    requires Acceptable(c) && c.channels == 1 && (tag == SINGLE_TAG || tag == LFE_TAG) && instance < 16 && shifted <= 1
    requires 0 < |S| <= c.samplesPerFrame && (partial || |S| == c.samplesPerFrame) && AllFit(S, SingleWidth(shifted))
    requires forall i :: 0 <= i < |asides| ==> asides[i].Valid()
    requires data == Pack(PacketBits(asides, EncodeRawSingle(tag, instance, partial, shifted, S))) + tail
    requires |data| < TWO32
    ensures FrameOf(c, data, beyond) == Frame(S, |S|)
  {
    var n: nat := c.samplesPerFrame;
    var b, p := EncodeRawSingle(tag, instance, partial, shifted, S), FrameStart(asides);
    var zeros, q := Zeros16(n), p + |b|;
    var I, D := Input(data + beyond, |data|, |data|), Shape(n, 1);
    PacketPlaced(PacketBits(asides, b), tail, data, beyond, I);
    FrameBehind(I, D, asides, b, n, zeros, p);
    RawSingleLossless(I, D, p, tag, instance, partial, shifted, S, n, zeros, q);
    MonoPacketForm(c, data, beyond, I, D, n, zeros, S, q);
  }

  // The wrapper class of alac_decoder.cpp.
  class AlacWrapper {
    var configured: bool
    var config: Config
    var decoder: Decoder.AlacDecoder?

    ghost predicate Valid()
      reads this
    {
      configured ==> decoder != null && decoder.Valid() && Acceptable(config) &&
                     decoder.frameLength == config.samplesPerFrame
    }

    constructor ()
      ensures Valid() && !configured
    {
      configured := false;
      config := Config(44100, 352, 2, 16);
      decoder := null;
    }

    // A refused configuration leaves the earlier one in force.
    method Configure(c: Config) returns (ok: bool)
      requires Valid()
      modifies this
      ensures Valid() && ok == Acceptable(c)
      ensures ok <==> 1 <= c.channels <= 2 && c.bitsPerSample == 16 && 1 <= c.samplesPerFrame <= 65536
      ensures if ok then configured && config == c && fresh(decoder)
              else configured == old(configured) && config == old(config) && decoder == old(decoder)
    {
      if c.channels == 0 || c.channels > 2 || c.bitsPerSample != 16 || c.samplesPerFrame == 0 {
        return false;
      }
      var cookie := MakeMagicCookie(c);
      CookieRoundTrip(c);
      var parsed := ParseCookie(cookie);
      match parsed
      case None => ok := false;
      case Some(k) =>
        decoder := new Decoder.AlacDecoder(k.frameLength);
        config := c;
        configured := true;
        ok := true;
    }

    // decode_frame, of the packets for which Decode is defined. The memory behind the copy of the packet, which the
    // readers may look into, is a parameter.
    method DecodeFrame(data: seq<byte>, beyond: seq<byte>)
      returns (ok: bool, pcm: seq<int16>, frameCount: nat)
      requires Valid() && (configured ==> !FrameOf(config, data, beyond).Undefined?)
      modifies if decoder != null then decoder.Buffers() else {}
      ensures !configured ==> !ok
      ensures !ok ==> pcm == [] && frameCount == 0
      ensures configured ==>
        FrameOf(config, data, beyond) == if ok then Frame(pcm, frameCount) else Rejected
    {
      ok, pcm, frameCount := false, [], 0;
      if !configured || |data| == 0 || |data| > 0xffff_ffff {
        return;
      }
      var status, count, output := RunDecoder(data, beyond);
      if status != NO_ERR || count == 0 || count > config.samplesPerFrame {
        return;
      }
      Within(count, config.samplesPerFrame, config.channels);
      TimesIsProduct(config.samplesPerFrame, config.channels);
      pcm := output[..count * config.channels];
      ok, frameCount := true, count;
    }

    // Decode over a copy of the packet, into fresh zeros.
    method RunDecoder(data: seq<byte>, beyond: seq<byte>) returns (status: int, count: nat, out: seq<int16>)
      requires Valid() && configured && PacketOutcome(config, data, beyond).Done?
      modifies if decoder != null then decoder.Buffers() else {}
      ensures exists pos: nat :: PacketOutcome(config, data, beyond) == Done(status, pos, count, out)
      ensures |out| == Times(config.samplesPerFrame, config.channels)
    {
      var all := data + beyond;
      var input := new byte[|all|](i requires 0 <= i < |all| => all[i]);
      assert input[..] == all;
      var bits := new BitBuffer(input, 0, |data|);
      TimesIsProduct(config.samplesPerFrame, config.channels);
      var output := new int16[config.samplesPerFrame * config.channels](_ => 0);
      assert output[..] == Zeros16(output.Length);
      status, count := decoder.Decode(bits, output, config.samplesPerFrame, config.channels);
      out := output[..];
    }
  }

  lemma Within(a: nat, b: nat, c: nat)
    requires a <= b
    ensures a * c <= b * c
  {
    assert (b - a) * c >= 0;
  }
}
