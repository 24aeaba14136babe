/**
 The elements of a frame as ALACDecoder::Decode reads them at a bit depth of 16, as functions of the
 bit stream: headers, channel parameters, compressed and raw channels, data stream and fill elements.
 */
module FrameFormat {
  import opened Words
  import opened BitStream
  import opened AdaptiveGolomb
  import opened AdaptiveBlocks
  import GolombBlock
  import opened Predictor
  import opened Matrix

  // The coder parameters of the cookie the wrapper makes.
  const PB0: nat := 40
  const MB0: nat := 10
  const KB0: nat := 14

  const BIT_DEPTH: nat := 16
  const NO_ERR: int := 0
  const PARAM_ERROR: int := -50

  const ID_SCE: nat := 0
  const ID_CPE: nat := 1
  const ID_LFE: nat := 3
  const ID_DSE: nat := 4
  const ID_FIL: nat := 6
  const ID_END: nat := 7

  // The bytes a bit buffer runs over.
  datatype Input = Input(s: seq<byte>, byteSize: nat, end: nat)

  // ---------- headers and parameters ----------

  datatype Header = Header(unused: nat, shifted: nat, escape: nat, count: nat, next: nat)

  // Instance tag, unused bits, partial flag, bytes shifted off, escape flag and the count of a
  // partial frame.
  function ReadHeader(s: seq<byte>, p: nat, count: nat): Header {
    var unused, partial := Bits(s, p + 4, 12), Bits(s, p + 16, 1);
    var shifted, escape := Bits(s, p + 17, 2), Bits(s, p + 19, 1);
    if partial != 0 then Header(unused, shifted, escape, Bits(s, p + 20, 32), p + 52)
    else Header(unused, shifted, escape, count, p + 20)
  }

  // What the header holds for one channel.
  datatype Settings = Settings(mode: nat, den: nat, pbFactor: nat, coefs: seq<int16>)

  type Params = P: Settings | |P.coefs| <= 31 && P.den <= 15 && P.pbFactor <= 7
    witness Settings(0, 0, 0, [])

  function ReadCoefs(s: seq<byte>, p: nat, n: nat): (c: seq<int16>)
    ensures |c| == n
    decreases n, p
  {
    if n == 0 then [] else [Wrap16(Bits(s, p, 16))] + ReadCoefs(s, p + 16, n - 1)
  }

  function ReadParams(s: seq<byte>, p: nat): (r: (Params, nat))
    ensures r.1 >= p + 16
  {
    var n := Bits(s, p + 11, 5);
    FieldBounds(s, p);
    (Settings(Bits(s, p, 4), Bits(s, p + 4, 4), Bits(s, p + 8, 3), ReadCoefs(s, p + 16, n)), p + 16 + 16 * n)
  }

  lemma FieldBounds(s: seq<byte>, p: nat)
    ensures Bits(s, p + 11, 5) <= 31 && Bits(s, p + 4, 4) <= 15 && Bits(s, p + 8, 3) <= 7
  {
    BitsBound(s, p + 11, 5);
    BitsBound(s, p + 4, 4);
    BitsBound(s, p + 8, 3);
    SmallPowers();
  }

  lemma SmallPowers()
    ensures Pow2(3) == 8 && Pow2(4) == 16 && Pow2(5) == 32
  {
  }

  // Parameters and headers from their fields.
  lemma ParamsForm(s: seq<byte>, p: nat, P: Params, p1: nat, p2: nat, p3: nat, p4: nat, n: nat, q: nat)
    requires p1 == p + 4 && p2 == p + 8 && p3 == p + 11 && p4 == p + 16 && n == |P.coefs| && q == p4 + 16 * n
    requires Bits(s, p, 4) == P.mode && Bits(s, p1, 4) == P.den && Bits(s, p2, 3) == P.pbFactor
    requires Bits(s, p3, 5) == n && ReadCoefs(s, p4, n) == P.coefs
    ensures ReadParams(s, p) == (P, q)
  {
  }

  lemma HeaderParts(s: seq<byte>, p: nat, count: nat, p1: nat, p2: nat, p3: nat, p4: nat, p5: nat, h: Header)
    requires p1 == p + 4 && p2 == p + 16 && p3 == p + 17 && p4 == p + 19 && p5 == p + 20
    requires h == ReadHeader(s, p, count)
    ensures h.unused == Bits(s, p1, 12) && h.shifted == Bits(s, p3, 2) && h.escape == Bits(s, p4, 1)
    ensures h.count == if Bits(s, p2, 1) != 0 then Bits(s, p5, 32) else count
    ensures h.next == if Bits(s, p2, 1) != 0 then p5 + 32 else p5
  {
  }

  // ---------- compressed channels ----------

  datatype ChannelData =
    | Broken(next: nat)
    | Unusable(next: nat)
    | Restored(vals: seq<int32>, next: nat)

  type Width = w: nat | w <= 32

  // A channel of n samples at a bit, by its parameters and sample width.
  type ChannelReader = (nat, nat, Params, Width) -> ChannelData

  // set_ag_params on the cookie's values and the channel's factor.
  function CoderOf(pbFactor: nat): (P: AgParams)
    requires pbFactor <= 7
    ensures P.Valid()
  {
    SetAgParams(MB0, PB0 * pbFactor / 4, KB0)
  }

  // A scale or a width of 0 is only let through where it is not used.
  function Used(x: nat): (r: nat)
    ensures r >= 1
  {
    if x == 0 then 1 else x
  }

  function Taps(P: Params, bits: nat): Config {
    Config(|P.coefs|, Used(bits), Used(P.den))
  }

  // Does unpc_block stay within buffers of frameLength samples and use defined shifts, for n samples? The warm-up
  // runs over all taps whatever n is, and the scale is used behind it.
  predicate UsableTaps(taps: nat, bits: nat, den: nat, n: nat, frameLength: nat) {
    if taps == 0 then true
    else if taps == 31 then n > 1 ==> bits > 0
    else bits > 0 && taps < frameLength && (n > taps + 1 ==> den > 0)
  }

  // The same for both calls of a channel, the first an integrator when the mode asks for it.
  predicate Usable(P: Params, bits: nat, n: nat, frameLength: nat) {
    (P.mode != 0 ==> UsableTaps(31, bits, 0, n, frameLength)) && UsableTaps(|P.coefs|, bits, P.den, n, frameLength)
  }

  // dyn_decomp and then unpc_block, once or twice.
  ghost function ReadChannel(I: Input, frameLength: nat, p: nat, n: nat, P: Params, bits: Width): (r: ChannelData)
    ensures r.Restored? ==> |r.vals| == n <= frameLength
  {
    var A, limit := CoderOf(P.pbFactor), EntropyLimit(I, p);
    ChannelOf(GolombBlock.Decode(A, I.s, limit, p, n, bits), GolombBlock.Escapes(A, I.s, limit, p, n, bits), I.end, P,
              bits, frameLength)
  }

  // dyn_decomp counts its limit from the byte the cursor is in, in 32 bits.
  function EntropyLimit(I: Input, p: nat): nat {
    8 * (p / 8) + 8 * I.byteSize % TWO32
  }

  // What becomes of the residuals, which are stored before anything else is looked at.
  ghost function ChannelOf(d: Decoded, escapes: bool, end: nat, P: Params, bits: Width, frameLength: nat)
    : (r: ChannelData)
    ensures r.Restored? ==> |r.vals| == |d.vals| <= frameLength && d.ok
    ensures r.next == d.pos
  {
    if escapes || |d.vals| > frameLength then Unusable(d.pos)
    else if !d.ok || d.pos / 8 > end then Broken(d.pos)
    else if !Usable(P, bits, |d.vals|, frameLength) then Unusable(d.pos)
    else Restored(Channel(Taps(P, bits), P.mode != 0, d.vals, P.coefs), d.pos)
  }

  ghost function ReaderOf(I: Input, frameLength: nat): ChannelReader {
    (p: nat, n: nat, P: Params, bits: Width) => ReadChannel(I, frameLength, p, n, P, bits)
  }

  // The channel a reader finds, apart from any heap.
  function ChannelAt(read: ChannelReader, p: nat, n: nat, P: Params, w: Width): ChannelData {
    read(p, n, P, w)
  }

  lemma LimitAt(I: Input, p: nat, cur: nat, index: nat)
    requires p == 8 * cur + index && index < 8
    ensures EntropyLimit(I, p) == 8 * cur + 8 * I.byteSize % TWO32
  {
  }

  lemma ReaderForm(I: Input, frameLength: nat, read: ChannelReader, start: nat, n: nat, P: Params, w: Width,
                   A: AgParams, limit: nat, d: Decoded, escapes: bool)
    requires read == ReaderOf(I, frameLength) && A == CoderOf(P.pbFactor) && limit == EntropyLimit(I, start)
    requires d == GolombBlock.Decode(A, I.s, limit, start, n, w)
    requires escapes == GolombBlock.Escapes(A, I.s, limit, start, n, w)
    ensures ChannelAt(read, start, n, P, w) == ChannelOf(d, escapes, I.end, P, w, frameLength)
  {
  }

  // ---------- raw channels ----------

  // n samples of the given width, one every step bits.
  function ReadRaw(s: seq<byte>, p: nat, width: nat, step: nat, n: nat): (r: seq<int32>)
    requires n > 0 ==> 1 <= width <= 32
    ensures |r| == n
    decreases n, p
  {
    if n == 0 then [] else [SignExtend(Bits(s, p, width), width)] + ReadRaw(s, p + step, width, step, n - 1)
  }

  // ---------- elements ----------

  datatype Element =
    | Undefined
    | Exit(status: int, next: nat)
    | NoMoreChannels(status: int, next: nat)
    | Skipped(next: nat)
    | Single(u: seq<int32>, next: nat)
    | Pair(u: seq<int32>, v: seq<int32>, mixbits: nat, mixres: int8, next: nat)

  // n groups of w bits.
  function Skip(n: nat, w: nat): (r: nat)
  {
    if n == 0 then 0 else Skip(n - 1, w) + w
  }

  function Signed8(x: nat): int8 {
    (x + 128) % 256 - 128
  }

  lemma {:induction false} SkipIsProduct(n: nat, w: nat)
    ensures Skip(n, w) == w * n
  {
    if n > 0 {
      SkipIsProduct(n - 1, w);
      assert w * n == w * (n - 1) + w;
    }
  }

  // How far the cursor is advanced over them: the product is taken in 32 bits.
  function Skip32(n: nat, w: nat): (r: nat) {
    Skip(n, w) % TWO32
  }

  lemma AdvanceWraps(n: nat, w: nat)
    ensures Skip32(n, w) == (w * n) % 0x1_0000_0000
  {
    SkipIsProduct(n, w);
  }

  // One channel after its header. A single channel ignores the mixing parameters.
  ghost function SingleBody(read: ChannelReader, s: seq<byte>, h: Header, frameLength: nat): (e: Element)
    requires h.shifted <= 2
  {
    var chanBits := BIT_DEPTH - 8 * h.shifted;
    if h.escape == 0 then
      var (P, q) := ReadParams(s, h.next + 16);
      SingleOf(ChannelAt(read, q + Skip32(h.count, 8 * h.shifted), h.count, P, chanBits))
    else if h.count > frameLength || (chanBits == 0 && h.count > 0) then Undefined
    else Single(ReadRaw(s, h.next, chanBits, chanBits, h.count), h.next + Skip(h.count, chanBits))
  }

  function SingleOf(c: ChannelData): Element {
    match c
    case Broken(q) => Exit(PARAM_ERROR, q)
    case Unusable(_) => Undefined
    case Restored(u, q) => Single(u, q)
  }

  // What stands between the header of a compressed pair and its channels, and where they start.
  datatype PairFields = PairFields(mixbits: nat, mixres: int8, U: Params, V: Params, start: nat)

  function ReadPairFields(s: seq<byte>, h: Header): PairFields {
    var (U, q) := ReadParams(s, h.next + 16);
    var (V, r) := ReadParams(s, q);
    PairFields(Bits(s, h.next, 8), Signed8(Bits(s, h.next + 8, 8)), U, V, r + Skip32(h.count, 16 * h.shifted))
  }

  lemma FieldsForm(s: seq<byte>, h: Header, p: nat, p': nat, U: Params, q: nat, V: Params, r: nat, start: nat,
                   mixbits: nat, mixres: int8)
    requires p == h.next + 8 && p' == p + 8 && ReadParams(s, p') == (U, q) && ReadParams(s, q) == (V, r)
    requires start == r + Skip32(h.count, 16 * h.shifted)
    requires mixbits == Bits(s, h.next, 8) && mixres == Signed8(Bits(s, p, 8))
    ensures ReadPairFields(s, h) == PairFields(mixbits, mixres, U, V, start)
  {
  }

  // Two channels after their header.
  ghost function PairBody(read: ChannelReader, s: seq<byte>, h: Header, frameLength: nat): (e: Element)
    requires h.shifted <= 2
  {
    if h.escape == 0 then
      var F := ReadPairFields(s, h);
      CompressedPair(read, h.shifted, h.count, F.U, F.V, F.start, F.mixbits, F.mixres)
    else if h.count > frameLength then Undefined
    else
      Pair(ReadRaw(s, h.next, 16, 32, h.count), ReadRaw(s, h.next + 16, 16, 32, h.count), 0, 0,
           h.next + 32 * h.count)
  }

  // Both channels, behind the bits shifted off.
  ghost function CompressedPair(read: ChannelReader, shifted: nat, n: nat, U: Params, V: Params, start: nat,
                                mixbits: nat, mixres: int8): (e: Element)
    requires shifted <= 2
  {
    var w := BIT_DEPTH - 8 * shifted + 1;
    var c := ChannelAt(read, start, n, U, w);
    PairOf(c, ChannelAt(read, c.next, n, V, w), n, mixbits, mixres)
  }

  lemma ChannelsForm(read: ChannelReader, shifted: nat, n: nat, U: Params, V: Params, start: nat, mixbits: nat,
                     mixres: int8, w: Width, c: ChannelData, d: ChannelData)
    requires shifted <= 2 && w == BIT_DEPTH - 8 * shifted + 1
    requires c == ChannelAt(read, start, n, U, w) && d == ChannelAt(read, c.next, n, V, w)
    ensures CompressedPair(read, shifted, n, U, V, start, mixbits, mixres) == PairOf(c, d, n, mixbits, mixres)
  {
  }

  // The body of a compressed pair from its parts.
  lemma PairForm(read: ChannelReader, s: seq<byte>, h: Header, frameLength: nat, p: nat, p': nat, U: Params, q: nat,
                 V: Params, r: nat, start: nat, mixbits: nat, mixres: int8)
    requires h.shifted <= 2 && h.escape == 0 && p == h.next + 8 && p' == p + 8
    requires ReadParams(s, p') == (U, q) && ReadParams(s, q) == (V, r) && start == r + Skip32(h.count, 16 * h.shifted)
    requires mixbits == Bits(s, h.next, 8) && mixres == Signed8(Bits(s, p, 8))
    ensures PairBody(read, s, h, frameLength)
            == CompressedPair(read, h.shifted, h.count, U, V, start, mixbits, mixres)
  {
    FieldsForm(s, h, p, p', U, q, V, r, start, mixbits, mixres);
  }

  lemma SingleForm(read: ChannelReader, s: seq<byte>, h: Header, frameLength: nat, p: nat, P: Params, q: nat,
                   start: nat, w: Width)
    requires h.shifted <= 2 && h.escape == 0 && p == h.next + 16
    requires ReadParams(s, p) == (P, q) && start == q + Skip32(h.count, 8 * h.shifted)
    requires w == BIT_DEPTH - 8 * h.shifted
    ensures SingleBody(read, s, h, frameLength) == SingleOf(ChannelAt(read, start, h.count, P, w))
  {
  }

  // The second channel is only looked at when the first is restored, and un-mixing shifts by mixbits as soon as
  // there is a sample.
  function PairOf(c: ChannelData, d: ChannelData, n: nat, mixbits: nat, mixres: int8): Element {
    match c
    case Broken(q) => Exit(PARAM_ERROR, q)
    case Unusable(_) => Undefined
    case Restored(u, _) =>
      match d
      case Broken(q) => Exit(PARAM_ERROR, q)
      case Unusable(_) => Undefined
      case Restored(v, q) => if mixres != 0 && mixbits >= 32 && n > 0 then Undefined else Pair(u, v, mixbits, mixres, q)
  }

  // DataStreamElement at the bit behind the tag: its count, where that ends, and the skip.
  function DataCount(s: seq<byte>, p: nat): nat {
    var count := Bits(s, p + 5, 8);
    if count == 255 then count + Bits(s, p + 13, 8) else count
  }

  function DataNext(s: seq<byte>, p: nat): nat {
    if Bits(s, p + 5, 8) == 255 then p + 21 else p + 13
  }

  function Aligned(p: nat): nat {
    (p + 7) / 8 * 8
  }

  function DataStream(I: Input, p: nat): Element {
    var q := DataNext(I.s, p);
    var start := if Bits(I.s, p + 4, 1) != 0 then Aligned(q) else q;
    Past(I, start + 8 * DataCount(I.s, p))
  }

  // FillElement at the bit behind the tag.
  function Fill(I: Input, p: nat): Element {
    var count := Bits(I.s, p, 4);
    if count == 15 then Past(I, p + 12 + 8 * (14 + Bits(I.s, p + 4, 8))) else Past(I, p + 4 + 8 * count)
  }

  // Skipped data must not end past the buffer.
  function Past(I: Input, p: nat): Element {
    if p / 8 <= I.end then Skipped(p) else NoMoreChannels(PARAM_ERROR, p)
  }

  // A single channel or a pair behind its header, which started at p.
  ghost function AudioElement(read: ChannelReader, s: seq<byte>, pair: bool, h: Header, p: nat, frameLength: nat)
    : (e: Element)
  {
    if h.unused != 0 then Exit(PARAM_ERROR, p + 16)
    else if h.shifted >= 3 then Exit(PARAM_ERROR, p + 20)
    else if pair then PairBody(read, s, h, frameLength)
    else SingleBody(read, s, h, frameLength)
  }

  // The element with the given tag, at the bit behind the tag, with ch of the channels filled, and the
  // number of samples in force from then on.
  ghost function ReadElement(read: ChannelReader, I: Input, tag: nat, p: nat, count: nat, ch: nat, channels: nat,
                             frameLength: nat): (e: (Element, nat))
  {
    if tag == ID_CPE && ch + 2 > channels then (NoMoreChannels(NO_ERR, p), count)
    else if tag == ID_SCE || tag == ID_LFE || tag == ID_CPE then
      var h := ReadHeader(I.s, p, count);
      (AudioElement(read, I.s, tag == ID_CPE, h, p, frameLength), h.count)
    else if tag == ID_DSE then (DataStream(I, p), count)
    else if tag == ID_FIL then (Fill(I, p), count)
    else if tag == ID_END then (Exit(NO_ERR, Aligned(p)), count)
    else (NoMoreChannels(PARAM_ERROR, p), count)  // the coupling and program config elements, tags 2 and 5
  }
}
