/**
 ALACDecoder: the buffers, the decoding of single channels and of the elements of a frame, and the
 loop over them, tied to the frame decoder of FrameElements.
 */
module AlacDecoder {
  import opened Words
  import opened BitStream
  import opened BitBuffers
  import opened AdaptiveBlocks
  import GolombBlock
  import opened GolombDecoder
  import opened Predictor
  import PredictorBlock
  import opened Matrix
  import opened Frames
  import opened Unmixing
  import opened FrameFormat
  import opened FrameReaders
  import opened FrameElements

  class AlacDecoder {
    const frameLength: nat
    const mixBufferU: array<int32>
    const mixBufferV: array<int32>
    const predictor: array<int32>
    const shiftBuffer: array<uint16>

    ghost predicate Valid() {
      && 0 < frameLength <= 65536
      && mixBufferU.Length == mixBufferV.Length == predictor.Length == frameLength
      && shiftBuffer.Length == 2 * frameLength
      && mixBufferU != mixBufferV && mixBufferU != predictor && mixBufferV != predictor
    }

    ghost function Buffers(): set<object> {
      var samples: set<object> := {mixBufferU, mixBufferV, predictor};
      samples + {shiftBuffer}
    }

    // The allocations of Init.
    constructor (frameLength: nat)
      requires 0 < frameLength <= 65536
      ensures Valid() && this.frameLength == frameLength
      ensures fresh(mixBufferU) && fresh(mixBufferV) && fresh(predictor) && fresh(shiftBuffer)
    {
      this.frameLength := frameLength;
      mixBufferU := new int32[frameLength](_ => 0);
      mixBufferV := new int32[frameLength](_ => 0);
      predictor := new int32[frameLength](_ => 0);
      shiftBuffer := new uint16[2 * frameLength](_ => 0);
    }

    // unpc_block, behind the integrator in place when the mode asks for it.
    method RunPredictor(out: array<int32>, coefs: array<int16>, n: nat, mode: nat, C: Config)
      requires Valid() && n <= frameLength && out.Length == frameLength && out != predictor
      requires C.Valid() && C.n <= coefs.Length && (C.Adaptive() ==> C.n < frameLength)
      modifies predictor, out, coefs
      ensures out[..n] == Channel(C, mode != 0, old(predictor[..n]), old(coefs[..C.n]))
    {
      if mode != 0 {
        ghost var pc := predictor[..n];
        PredictorBlock.UnpcBlock(predictor, predictor, n, null, Integrator(C.bits));
        assert PredictorBlock.Taps(null, 31) == NoCoefs();
      }
      PredictorBlock.UnpcBlock(predictor, out, n, coefs, C);
    }

    // What follows dyn_decomp, whose outcome is d.
    method FinishChannel(out: array<int32>, coefs: array<int16>, n: nat, den: nat, mode: nat, num: nat, w: Width,
                         status: int, ghost d: Decoded, ghost escapes: bool, ghost end: nat, ghost P: Params)
      requires Valid() && out.Length == frameLength && out != predictor && num <= coefs.Length
      requires P == Settings(mode, den, P.pbFactor, coefs[..num])
      requires status == (if d.ok && d.pos / 8 <= end then NO_ERR else PARAM_ERROR)
      requires |d.vals| <= frameLength && (d.ok ==> |d.vals| == n) && predictor[..|d.vals|] == d.vals
      requires !ChannelOf(d, escapes, end, P, w, frameLength).Unusable?
      modifies predictor, out, coefs
      ensures var c := ChannelOf(d, escapes, end, P, w, frameLength);
              && (status == NO_ERR <==> c.Restored?) && (status == PARAM_ERROR <==> c.Broken?)
              && (c.Restored? ==> n <= frameLength && out[..n] == c.vals)
    {
      if status != NO_ERR {
        return;
      }
      RunPredictor(out, coefs, n, mode, Config(num, Used(w), Used(den)));
    }

    // One channel: dyn_decomp into the predictor buffer, then the predictor.
    method DecodeChannel(bits: BitBuffer, out: array<int32>, coefs: array<int16>, n: nat, mode: nat, den: nat,
                         pbFactor: nat, num: nat, w: Width, ghost P: Params, ghost I: Input,
                         ghost read: ChannelReader, ghost start: nat, ghost c: ChannelData)
      returns (status: int)
      requires Valid() && bits.Valid()
      requires start == bits.Pos() && c == ChannelAt(read, start, n, P, w) && !c.Unusable?
      requires out.Length == frameLength && out != predictor && num <= coefs.Length
      requires P == Settings(mode, den, pbFactor, coefs[..num])
      requires I == Input(bits.buffer[..], bits.byteSize, bits.end) && read == ReaderOf(I, frameLength)
      modifies bits, predictor, out, coefs
      ensures bits.Valid() && bits.buffer[..] == I.s && bits.Pos() == c.next
      ensures (status == NO_ERR <==> c.Restored?) && (status == PARAM_ERROR <==> c.Broken?)
      ensures c.Restored? ==> n <= frameLength && out[..n] == c.vals
    {
      var A := CoderOf(pbFactor);
      ghost var limit := 8 * bits.cur + 8 * bits.byteSize % TWO32;
      LimitAt(I, start, bits.cur, bits.bitIndex);
      ghost var d := GolombBlock.Decode(A, I.s, limit, start, n, w);
      ghost var escapes := GolombBlock.Escapes(A, I.s, limit, start, n, w);
      ReaderForm(I, frameLength, read, start, n, P, w, A, limit, d, escapes);
      StoresFit(d, escapes, I.end, P, w, frameLength, n);
      var bits1;
      status, bits1 := DynDecomp(A, bits, predictor, n, w, limit, start);
      FinishChannel(out, coefs, n, den, mode, num, w, status, d, escapes, I.end, P);
    }

    // A second cursor on the bits shifted off, and the skip over them.
    method SkipShifted(bits: BitBuffer, w: nat, n: nat, ghost bytes: nat) returns (shiftBits: BitBuffer)
      requires bits.Valid() && w == 8 * bytes
      modifies bits
      ensures bits.Valid() && bits.Pos() == old(bits.Pos()) + Skip32(n, w)
      ensures fresh(shiftBits) && shiftBits.Valid() && shiftBits.Pos() == old(bits.Pos())
      ensures shiftBits.buffer == bits.buffer && bits.buffer[..] == old(bits.buffer[..])
    {
      shiftBits := new BitBuffer.Copy(bits);
      SkipIsProduct(n, w);
      var numBits := w * n % TWO32;
      WholeBytes(n, w, numBits, bytes);
      bits.Advance(numBits);
    }

    // The two channels of a compressed pair.
    method PairChannels(bits: BitBuffer, n: nat, w: Width, mixbits: nat, mixres: int8,
                        coefsU: array<int16>, modeU: nat, denU: nat, pbFactorU: nat, numU: nat, ghost U: Params,
                        coefsV: array<int16>, modeV: nat, denV: nat, pbFactorV: nat, numV: nat, ghost V: Params,
                        ghost I: Input, ghost read: ChannelReader, ghost start: nat, ghost c: ChannelData,
                        ghost d: ChannelData, ghost e: Element)
      returns (status: int)
      requires Valid() && bits.Valid() && coefsU != coefsV && !e.Undefined?
      requires I == Input(bits.buffer[..], bits.byteSize, bits.end) && read == ReaderOf(I, frameLength)
      requires numU <= coefsU.Length && U == Settings(modeU, denU, pbFactorU, coefsU[..numU])
      requires numV <= coefsV.Length && V == Settings(modeV, denV, pbFactorV, coefsV[..numV])
      requires bits.Pos() == start && c == ChannelAt(read, start, n, U, w) && d == ChannelAt(read, c.next, n, V, w)
      requires e == PairOf(c, d, n, mixbits, mixres)
      modifies bits, predictor, mixBufferU, mixBufferV, coefsU, coefsV
      ensures bits.Valid() && bits.buffer[..] == I.s
      ensures PairReported(e, status, bits.Pos(), n, mixBufferU[..], mixBufferV[..], mixbits, mixres)
    {
      status := DecodeChannel(bits, mixBufferU, coefsU, n, modeU, denU, pbFactorU, numU, w, U, I, read, start, c);
      if status != NO_ERR {
        return;
      }
      ghost var u := mixBufferU[..n];
      status := DecodeChannel(bits, mixBufferV, coefsV, n, modeV, denV, pbFactorV, numV, w, V, I, read, c.next, d);
      if status != NO_ERR {
        return;
      }
      assert mixBufferU[..n] == u;
    }

    // The mixing parameters.
    static method ReadMixing(bits: BitBuffer, ghost p: nat) returns (mixbits: nat, mixres: int8)
      requires bits.Valid() && p == bits.Pos() + 8
      modifies bits
      ensures bits.Valid() && bits.buffer[..] == old(bits.buffer[..]) && bits.Pos() == p + 8
      ensures mixbits == Bits(bits.buffer[..], old(bits.Pos()), 8) && mixres == Signed8(Bits(bits.buffer[..], p, 8))
    {
      mixbits := bits.Read(8);
      var x := bits.Read(8);
      mixres := Signed8(x);
    }

    // The mixing parameters and those of both channels.
    static method ReadPairSettings(bits: BitBuffer, coefsU: array<int16>, coefsV: array<int16>, ghost p: nat,
                                   ghost p': nat)
      returns (mixbits: nat, mixres: int8, modeU: nat, denU: nat, pbFactorU: nat, numU: nat,
               modeV: nat, denV: nat, pbFactorV: nat, numV: nat, ghost U: Params, ghost q: nat, ghost V: Params)
      requires bits.Valid() && coefsU.Length == coefsV.Length == 32 && coefsU != coefsV
      requires p == bits.Pos() + 8 && p' == p + 8
      modifies bits, coefsU, coefsV
      ensures bits.Valid() && bits.buffer[..] == old(bits.buffer[..]) && numU <= 31 && numV <= 31
      ensures mixbits == Bits(bits.buffer[..], old(bits.Pos()), 8) && mixres == Signed8(Bits(bits.buffer[..], p, 8))
      ensures U == Settings(modeU, denU, pbFactorU, coefsU[..numU])
      ensures V == Settings(modeV, denV, pbFactorV, coefsV[..numV])
      ensures ReadParams(bits.buffer[..], p') == (U, q) && ReadParams(bits.buffer[..], q) == (V, bits.Pos())
    {
      mixbits, mixres := ReadMixing(bits, p);
      modeU, denU, pbFactorU, numU, modeV, denV, pbFactorV, numV, U, q, V := ReadBothSettings(bits, coefsU, coefsV, p');
    }

    static method ReadBothSettings(bits: BitBuffer, coefsU: array<int16>, coefsV: array<int16>, ghost p: nat)
      returns (modeU: nat, denU: nat, pbFactorU: nat, numU: nat,
               modeV: nat, denV: nat, pbFactorV: nat, numV: nat, ghost U: Params, ghost q: nat, ghost V: Params)
      requires bits.Valid() && coefsU.Length == coefsV.Length == 32 && coefsU != coefsV && p == bits.Pos()
      modifies bits, coefsU, coefsV
      ensures bits.Valid() && bits.buffer[..] == old(bits.buffer[..]) && numU <= 31 && numV <= 31
      ensures U == Settings(modeU, denU, pbFactorU, coefsU[..numU])
      ensures V == Settings(modeV, denV, pbFactorV, coefsV[..numV])
      ensures ReadParams(bits.buffer[..], p) == (U, q) && ReadParams(bits.buffer[..], q) == (V, bits.Pos())
    {
      modeU, denU, pbFactorU, numU := ReadSettings(bits, coefsU);
      U, q := Settings(modeU, denU, pbFactorU, coefsU[..numU]), bits.Pos();
      modeV, denV, pbFactorV, numV := ReadSettings(bits, coefsV);
      V := Settings(modeV, denV, pbFactorV, coefsV[..numV]);
    }

    // The skip over the bits shifted off, and the channels behind it.
    method SkipAndDecode(bits: BitBuffer, shifted: nat, n: nat, mixbits: nat, mixres: int8,
                         coefsU: array<int16>, modeU: nat, denU: nat, pbFactorU: nat, numU: nat, ghost U: Params,
                         coefsV: array<int16>, modeV: nat, denV: nat, pbFactorV: nat, numV: nat, ghost V: Params,
                         ghost I: Input, ghost read: ChannelReader, ghost start: nat,
                         ghost e: Element)
      returns (status: int, shiftBits: BitBuffer)
      requires Valid() && bits.Valid() && shifted <= 2 && !e.Undefined?
      requires I == Input(bits.buffer[..], bits.byteSize, bits.end) && read == ReaderOf(I, frameLength)
      requires e == CompressedPair(read, shifted, n, U, V, start, mixbits, mixres)
      requires start == bits.Pos() + Skip32(n, 16 * shifted) && coefsU != coefsV
      requires numU <= coefsU.Length && U == Settings(modeU, denU, pbFactorU, coefsU[..numU])
      requires numV <= coefsV.Length && V == Settings(modeV, denV, pbFactorV, coefsV[..numV])
      modifies bits, predictor, mixBufferU, mixBufferV, coefsU, coefsV
      ensures bits.Valid() && bits.buffer[..] == I.s && fresh(shiftBits) && shiftBits.Valid()
      ensures PairReported(e, status, bits.Pos(), n, mixBufferU[..], mixBufferV[..], mixbits, mixres)
    {
      shiftBits := SkipShifted(bits, 16 * shifted, n, 2 * shifted);
      var w := BIT_DEPTH - 8 * shifted + 1;
      ghost var c := ChannelAt(read, start, n, U, w);
      ghost var d := ChannelAt(read, c.next, n, V, w);
      ChannelsForm(read, shifted, n, U, V, start, mixbits, mixres, w, c, d);
      status := PairChannels(bits, n, w, mixbits, mixres, coefsU, modeU, denU, pbFactorU, numU, U,
                             coefsV, modeV, denV, pbFactorV, numV, V, I, read, start, c, d, e);
    }

    // The parameters of a compressed pair and both its channels.
    method PairCompressed(bits: BitBuffer, shifted: nat, n: nat, ghost h: Header, ghost I: Input,
                          ghost read: ChannelReader, ghost e: Element)
      returns (status: int, mixbits: nat, mixres: int8, shiftBits: BitBuffer)
      requires Valid() && bits.Valid() && bits.Pos() == h.next && !e.Undefined?
      requires shifted == h.shifted <= 2 && n == h.count && h.escape == 0
      requires I == Input(bits.buffer[..], bits.byteSize, bits.end) && read == ReaderOf(I, frameLength)
      requires e == PairBody(read, I.s, h, frameLength)
      modifies bits, predictor, mixBufferU, mixBufferV
      ensures bits.Valid() && bits.buffer[..] == I.s && fresh(shiftBits) && shiftBits.Valid()
      ensures PairReported(e, status, bits.Pos(), n, mixBufferU[..], mixBufferV[..], mixbits, mixres)
    {
      ghost var p, p' := bits.Pos() + 8, bits.Pos() + 16;
      var coefsU, coefsV := new int16[32], new int16[32];
      var modeU, denU, pbFactorU, numU, modeV, denV, pbFactorV, numV;
      ghost var U, q, V;
      mixbits, mixres, modeU, denU, pbFactorU, numU, modeV, denV, pbFactorV, numV, U, q, V :=
        ReadPairSettings(bits, coefsU, coefsV, p, p');
      ghost var r := bits.Pos();
      ghost var start := r + Skip32(n, 16 * shifted);
      PairForm(read, I.s, h, frameLength, p, p', U, q, V, r, start, mixbits, mixres);
      status, shiftBits := SkipAndDecode(bits, shifted, n, mixbits, mixres,
                                         coefsU, modeU, denU, pbFactorU, numU, U,
                                         coefsV, modeV, denV, pbFactorV, numV, V, I, read, start, e);
    }

    // The bits shifted off, into the shift buffer; nothing at this bit depth reads it.
    method KeepShifted(shiftBits: BitBuffer, shifted: nat, n: nat)
      requires Valid() && shiftBits.Valid() && shifted <= 2 && n <= shiftBuffer.Length
      modifies shiftBits, shiftBuffer
      ensures shiftBits.buffer[..] == old(shiftBits.buffer[..])
    {
      if shifted != 0 {
        ReadShifted(shiftBits, 8 * shifted, shiftBuffer, n);
      }
    }

    // A compressed pair with the bits shifted off it.
    method DecodeCompressedPair(bits: BitBuffer, shifted: nat, n: nat, ghost h: Header, ghost I: Input,
                                ghost read: ChannelReader, ghost e: Element)
      returns (status: int, mixbits: nat, mixres: int8)
      requires Valid() && bits.Valid() && bits.Pos() == h.next && !e.Undefined?
      requires shifted == h.shifted <= 2 && n == h.count && h.escape == 0
      requires I == Input(bits.buffer[..], bits.byteSize, bits.end) && read == ReaderOf(I, frameLength)
      requires e == PairBody(read, I.s, h, frameLength)
      modifies bits, predictor, mixBufferU, mixBufferV, shiftBuffer
      ensures bits.Valid() && bits.buffer[..] == I.s
      ensures PairReported(e, status, bits.Pos(), n, mixBufferU[..], mixBufferV[..], mixbits, mixres)
    {
      var shiftBits;
      status, mixbits, mixres, shiftBits := PairCompressed(bits, shifted, n, h, I, read, e);
      if status == NO_ERR {
        KeepShifted(shiftBits, shifted, 2 * n);
      }
    }

    // A raw pair.
    method DecodeRawPair(bits: BitBuffer, n: nat, ghost h: Header, ghost s: seq<byte>, ghost read: ChannelReader,
                         ghost e: Element)
      requires Valid() && bits.Valid() && bits.Pos() == h.next && bits.buffer[..] == s
      requires h.shifted <= 2 && n == h.count <= frameLength && h.escape != 0
      requires e == PairBody(read, s, h, frameLength)
      modifies bits, mixBufferU, mixBufferV
      ensures bits.Valid() && bits.buffer[..] == s
      ensures PairReported(e, NO_ERR, bits.Pos(), n, mixBufferU[..], mixBufferV[..], 0, 0)
    {
      ghost var p, p' := bits.Pos(), bits.Pos() + 16;
      assert e == Pair(ReadRaw(s, p, 16, 32, n), ReadRaw(s, p', 16, 32, n), 0, 0, p + 32 * n);
      ReadRawPair(bits, mixBufferU, mixBufferV, 16, n, p');
    }

    // A pair, compressed or raw, after its header.
    method DecodePair(bits: BitBuffer, shifted: nat, escape: nat, n: nat, ghost h: Header, ghost I: Input,
                      ghost read: ChannelReader, ghost e: Element)
      returns (status: int, mixbits: nat, mixres: int8)
      requires Valid() && bits.Valid() && bits.Pos() == h.next && !e.Undefined?
      requires shifted == h.shifted <= 2 && n == h.count && escape == h.escape
      requires I == Input(bits.buffer[..], bits.byteSize, bits.end) && read == ReaderOf(I, frameLength)
      requires e == PairBody(read, I.s, h, frameLength)
      modifies bits, predictor, mixBufferU, mixBufferV, shiftBuffer
      ensures bits.Valid() && bits.buffer[..] == I.s
      ensures PairReported(e, status, bits.Pos(), n, mixBufferU[..], mixBufferV[..], mixbits, mixres)
    {
      status, mixbits, mixres := NO_ERR, 0, 0;
      if escape == 0 {
        status, mixbits, mixres := DecodeCompressedPair(bits, shifted, n, h, I, read, e);
      } else {
        DecodeRawPair(bits, n, h, I.s, read, e);
      }
    }

    // The mixing parameters, which a single channel ignores, and its own.
    static method ReadSingleSettings(bits: BitBuffer, coefs: array<int16>, ghost p: nat, ghost p': nat)
      returns (mode: nat, den: nat, pbFactor: nat, num: nat, ghost P: Params, ghost q: nat)
      requires bits.Valid() && coefs.Length == 32 && p == bits.Pos() + 8 && p' == p + 8
      modifies bits, coefs
      ensures bits.Valid() && bits.buffer[..] == old(bits.buffer[..]) && num <= 31 && q == bits.Pos()
      ensures P == Settings(mode, den, pbFactor, coefs[..num]) && ReadParams(bits.buffer[..], p') == (P, q)
    {
      var mixbits, mixres := ReadMixing(bits, p);
      mode, den, pbFactor, num := ReadSettings(bits, coefs);
      P, q := Settings(mode, den, pbFactor, coefs[..num]), bits.Pos();
    }

    // The skip over the bits shifted off, and the channel behind it.
    method SkipAndDecodeOne(bits: BitBuffer, shifted: nat, n: nat, w: Width, coefs: array<int16>, mode: nat, den: nat,
                            pbFactor: nat, num: nat, ghost P: Params, ghost I: Input, ghost read: ChannelReader,
                            ghost start: nat, ghost c: ChannelData, ghost e: Element)
      returns (status: int, shiftBits: BitBuffer)
      requires Valid() && bits.Valid() && shifted <= 2 && !e.Undefined?
      requires I == Input(bits.buffer[..], bits.byteSize, bits.end) && read == ReaderOf(I, frameLength)
      requires num <= coefs.Length && P == Settings(mode, den, pbFactor, coefs[..num])
      requires start == bits.Pos() + Skip32(n, 8 * shifted) && c == ChannelAt(read, start, n, P, w) && e == SingleOf(c)
      modifies bits, predictor, mixBufferU, coefs
      ensures bits.Valid() && bits.buffer[..] == I.s && fresh(shiftBits) && shiftBits.Valid()
      ensures SingleReported(e, status, bits.Pos(), n, mixBufferU[..])
    {
      shiftBits := SkipShifted(bits, 8 * shifted, n, shifted);
      status := DecodeChannel(bits, mixBufferU, coefs, n, mode, den, pbFactor, num, w, P, I, read, start, c);
    }

    // The parameters of a compressed single channel and the channel.
    method SingleCompressed(bits: BitBuffer, shifted: nat, n: nat, w: Width, ghost h: Header, ghost I: Input,
                            ghost read: ChannelReader, ghost e: Element)
      returns (status: int, shiftBits: BitBuffer)
      requires Valid() && bits.Valid() && bits.Pos() == h.next && !e.Undefined?
      requires shifted == h.shifted <= 2 && n == h.count && h.escape == 0 && w == BIT_DEPTH - 8 * shifted
      requires I == Input(bits.buffer[..], bits.byteSize, bits.end) && read == ReaderOf(I, frameLength)
      requires e == SingleBody(read, I.s, h, frameLength)
      modifies bits, predictor, mixBufferU
      ensures bits.Valid() && bits.buffer[..] == I.s && fresh(shiftBits) && shiftBits.Valid()
      ensures SingleReported(e, status, bits.Pos(), n, mixBufferU[..])
    {
      ghost var p, p' := bits.Pos() + 8, bits.Pos() + 16;
      var coefs := new int16[32];
      var mode, den, pbFactor, num;
      ghost var P, q;
      mode, den, pbFactor, num, P, q := ReadSingleSettings(bits, coefs, p, p');
      ghost var start := q + Skip32(n, 8 * shifted);
      ghost var c := ChannelAt(read, start, n, P, w);
      SingleForm(read, I.s, h, frameLength, p', P, q, start, w);
      status, shiftBits := SkipAndDecodeOne(bits, shifted, n, w, coefs, mode, den, pbFactor, num, P, I, read, start, c,
                                            e);
    }

    method DecodeCompressedSingle(bits: BitBuffer, shifted: nat, n: nat, ghost h: Header, ghost I: Input,
                                  ghost read: ChannelReader, ghost e: Element)
      returns (status: int)
      requires Valid() && bits.Valid() && bits.Pos() == h.next && !e.Undefined?
      requires shifted == h.shifted <= 2 && n == h.count && h.escape == 0
      requires I == Input(bits.buffer[..], bits.byteSize, bits.end) && read == ReaderOf(I, frameLength)
      requires e == SingleBody(read, I.s, h, frameLength)
      modifies bits, predictor, mixBufferU, shiftBuffer
      ensures bits.Valid() && bits.buffer[..] == I.s
      ensures SingleReported(e, status, bits.Pos(), n, mixBufferU[..])
    {
      var shiftBits;
      status, shiftBits := SingleCompressed(bits, shifted, n, BIT_DEPTH - 8 * shifted, h, I, read, e);
      if status == NO_ERR {
        KeepShifted(shiftBits, shifted, n);
      }
    }

    // A single channel, compressed or raw, after its header.
    method DecodeSingle(bits: BitBuffer, shifted: nat, escape: nat, n: nat, ghost h: Header, ghost I: Input,
                        ghost read: ChannelReader, ghost e: Element)
      returns (status: int)
      requires Valid() && bits.Valid() && bits.Pos() == h.next && !e.Undefined?
      requires shifted == h.shifted <= 2 && n == h.count && escape == h.escape
      requires I == Input(bits.buffer[..], bits.byteSize, bits.end) && read == ReaderOf(I, frameLength)
      requires e == SingleBody(read, I.s, h, frameLength)
      modifies bits, predictor, mixBufferU, shiftBuffer
      ensures bits.Valid() && bits.buffer[..] == I.s
      ensures SingleReported(e, status, bits.Pos(), n, mixBufferU[..])
    {
      status := NO_ERR;
      if escape == 0 {
        status := DecodeCompressedSingle(bits, shifted, n, h, I, read, e);
      } else {
        ReadRawSingle(bits, mixBufferU, BIT_DEPTH - 8 * shifted, n);
      }
    }

    // ---------- elements ----------

    // A single channel or a pair from its header on.
    method DecodeAudio(bits: BitBuffer, pair: bool, count: nat, ghost I: Input, ghost read: ChannelReader,
                       ghost p: nat, ghost h: Header, ghost e: Element)
      returns (act: Act, status: int, n: nat, mixbits: nat, mixres: int8)
      requires Valid() && bits.Valid() && bits.Pos() == p && !e.Undefined?
      requires I == Input(bits.buffer[..], bits.byteSize, bits.end) && read == ReaderOf(I, frameLength)
      requires h == ReadHeader(I.s, p, count) && e == AudioElement(read, I.s, pair, h, p, frameLength)
      modifies bits, predictor, mixBufferU, mixBufferV, shiftBuffer
      ensures bits.Valid() && bits.buffer[..] == I.s
      ensures (act == One || act == Two ==> n == h.count) && !act.Bail? && !act.Pass?
      ensures Reported(e, act, status, bits.Pos(), n, mixBufferU[..], mixBufferV[..], mixbits, mixres)
    {
      var shifted, escape;
      mixbits, mixres := 0, 0;
      status, shifted, escape, n := ElementHeader(bits, count);
      if status != NO_ERR {
        act := Leave;
      } else if pair {
        status, mixbits, mixres := DecodePair(bits, shifted, escape, n, h, I, read, e);
        act := if status != NO_ERR then Leave else Two;
      } else {
        status := DecodeSingle(bits, shifted, escape, n, h, I, read, e);
        act := if status != NO_ERR then Leave else One;
      }
    }

    // The element behind a tag.
    method DecodeElement(bits: BitBuffer, tag: nat, count: nat, ch: nat, channels: nat, ghost I: Input,
                         ghost read: ChannelReader, ghost p: nat, ghost e: Element, ghost k: nat)
      returns (act: Act, status: int, n: nat, mixbits: nat, mixres: int8)
      requires Valid() && bits.Valid() && bits.Pos() == p && !e.Undefined?
      requires I == Input(bits.buffer[..], bits.byteSize, bits.end) && read == ReaderOf(I, frameLength)
      requires (e, k) == ReadElement(read, I, tag, p, count, ch, channels, frameLength)
      modifies bits, predictor, mixBufferU, mixBufferV, shiftBuffer
      ensures bits.Valid() && bits.buffer[..] == I.s
      ensures act.Leave? || n == k
      ensures Reported(e, act, status, bits.Pos(), n, mixBufferU[..], mixBufferV[..], mixbits, mixres)
    {
      status, n, mixbits, mixres := NO_ERR, count, 0, 0;
      if tag == ID_SCE || tag == ID_LFE || tag == ID_CPE {
        if tag == ID_CPE && ch + 2 > channels {
          act := Bail;
        } else {
          ghost var h := ReadHeader(I.s, p, count);
          act, status, n, mixbits, mixres := DecodeAudio(bits, tag == ID_CPE, count, I, read, p, h, e);
        }
      } else if tag == ID_DSE {
        status := DataStreamElement(bits, I);
        act := if status == NO_ERR then Pass else Bail;
      } else if tag == ID_FIL {
        status := FillElement(bits, I);
        act := if status == NO_ERR then Pass else Bail;
      } else if tag == ID_END {
        bits.ByteAlign();
        act := Leave;
      } else {
        status := PARAM_ERROR;
        act := Bail;
      }
    }

    // ---------- output ----------

    // The copy of a single channel into its slots.
    method StoreMono(out: array<int16>, channel: nat, channels: nat, n: nat)
      requires Valid() && n <= frameLength && Room(channel, channels, 1, n, out.Length)
      modifies out
      ensures out[..] == PutAll(old(out[..]), channel, channels, Mono16(mixBufferU[..n]), n)
    {
      ghost var was, f := out[..], Mono16(mixBufferU[..n]);
      var j := channel;
      for i := 0 to n
        invariant j == channel + Times(i, channels)
        invariant out[..] == PutAll(was, channel, channels, f, i)
      {
        RoomFor(channel, channels, 1, n, out.Length, i);
        assert f(i) == [Wrap16(mixBufferU[i])];
        StoreOne(out, j, Wrap16(mixBufferU[i]));
        j := j + channels;
      }
    }

    // Zero16
    static method ZeroOne(out: array<int16>, channel: nat, channels: nat, n: nat)
      requires Room(channel, channels, 1, n, out.Length)
      modifies out
      ensures out[..] == PutAll(old(out[..]), channel, channels, Silence(), n)
    {
      ghost var was := out[..];
      var j := channel;
      for i := 0 to n
        invariant j == channel + Times(i, channels)
        invariant out[..] == PutAll(was, channel, channels, Silence(), i)
      {
        RoomFor(channel, channels, 1, n, out.Length, i);
        assert Silence()(i) == [0];
        StoreOne(out, j, 0);
        j := j + channels;
      }
    }

    // The channels no element filled.
    static method ZeroRest(out: array<int16>, ch: nat, channels: nat, n: nat, frameLength: nat)
      requires ch <= channels && n <= frameLength && out.Length == Times(frameLength, channels)
      modifies out
      ensures out[..] == ZeroFill(old(out[..]), ch, channels, n)
    {
      ghost var goal := ZeroFill(out[..], ch, channels, n);
      for channelIndex := ch to channels
        invariant ZeroFill(out[..], channelIndex, channels, n) == goal
      {
        RoomInFrame(channelIndex, channels, 1, n, frameLength, out.Length);
        ZeroOne(out, channelIndex, channels, n);
      }
    }

    // ---------- the element loop ----------

    // Samples of an element into the sample buffer.
    method StoreElement(out: array<int16>, act: Act, ch: nat, channels: nat, n: nat, mixbits: nat, mixres: int8)
      requires Valid() && n <= frameLength && out.Length == Times(frameLength, channels)
      requires act == One || act == Two
      requires if act == One then ch + 1 <= channels
               else ch + 2 <= channels && (mixres != 0 && n > 0 ==> mixbits < 32)
      modifies out
      ensures out[..] == PutAll(old(out[..]), ch, channels,
                                if act == One then Mono16(mixBufferU[..n])
                                else Frames16(mixBufferU[..n], mixBufferV[..n], mixbits, mixres), n)
    {
      if act == One {
        RoomInFrame(ch, channels, 1, n, frameLength, out.Length);
        StoreMono(out, ch, channels, n);
      } else {
        RoomInFrame(ch, channels, 2, n, frameLength, out.Length);
        Unmix16(mixBufferU, mixBufferV, out, ch, channels, n, mixbits, mixres);
      }
    }

    // Decode, on the frames for which it is defined.
    method Decode(bits: BitBuffer, sampleBuffer: array<int16>, numSamples: nat, numChannels: nat)
      returns (status: int, outNumSamples: nat)
      requires Valid() && bits.Valid() && numSamples <= frameLength
      requires sampleBuffer.Length == Times(frameLength, numChannels)
      requires numChannels > 0 ==>
        var I := Input(bits.buffer[..], bits.byteSize, bits.end);
        DecodeFrame(I, Shape(frameLength, numChannels), bits.Pos(), numSamples, sampleBuffer[..]).Done?
      modifies bits, predictor, mixBufferU, mixBufferV, shiftBuffer, sampleBuffer
      ensures bits.Valid() && bits.buffer[..] == old(bits.buffer[..])
      ensures numChannels == 0 ==> status == PARAM_ERROR && sampleBuffer[..] == old(sampleBuffer[..])
      ensures numChannels > 0 ==>
        var I := Input(bits.buffer[..], bits.byteSize, bits.end);
        DecodeFrame(I, Shape(frameLength, numChannels), old(bits.Pos()), numSamples, old(sampleBuffer[..]))
        == Done(status, bits.Pos(), outNumSamples, sampleBuffer[..])
    {
      outNumSamples := 0;
      if numChannels == 0 {
        return PARAM_ERROR, outNumSamples;
      }
      ghost var I, D := Input(bits.buffer[..], bits.byteSize, bits.end), Shape(frameLength, numChannels);
      ghost var read := ReaderOf(I, frameLength);
      ReaderAdvances(I, frameLength);
      ghost var goal := DecodeFrame(I, D, bits.Pos(), numSamples, sampleBuffer[..]);
      status, outNumSamples := DecodeLoop(bits, sampleBuffer, numSamples, numChannels, I, D, read, goal);
    }

    method DecodeLoop(bits: BitBuffer, out: array<int16>, numSamples: nat, channels: nat, ghost I: Input,
                      ghost D: Shape, ghost read: ChannelReader, ghost goal: Outcome)
      returns (status: int, given: nat)
      requires Valid() && bits.Valid() && numSamples <= frameLength && channels > 0 && goal.Done?
      requires out.Length == Times(frameLength, channels) && D == Shape(frameLength, channels)
      requires I == Input(bits.buffer[..], bits.byteSize, bits.end) && read == ReaderOf(I, frameLength)
      requires Advances(read, frameLength)
      requires goal == Elements(read, I, D, bits.Pos(), 0, numSamples, numSamples, out[..])
      modifies bits, predictor, mixBufferU, mixBufferV, shiftBuffer, out
      ensures bits.Valid() && bits.buffer[..] == I.s
      ensures goal == Done(status, bits.Pos(), given, out[..])
    {
      var ch: nat, count: nat := 0, numSamples;
      status, given := NO_ERR, numSamples;
      while true
        invariant bits.Valid() && bits.buffer[..] == I.s && ch < channels && count <= frameLength && status == NO_ERR
        invariant goal == Elements(read, I, D, bits.Pos(), ch, count, given, out[..])
        decreases if bits.Pos() < 8 * I.end then 8 * I.end - bits.Pos() else 0
      {
        if bits.cur >= bits.end {
          status := PARAM_ERROR;
          return;
        }
        var more;
        status, given, ch, count, more := Turn(bits, out, ch, count, given, channels, I, D, read, goal);
        if !more {
          return;
        }
      }
    }

    // One turn of the loop that does not start past the end.
    method Turn(bits: BitBuffer, out: array<int16>, ch: nat, count: nat, given: nat, channels: nat, ghost I: Input,
                ghost D: Shape, ghost read: ChannelReader, ghost goal: Outcome)
      returns (status: int, given': nat, ch': nat, count': nat, more: bool)
      requires Valid() && bits.Valid() && bits.cur < bits.end && goal.Done?
      requires out.Length == Times(frameLength, channels) && D == Shape(frameLength, channels)
      requires I == Input(bits.buffer[..], bits.byteSize, bits.end) && read == ReaderOf(I, frameLength)
      requires ch < channels && count <= frameLength && Advances(read, frameLength)
      requires goal == Elements(read, I, D, bits.Pos(), ch, count, given, out[..])
      modifies bits, predictor, mixBufferU, mixBufferV, shiftBuffer, out
      ensures bits.Valid() && bits.buffer[..] == I.s
      ensures !more ==> goal == Done(status, bits.Pos(), given', out[..])
      ensures more ==> status == NO_ERR && ch' < channels && count' <= frameLength
      ensures more ==> bits.Pos() >= old(bits.Pos()) + 3
      ensures more ==> goal == Elements(read, I, D, bits.Pos(), ch', count', given', out[..])
    {
      ghost var p, q, was := bits.Pos(), bits.Pos() + 3, out[..];
      var tag := bits.ReadSmall(3);
      ghost var (e, k) := ReadElement(read, I, tag, q, count, ch, channels, frameLength);
      ElementsForm(read, I, D, p, ch, count, given, was, q, e, k);
      FollowedElement(read, I, D, p, ch, given, was, e, k);
      var act, n, mixbits, mixres;
      act, status, n, mixbits, mixres := DecodeElement(bits, tag, count, ch, channels, I, read, q, e, k);
      given', ch', count', more :=
        Finish(out, act, status, ch, n, given, channels, mixbits, mixres, I, D, read, goal, e, k, p, bits.Pos());
    }

    // Stores the samples of an element and decides whether the loop goes on.
    method Finish(out: array<int16>, act: Act, status: int, ch: nat, n: nat, given: nat, channels: nat, mixbits: nat,
                  mixres: int8, ghost I: Input, ghost D: Shape, ghost read: ChannelReader, ghost goal: Outcome,
                  ghost e: Element, ghost k: nat, ghost p: nat, ghost q: nat)
      returns (given': nat, ch': nat, count': nat, more: bool)
      requires Valid() && out.Length == Times(frameLength, channels) && D == Shape(frameLength, channels)
      requires ch < channels && (act.Leave? || n == k) && Advances(read, frameLength) && p < 8 * I.end
      requires Proper(e, k, p + 3, ch, D) && goal == Follow(read, I, D, p, ch, given, out[..], e, k)
      requires Reported(e, act, status, q, n, mixBufferU[..], mixBufferV[..], mixbits, mixres)
      modifies out
      ensures !more ==> goal == Done(status, q, given', out[..])
      ensures more ==> status == NO_ERR && ch' < channels && count' <= frameLength && q >= p + 3
      ensures more ==> goal == Elements(read, I, D, q, ch', count', given', out[..])
    {
      given', ch', count', more := given, ch, n, act.Pass?;
      match act
      case Leave =>
      case Pass =>
      case Bail =>
        ZeroRest(out, ch, channels, n, frameLength);
      case One =>
        StoreElement(out, act, ch, channels, n, mixbits, mixres);
        given', ch' := n, ch + 1;
        more := ch' < channels;
      case Two =>
        StoreElement(out, act, ch, channels, n, mixbits, mixres);
        given', ch' := n, ch + 2;
        more := ch' < channels;
    }
  }

  // An element that a defined outcome follows is defined.
  lemma FollowedElement(read: ChannelReader, I: Input, D: Shape, p: nat, ch: nat, given: nat, out: seq<int16>,
                        e: Element, n: nat)
    requires ch < D.channels && Advances(read, D.frameLength) && p < 8 * I.end && Proper(e, n, p + 3, ch, D)
    requires Follow(read, I, D, p, ch, given, out, e, n).Done?
    ensures !e.Undefined?
  {
  }

  // The residuals of a channel that can be used fit in the buffers.
  lemma StoresFit(d: Decoded, escapes: bool, end: nat, P: Params, w: Width, frameLength: nat, n: nat)
    requires !ChannelOf(d, escapes, end, P, w, frameLength).Unusable?
    ensures |d.vals| <= frameLength && !escapes
  {
  }

  // The slots of a channel lie within a buffer of whole frames.
  lemma RoomInFrame(ch: nat, channels: nat, width: nat, n: nat, frameLength: nat, len: nat)
    requires ch + width <= channels && n <= frameLength && len == Times(frameLength, channels)
    ensures Room(ch, channels, width, n, len)
  {
    if n > 0 {
      TimesMono(n - 1, frameLength, channels);
    }
  }

  // What the loop does after an element.
  datatype Act = Leave | Bail | Pass | One | Two

  // The first n samples of a buffer are those given.
  ghost predicate Holds(buffer: seq<int32>, n: nat, u: seq<int32>) {
    n <= |buffer| && buffer[..n] == u
  }

  ghost predicate Reported(e: Element, act: Act, status: int, pos: nat, n: nat, u: seq<int32>, v: seq<int32>,
                           mixbits: nat, mixres: int8)
  {
    match act
    case Leave => e == Exit(status, pos)
    case Bail => e == NoMoreChannels(status, pos)
    case Pass => status == NO_ERR && e == Skipped(pos)
    case One => status == NO_ERR && SingleReported(e, status, pos, n, u)
    case Two => status == NO_ERR && PairReported(e, status, pos, n, u, v, mixbits, mixres)
  }

  // What a method reports of the single channel it read.
  ghost predicate SingleReported(e: Element, status: int, pos: nat, n: nat, u: seq<int32>)
  {
    match e
    case Exit(st, q) => status == st == PARAM_ERROR && pos == q
    case Single(vals, q) => status == NO_ERR && pos == q && Holds(u, n, vals)
    case _ => false
  }

  // What a method reports of the pair element it read.
  ghost predicate PairReported(e: Element, status: int, pos: nat, n: nat, u: seq<int32>, v: seq<int32>,
                               mixbits: nat, mixres: int8)
  {
    match e
    case Exit(st, q) => status == st == PARAM_ERROR && pos == q
    case Pair(left, right, bits, res, q) =>
      status == NO_ERR && pos == q && bits == mixbits && res == mixres && Holds(u, n, left) && Holds(v, n, right)
    case _ => false
  }

  // Whole bytes stay whole in 32 bits.
  lemma WholeBytes(n: nat, w: nat, numBits: nat, bytes: nat)
    requires w == 8 * bytes && numBits == w * n % TWO32
    ensures numBits + 7 < TWO32
  {
    assert w * n == 8 * (bytes * n);
    Eightfold(bytes * n, numBits);
  }

  lemma Eightfold(x: nat, r: nat)
    requires r == 8 * x % TWO32
    ensures r + 7 < TWO32
  {
  }
}
