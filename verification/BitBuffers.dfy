/**
 The bit cursor of ALACBitUtilities.c: a byte index and a bit index moving over a fixed buffer.
 Bounds are left to the client, as in the original; a byte beyond the buffer reads as zero here.
 */
module BitBuffers {
  import opened Words
  import opened BitStream

  function Load16(s: seq<byte>, i: nat): nat {
    BitOr(ByteAt(s, i) * 0x100, ByteAt(s, i + 1))
  }

  function Load24(s: seq<byte>, i: nat): nat {
    BitOr(BitOr(ByteAt(s, i) * 0x1_0000, ByteAt(s, i + 1) * 0x100), ByteAt(s, i + 2))
  }

  function Load32(s: seq<byte>, i: nat): nat {
    BitOr(BitOr(BitOr(ByteAt(s, i) * 0x100_0000, ByteAt(s, i + 1) * 0x1_0000), ByteAt(s, i + 2) * 0x100),
          ByteAt(s, i + 3))
  }

  // An or with a field below every set bit is a sum.
  lemma OrSum(x: nat, y: nat, k: nat, m: nat)
    requires m == Pow2(k) && y < m
    ensures BitOr(x * m, y) == x * m + y
  {
    ScaleIsProduct(x, k);
    BitOrDisjoint(x, y, k);
  }

  lemma OrByte(x: nat, y: nat)
    requires y < 0x100
    ensures BitOr(x * 0x100, y) == x * 0x100 + y
  {
    Pow2Values();
    OrSum(x, y, 8, 0x100);
  }

  lemma OrTwoBytes(x: nat, y: nat)
    requires y < 0x1_0000
    ensures BitOr(x * 0x1_0000, y) == x * 0x1_0000 + y
  {
    Pow2Values();
    OrSum(x, y, 16, 0x1_0000);
  }

  lemma OrThreeBytes(x: nat, y: nat)
    requires y < 0x100_0000
    ensures BitOr(x * 0x100_0000, y) == x * 0x100_0000 + y
  {
    Pow2Values();
    OrSum(x, y, 24, 0x100_0000);
  }

  lemma Or24(a: byte, b: byte, c: byte)
    ensures BitOr(BitOr(a * 0x1_0000, b * 0x100), c) == a * 0x1_0000 + b * 0x100 + c
  {
    OrTwoBytes(a, b * 0x100);
    OrByte(a * 0x100 + b, c);
  }

  lemma Or32(a: byte, b: byte, c: byte, d: byte)
    ensures BitOr(BitOr(BitOr(a * 0x100_0000, b * 0x1_0000), c * 0x100), d)
            == a * 0x100_0000 + b * 0x1_0000 + c * 0x100 + d
  {
    OrThreeBytes(a, b * 0x1_0000);
    OrTwoBytes(a * 0x100 + b, c * 0x100);
    OrByte(a * 0x1_0000 + b * 0x100 + c, d);
  }

  // Bytes gathered with shifts and ors are the bits of the stream.
  lemma Load16IsBits(s: seq<byte>, i: nat)
    ensures Load16(s, i) == Bits(s, 8 * i, 16)
  {
    OrByte(ByteAt(s, i), ByteAt(s, i + 1));
    WordUnfold(s, i);
    WordIsBits(s, i, 2);
  }

  lemma Load24IsBits(s: seq<byte>, i: nat)
    ensures Load24(s, i) == Bits(s, 8 * i, 24)
  {
    Or24(ByteAt(s, i), ByteAt(s, i + 1), ByteAt(s, i + 2));
    WordUnfold(s, i);
    WordIsBits(s, i, 3);
  }

  lemma Load32IsBits(s: seq<byte>, i: nat)
    ensures Load32(s, i) == Bits(s, 8 * i, 32)
  {
    Or32(ByteAt(s, i), ByteAt(s, i + 1), ByteAt(s, i + 2), ByteAt(s, i + 3));
    WordUnfold(s, i);
    WordIsBits(s, i, 4);
  }

  lemma WordUnfold(s: seq<byte>, i: nat)
    ensures Word(s, i, 2) == ByteAt(s, i) * 0x100 + ByteAt(s, i + 1)
    ensures Word(s, i, 3) == ByteAt(s, i) * 0x1_0000 + ByteAt(s, i + 1) * 0x100 + ByteAt(s, i + 2)
    ensures Word(s, i, 4) == ByteAt(s, i) * 0x100_0000 + ByteAt(s, i + 1) * 0x1_0000
                             + ByteAt(s, i + 2) * 0x100 + ByteAt(s, i + 3)
  {
    assert Word(s, i, 1) == ByteAt(s, i);
    assert Word(s, i, 2) == 256 * Word(s, i, 1) + ByteAt(s, i + 1);
    assert Word(s, i, 3) == 256 * Word(s, i, 2) + ByteAt(s, i + 2);
  }

  class BitBuffer {
    const buffer: array<byte>
    const end: nat
    const byteSize: nat
    var cur: nat
    var bitIndex: nat

    ghost predicate Valid()
      reads this
    {
      byteSize <= end <= buffer.Length && end - byteSize <= cur && bitIndex < 8
    }

    // The position in bits from the first byte of the buffer.
    ghost function Pos(): nat
      reads this
    {
      8 * cur + bitIndex
    }

    ghost function Start(): nat
      requires byteSize <= end
    {
      end - byteSize
    }

    // BitBufferInit
    constructor (buffer: array<byte>, start: nat, byteSize: nat)
      requires start + byteSize <= buffer.Length
      ensures Valid() && this.buffer == buffer && this.byteSize == byteSize && end == start + byteSize
      ensures Pos() == 8 * start
    {
      this.buffer := buffer;
      this.end := start + byteSize;
      this.byteSize := byteSize;
      cur := start;
      bitIndex := 0;
    }

    // A struct copy: a second cursor over the same bytes.
    constructor Copy(other: BitBuffer)
      requires other.Valid()
      ensures Valid() && buffer == other.buffer && byteSize == other.byteSize && end == other.end
      ensures Pos() == other.Pos()
    {
      buffer := other.buffer;
      end := other.end;
      byteSize := other.byteSize;
      cur := other.cur;
      bitIndex := other.bitIndex;
    }

    // BitBufferPeek
    method Peek(numBits: nat) returns (r: nat)
      requires Valid() && numBits <= 16
      ensures r == Bits(buffer[..], Pos(), numBits)
    {
      r := Window(numBits);
    }

    // Three bytes, shifted up by the bit index, masked to 24 bits and shifted down.
    method Window(numBits: nat) returns (r: nat)
      requires Valid() && numBits <= 16
      ensures r == Bits(buffer[..], Pos(), numBits)
    {
      var w := Load24(buffer[..], cur);
      Load24IsBits(buffer[..], cur);
      r := Cut(buffer[..], w, bitIndex, numBits, 24, 8 * cur);
    }

    static method Cut(ghost s: seq<byte>, w: nat, off: nat, n: nat, width: nat, ghost p: nat) returns (r: nat)
      requires off < 8 && n <= 16 && width == 24 && w == Bits(s, p, width)
      ensures r == Bits(s, p + off, n)
    {
      Window24(s, p, width, off, n, w);
      r := U32(Scale(w, off));
      r := Low(r, width);
      r := Shr(r, width - n);
    }

    static method CutSmall(ghost s: seq<byte>, w: nat, off: nat, n: nat, width: nat, ghost p: nat) returns (r: nat)
      requires off < 8 && n <= 8 && width == 16 && w == Bits(s, p, width)
      ensures r == Bits(s, p + off, n) < 0x100
    {
      WindowRead(s, p, width, off, n);
      SmallBits(s, p + off, n);
      r := Low(Scale(w, off), width);
      r := Shr(r, width - n);
    }

    // BitBufferPeekOne
    method PeekOne() returns (r: nat)
      requires Valid()
      ensures r == Bits(buffer[..], Pos(), 1)
    {
      var b := Shr(ByteAt(buffer[..], cur), 7 - bitIndex);
      ShrNat(ByteAt(buffer[..], cur), 7 - bitIndex);
      r := BitAnd(b, 1);
      OneBit(buffer[..], Pos());
      Parity(b);
    }

    // BitBufferRead: up to 16 bits
    method Read(numBits: nat) returns (r: nat)
      requires Valid() && numBits <= 16
      modifies this
      ensures buffer[..] == old(buffer[..])
      ensures Valid()
      ensures r == Bits(buffer[..], old(Pos()), numBits)
      ensures Pos() == old(Pos()) + numBits
    {
      r := Window(numBits);
      bitIndex := bitIndex + numBits;
      Carry();
    }

    // BitBufferReadSmall: up to 8 bits, in 16-bit arithmetic, so the result is a byte
    method ReadSmall(numBits: nat) returns (r: nat)
      requires Valid() && numBits <= 8
      modifies this
      ensures buffer[..] == old(buffer[..])
      ensures Valid() && r < 0x100
      ensures r == Bits(buffer[..], old(Pos()), numBits)
      ensures Pos() == old(Pos()) + numBits
    {
      var w := Load16(buffer[..], cur);
      Load16IsBits(buffer[..], cur);
      r := CutSmall(buffer[..], w, bitIndex, numBits, 16, 8 * cur);
      bitIndex := bitIndex + numBits;
      Carry();
    }

    // BitBufferReadOne
    method ReadOne() returns (r: nat)
      requires Valid()
      modifies this
      ensures buffer[..] == old(buffer[..])
      ensures Valid()
      ensures r == Bits(buffer[..], old(Pos()), 1)
      ensures Pos() == old(Pos()) + 1
    {
      r := PeekOne();
      bitIndex := bitIndex + 1;
      Carry();
    }

    // The shared tail of the readers: whole bytes move from the bit index to the cursor.
    method Carry()
      requires byteSize <= end <= buffer.Length && end - byteSize <= cur
      modifies this
      ensures buffer[..] == old(buffer[..])
      ensures Valid()
      ensures Pos() == old(Pos())
    {
      cur := cur + bitIndex / 8;
      bitIndex := bitIndex % 8;
    }

    // BitBufferGetPosition
    method GetPosition() returns (p: nat)
      requires Valid()
      ensures p == Pos() - 8 * Start()
    {
      var begin := end - byteSize;
      p := (cur - begin) * 8 + bitIndex;
    }

    // BitBufferAdvance; the bit index is a 32-bit register
    method Advance(numBits: nat)
      requires Valid() && numBits + 7 < TWO32
      modifies this
      ensures buffer[..] == old(buffer[..])
      ensures Valid()
      ensures Pos() == old(Pos()) + numBits
    {
      if numBits != 0 {
        bitIndex := bitIndex + numBits;
        Carry();
      }
    }

    // BitBufferRewind stops at the start of the buffer.
    method Rewind(n: nat)
      requires Valid()
      modifies this
      ensures buffer[..] == old(buffer[..])
      ensures Valid()
      ensures Pos() == if old(Pos()) - n >= 8 * Start() then old(Pos()) - n else 8 * Start()
    {
      var numBits := n;
      if numBits == 0 {
        return;
      }
      if bitIndex >= numBits {
        bitIndex := bitIndex - numBits;
        return;
      }
      numBits := numBits - bitIndex;
      bitIndex := 0;
      var numBytes := numBits / 8;
      numBits := numBits % 8;
      var p: int := cur - numBytes;
      if numBits > 0 {
        bitIndex := 8 - numBits;
        p := p - 1;
      }
      if p < end - byteSize {
        p := end - byteSize;
        bitIndex := 0;
      }
      cur := p;
    }

    // BitBufferByteAlign without zero filling
    method ByteAlign()
      requires Valid()
      modifies this
      ensures buffer[..] == old(buffer[..])
      ensures Valid()
      ensures Pos() == (old(Pos()) + 7) / 8 * 8
    {
      if bitIndex == 0 {
        return;
      }
      AlignUp(cur, bitIndex);
      Advance(8 - bitIndex);
    }

    // BitBufferByteAlign with zero filling
    method ByteAlignZero()
      requires Valid() && cur < buffer.Length
      modifies this, buffer
      ensures Valid()
      ensures Pos() == (old(Pos()) + 7) / 8 * 8
      ensures forall p: nat ::
        Bit(buffer[..], p) == if old(Pos()) <= p < Pos() then 0 else old(Bit(buffer[..], p))
    {
      if bitIndex == 0 {
        return;
      }
      ghost var n, p0 := 8 - bitIndex, Pos();
      Write(0, 8 - bitIndex);
      AlignUp(old(cur), old(bitIndex));
      forall p: nat | p0 <= p < p0 + n
        ensures Bit(buffer[..], p) == 0
      {
        BitAtZero(p0 + n - 1 - p);
      }
    }

    // BitBufferWrite: the low numBits bits of the value go in, every other bit stays.
    method Write(bitValues: nat, n: nat)
      requires Valid() && n <= 32 && Pos() + n <= 8 * buffer.Length
      modifies this, buffer
      ensures Valid()
      ensures Pos() == old(Pos()) + n
      ensures Written(old(buffer[..]), buffer[..], old(Pos()), bitValues, n, n)
      ensures Bits(buffer[..], old(Pos()), n) == Low(bitValues, n)
    {
      if n == 0 {
        return;
      }
      var numBits := n;
      var invBitIndex := 8 - bitIndex;
      ghost var p0 := Pos();
      ghost var was := buffer[..];
      while numBits > 0
        invariant 0 <= numBits <= n && 1 <= invBitIndex <= 8
        invariant byteSize <= end <= buffer.Length && end - byteSize <= cur
        invariant 8 * cur + (8 - invBitIndex) == p0 + (n - numBits)
        invariant Written(was, buffer[..], p0, bitValues, n, n - numBits)
      {
        var curNum := if invBitIndex < numBits then invBitIndex else numBits;
        var tmp := Shr(bitValues, numBits - curNum);
        var shift := invBitIndex - curNum;
        ghost var before := buffer[..];
        var merged := MergeField(buffer[cur], tmp, curNum, shift);
        buffer[cur] := merged;
        ghost var at := p0 + (n - numBits);
        FieldWritten(was, before, buffer[..], p0, bitValues, n, numBits, curNum, cur);
        numBits := numBits - curNum;
        invBitIndex := invBitIndex - curNum;
        if invBitIndex == 0 {
          invBitIndex := 8;
          cur := cur + 1;
        }
      }
      bitIndex := 8 - invBitIndex;
      WrittenValue(buffer[..], p0, bitValues, n);
    }

    // BitBufferReset
    method Reset()
      requires Valid()
      modifies this
      ensures buffer[..] == old(buffer[..])
      ensures Valid() && Pos() == 8 * Start()
    {
      cur := end - byteSize;
      bitIndex := 0;
    }
  }

  lemma OneBit(s: seq<byte>, p: nat)
    ensures Bits(s, p, 1) == Bit(s, p)
  {
  }

  lemma AlignUp(cur: nat, index: nat)
    requires 1 <= index < 8
    ensures (8 * cur + index + 7) / 8 * 8 == 8 * cur + index + (8 - index)
  {
  }

  lemma Parity(b: nat)
    ensures BitAnd(b, 1) == b % 2
  {
  }

  // The first done of the n bits of v are in place at p0; every other bit is as it was.
  ghost predicate Written(was: seq<byte>, now: seq<byte>, p0: nat, v: nat, n: nat, done: nat) {
    && |now| == |was|
    && (forall p: nat | p0 <= p < p0 + done && done <= n :: Bit(now, p) == BitAt(v, p0 + n - 1 - p))
    && (forall p: nat | !(p0 <= p < p0 + done) :: Bit(now, p) == Bit(was, p))
  }

  // One byte of the loop of BitBufferWrite.
  lemma FieldWritten(was: seq<byte>, before: seq<byte>, after: seq<byte>, p0: nat, v: nat, n: nat,
                     left: nat, c: nat, i: nat)
    requires 1 <= c <= left <= n && Written(was, before, p0, v, n, n - left)
    requires i < |before| && 8 * i <= p0 + (n - left) && p0 + (n - left) + c <= 8 * i + 8
    requires var s := 8 * i + 8 - (p0 + (n - left)) - c;
             after == before[i := MergeField(before[i], Shr(v, left - c), c, s)]
    ensures Written(was, after, p0, v, n, n - left + c)
  {
    var at := p0 + (n - left);
    var s := 8 * i + 8 - at - c;
    var tmp := Shr(v, left - c);
    forall p: nat
      ensures Bit(after, p) == if at <= p < at + c then BitAt(v, p0 + n - 1 - p) else Bit(before, p)
    {
      if p / 8 == i {
        var j := 7 - p % 8;
        MergedBit(before[i], tmp, c, s, j);
        if at <= p < at + c {
          ShrShr(v, left - c, j - s);
        }
      }
    }
  }

  // A mask of c ones at bit s.
  function Mask(c: nat, s: nat): (r: byte)
    requires c + s <= 8
  {
    ScalePow2(c, s);
    Pow2Mono(c + s, 8);
    Pow2Values();
    ScaleAdd(Pow2(c) - 1, 1, s);
    ScalePow2(0, s);
    ScaleZero(s);
    ScaleMono(0, Pow2(c) - 1, s);
    Scale(Pow2(c) - 1, s)
  }

  // The byte read-modify-write of BitBufferWrite: a field of c bits at bit s replaced by tmp.
  function MergeField(b: byte, tmp: int, c: nat, s: nat): (r: byte)
    requires c + s <= 8
  {
    ScaleZero(s);
    ScaleMono(0, tmp % 0x100, s);
    var mask := Mask(c, s);
    BitAndBound(b, NotByte(mask));
    BitAndBound(Scale(tmp % 0x100, s), mask);
    Pow2Values();
    BitOrBound(BitAnd(b, NotByte(mask)), BitAnd(Scale(tmp % 0x100, s), mask), 8);
    BitOr(BitAnd(b, NotByte(mask)), BitAnd(Scale(tmp % 0x100, s), mask))
  }

  lemma MaskBit(c: nat, s: nat, j: nat)
    requires c + s <= 8
    ensures BitAt(Mask(c, s), j) == if s <= j < s + c then 1 else 0
  {
    BitAtScaled(Pow2(c) - 1, s, j);
    if j >= s {
      BitAtOnes(c, j - s);
    }
  }

  lemma KeptBit(b: byte, mask: byte, n: nat, j: nat)
    requires n == 8 && j < n
    ensures BitAt(BitAnd(b, NotByte(mask)), j) == if BitAt(mask, j) == 1 then 0 else BitAt(b, j)
  {
    Pow2Values();
    BitAtNot(mask, n, j);
    BitAndBit(b, NotByte(mask), j);
  }

  lemma FieldBit(tmp: int, n: nat, s: nat, j: nat)
    requires n == 8 && s <= j < n
    ensures BitAt(Scale(tmp % 0x100, s), j) == BitAt(tmp, j - s)
  {
    Pow2Values();
    LowIsMod(tmp, n, 0x100);
    BitAtScaled(tmp % 0x100, s, j);
    BitAtLow(tmp, n, j - s);
  }

  lemma MergedBit(b: byte, tmp: int, c: nat, s: nat, j: nat)
    requires c + s <= 8 && j < 8
    ensures BitAt(MergeField(b, tmp, c, s), j) == if s <= j < s + c then BitAt(tmp, j - s) else BitAt(b, j)
  {
    ScaleZero(s);
    ScaleMono(0, tmp % 0x100, s);
    var mask := Mask(c, s);
    var kept, field := BitAnd(b, NotByte(mask)), BitAnd(Scale(tmp % 0x100, s), mask);
    MaskBit(c, s, j);
    KeptBit(b, mask, 8, j);
    BitAndBit(Scale(tmp % 0x100, s), mask, j);
    BitOrBit(kept, field, j);
    if s <= j < s + c {
      FieldBit(tmp, 8, s, j);
    }
  }

  // Reading a window of a fetched 24-bit word: the shift, the mask and the shift back.
  // (Masking with ones keeps the low bits: lemma BitAndMask.)
  lemma Window24(s: seq<byte>, p: nat, width: nat, off: nat, n: nat, w: nat)
    requires off < 8 && n <= 16 && width == 24 && w == Bits(s, p, width)
    ensures U32(Scale(w, off)) == Scale(w, off)
    ensures Shr(Low(Scale(w, off), width), width - n) == Bits(s, p + off, n)
  {
    Window24Fits(s, p, width, off, w);
    WindowRead(s, p, width, off, n);
  }

  lemma Window24Fits(s: seq<byte>, p: nat, width: nat, off: nat, w: nat)
    requires off < 8 && width == 24 && w == Bits(s, p, width)
    ensures U32(Scale(w, off)) == Scale(w, off)
  {
    Below24(s, p, width);
    NoWrap(w, off);
  }

  lemma Below24(s: seq<byte>, p: nat, width: nat)
    requires width == 24
    ensures Bits(s, p, width) < 0x100_0000
  {
    assert Pow2(width) == 0x100_0000 by {
      Pow2Values();
    }
    BitsBound(s, p, width);
  }

  lemma NoWrap(w: nat, off: nat)
    requires off < 8 && w < 0x100_0000
    ensures 0 <= Scale(w, off) < TWO32
  {
    ScaleIsProduct(w, off);
    Pow2Mono(off, 7);
    Pow2Values();
    assert 0 <= w * Pow2(off) <= w * 128;
  }

  lemma SmallBits(s: seq<byte>, p: nat, n: nat)
    requires n <= 8
    ensures Bits(s, p, n) < 256
  {
    BitsBound(s, p, n);
    Pow2Mono(n, 8);
    Pow2Values();
  }

  // Bits written one by one read back as the low n bits of the value.
  lemma {:induction false} WrittenValue(s: seq<byte>, p: nat, v: nat, n: nat)
    requires forall q: nat | p <= q < p + n :: Bit(s, q) == BitAt(v, p + n - 1 - q)
    ensures Bits(s, p, n) == Low(v, n)
  {
    if n > 0 {
      forall q: nat | p <= q < p + (n - 1)
        ensures Bit(s, q) == BitAt(v / 2, p + (n - 1) - 1 - q)
      {
        assert BitAt(v, p + n - 1 - q) == BitAt(v / 2, p + (n - 1) - 1 - q);
      }
      WrittenValue(s, p, v / 2, n - 1);
    }
  }
}
