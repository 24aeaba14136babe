/**
 The readers of ALACDecoder::Decode over a bit buffer, each tied to the function of the bit stream in
 FrameFormat: headers, parameters, coefficients, raw samples, data stream and fill elements.
 */
module FrameReaders {
  import opened Words
  import opened BitStream
  import opened BitBuffers
  import opened FrameFormat

  // ---------- fields of a byte already read ----------

  // The w bits at offset a of an n-bit field, by a shift and a mask.
  lemma FieldOf(s: seq<byte>, p: nat, n: nat, a: nat, w: nat, rest: nat, q: nat)
    requires n == a + w + rest && q == p + a
    ensures Shr(Bits(s, p, n), rest) >= 0
    ensures BitAnd(Shr(Bits(s, p, n), rest), Pow2(w) - 1) == Bits(s, q, w)
  {
    HeadField(s, p, n, a + w, rest);
    TailField(s, p, a + w, a, w, q);
    BitAndMask(Bits(s, p, a + w), w);
  }

  lemma HeadField(s: seq<byte>, p: nat, n: nat, a: nat, rest: nat)
    requires n == a + rest
    ensures Shr(Bits(s, p, n), rest) == Bits(s, p, a)
  {
    BitsSplit(s, p, a, rest);
    BitsBound(s, p + a, rest);
    SplitUnique(Bits(s, p, a), Bits(s, p + a, rest), rest);
  }

  lemma TailField(s: seq<byte>, p: nat, n: nat, a: nat, w: nat, q: nat)
    requires n == a + w && q == p + a
    ensures Low(Bits(s, p, n), w) == Bits(s, q, w)
  {
    BitsSplit(s, p, a, w);
    BitsBound(s, q, w);
    SplitUnique(Bits(s, p, a), Bits(s, q, w), w);
  }

  // `x << 16 | y` of two reads is one read of 32 bits.
  lemma JoinedCount(s: seq<byte>, p: nat, half: nat, q: nat, r: nat)
    requires half == 16 && q == p + half && r == U32(Scale(Bits(s, p, half), half))
    ensures BitOr(r, Bits(s, q, half)) == Bits(s, p, half + half)
  {
    BitsSplit(s, p, half, half);
    BitsBound(s, q, half);
    BitsBound(s, p, half);
    ShortWord(Bits(s, p, half), half);
    BitOrDisjoint(Bits(s, p, half), Bits(s, q, half), half);
  }

  lemma ShortWord(x: nat, half: nat)
    requires half == 16 && x < Pow2(half)
    ensures U32(Scale(x, half)) == Scale(x, half)
  {
    Pow2Values();
    ScaleIsProduct(x, half);
  }

  // ---------- headers ----------

  // Two 16-bit reads.
  method ReadCount(bits: BitBuffer, ghost p: nat) returns (n: nat)
    requires bits.Valid() && p == bits.Pos()
    modifies bits
    ensures bits.buffer[..] == old(bits.buffer[..])
    ensures bits.Valid() && n == Bits(bits.buffer[..], p, 32)
    ensures bits.Pos() == p + 32
  {
    ghost var s := bits.buffer[..];
    var high := bits.Read(16);
    n := U32(Scale(high, 16));
    ghost var q := bits.Pos();
    var low := bits.Read(16);
    JoinedCount(s, p, 16, q, n);
    n := BitOr(n, low);
  }

  // The header of an audio element, with its two early exits.
  method ElementHeader(bits: BitBuffer, count: nat) returns (status: int, shifted: nat, escape: nat, n: nat)
    requires bits.Valid()
    modifies bits
    ensures bits.buffer[..] == old(bits.buffer[..])
    ensures bits.Valid()
    ensures var h := ReadHeader(bits.buffer[..], old(bits.Pos()), count);
            if h.unused != 0 then status == PARAM_ERROR && bits.Pos() == old(bits.Pos()) + 16
            else if h.shifted >= 3 then status == PARAM_ERROR && bits.Pos() == old(bits.Pos()) + 20
            else status == NO_ERR && bits.Pos() == h.next && shifted == h.shifted && escape == h.escape && n == h.count
  {
    ghost var s, p := bits.buffer[..], bits.Pos();
    ghost var p1, p2, p3, p4, p5 := p + 4, p + 16, p + 17, p + 19, p + 20;
    HeaderParts(s, p, count, p1, p2, p3, p4, p5, ReadHeader(s, p, count));
    shifted, escape, n := 0, 0, count;
    var unused := ReadUnused(bits, p1, p2);
    if unused != 0 {
      return PARAM_ERROR, shifted, escape, n;
    }
    var partial;
    partial, shifted, escape := ReadFlags(bits, p2, p3, p4, p5);
    if shifted == 3 {
      return PARAM_ERROR, shifted, escape, n;
    }
    if partial != 0 {
      n := ReadCount(bits, p5);
    }
    status := NO_ERR;
  }

  // The instance tag, and the unused bits behind it.
  method ReadUnused(bits: BitBuffer, ghost p1: nat, ghost p2: nat) returns (unused: nat)
    requires bits.Valid() && p1 == bits.Pos() + 4 && p2 == p1 + 12
    modifies bits
    ensures bits.Valid() && bits.buffer[..] == old(bits.buffer[..]) && bits.Pos() == p2
    ensures unused == Bits(bits.buffer[..], p1, 12)
  {
    var tag := bits.ReadSmall(4);
    unused := bits.Read(12);
  }

  method ReadFlags(bits: BitBuffer, ghost p: nat, ghost p1: nat, ghost p2: nat, ghost p3: nat)
    returns (partial: nat, shifted: nat, escape: nat)
    requires bits.Valid() && p == bits.Pos() && p1 == p + 1 && p2 == p1 + 2 && p3 == p2 + 1
    modifies bits
    ensures bits.Valid() && bits.buffer[..] == old(bits.buffer[..]) && bits.Pos() == p3 && shifted <= 3
    ensures partial == Bits(bits.buffer[..], p, 1) && shifted == Bits(bits.buffer[..], p1, 2)
    ensures escape == Bits(bits.buffer[..], p2, 1)
  {
    ghost var s := bits.buffer[..];
    var headerByte := bits.Read(4);
    partial, shifted, escape := HeaderFlags(headerByte, s, p, p1, p2);
    ShiftField(s, p1);
  }

  lemma ShiftField(s: seq<byte>, p: nat)
    ensures Bits(s, p, 2) <= 3
  {
    BitsBound(s, p, 2);
    assert Pow2(2) == 4;
  }

  method HeaderFlags(headerByte: nat, ghost s: seq<byte>, ghost p: nat, ghost p1: nat, ghost p2: nat)
    returns (partial: nat, shifted: nat, escape: nat)
    requires headerByte == Bits(s, p, 4) && p1 == p + 1 && p2 == p + 3
    ensures partial == Bits(s, p, 1) && shifted == Bits(s, p1, 2) && escape == Bits(s, p2, 1)
  {
    HeadField(s, p, 4, 1, 3);
    FieldOf(s, p, 4, 1, 2, 1, p1);
    FieldOf(s, p, 4, 3, 1, 0, p2);
    assert Pow2(2) == 4 && Pow2(1) == 2;
    partial := Shr(headerByte, 3);
    shifted := BitAnd(Shr(headerByte, 1), 3);
    escape := BitAnd(headerByte, 1);
  }

  // ---------- channel parameters ----------

  method HighLow(headerByte: nat, high: nat, low: nat, mask: nat, ghost s: seq<byte>, ghost p: nat, ghost q: nat)
    returns (x: nat, y: nat)
    requires headerByte == Bits(s, p, 8) && high + low == 8 && q == p + high && mask == Pow2(low) - 1
    ensures x == Bits(s, p, high) && y == Bits(s, q, low)
  {
    HeadField(s, p, 8, high, low);
    FieldOf(s, p, 8, high, low, 0, q);
    x := Shr(headerByte, low);
    y := BitAnd(headerByte, mask);
  }

  // One byte of the header, in two fields.
  method ReadHighLow(bits: BitBuffer, high: nat, low: nat, mask: nat, ghost p: nat, ghost q: nat)
    returns (x: nat, y: nat)
    requires bits.Valid() && bits.Pos() == p && high + low == 8 && 3 <= low <= 5 && q == p + high
    requires mask == (if low == 4 then 0xf else if low == 5 then 0x1f else 7)
    modifies bits
    ensures bits.Valid() && bits.buffer[..] == old(bits.buffer[..]) && bits.Pos() == p + 8
    ensures x == Bits(bits.buffer[..], p, high) && y == Bits(bits.buffer[..], q, low)
  {
    ghost var s := bits.buffer[..];
    var headerByte := bits.Read(8);
    SmallPowers();
    x, y := HighLow(headerByte, high, low, mask, s, p, q);
  }

  lemma CoefsStep(s: seq<byte>, p: nat, n: nat, q: nat, m: nat, head: seq<int16>, head': seq<int16>, goal: seq<int16>)
    requires n > 0 && q == p + 16 && m == n - 1 && head + ReadCoefs(s, p, n) == goal
    requires head' == head + [Wrap16(Bits(s, p, 16))]
    ensures head' + ReadCoefs(s, q, m) == goal
  {
    assert head' + ReadCoefs(s, q, m) == head + ([Wrap16(Bits(s, p, 16))] + ReadCoefs(s, q, m));
  }

  lemma RawStep(s: seq<byte>, p: nat, w: nat, step: nat, n: nat, q: nat, m: nat, head: seq<int32>, head': seq<int32>,
                goal: seq<int32>)
    requires 1 <= w <= 32 && n > 0 && q == p + step && m == n - 1 && head + ReadRaw(s, p, w, step, n) == goal
    requires head' == head + [SignExtend(Bits(s, p, w), w)]
    ensures head' + ReadRaw(s, q, w, step, m) == goal
  {
    assert head' + ReadRaw(s, q, w, step, m) == head + ([SignExtend(Bits(s, p, w), w)] + ReadRaw(s, q, w, step, m));
  }

  // n coefficients of 16 bits.
  method ReadCoefficients(bits: BitBuffer, coefs: array<int16>, n: nat)
    requires bits.Valid() && n <= coefs.Length
    modifies bits, coefs
    ensures bits.Valid() && bits.buffer[..] == old(bits.buffer[..])
    ensures coefs[..n] == ReadCoefs(bits.buffer[..], old(bits.Pos()), n)
    ensures bits.Pos() == old(bits.Pos()) + 16 * n
  {
    ghost var s, p := bits.buffer[..], bits.Pos();
    ghost var q, left, goal := p, n, ReadCoefs(s, p, n);
    for i := 0 to n
      invariant bits.Valid() && bits.buffer[..] == s && bits.Pos() == q == p + 16 * i && i + left == n
      invariant coefs[..i] + ReadCoefs(s, q, left) == goal
    {
      ghost var head := coefs[..i];
      var x := bits.Read(16);
      coefs[i] := Wrap16(x);
      CoefsStep(s, q, left, q + 16, left - 1, head, coefs[..i + 1], goal);
      q, left := q + 16, left - 1;
    }
  }

  // The two bytes in front of the coefficients.
  method ReadFour(bits: BitBuffer, ghost p: nat, ghost p1: nat, ghost p2: nat, ghost p3: nat)
    returns (mode: nat, den: nat, pbFactor: nat, num: nat)
    requires bits.Valid() && bits.Pos() == p && p1 == p + 4 && p2 == p + 8 && p3 == p + 11
    modifies bits
    ensures bits.Valid() && bits.buffer[..] == old(bits.buffer[..]) && bits.Pos() == p + 16
    ensures mode == Bits(bits.buffer[..], p, 4) && den == Bits(bits.buffer[..], p1, 4) <= 15
    ensures pbFactor == Bits(bits.buffer[..], p2, 3) <= 7 && num == Bits(bits.buffer[..], p3, 5) <= 31
  {
    FieldBounds(bits.buffer[..], p);
    mode, den := ReadHighLow(bits, 4, 4, 0xf, p, p1);
    pbFactor, num := ReadHighLow(bits, 3, 5, 0x1f, p2, p3);
  }

  // Mode, scale, factor, tap count and coefficients of a channel.
  method ReadSettings(bits: BitBuffer, coefs: array<int16>) returns (mode: nat, den: nat, pbFactor: nat, num: nat)
    requires bits.Valid() && coefs.Length == 32
    modifies bits, coefs
    ensures bits.Valid() && bits.buffer[..] == old(bits.buffer[..]) && num <= 31
    ensures ReadParams(bits.buffer[..], old(bits.Pos()))
            == (Settings(mode, den, pbFactor, coefs[..num]), bits.Pos())
  {
    ghost var s, p := bits.buffer[..], bits.Pos();
    ghost var p1, p2, p3, p4 := p + 4, p + 8, p + 11, p + 16;
    mode, den, pbFactor, num := ReadFour(bits, p, p1, p2, p3);
    ReadCoefficients(bits, coefs, num);
    ParamsForm(s, p, Settings(mode, den, pbFactor, coefs[..num]), p1, p2, p3, p4, num, bits.Pos());
  }

  // ---------- raw samples ----------

  // `(val << shift) >> shift`
  method RawSample(val: nat, w: nat) returns (r: int32)
    requires 1 <= w <= 32
    ensures r == SignExtend(val, w)
  {
    ShiftPairExtends(val, w);
    r := ShiftPair(val, w);
  }

  // One sample of a raw channel, and the rest of it.
  method StoreRaw(bits: BitBuffer, out: array<int32>, i: nat, w: nat, ghost step: nat, ghost left: nat,
                  ghost goal: seq<int32>, ghost q: nat, ghost rest: nat)
    requires bits.Valid() && 1 <= w <= 16 && i < out.Length && left == rest + 1 && q == bits.Pos() + step
    requires out[..i] + ReadRaw(bits.buffer[..], bits.Pos(), w, step, left) == goal
    modifies bits, out
    ensures bits.Valid() && bits.buffer[..] == old(bits.buffer[..]) && bits.Pos() == old(bits.Pos()) + w
    ensures out[..i + 1] + ReadRaw(bits.buffer[..], q, w, step, rest) == goal
  {
    ghost var s, p, head := bits.buffer[..], bits.Pos(), out[..i];
    var val := bits.Read(w);
    out[i] := RawSample(val, w);
    RawStep(s, p, w, step, left, q, rest, head, out[..i + 1], goal);
  }

  // The samples of one raw channel.
  method ReadRawSingle(bits: BitBuffer, out: array<int32>, w: nat, n: nat)
    requires bits.Valid() && (n > 0 ==> 1 <= w) && w <= 16 && n <= out.Length
    modifies bits, out
    ensures bits.Valid() && bits.buffer[..] == old(bits.buffer[..])
    ensures out[..n] == ReadRaw(bits.buffer[..], old(bits.Pos()), w, w, n)
    ensures bits.Pos() == old(bits.Pos()) + Skip(n, w)
  {
    ghost var s, p := bits.buffer[..], bits.Pos();
    ghost var q, left, goal := p, n, ReadRaw(s, p, w, w, n);
    for i := 0 to n
      invariant bits.Valid() && bits.buffer[..] == s && bits.Pos() == q == p + Skip(i, w) && i + left == n
      invariant out[..i] + ReadRaw(s, q, w, w, left) == goal
    {
      ghost var next, rest := q + w, left - 1;
      StoreRaw(bits, out, i, w, w, left, goal, next, rest);
      q, left := next, rest;
    }
  }

  // One sample of each of two raw channels.
  method StoreRawPair(bits: BitBuffer, u: array<int32>, v: array<int32>, i: nat, w: nat, ghost step: nat,
                      ghost left: nat, ghost goal: seq<int32>, ghost goal': seq<int32>, ghost p: nat, ghost p': nat,
                      ghost q: nat, ghost q': nat, ghost rest: nat)
    requires bits.Valid() && 1 <= w <= 16 && i < u.Length && i < v.Length && u != v && left == rest + 1
    requires bits.Pos() == p && p' == p + w && q == p + step && q' == p' + step
    requires u[..i] + ReadRaw(bits.buffer[..], p, w, step, left) == goal
    requires v[..i] + ReadRaw(bits.buffer[..], p', w, step, left) == goal'
    modifies bits, u, v
    ensures bits.Valid() && bits.buffer[..] == old(bits.buffer[..]) && bits.Pos() == p' + w
    ensures u[..i + 1] + ReadRaw(bits.buffer[..], q, w, step, rest) == goal
    ensures v[..i + 1] + ReadRaw(bits.buffer[..], q', w, step, rest) == goal'
  {
    StoreRaw(bits, u, i, w, step, left, goal, q, rest);
    StoreRaw(bits, v, i, w, step, left, goal', q', rest);
  }

  // Two raw channels of 16-bit samples, interleaved.
  method ReadRawPair(bits: BitBuffer, u: array<int32>, v: array<int32>, w: nat, n: nat, ghost p': nat)
    requires bits.Valid() && w == 16 && n <= u.Length && n <= v.Length && u != v && p' == bits.Pos() + w
    modifies bits, u, v
    ensures bits.Valid() && bits.buffer[..] == old(bits.buffer[..])
    ensures u[..n] == ReadRaw(bits.buffer[..], old(bits.Pos()), w, 32, n)
    ensures v[..n] == ReadRaw(bits.buffer[..], p', w, 32, n)
    ensures bits.Pos() == old(bits.Pos()) + 32 * n
  {
    ghost var s, p := bits.buffer[..], bits.Pos();
    ghost var q, q', left, goal, goal' := p, p', n, ReadRaw(s, p, w, 32, n), ReadRaw(s, p', w, 32, n);
    for i := 0 to n
      invariant bits.Valid() && bits.buffer[..] == s && bits.Pos() == q == p + 32 * i && q' == q + w && i + left == n
      invariant u[..i] + ReadRaw(s, q, w, 32, left) == goal
      invariant v[..i] + ReadRaw(s, q', w, 32, left) == goal'
    {
      ghost var next, next', rest := q + 32, q' + 32, left - 1;
      StoreRawPair(bits, u, v, i, w, 32, left, goal, goal', q, q', next, next', rest);
      q, q', left := next, next', rest;
    }
  }

  // ---------- the shift buffer ----------

  function ShiftedOff(s: seq<byte>, p: nat, w: nat, n: nat): (r: seq<uint16>)
    requires w <= 16
    ensures |r| == n
    decreases n, p
  {
    if n == 0 then []
    else
      ShortRead(s, p, w);
      [Bits(s, p, w)] + ShiftedOff(s, p + w, w, n - 1)
  }

  lemma ShortRead(s: seq<byte>, p: nat, w: nat)
    requires w <= 16
    ensures Bits(s, p, w) < 0x1_0000
  {
    BitsBound(s, p, w);
    Pow2Mono(w, 16);
    Pow2Values();
  }

  lemma ShiftedStep(s: seq<byte>, p: nat, w: nat, n: nat, q: nat, m: nat, head: seq<uint16>, head': seq<uint16>,
                    goal: seq<uint16>)
    requires w <= 16 && n > 0 && q == p + w && m == n - 1 && head + ShiftedOff(s, p, w, n) == goal
    requires head' == head + [Bits(s, p, w)]
    ensures head' + ShiftedOff(s, q, w, m) == goal
  {
    assert head' + ShiftedOff(s, q, w, m) == head + ([Bits(s, p, w)] + ShiftedOff(s, q, w, m));
  }

  // n reads of the bits shifted off, on a second cursor; nothing at this bit depth looks at them.
  method ReadShifted(shiftBits: BitBuffer, shift: nat, shiftBuffer: array<uint16>, n: nat)
    requires shiftBits.Valid() && shift <= 16 && n <= shiftBuffer.Length
    modifies shiftBits, shiftBuffer
    ensures shiftBits.buffer[..] == old(shiftBits.buffer[..])
    ensures shiftBits.Valid() && shiftBits.Pos() == old(shiftBits.Pos()) + Skip(n, shift)
    ensures shiftBuffer[..n] == ShiftedOff(shiftBits.buffer[..], old(shiftBits.Pos()), shift, n)
  {
    ghost var s, p := shiftBits.buffer[..], shiftBits.Pos();
    ghost var q, left, goal := p, n, ShiftedOff(s, p, shift, n);
    for i := 0 to n
      invariant shiftBits.Valid() && shiftBits.buffer[..] == s && shiftBits.Pos() == q == p + Skip(i, shift)
      invariant i + left == n && shiftBuffer[..i] + ShiftedOff(s, q, shift, left) == goal
    {
      ghost var head := shiftBuffer[..i];
      var x := shiftBits.Read(shift);
      ShortRead(s, q, shift);
      shiftBuffer[i] := x;
      ShiftedStep(s, q, shift, left, q + shift, left - 1, head, shiftBuffer[..i + 1], goal);
      q, left := q + shift, left - 1;
    }
  }

  // ---------- elements that are skipped ----------

  // FillElement
  method FillElement(bits: BitBuffer, ghost I: Input) returns (status: int)
    requires bits.Valid() && I == Input(bits.buffer[..], bits.byteSize, bits.end)
    modifies bits
    ensures bits.buffer[..] == old(bits.buffer[..])
    ensures bits.Valid()
    ensures Fill(I, old(bits.Pos()))
            == (if status == NO_ERR then Skipped(bits.Pos()) else NoMoreChannels(status, bits.Pos()))
    ensures status == NO_ERR || status == PARAM_ERROR
  {
    var count := bits.ReadSmall(4);
    if count == 15 {
      var more := bits.ReadSmall(8);
      count := count + more - 1;
    }
    SmallCount(I.s, old(bits.Pos()));
    bits.Advance(count * 8);
    status := if bits.cur <= bits.end then NO_ERR else PARAM_ERROR;
  }

  lemma SmallCount(s: seq<byte>, p: nat)
    ensures Bits(s, p, 4) < 16
  {
    BitsBound(s, p, 4);
    SmallPowers();
  }

  method ReadDataCount(bits: BitBuffer) returns (align: nat, count: nat)
    requires bits.Valid()
    modifies bits
    ensures bits.buffer[..] == old(bits.buffer[..])
    ensures bits.Valid() && bits.Pos() == DataNext(bits.buffer[..], old(bits.Pos()))
    ensures count == DataCount(bits.buffer[..], old(bits.Pos())) < 0x1_0000
    ensures align == Bits(bits.buffer[..], old(bits.Pos()) + 4, 1)
  {
    var tag := bits.ReadSmall(4);
    align := bits.ReadOne();
    count := bits.ReadSmall(8);
    if count == 255 {
      var more := bits.ReadSmall(8);
      count := count + more;
    }
  }

  // DataStreamElement
  method DataStreamElement(bits: BitBuffer, ghost I: Input) returns (status: int)
    requires bits.Valid() && I == Input(bits.buffer[..], bits.byteSize, bits.end)
    modifies bits
    ensures bits.buffer[..] == old(bits.buffer[..])
    ensures bits.Valid()
    ensures DataStream(I, old(bits.Pos()))
            == (if status == NO_ERR then Skipped(bits.Pos()) else NoMoreChannels(status, bits.Pos()))
    ensures status == NO_ERR || status == PARAM_ERROR
  {
    var align, count := ReadDataCount(bits);
    if align != 0 {
      bits.ByteAlign();
    }
    bits.Advance(count * 8);
    status := if bits.cur <= bits.end then NO_ERR else PARAM_ERROR;
  }
}
