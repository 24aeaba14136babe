/**
 dyn_decomp: the block decoder as the loop over the bit buffer that it is, tied to the function
 of the bit stream whose round trip GolombBlock proves.
 */
module GolombDecoder {
  import opened Words
  import opened BitBuffers
  import opened AdaptiveGolomb
  import opened GolombCodes
  import opened AdaptiveBlocks
  import opened GolombBlock

  lemma PrependTwice(a: seq<int32>, b: seq<int32>, d: Decoded)
    ensures Prepend(a, Prepend(b, d)) == Prepend(a + b, d)
  {
    assert a + (b + d.vals) == (a + b) + d.vals;
  }

  lemma PrependNothing(d: Decoded)
    ensures Prepend([], d) == d
  {
    assert [] + d.vals == d.vals;
  }

  // The mean after a symbol, as the decoder computes it.
  method UpdateMean(P: AgParams, mb: Mean, n: nat, zmode: nat) returns (r: Mean)
    requires P.Valid() && zmode <= 1
    ensures r == NextMean(P, mb, n, zmode)
  {
    MeanBounded(P, mb, n, zmode);
    TimesIsProduct(P.pb, n + zmode);
    TimesIsProduct(P.pb, mb);
    var x := U32(U32(P.pb * (n + zmode)) + mb - U32(P.pb * mb) / QB);
    if n > N_MEAN_CLAMP {
      x := N_MEAN_CLAMP;
    }
    r := x;
  }

  // k and m for the next sample.
  method SampleParams(P: AgParams, mb: Mean) returns (k: nat, m: nat)
    requires P.Valid()
    ensures k == SampleBits(P, mb) && m == Pow2(k) - 1
  {
    k := Lg3a(mb / QB);
    if P.kb <= k {
      k := P.kb;
    }
    m := Pow2(k) - 1;
  }

  // k and the modulus for a zero run.
  method RunParams(P: AgParams, mb: QuietMean) returns (k: nat, mz: nat)
    requires P.Valid()
    ensures k == RunBits(mb) && mz == RunModulus(P, k)
  {
    var l := Lead(mb);
    RunBitsRange(mb);
    k := l - BITOFF + (mb + MOFF) / 64;
    mz := BitAnd(Pow2(k) - 1, P.wb);
  }

  // One sample of the block.
  method NextSample(P: AgParams, s: seq<byte>, base: nat, bitPos: nat, mb: Mean, zmode: nat, maxSize: nat,
                    ghost p: nat)
    returns (del: int32, mean: Mean, next: nat)
    requires P.Valid() && zmode <= 1 && maxSize <= 32 && p == 8 * base + bitPos && !BadEscape(s, p, maxSize)
    ensures Sample(del, mean, 8 * base + next) == ReadSample(P, s, maxSize, mb, zmode, p)
    ensures bitPos < next <= bitPos + 41
  {
    var k, m := SampleParams(P, mb);
    var n;
    n, next := DynGet32(s, base, bitPos, m, k, maxSize);
    SampleAdvance(s, p, m, k, maxSize);
    del := Unzig(U32(n + zmode));
    mean := UpdateMean(P, mb, n, zmode);
    SampleForm(P, s, maxSize, mb, zmode, p, k, m, n, 8 * base + next);
  }

  lemma SampleForm(P: AgParams, s: seq<byte>, maxSize: nat, mb: Mean, zmode: nat, p: nat, k: nat, m: nat, n: nat,
                   q: nat)
    requires P.Valid() && zmode <= 1 && k == SampleBits(P, mb) && m == Pow2(k) - 1
    requires SampleCode(s, p, m, k, maxSize) == Symbol(n, q)
    ensures var x := ReadSample(P, s, maxSize, mb, zmode, p);
            x.value == Unzig(U32(n + zmode)) && x.mean == NextMean(P, mb, n, zmode) && x.next == q
  {
  }

  lemma SampleAdvance(s: seq<byte>, p: nat, m: nat, k: nat, maxbits: nat)
    requires 1 <= k <= 14 && maxbits <= 32
    ensures p < SampleCode(s, p, m, k, maxbits).next <= p + 41
  {
  }

  // One zero run of the block.
  method NextRun(P: AgParams, s: seq<byte>, base: nat, bitPos: nat, mb: QuietMean, ghost p: nat)
    returns (n: nat, next: nat)
    requires P.Valid() && p == 8 * base + bitPos
    ensures Symbol(n, 8 * base + next) == ReadRun(P, s, mb, p)
    ensures bitPos < next <= bitPos + 25
  {
    var k, mz := RunParams(P, mb);
    n, next := DynGet(s, base, bitPos, mz, k);
    RunAdvance(s, p, mz, k, MAX_DATATYPE_BITS_16);
  }

  lemma RunAdvance(s: seq<byte>, p: nat, m: nat, k: nat, e: nat)
    requires 2 <= k <= 8 && e == 16
    ensures p < RunCode(s, p, m, k, e).next <= p + 25
  {
  }

  // One turn of the loop in terms of the block decoder.
  lemma TurnPlain(R: Reader, limit: nat, mb: Mean, zmode: nat, p: nat, left: nat, x: Sample, head: seq<int32>,
                  head': seq<int32>, mean: Mean, q: nat, left': nat, d: Decoded)
    requires d == Prepend(head, DecodeWith(R, limit, mb, zmode, p, left))
    requires left > 0 && p < limit && x == R.sample(mb, zmode, p) && (left == 1 || mean >= 128)
    requires head' == head + [x.value] && mean == x.mean && q == x.next && left' == left - 1
    ensures d == Prepend(head', DecodeWith(R, limit, mean, 0, q, left'))
  {
    DecodePlain(R, limit, mb, zmode, p, left, x);
    PrependTwice(head, [x.value], DecodeWith(R, limit, mean, 0, q, left'));
  }

  lemma TurnRun(R: Reader, limit: nat, mb: Mean, zmode: nat, p: nat, left: nat, x: Sample, run: Symbol,
                head: seq<int32>, head': seq<int32>, mode: nat, q: nat, left': nat, d: Decoded)
    requires d == Prepend(head, DecodeWith(R, limit, mb, zmode, p, left))
    requires left > 1 && p < limit && x == R.sample(mb, zmode, p) && x.mean < 128
    requires run == R.run(x.mean, x.next) && run.value < left && left' == left - 1 - run.value
    requires mode == RunMode(run.value) && q == run.next
    requires head' == head + ([x.value] + Zeros(run.value))
    ensures d == Prepend(head', DecodeWith(R, limit, 0, mode, q, left'))
  {
    DecodeRun(R, limit, mb, zmode, p, left, x, run);
    PrependTwice(head, [x.value] + Zeros(run.value), DecodeWith(R, limit, 0, mode, q, left'));
  }

  // Writing a run of zeros.
  method FillZeros(pc: array<int32>, from: nat, n: nat)
    requires from + n <= pc.Length
    modifies pc
    ensures pc[..from] == old(pc[..from]) && pc[from..from + n] == Zeros(n) && pc[from + n..] == old(pc[from + n..])
  {
    var j := 0;
    while j < n
      invariant j <= n
      invariant forall i | from <= i < from + j :: pc[i] == 0
      invariant forall i | 0 <= i < from || from + j <= i < pc.Length :: pc[i] == old(pc[i])
    {
      pc[from + j] := 0;
      j := j + 1;
    }
  }

  lemma TurnFails(R: Reader, limit: nat, mb: Mean, zmode: nat, p: nat, left: nat, x: Sample, run: Symbol,
                  head: seq<int32>, head': seq<int32>, q: nat, d: Decoded)
    requires d == Prepend(head, DecodeWith(R, limit, mb, zmode, p, left))
    requires left > 1 && p < limit && x == R.sample(mb, zmode, p) && x.mean < 128
    requires run == R.run(x.mean, x.next) && run.value >= left && head' == head + [x.value] && q == run.next
    ensures d == Decoded(false, head', q)
  {
  }

  // The symbols of a turn: the sample, and the run when the mean has become quiet.
  method TurnSymbols(P: AgParams, s: seq<byte>, base: nat, bitPos: nat, mb: Mean, zmode: nat, maxSize: nat,
                     more: bool, ghost R: Reader, ghost p: nat)
    returns (x: int32, mean: Mean, ran: bool, n: nat, next: nat, ghost sample: Sample, ghost run: Symbol, ghost q: nat)
    requires P.Valid() && zmode <= 1 && maxSize <= 32 && !BadEscape(s, p, maxSize)
    requires R == ReaderOf(P, s, maxSize) && p == 8 * base + bitPos
    ensures sample == R.sample(mb, zmode, p) && sample.value == x && sample.mean == mean
    ensures ran <==> mean < 128 && more
    ensures q == 8 * base + next && bitPos < next <= bitPos + 66
    ensures if ran then run == R.run(mean, sample.next) && run == Symbol(n, q) else sample.next == q
  {
    var at;
    x, mean, at := NextSample(P, s, base, bitPos, mb, zmode, maxSize, p);
    sample := ReadSample(P, s, maxSize, mb, zmode, p);
    QuietSmall(mean);
    ran := Quiet(mean) && more;
    n, next, run := 0, at, Symbol(0, 0);
    if ran {
      n, next := NextRun(P, s, base, at, mean, sample.next);
      run := ReadRun(P, s, mean, sample.next);
    }
    q := 8 * base + next;
  }

  // A code that is read leaves a sample.
  lemma TurnRoom(R: Reader, limit: nat, mb: Mean, zmode: nat, p: nat, left: nat, head: seq<int32>, d: Decoded)
    requires d == Prepend(head, DecodeWith(R, limit, mb, zmode, p, left)) && left > 0 && p < limit
    ensures |head| < |d.vals|
  {
  }

  // One turn of the loop of dyn_decomp.
  method Turn(P: AgParams, s: seq<byte>, base: nat, bitPos: nat, mb: Mean, zmode: nat, maxSize: nat,
              pc: array<int32>, c: nat, numSamples: nat, ghost R: Reader, ghost kind: nat -> bool, ghost limit: nat,
              ghost p: nat, ghost left: nat, ghost d: Decoded)
    returns (ok: bool, c': nat, mb': Mean, zmode': nat, next: nat, ghost p': nat, ghost left': nat)
    requires P.Valid() && zmode <= 1 && maxSize <= 32 && c < numSamples && c <= pc.Length
    requires R == ReaderOf(P, s, maxSize) && p == 8 * base + bitPos && p < limit && c + left == numSamples
    requires kind == Escaping(s, maxSize) && !Reaches(R, kind, limit, mb, zmode, p, left)
    requires d == Prepend(pc[..c], DecodeWith(R, limit, mb, zmode, p, left)) && |d.vals| <= pc.Length
    modifies pc
    ensures c < c' <= numSamples && c' <= pc.Length && zmode' <= 1 && pc[c'..] == old(pc[c'..])
    ensures c' + left' == numSamples && p' == 8 * base + next && bitPos < next <= bitPos + 66
    ensures ok ==> d == Prepend(pc[..c'], DecodeWith(R, limit, mb', zmode', p', left'))
    ensures ok ==> !Reaches(R, kind, limit, mb', zmode', p', left')
    ensures !ok ==> d == Decoded(false, pc[..c'], p')
  {
    ghost var head := pc[..c];
    TurnRoom(R, limit, mb, zmode, p, left, head, d);
    HereReach(R, kind, limit, mb, zmode, p, left);
    var x, mean, ran, n;
    ghost var sample, run;
    x, mean, ran, n, next, sample, run, p' :=
      TurnSymbols(P, s, base, bitPos, mb, zmode, maxSize, c + 1 < numSamples, R, p);
    pc[c] := x;
    if ran {
      ok, c', zmode', left' :=
        RunTurn(pc, c, x, n, numSamples, R, kind, limit, mb, zmode, p, sample, run, head, p', left, d);
      mb' := 0;
    } else {
      ok, c', mb', zmode', left' := true, c + 1, mean, 0, left - 1;
      PlainReach(R, kind, limit, mb, zmode, p, left, sample);
      TurnPlain(R, limit, mb, zmode, p, left, sample, head, pc[..c'], mean, p', left', d);
    }
  }

  // The zero-run half of a turn, after the sample has been stored at index c.
  method RunTurn(pc: array<int32>, c: nat, x: int32, n: nat, numSamples: nat, ghost R: Reader,
                 ghost kind: nat -> bool, ghost limit: nat, ghost mb: Mean, ghost zmode: nat, ghost p: nat,
                 ghost sample: Sample, ghost run: Symbol, ghost head: seq<int32>, ghost q: nat, ghost left: nat,
                 ghost d: Decoded)
    returns (ok: bool, c': nat, zmode': nat, ghost left': nat)
    requires c + 1 < numSamples && c < pc.Length && c + left == numSamples && pc[..c + 1] == head + [x]
    requires d == Prepend(head, DecodeWith(R, limit, mb, zmode, p, left)) && |d.vals| <= pc.Length
    requires p < limit && sample == R.sample(mb, zmode, p) && sample.mean < 128 && sample.value == x
    requires run == R.run(sample.mean, sample.next) && run == Symbol(n, q)
    requires !Reaches(R, kind, limit, mb, zmode, p, left)
    modifies pc
    ensures c < c' <= numSamples && c' <= pc.Length && zmode' <= 1 && pc[c'..] == old(pc[c'..])
    ensures c' + left' == numSamples
    ensures ok ==> d == Prepend(pc[..c'], DecodeWith(R, limit, 0, zmode', q, left'))
    ensures ok ==> !Reaches(R, kind, limit, 0, zmode', q, left')
    ensures !ok ==> d == Decoded(false, pc[..c'], q)
  {
    ok, c', zmode', left' := true, c + 1, 0, left - 1;
    if c' + n > numSamples {
      ok := false;
      TurnFails(R, limit, mb, zmode, p, left, sample, run, head, pc[..c'], q, d);
      return;
    }
    left' := left' - n;
    zmode' := 1;
    if n >= 65535 {
      zmode' := 0;
    }
    RunReach(R, kind, limit, mb, zmode, p, left, sample, run);
    TurnRun(R, limit, mb, zmode, p, left, sample, run, head, head + ([x] + Zeros(n)), zmode', q, left', d);
    FillZeros(pc, c', n);
    c' := c' + n;
    Filled(head, x, n, pc[..c']);
  }

  lemma Filled(head: seq<int32>, x: int32, n: nat, now: seq<int32>)
    requires |now| == |head| + 1 + n && now[..|head| + 1] == head + [x] && now[|head| + 1..] == Zeros(n)
    ensures now == head + ([x] + Zeros(n))
  {
    assert now == now[..|head| + 1] + now[|head| + 1..];
  }

  // The loop of dyn_decomp, over the bytes from `in` on. A turn stores a sample and moves at most 66 bits on, so
  // positions stay far from 2^32.
  method Loop(P: AgParams, s: seq<byte>, base: nat, startPos: nat, maxPos: nat, maxSize: nat,
              pc: array<int32>, numSamples: nat, ghost R: Reader, ghost kind: nat -> bool, ghost limit: nat,
              ghost p0: nat)
    returns (status: int, bitPos: nat, ghost d: Decoded)
    requires P.Valid() && maxSize <= 32 && R == ReaderOf(P, s, maxSize) && kind == Escaping(s, maxSize)
    requires limit == 8 * base + maxPos && p0 == 8 * base + startPos
    requires |DecodeWith(R, limit, P.mb0, 0, p0, numSamples).vals| <= pc.Length
    requires !Reaches(R, kind, limit, P.mb0, 0, p0, numSamples)
    modifies pc
    ensures d == DecodeWith(R, limit, P.mb0, 0, p0, numSamples)
    ensures d.pos == 8 * base + bitPos && startPos <= bitPos <= startPos + 66 * |d.vals|
    ensures status == if d.ok then NO_ERR else PARAM_ERROR
    ensures pc[..|d.vals|] == d.vals && pc[|d.vals|..] == old(pc[|d.vals|..])
  {
    d := DecodeWith(R, limit, P.mb0, 0, p0, numSamples);
    PrependNothing(d);
    status, bitPos := NO_ERR, startPos;
    var mb: Mean, zmode, c := P.mb0, 0, 0;
    ghost var p, left := p0, numSamples;
    while c < numSamples
      invariant c + left == numSamples && c <= pc.Length && zmode <= 1 && status == NO_ERR
      invariant p == 8 * base + bitPos && startPos <= bitPos <= startPos + 66 * c
      invariant d == Prepend(pc[..c], DecodeWith(R, limit, mb, zmode, p, left))
      invariant !Reaches(R, kind, limit, mb, zmode, p, left)
      invariant pc[c..] == old(pc[c..])
    {
      // bail if we have run off the end of the buffer
      if bitPos >= maxPos {
        OutOfBits(R, limit, mb, zmode, p, left, pc[..c], d);
        status := PARAM_ERROR;
        return;
      }
      var ok;
      ok, c, mb, zmode, bitPos, p, left :=
        Turn(P, s, base, bitPos, mb, zmode, maxSize, pc, c, numSamples, R, kind, limit, p, left, d);
      if !ok {
        status := PARAM_ERROR;
        return;
      }
    }
    AllDecoded(R, limit, mb, zmode, p, left, pc[..c], d);
  }

  lemma OutOfBits(R: Reader, limit: nat, mb: Mean, zmode: nat, p: nat, left: nat, head: seq<int32>, d: Decoded)
    requires d == Prepend(head, DecodeWith(R, limit, mb, zmode, p, left)) && left > 0 && p >= limit
    ensures d == Decoded(false, head, p)
  {
    assert head + [] == head;
  }

  lemma AllDecoded(R: Reader, limit: nat, mb: Mean, zmode: nat, p: nat, left: nat, head: seq<int32>, d: Decoded)
    requires d == Prepend(head, DecodeWith(R, limit, mb, zmode, p, left)) && left == 0
    ensures d == Decoded(true, head, p)
  {
    assert head + [] == head;
  }

  // dyn_decomp. Its limit is the size of the buffer in bits, in 32 of them; what it asks for is room for what it
  // stores.
  method DynDecomp(P: AgParams, bits: BitBuffer, pc: array<int32>, numSamples: nat, maxSize: nat,
                   ghost limit: nat, ghost p0: nat)
    returns (status: int, outNumBits: nat)
    requires P.Valid() && bits.Valid() && maxSize <= 32 && pc.Length <= 65536
    requires limit == 8 * bits.cur + 8 * bits.byteSize % TWO32 && p0 == bits.Pos()
    requires |Decode(P, bits.buffer[..], limit, p0, numSamples, maxSize).vals| <= pc.Length
    requires !Escapes(P, bits.buffer[..], limit, p0, numSamples, maxSize)
    modifies bits, pc
    ensures bits.Valid() && bits.buffer[..] == old(bits.buffer[..])
    ensures var d := Decode(P, bits.buffer[..], limit, p0, numSamples, maxSize);
            && bits.Pos() == d.pos && p0 + outNumBits == d.pos
            && status == (if d.ok && bits.cur <= bits.end then NO_ERR else PARAM_ERROR)
            && pc[..|d.vals|] == d.vals && pc[|d.vals|..] == old(pc[|d.vals|..])
  {
    var s := bits.buffer[..];
    var startPos, maxPos := bits.bitIndex, 8 * bits.byteSize % TWO32;
    ghost var d;
    var bitPos;
    status, bitPos, d := Loop(P, s, bits.cur, startPos, maxPos, maxSize, pc, numSamples,
                              ReaderOf(P, s, maxSize), Escaping(s, maxSize), limit, p0);
    outNumBits := bitPos - startPos;
    bits.Advance(outNumBits);
    if bits.cur > bits.end {
      status := PARAM_ERROR;
    }
  }
}
