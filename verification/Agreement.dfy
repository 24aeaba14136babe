/**
 Readers on inputs that agree up to a bit: whatever ends by that bit is read alike from both.
 */
module Agreement {
  import opened Words
  import opened BitStream
  import opened AdaptiveGolomb
  import opened GolombCodes
  import opened AdaptiveBlocks
  import GolombBlock
  import opened GolombDecoder
  import opened FrameFormat

  ghost predicate Agree(s: seq<byte>, t: seq<byte>, k: nat) {
    forall q: nat | q < k :: Bit(s, q) == Bit(t, q)
  }

  lemma {:induction false} BitsAgree(s: seq<byte>, t: seq<byte>, p: nat, n: nat, k: nat)
    requires Agree(s, t, k) && p + n <= k
    ensures Bits(s, p, n) == Bits(t, p, n)
    decreases n
  {
    if n > 0 {
      BitsAgree(s, t, p, n - 1, k);
    }
  }

  // ---------- codes ----------

  // The ones at p, and the zero that ends them.
  lemma {:induction false} OnesAgree(s: seq<byte>, t: seq<byte>, p: nat, n: nat, k: nat)
    requires Agree(s, t, k) && p + Ones(s, p, n) + (if Ones(s, p, n) < n then 1 else 0) <= k
    ensures Ones(t, p, n) == Ones(s, p, n)
    decreases n
  {
    if n > 0 && Bit(s, p) == 1 {
      OnesAgree(s, t, p + 1, n - 1, k);
    }
  }

  // The last bit of a remainder of k bits is not looked at when the others are zeros.
  lemma RemainderAgrees(s: seq<byte>, t: seq<byte>, p: nat, n: nat, k: nat)
    requires Agree(s, t, k) && n >= 1 && p + n - 1 <= k && (Bits(s, p, n) >= 2 ==> p + n <= k)
    ensures if Bits(s, p, n) >= 2 then Bits(t, p, n) == Bits(s, p, n) else Bits(t, p, n) < 2
  {
    if Bits(s, p, n) >= 2 {
      BitsAgree(s, t, p, n, k);
    } else {
      BitsAgree(s, t, p, n - 1, k);
    }
  }

  lemma SampleAgrees(s: seq<byte>, t: seq<byte>, p: nat, m: nat, kk: nat, maxbits: nat, k: nat, pre: nat)
    requires kk >= 1 && pre == Ones(s, p, MAX_PREFIX) && Agree(s, t, k) && SampleCode(s, p, m, kk, maxbits).next <= k
    ensures SampleCode(t, p, m, kk, maxbits) == SampleCode(s, p, m, kk, maxbits) && Ones(t, p, MAX_PREFIX) == pre
  {
    OnesAgree(s, t, p, MAX_PREFIX, k);
    if pre >= MAX_PREFIX {
      BitsAgree(s, t, p + MAX_PREFIX, maxbits, k);
    } else if kk > 1 {
      RemainderAgrees(s, t, p + pre + 1, kk, k);
    }
  }

  lemma RunAgrees(s: seq<byte>, t: seq<byte>, p: nat, m: nat, kk: nat, e: nat, k: nat, pre: nat)
    requires kk >= 1 && pre == Ones(s, p, MAX_PREFIX) && Agree(s, t, k) && RunCode(s, p, m, kk, e).next <= k
    ensures RunCode(t, p, m, kk, e) == RunCode(s, p, m, kk, e)
  {
    OnesAgree(s, t, p, MAX_PREFIX, k);
    if pre >= MAX_PREFIX {
      BitsAgree(s, t, p + MAX_PREFIX, e, k);
    } else {
      RemainderAgrees(s, t, p + pre + 1, kk, k);
    }
  }

  // ---------- blocks ----------

  // Codes do not go back, and those that end by bit k are read alike by the other reader.
  ghost predicate Follows(R: Reader, R': Reader, kind: nat -> bool, kind': nat -> bool, k: nat) {
    && (forall mb: Mean, z: nat, p: nat ::
          && p <= R.sample(mb, z, p).next
          && (R.sample(mb, z, p).next <= k ==> R'.sample(mb, z, p) == R.sample(mb, z, p) && kind'(p) == kind(p)))
    && (forall mb: QuietMean, p: nat ::
          p <= R.run(mb, p).next && (R.run(mb, p).next <= k ==> R'.run(mb, p) == R.run(mb, p)))
  }

  lemma {:induction false} BlockForward(R: Reader, R': Reader, kind: nat -> bool, kind': nat -> bool, k: nat,
                                        limit: nat, mb: Mean, zmode: nat, p: nat, left: nat)
    requires Follows(R, R', kind, kind', k)
    ensures p <= DecodeWith(R, limit, mb, zmode, p, left).pos
    decreases left
  {
    if left > 0 && p < limit {
      var x := R.sample(mb, zmode, p);
      if x.mean < 128 && left > 1 {
        var run := R.run(x.mean, x.next);
        if run.value <= left - 1 {
          BlockForward(R, R', kind, kind', k, limit, 0, RunMode(run.value), run.next, left - 1 - run.value);
        }
      } else {
        BlockForward(R, R', kind, kind', k, limit, x.mean, 0, x.next, left - 1);
      }
    }
  }

  // A block that ends by bit k is decoded alike, and comes to the same kind of codes.
  lemma {:induction false} BlockAgrees(R: Reader, R': Reader, kind: nat -> bool, kind': nat -> bool, k: nat,
                                       limit: nat, mb: Mean, zmode: nat, p: nat, left: nat)
    requires Follows(R, R', kind, kind', k) && DecodeWith(R, limit, mb, zmode, p, left).pos <= k
    ensures DecodeWith(R', limit, mb, zmode, p, left) == DecodeWith(R, limit, mb, zmode, p, left)
    ensures Reaches(R', kind', limit, mb, zmode, p, left) == Reaches(R, kind, limit, mb, zmode, p, left)
    decreases left
  {
    if left > 0 && p < limit {
      var x := R.sample(mb, zmode, p);
      if x.mean < 128 && left > 1 {
        var run := R.run(x.mean, x.next);
        if run.value <= left - 1 {
          BlockForward(R, R', kind, kind', k, limit, 0, RunMode(run.value), run.next, left - 1 - run.value);
          BlockAgrees(R, R', kind, kind', k, limit, 0, RunMode(run.value), run.next, left - 1 - run.value);
        }
      } else {
        BlockForward(R, R', kind, kind', k, limit, x.mean, 0, x.next, left - 1);
        BlockAgrees(R, R', kind, kind', k, limit, x.mean, 0, x.next, left - 1);
      }
    }
  }

  lemma SamplesFollow(A: AgParams, s: seq<byte>, t: seq<byte>, w: nat, k: nat, mb: Mean, z: nat, p: nat)
    requires A.Valid() && w <= 32 && Agree(s, t, k)
    ensures p <= GolombBlock.ReadSample(A, s, w, mb, z, p).next
    ensures GolombBlock.ReadSample(A, s, w, mb, z, p).next <= k ==>
              GolombBlock.ReadSample(A, t, w, mb, z, p) == GolombBlock.ReadSample(A, s, w, mb, z, p)
              && BadEscape(t, p, w) == BadEscape(s, p, w)
  {
    var kk := SampleBits(A, mb);
    SampleAdvance(s, p, Pow2(kk) - 1, kk, w);
    if SampleCode(s, p, Pow2(kk) - 1, kk, w).next <= k {
      SampleAgrees(s, t, p, Pow2(kk) - 1, kk, w, k, Ones(s, p, MAX_PREFIX));
    }
  }

  lemma RunsFollow(A: AgParams, s: seq<byte>, t: seq<byte>, k: nat, mb: QuietMean, p: nat)
    requires A.Valid() && Agree(s, t, k)
    ensures p <= GolombBlock.ReadRun(A, s, mb, p).next
    ensures GolombBlock.ReadRun(A, s, mb, p).next <= k ==>
              GolombBlock.ReadRun(A, t, mb, p) == GolombBlock.ReadRun(A, s, mb, p)
  {
    var kz := RunBits(mb);
    RunBitsRange(mb);
    RunAdvance(s, p, RunModulus(A, kz), kz, MAX_DATATYPE_BITS_16);
    if GolombBlock.ReadRun(A, s, mb, p).next <= k {
      RunAgrees(s, t, p, RunModulus(A, kz), kz, MAX_DATATYPE_BITS_16, k, Ones(s, p, MAX_PREFIX));
    }
  }

  lemma ReadersFollow(A: AgParams, s: seq<byte>, t: seq<byte>, w: nat, k: nat)
    requires A.Valid() && w <= 32 && Agree(s, t, k)
    ensures Follows(GolombBlock.ReaderOf(A, s, w), GolombBlock.ReaderOf(A, t, w), GolombBlock.Escaping(s, w),
                    GolombBlock.Escaping(t, w), k)
  {
    var R, R' := GolombBlock.ReaderOf(A, s, w), GolombBlock.ReaderOf(A, t, w);
    forall mb: Mean, z: nat, p: nat
      ensures p <= R.sample(mb, z, p).next
      ensures R.sample(mb, z, p).next <= k ==>
                R'.sample(mb, z, p) == R.sample(mb, z, p)
                && GolombBlock.Escaping(t, w)(p) == GolombBlock.Escaping(s, w)(p)
    {
      SamplesFollow(A, s, t, w, k, mb, z, p);
    }
    forall mb: QuietMean, p: nat
      ensures p <= R.run(mb, p).next && (R.run(mb, p).next <= k ==> R'.run(mb, p) == R.run(mb, p))
    {
      RunsFollow(A, s, t, k, mb, p);
    }
  }

  // ---------- channels ----------

  // Channels do not go back, and those that end by bit k are found alike by the other reader.
  ghost predicate SameChannels(read: ChannelReader, read': ChannelReader, k: nat) {
    forall p: nat, n: nat, P: Params, w: Width ::
      && p <= ChannelAt(read, p, n, P, w).next
      && (ChannelAt(read, p, n, P, w).next <= k ==> ChannelAt(read', p, n, P, w) == ChannelAt(read, p, n, P, w))
  }

  lemma DecodeAgrees(A: AgParams, s: seq<byte>, t: seq<byte>, limit: nat, p: nat, n: nat, w: nat, k: nat)
    requires A.Valid() && w <= 32 && Agree(s, t, k)
    ensures p <= GolombBlock.Decode(A, s, limit, p, n, w).pos
    ensures GolombBlock.Decode(A, s, limit, p, n, w).pos <= k ==>
              GolombBlock.Decode(A, t, limit, p, n, w) == GolombBlock.Decode(A, s, limit, p, n, w)
              && GolombBlock.Escapes(A, t, limit, p, n, w) == GolombBlock.Escapes(A, s, limit, p, n, w)
  {
    var R, R' := GolombBlock.ReaderOf(A, s, w), GolombBlock.ReaderOf(A, t, w);
    var kind, kind' := GolombBlock.Escaping(s, w), GolombBlock.Escaping(t, w);
    ReadersFollow(A, s, t, w, k);
    BlockForward(R, R', kind, kind', k, limit, A.mb0, 0, p, n);
    if DecodeWith(R, limit, A.mb0, 0, p, n).pos <= k {
      BlockAgrees(R, R', kind, kind', k, limit, A.mb0, 0, p, n);
    }
  }

  lemma ChannelAgrees(I: Input, J: Input, read: ChannelReader, read': ChannelReader, frameLength: nat, p: nat, n: nat,
                      P: Params, w: Width, k: nat)
    requires J == Input(J.s, I.byteSize, I.end) && Agree(I.s, J.s, k)
    requires read == ReaderOf(I, frameLength) && read' == ReaderOf(J, frameLength)
    ensures p <= ChannelAt(read, p, n, P, w).next
    ensures ChannelAt(read, p, n, P, w).next <= k ==> ChannelAt(read', p, n, P, w) == ChannelAt(read, p, n, P, w)
  {
    var A, limit := CoderOf(P.pbFactor), EntropyLimit(I, p);
    var d, d' := GolombBlock.Decode(A, I.s, limit, p, n, w), GolombBlock.Decode(A, J.s, limit, p, n, w);
    var x, x' := GolombBlock.Escapes(A, I.s, limit, p, n, w), GolombBlock.Escapes(A, J.s, limit, p, n, w);
    ReaderForm(I, frameLength, read, p, n, P, w, A, limit, d, x);
    ReaderForm(J, frameLength, read', p, n, P, w, A, limit, d', x');
    DecodeAgrees(A, I.s, J.s, limit, p, n, w, k);
  }

  lemma ChannelsAgree(I: Input, J: Input, read: ChannelReader, read': ChannelReader, frameLength: nat, k: nat)
    requires J == Input(J.s, I.byteSize, I.end) && Agree(I.s, J.s, k)
    requires read == ReaderOf(I, frameLength) && read' == ReaderOf(J, frameLength)
    ensures SameChannels(read, read', k)
  {
    forall p: nat, n: nat, P: Params, w: Width
      ensures p <= ChannelAt(read, p, n, P, w).next
      ensures ChannelAt(read, p, n, P, w).next <= k ==> ChannelAt(read', p, n, P, w) == ChannelAt(read, p, n, P, w)
    {
      ChannelAgrees(I, J, read, read', frameLength, p, n, P, w, k);
    }
  }

  // ---------- headers and parameters ----------

  lemma {:induction false} CoefsAgree(s: seq<byte>, t: seq<byte>, p: nat, n: nat, k: nat)
    requires Agree(s, t, k) && p + 16 * n <= k
    ensures ReadCoefs(s, p, n) == ReadCoefs(t, p, n)
    decreases n
  {
    if n > 0 {
      BitsAgree(s, t, p, 16, k);
      CoefsAgree(s, t, p + 16, n - 1, k);
    }
  }

  lemma ParamsAgree(s: seq<byte>, t: seq<byte>, p: nat, k: nat)
    requires Agree(s, t, k) && ReadParams(s, p).1 <= k
    ensures ReadParams(t, p) == ReadParams(s, p)
  {
    BitsAgree(s, t, p, 4, k);
    BitsAgree(s, t, p + 4, 4, k);
    BitsAgree(s, t, p + 8, 3, k);
    BitsAgree(s, t, p + 11, 5, k);
    CoefsAgree(s, t, p + 16, Bits(s, p + 11, 5), k);
  }

  // A header is read alike as far as it is looked at.
  lemma HeaderAgrees(s: seq<byte>, t: seq<byte>, p: nat, count: nat, k: nat, h: Header, h': Header)
    requires Agree(s, t, k) && h == ReadHeader(s, p, count) && h' == ReadHeader(t, p, count)
    requires if h.unused != 0 then p + 16 <= k else if h.shifted >= 3 then p + 20 <= k else h.next <= k
    ensures h'.unused == h.unused && (h.unused == 0 ==> h'.shifted == h.shifted)
    ensures h.unused == 0 && h.shifted < 3 ==> h' == h
  {
    BitsAgree(s, t, p + 4, 12, k);
    if h.unused == 0 {
      BitsAgree(s, t, p + 16, 1, k);
      BitsAgree(s, t, p + 17, 2, k);
      BitsAgree(s, t, p + 19, 1, k);
      if h.shifted < 3 && Bits(s, p + 16, 1) != 0 {
        BitsAgree(s, t, p + 20, 32, k);
      }
    }
  }

  lemma {:induction false} RawAgrees(s: seq<byte>, t: seq<byte>, p: nat, width: nat, step: nat, n: nat, k: nat)
    requires Agree(s, t, k) && 1 <= width <= 32 && (n > 0 ==> p + Skip(n - 1, step) + width <= k)
    ensures ReadRaw(s, p, width, step, n) == ReadRaw(t, p, width, step, n)
    decreases n
  {
    if n > 0 {
      var q, m := p + step, n - 1;
      BitsAgree(s, t, p, width, k);
      RawAgrees(s, t, q, width, step, m, k);
      RawStep(s, t, p, q, width, step, n, m);
    }
  }

  lemma RawStep(s: seq<byte>, t: seq<byte>, p: nat, q: nat, width: nat, step: nat, n: nat, m: nat)
    requires 1 <= width <= 32 && n == m + 1 && q == p + step && Bits(s, p, width) == Bits(t, p, width)
    requires ReadRaw(s, q, width, step, m) == ReadRaw(t, q, width, step, m)
    ensures ReadRaw(s, p, width, step, n) == ReadRaw(t, p, width, step, n)
  {
  }
}
