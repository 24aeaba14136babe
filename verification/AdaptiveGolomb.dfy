/**
 The adaptive Golomb entropy decoder of ag_dec.c and, as its specification partner, the encoder
 it inverts: a running mean chooses the code length, long codes escape, quiet stretches switch to
 run-length codes for zeros.
 */
module AdaptiveGolomb {
  import opened Words

  const QB: nat := 512
  const MOFF: nat := 16
  const BITOFF: nat := 24
  const MAX_PREFIX: nat := 9
  const MAX_DATATYPE_BITS_16: nat := 16
  const N_MEAN_CLAMP: nat := 0xffff
  const MEAN_LIMIT: nat := 0x200_0000

  datatype AgParams = AgParams(mb0: nat, pb: nat, kb: nat, wb: nat) {
    // What the wrapper's cookie and every pbFactor yield, and a little more.
    ghost predicate Valid() {
      mb0 <= MEAN_LIMIT && pb <= 127 && 1 <= kb <= 14 && wb == Pow2(kb) - 1
    }
  }

  // set_ag_params
  function SetAgParams(m: nat, p: nat, k: nat): AgParams {
    AgParams(m, p, k, Pow2(k) - 1)
  }

  // ---------- leading zeros ----------

  function BitLength(m: nat): nat {
    if m == 0 then 0 else 1 + BitLength(m / 2)
  }

  lemma {:induction false} BitLengthUnique(m: nat, n: nat)
    requires m < Pow2(n) && (n == 0 || Pow2(n - 1) <= m)
    ensures BitLength(m) == n
  {
    if n > 0 {
      BitLengthUnique(m / 2, n - 1);
    }
  }

  lemma {:induction false} BitLengthBounds(m: nat)
    ensures m < Pow2(BitLength(m))
    ensures m > 0 ==> BitLength(m) > 0 && Pow2(BitLength(m) - 1) <= m
  {
    if m > 0 {
      BitLengthBounds(m / 2);
    }
  }

  lemma BitLengthRange(m: nat, lo: nat, hi: nat)
    requires Pow2(lo) <= m < Pow2(hi)
    ensures lo < BitLength(m) <= hi
  {
    BitLengthBounds(m);
    if BitLength(m) <= lo {
      Pow2Mono(BitLength(m), lo);
    }
    if BitLength(m) > hi {
      Pow2Mono(hi, BitLength(m) - 1);
    }
  }

  // The number of leading zeros of a 32-bit word.
  function LeadSpec(m: uint32): (r: nat)
    ensures r <= 32
  {
    BitLengthOf32(m, 32);
    32 - BitLength(m)
  }

  lemma Pow2Order(a: nat, b: nat)
    requires Pow2(a) < Pow2(b)
    ensures a < b
  {
    if b <= a {
      Pow2Mono(b, a);
    }
  }

  lemma BitLengthOf32(m: uint32, n: nat)
    requires n == 32
    ensures BitLength(m) <= n
  {
    Pow2Values();
    BitLengthBounds(m);
    if m > 0 {
      Pow2Order(BitLength(m) - 1, n);
    }
  }

  lemma {:induction false} SingleBit(i: nat, m: nat)
    ensures BitAnd(Pow2(i), m) != 0 <==> BitAt(m, i) == 1
    decreases i
  {
    BitAtZero(i);
    if i > 0 {
      assert Pow2(i) / 2 == Pow2(i - 1);
      SingleBit(i - 1, m / 2);
    }
  }

  // The top bit of an n + 1 bit number.
  lemma {:induction false} TopBit(m: nat, n: nat)
    requires m < Pow2(n + 1)
    ensures BitAt(m, n) == 1 <==> Pow2(n) <= m
    decreases n
  {
    if n > 0 {
      TopBit(m / 2, n - 1);
    }
  }

  // lead: scan for the highest set bit.
  method Lead(m: uint32) returns (j: nat)
    ensures j == LeadSpec(m)
  {
    var top: nat := 31;
    var c := Pow2(top);
    j := 0;
    ghost var width: nat := 32;
    Pow2Values();
    while j < 32
      invariant j <= 32 && width == 32
      invariant j < 32 ==> c == Pow2(31 - j)
      invariant m < Pow2(width - j)
    {
      SingleBit(31 - j, m);
      TopBit(m, 31 - j);
      if BitAnd(c, m) != 0 {
        break;
      }
      c := c / 2;
      j := j + 1;
    }
    BitLengthUnique(m, width - j);
  }

  function Lg3aSpec(x: nat): (r: nat)
    requires x < 0x80_0000
    ensures 1 <= r <= 23
  {
    Lg3aRange(x, 1, 24);
    BitLength(x + 3) - 1
  }

  lemma Lg3aRange(x: nat, lo: nat, hi: nat)
    requires x < 0x80_0000 && lo == 1 && hi == 24
    ensures lo < BitLength(x + 3) <= hi
  {
    Pow2Values();
    BitLengthRange(x + 3, lo, hi);
  }

  // lg3a: the floor of log2(x + 3)
  method Lg3a(x: nat) returns (r: nat)
    requires x < 0x80_0000
    ensures r == Lg3aSpec(x)
  {
    var l := Lead(x + 3);
    Lg3aRange(x, 1, 24);
    r := 31 - l;
  }

  // ---------- the mean ----------

  // How the running mean moves after a symbol n, in 32-bit unsigned arithmetic.
  function NextMean(P: AgParams, mb: nat, n: nat, zmode: nat): uint32 {
    if n > N_MEAN_CLAMP then N_MEAN_CLAMP
    else U32(U32(Times(P.pb, n + zmode)) + mb - U32(Times(P.pb, mb)) / QB)
  }

  // The same without any register width.
  function ExactMean(P: AgParams, mb: nat, n: nat, zmode: nat): int {
    if n > N_MEAN_CLAMP then N_MEAN_CLAMP
    else Times(P.pb, n + zmode) + mb - Times(P.pb, mb) / QB
  }

  // The mean never leaves [0, 2^25], and no kept value was produced by a 32-bit wrap.
  lemma MeanBounded(P: AgParams, mb: nat, n: nat, zmode: nat)
    requires P.pb <= 127 && mb <= MEAN_LIMIT && zmode <= 1
    ensures NextMean(P, mb, n, zmode) == ExactMean(P, mb, n, zmode)
    ensures 0 <= ExactMean(P, mb, n, zmode) <= MEAN_LIMIT
  {
    if n <= N_MEAN_CLAMP {
      GainRange(P.pb, n + zmode);
      LossRange(P.pb, mb);
      MeanRoom(P.pb, mb);
      TimesIsProduct(P.pb, n + zmode);
      TimesIsProduct(P.pb, mb);
      MeanUnwrapped(Times(P.pb, n + zmode), Times(P.pb, mb), mb);
    }
  }

  lemma GainRange(pb: nat, n: nat)
    requires pb <= 127 && n <= 0x1_0000
    ensures 0 <= pb * n <= pb * 0x1_0000 <= 127 * 0x1_0000
  {
    MulBound(pb, n, pb, 0x1_0000);
  }

  lemma LossRange(pb: nat, mb: nat)
    requires pb <= 127 && mb <= MEAN_LIMIT
    ensures 0 <= pb * mb <= 127 * 0x200_0000
  {
    MulBound(pb, mb, 127, MEAN_LIMIT);
  }

  lemma MeanUnwrapped(gain: nat, loss: nat, mb: nat)
    requires gain < TWO32 && loss < TWO32 && 0 <= gain + mb - loss / QB < TWO32
    ensures U32(U32(gain) + mb - U32(loss) / QB) == gain + mb - loss / QB
  {
  }

  lemma MulBound(a: nat, b: nat, a': nat, b': nat)
    requires a <= a' && b <= b'
    ensures 0 <= a * b <= a' * b'
  {
    assert (a' - a) * b >= 0;
    assert a' * (b' - b) >= 0;
  }

  // The decay leaves room for the largest gain.
  lemma MeanRoom(pb: nat, mb: nat)
    requires pb <= 127 && mb <= MEAN_LIMIT
    ensures 0 <= pb * mb / QB <= mb
    ensures pb * 0x1_0000 + mb - pb * mb / QB <= MEAN_LIMIT
  {
    var d := MEAN_LIMIT - mb;
    assert pb * d == pb * MEAN_LIMIT - pb * mb;
    MulBound(pb, d, 127, d);
    MulBound(pb, mb, 127, mb);
  }

  // k for the next sample.
  function SampleBits(P: AgParams, mb: nat): (k: nat)
    requires P.Valid() && mb <= MEAN_LIMIT
    ensures 1 <= k <= 14
  {
    var k := Lg3aSpec(mb / QB);
    if k < P.kb then k else P.kb
  }

  // Is the signal quiet enough for a zero run?
  predicate Quiet(mb: nat) {
    U32(mb * 4) < QB
  }

  // k for a zero run.
  function RunBits(mb: nat): (k: nat)
    requires mb < 128
    ensures 2 <= k <= 8
  {
    RunBitsRange(mb);
    LeadSpec(mb) - BITOFF + (mb + MOFF) / 64
  }

  lemma RunBitsRange(mb: nat)
    requires mb < 128
    ensures 2 <= LeadSpec(mb) - BITOFF + (mb + MOFF) / 64 <= 8
  {
    if mb == 0 {
    } else if mb < 32 {
      LeadOf(mb, 0, 5);
    } else if mb < 48 {
      LeadOf(mb, 5, 6);
    } else if mb < 64 {
      LeadOf(mb, 5, 6);
    } else {
      LeadOf(mb, 6, 7);
    }
  }

  lemma LeadOf(mb: nat, lo: nat, hi: nat)
    requires mb < 128 && lo <= 6 && hi <= 7
    requires (lo == 0 && 1 <= mb) || (lo == 5 && 32 <= mb) || (lo == 6 && 64 <= mb)
    requires (hi == 5 && mb < 32) || (hi == 6 && mb < 64) || hi == 7
    ensures 32 - hi <= LeadSpec(mb) < 32 - lo
  {
    assert Pow2(0) == 1 && Pow2(5) == 32 && Pow2(6) == 64 && Pow2(7) == 128;
    BitLengthRange(mb, lo, hi);
  }

  // The run modulus: `((1 << k) - 1) & wb`.
  function RunModulus(P: AgParams, k: nat): (mz: nat)
    requires P.Valid() && k >= 1
    ensures 1 <= mz < Pow2(k)
  {
    BitAndBound(Pow2(k) - 1, P.wb);
    BitAnd(Pow2(k) - 1, P.wb)
  }
}
