/**
 The adaptive parameters of the format, as an encoder chooses them: code widths by thresholds on the mean, the mean
 itself, and the modulus of a run; and that the decoder's own arithmetic arrives at the same.
 */
module GolombFormat {
  import opened Words
  import opened AdaptiveGolomb

  // ---------- what the format says ----------

  // The width of a sample code: at most kb, and below that the one j, looked for from the given one on, with
  // 512 * (2^j - 3) <= mb < 512 * (2^(j + 1) - 3).
  function SampleWidth(kb: nat, mb: nat, j: nat): nat
    requires j <= kb
    decreases kb - j
  {
    if j == kb || mb < 512 * (Pow2(j + 1) - 3) then j else SampleWidth(kb, mb, j + 1)
  }

  // The mean behind a code of value n, in a block that is in mode z.
  function MeanBehind(pb: nat, mb: nat, n: nat, z: nat): int {
    if n > 65535 then 65535 else pb * (n + z) + mb - pb * mb / 512
  }

  // The width of a run code.
  function RunWidth(mb: nat): nat {
    if mb == 0 then 8
    else if mb == 1 then 7
    else if mb < 4 then 6
    else if mb < 8 then 5
    else if mb < 16 then 4
    else if mb < 32 then 3
    else if mb < 48 then 2
    else if mb < 64 then 3
    else if mb < 112 then 2
    else 3
  }

  // The modulus of a run code of width k.
  function RunSpan(kb: nat, k: nat): (m: int) {
    Pow2(if k < kb then k else kb) - 1
  }

  // ---------- what the decoder computes ----------

  // The logarithm is the one j the thresholds enclose.
  lemma LogThresholds(mb: nat, j: nat)
    requires mb <= MEAN_LIMIT
    ensures Lg3aSpec(mb / 512) <= j <==> mb < 512 * (Pow2(j + 1) - 3)
  {
    var x := mb / 512 + 3;
    LengthThreshold(x, j + 1);
    Scaled(mb, x, Pow2(j + 1));
  }

  lemma LengthThreshold(x: nat, n: nat)
    requires x > 0
    ensures BitLength(x) <= n <==> x < Pow2(n)
  {
    var l := BitLength(x);
    BitLengthBounds(x);
    if l <= n {
      Pow2Mono(l, n);
    } else {
      Pow2Mono(n, l - 1);
    }
  }

  lemma Scaled(mb: nat, x: int, m: int)
    requires x == mb / 512 + 3
    ensures x < m <==> mb < 512 * (m - 3)
  {
  }

  lemma {:induction false} WidthFrom(P: AgParams, mb: nat, j: nat)
    requires P.Valid() && mb <= MEAN_LIMIT && j <= SampleBits(P, mb)
    ensures SampleWidth(P.kb, mb, j) == SampleBits(P, mb)
    decreases P.kb - j
  {
    LogThresholds(mb, j);
    if j < P.kb && mb >= 512 * (Pow2(j + 1) - 3) {
      WidthFrom(P, mb, j + 1);
    }
  }

  lemma WidthIs(P: AgParams, mb: nat)
    requires P.Valid() && mb <= MEAN_LIMIT
    ensures SampleBits(P, mb) == SampleWidth(P.kb, mb, 1)
  {
    WidthFrom(P, mb, 1);
  }

  // The width of a sample code in terms of the thresholds alone.
  lemma WidthExactly(P: AgParams, mb: nat, j: nat)
    requires P.Valid() && mb <= MEAN_LIMIT
    requires 512 * (Pow2(j) - 3) <= mb < 512 * (Pow2(j + 1) - 3)
    ensures SampleBits(P, mb) == if P.kb < j then P.kb else j
  {
    LogThresholds(mb, j);
    if j > 0 {
      LogThresholds(mb, j - 1);
    }
  }

  lemma MeanIs(P: AgParams, mb: nat, n: nat, z: nat)
    requires P.Valid() && mb <= MEAN_LIMIT && z <= 1
    ensures NextMean(P, mb, n, z) == MeanBehind(P.pb, mb, n, z) <= MEAN_LIMIT
  {
    MeanBounded(P, mb, n, z);
    TimesIsProduct(P.pb, n + z);
    TimesIsProduct(P.pb, mb);
  }

  lemma BitLengthIs(m: nat, n: nat, lo: nat, hi: nat)
    requires hi == Pow2(n) && (n == 0 || lo == Pow2(n - 1)) && (n > 0 ==> lo <= m) && m < hi
    ensures BitLength(m) == n
  {
    BitLengthUnique(m, n);
  }

  lemma RunWidthIs(mb: nat)
    requires mb < 128
    ensures RunBits(mb) == RunWidth(mb)
  {
    BitLengthOf32(mb, 32);
    assert Pow2(0) == 1 && Pow2(1) == 2 && Pow2(2) == 4 && Pow2(3) == 8;
    assert Pow2(4) == 16 && Pow2(5) == 32 && Pow2(6) == 64 && Pow2(7) == 128;
    if mb == 0 {
      BitLengthIs(mb, 0, 0, 1);
    } else if mb == 1 {
      BitLengthIs(mb, 1, 1, 2);
    } else if mb < 4 {
      BitLengthIs(mb, 2, 2, 4);
    } else if mb < 8 {
      BitLengthIs(mb, 3, 4, 8);
    } else if mb < 16 {
      BitLengthIs(mb, 4, 8, 16);
    } else if mb < 32 {
      BitLengthIs(mb, 5, 16, 32);
    } else if mb < 64 {
      BitLengthIs(mb, 6, 32, 64);
    } else {
      BitLengthIs(mb, 7, 64, 128);
    }
  }

  lemma {:induction false} LowOnes(x: nat, k: nat, kb: nat)
    requires x == Pow2(k) - 1
    ensures Low(x, kb) == RunSpan(kb, k)
    decreases kb
  {
    if kb > 0 && k > 0 {
      assert x / 2 == Pow2(k - 1) - 1;
      LowOnes(x / 2, k - 1, kb - 1);
    } else if kb > 0 {
      LowOnes(x, k, kb - 1);
    }
  }

  lemma RunSpanIs(P: AgParams, k: nat)
    requires P.Valid() && k >= 1
    ensures RunModulus(P, k) == RunSpan(P.kb, k)
  {
    var x := Pow2(k) - 1;
    BitAndMask(x, P.kb);
    LowOnes(x, k, P.kb);
  }
}
