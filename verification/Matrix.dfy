/**
 The generalised mid/side matrixing of matrix_dec.c: the un-mixing at every sample width, the
 mixing it inverts, and the strided output buffers.
 */
module Matrix {
  import opened Words

  type int8 = x: int | -128 <= x < 128

  // ---------- un-mixing one pair ----------

  function UnmixL(u: int32, v: int32, mixbits: nat, mixres: int8): int32 {
    if mixres != 0 then Wrap32(u + v - Shr(Wrap32(Mul(mixres, v)), mixbits)) else u
  }

  function UnmixR(u: int32, v: int32, mixbits: nat, mixres: int8): int32 {
    if mixres != 0 then Wrap32(UnmixL(u, v, mixbits, mixres) - v) else v
  }

  // The lines both un-mixers run for a pair.
  method UnmixPair(u: int32, v: int32, mixbits: nat, mixres: int8) returns (l: int32, r: int32)
    requires mixres != 0 ==> mixbits < 32
    ensures l == UnmixL(u, v, mixbits, mixres) && r == UnmixR(u, v, mixbits, mixres)
  {
    if mixres != 0 {
      MulIsProduct(mixres, v);
      l := Wrap32((u as int) + v - Shr(Wrap32(mixres * v), mixbits));
      r := Wrap32((l as int) - v);
    } else {
      l, r := u, v;
    }
  }

  // ---------- mixing ----------

  // u := floor((r L + (m - r) R) / m) with m = 2^mixbits, or L itself without mixing.
  function MixU(l: int, r: int, mixbits: nat, mixres: int8): int {
    if mixres != 0 then Shr(Mul(mixres, l) + Mul(Pow2(mixbits) - mixres, r), mixbits) else l
  }

  // v := L - R
  function MixV(l: int, r: int, mixres: int8): int {
    if mixres != 0 then l - r else r
  }

  lemma ProductSplit(m: int, q: int, l: int, r: int)
    ensures Mul(q, l) + Mul(m - q, r) == Mul(q, l - r) + m * r
  {
    MulIsProduct(q, l);
    MulIsProduct(m - q, r);
    MulIsProduct(q, l - r);
    assert q * l + (m - q) * r == q * (l - r) + m * r;
  }

  lemma {:induction false} ShrAddScale(x: int, y: int, n: nat)
    ensures Shr(x + Scale(y, n), n) == Shr(x, n) + y
    decreases n
  {
    if n > 0 {
      ShrAddScale(x / 2, y, n - 1);
      assert (x + Scale(y, n)) / 2 == x / 2 + Scale(y, n - 1);
    }
  }

  // The mid channel is the right one plus the scaled difference.
  lemma MixUForm(l: int, r: int, mixbits: nat, mixres: int8)
    requires mixres != 0
    ensures MixU(l, r, mixbits, mixres) == Shr(Mul(mixres, l - r), mixbits) + r
  {
    ProductSplit(Pow2(mixbits), mixres, l, r);
    ScaleIsProduct(r, mixbits);
    assert Pow2(mixbits) * r == r * Pow2(mixbits);
    ShrAddScale(Mul(mixres, l - r), r, mixbits);
  }

  lemma Between(a: int, q: int, b: int, v: int)
    requires a <= q <= b && v >= 0
    ensures a * v <= q * v <= b * v
  {
    assert (q - a) * v >= 0 && (b - q) * v >= 0;
  }

  // A difference of samples of at most 24 bits times an 8-bit factor stays in 32 bits.
  lemma ProductFits(mixres: int8, v: int)
    requires -0x100_0000 < v < 0x100_0000
    ensures -0x8000_0000 <= Mul(mixres, v) < 0x8000_0000
  {
    MulIsProduct(mixres, v);
    if v >= 0 {
      Between(-128, mixres, 127, v);
    } else {
      Between(-128, mixres, 127, -v);
      assert mixres * (-v) == -(mixres * v);
    }
  }

  lemma SampleRange(x: int, w: nat)
    requires 1 <= w <= 24 && Fits(x, w)
    ensures -0x80_0000 <= x < 0x80_0000
  {
    Pow2Mono(w - 1, 23);
    Pow2Values();
  }

  // Un-mixing inverts mixing for every pair of samples of up to 24 bits, every shift and factor.
  lemma UnmixInvertsMix(l: int, r: int, w: nat, mixbits: nat, mixres: int8)
    requires 1 <= w <= 24 && Fits(l, w) && Fits(r, w) && mixbits < 32
    ensures -0x8000_0000 <= MixV(l, r, mixres) < 0x8000_0000
    ensures var u, v := Wrap32(MixU(l, r, mixbits, mixres)), MixV(l, r, mixres);
            UnmixL(u, v, mixbits, mixres) == l && UnmixR(u, v, mixbits, mixres) == r
  {
    SampleRange(l, w);
    SampleRange(r, w);
    if mixres != 0 {
      MixUForm(l, r, mixbits, mixres);
      ProductFits(mixres, l - r);
      Restored(l, r, Shr(Mul(mixres, l - r), mixbits));
    }
  }

  lemma ChannelsUnmixed(u: int32, v: int32, l: int, r: int, mixbits: nat, mixres: int8)
    requires u == Wrap32(MixU(l, r, mixbits, mixres)) && v == Wrap32(MixV(l, r, mixres))
    requires Fits(l, 24) && Fits(r, 24) && mixbits < 32
    ensures UnmixL(u, v, mixbits, mixres) == l && UnmixR(u, v, mixbits, mixres) == r
  {
    UnmixInvertsMix(l, r, 24, mixbits, mixres);
    assert v == MixV(l, r, mixres);
  }

  lemma Restored(l: int, r: int, k: int)
    requires -0x80_0000 <= l < 0x80_0000 && -0x80_0000 <= r < 0x80_0000
    ensures Wrap32(Wrap32(k + r) + (l - r) - k) == l
    ensures Wrap32(l - (l - r)) == r
  {
    Wrap32Add(k + r, (l - r) - k);
    assert Wrap32(k + r) + (l - r) - k == Wrap32(k + r) + ((l - r) - k);
  }

  // ---------- full 32-bit samples ----------

  // Does un-mixing give the pair back from its channels in 32-bit registers?
  predicate Back(l: int, r: int, mixbits: nat, mixres: int8) {
    var u, v := Wrap32(MixU(l, r, mixbits, mixres)), Wrap32(MixV(l, r, mixres));
    UnmixL(u, v, mixbits, mixres) == l && UnmixR(u, v, mixbits, mixres) == r
  }

  // The left sample comes back up to what the product of factor and difference loses to its register.
  lemma UnmixedForm(l: int32, r: int32, mixbits: nat, mixres: int8, d: int, x: int)
    requires mixres != 0 && mixbits < 32 && d == l - r && x == Mul(mixres, d)
    ensures UnmixL(Wrap32(MixU(l, r, mixbits, mixres)), Wrap32(MixV(l, r, mixres)), mixbits, mixres)
            == Wrap32(l + (Shr(x, mixbits) - Shr(Wrap32(x), mixbits)))
  {
    MixUForm(l, r, mixbits, mixres);
    MulIsProduct(mixres, Wrap32(d));
    MulIsProduct(mixres, d);
    Wrap32Mul(mixres, d);
    TwoWraps(Shr(x, mixbits) + r, d, Shr(Wrap32(x), mixbits));
  }

  lemma TwoWraps(a: int, d: int, k: int)
    ensures Wrap32(Wrap32(a) + Wrap32(d) - k) == Wrap32(a + d - k)
  {
    var i := Wrap32Residue(a);
    var j := Wrap32Residue(d);
    Wrap32Shift(a + d - k, i + j);
  }

  lemma WrapSame(l: int32, k: int)
    requires -TWO32 < k < TWO32
    ensures Wrap32(l + k) == l <==> k == 0
  {
  }

  // Without a shift nothing is lost: everything happens modulo 2^32.
  lemma UnshiftedBack(l: int32, r: int32, mixres: int8)
    ensures Back(l, r, 0, mixres)
  {
    if mixres != 0 {
      var d := l - r;
      var x := Mul(mixres, d);
      UnmixedForm(l, r, 0, mixres, d, x);
      var i := Wrap32Residue(x);
      Wrap32Shift(l, -i);
      RightBack(l, r);
    }
  }

  lemma RightBack(l: int32, r: int32)
    ensures Wrap32(l - Wrap32(l - r)) == r
  {
    var j := Wrap32Residue(l - r);
    Wrap32Shift(r, -j);
  }

  // The least multiple of m from 2^31 on.
  lemma LeastMultiple(m: int, c: int)
    requires 1 <= m <= 128 && c == (0x7fff_ffff + m) / m
    ensures 0x8000_0000 <= m * c < 0x8000_0000 + m && 0 < c <= 0x8000_0000
  {
    var x := 0x7fff_ffff + m;
    assert x == m * c + x % m;
  }

  // A pair whose difference times the factor is just past 2^31.
  lemma OverflowingPair(mixres: int8) returns (l: int32, r: int32)
    requires mixres != 0
    ensures 0x8000_0000 <= Mul(mixres, l - r) < 0x8000_0080
  {
    var factor: int := mixres;
    var m := if factor < 0 then -factor else factor;
    var c := (0x7fff_ffff + m) / m;
    LeastMultiple(m, c);
    if mixres > 0 {
      l, r := c - 1, -1;
      assert l - r == c;
    } else {
      l, r := -c, 0;
      assert l - r == -c;
      assert mixres * (-c) == m * c;
    }
    MulIsProduct(mixres, l - r);
  }

  // It is off by 2^(32 - mixbits).
  lemma ShiftedLost(mixbits: nat, mixres: int8) returns (l: int32, r: int32)
    requires mixres != 0 && 1 <= mixbits < 32
    ensures !Back(l, r, mixbits, mixres)
  {
    l, r := OverflowingPair(mixres);
    var x, off := Mul(mixres, l - r), Pow2(32 - mixbits);
    UnmixedForm(l, r, mixbits, mixres, l - r, x);
    OffBy(x, mixbits, off);
    WrapSame(l, off);
  }

  lemma OffBy(x: int, mixbits: nat, off: int)
    requires 1 <= mixbits < 32 && off == Pow2(32 - mixbits) && 0x8000_0000 <= x < 0x8000_0080
    ensures Shr(x, mixbits) - Shr(Wrap32(x), mixbits) == off && 0 < off < TWO32
  {
    var width := 32;
    ScalePow2(width - mixbits, mixbits);
    Pow2Mono(width - mixbits, 31);
    Pow2Values();
    ShrAddScale(Wrap32(x), off, mixbits);
    assert x == Wrap32(x) + TWO32;
  }

  // All pairs of 32-bit samples come back exactly when nothing is mixed or the mix is not shifted.
  lemma BackExactly(mixbits: nat, mixres: int8)
    requires mixbits < 32
    ensures (forall l: int32, r: int32 :: Back(l, r, mixbits, mixres)) <==> mixres == 0 || mixbits == 0
  {
    if mixbits == 0 {
      forall l: int32, r: int32
        ensures Back(l, r, mixbits, mixres)
      {
        UnshiftedBack(l, r, mixres);
      }
    } else if mixres != 0 {
      var l, r := ShiftedLost(mixbits, mixres);
      assert !Back(l, r, mixbits, mixres);
    }
  }

  // ---------- the range of the mid channel ----------

  // The product q v against m v.
  lemma Spread(m: int, q: int, v: int)
    requires m > 0 && -m <= 2 * q <= 3 * m
    ensures v >= 0 ==> -(m * v) <= 2 * (q * v) <= 3 * (m * v)
    ensures v < 0 ==> 3 * (m * v) <= 2 * (q * v) <= -(m * v)
  {
    var n := if v >= 0 then v else -v;
    Between(-m, 2 * q, 3 * m, n);
    assert (2 * q) * n == 2 * (q * n) && (3 * m) * n == 3 * (m * n) && (-m) * n == -(m * n);
    assert v < 0 ==> q * n == -(q * v) && m * n == -(m * v);
  }

  lemma MixBounds(l: int, r: int, m: int, q: int)
    requires -0x8000 <= l < 0x8000 && -0x8000 <= r < 0x8000 && m > 0 && -m <= 2 * q <= 3 * m
    ensures -0x1_0000 * m <= q * (l - r) + m * r < 0x1_0000 * m
  {
    var v := l - r;
    Spread(m, q, v);
    Between(-0x8000, l, 0x7fff, m);
    Between(-0x8000, r, 0x7fff, m);
    assert m * v == l * m - r * m && m * r == r * m;
    MixedWithin(m, q * v, m * v, l * m, r * m);
  }

  lemma MixedWithin(m: int, qv: int, mv: int, lm: int, rm: int)
    requires m > 0 && mv == lm - rm
    requires (-mv <= 2 * qv <= 3 * mv) || (3 * mv <= 2 * qv <= -mv)
    requires -0x8000 * m <= lm <= 0x7fff * m && -0x8000 * m <= rm <= 0x7fff * m
    ensures -0x1_0000 * m <= qv + rm < 0x1_0000 * m
  {
  }

  lemma QuotientAtLeast(t: int, q: int, m: int, b: int)
    requires m > 0 && q * m <= t < q * m + m
    ensures b <= q <==> b * m <= t
  {
    if b <= q {
      Between(b, q, q, m);
    } else {
      Between(q + 1, b, b, m);
      assert (q + 1) * m == q * m + m;
    }
  }

  lemma Half17(q: int)
    ensures Fits(q, 17) <==> -0x1_0000 <= q < 0x1_0000
  {
    Pow2Values();
  }

  // t >> n fits in 17 bits exactly when t is between -2^16 m and 2^16 m.
  lemma ShrFits17(t: int, n: nat, m: int)
    requires m == Pow2(n)
    ensures Fits(Shr(t, n), 17) <==> -0x1_0000 * m <= t < 0x1_0000 * m
  {
    var q := Shr(t, n);
    Recompose(t, n);
    ScaleIsProduct(q, n);
    QuotientAtLeast(t, q, m, -0x1_0000);
    QuotientAtLeast(t, q, m, 0x1_0000);
    Half17(q);
  }

  // The extreme pair that pushes the mid channel furthest.
  lemma ExtremePair(m: int, q: int8)
    requires m > 0
    requires -0x1_0000 * m <= q * 0xffff - m * 0x8000 < 0x1_0000 * m
    ensures -m <= 2 * q <= 3 * m
  {
  }

  // For every pair of 16-bit samples the mid channel fits in the 17 bits the frame gives it,
  // exactly when the factor is between -m/2 and 3m/2.
  lemma MidFitsExactly(mixbits: nat, mixres: int8, m: int)
    requires mixres != 0 && m == Pow2(mixbits)
    ensures (forall l: int16, r: int16 :: Fits(MixU(l, r, mixbits, mixres), 17)) <==> -m <= 2 * mixres <= 3 * m
  {
    if -m <= 2 * mixres <= 3 * m {
      forall l: int16, r: int16
        ensures Fits(MixU(l, r, mixbits, mixres), 17)
      {
        MidFits(l, r, mixbits, mixres, m);
      }
    }
    if !(-m <= 2 * mixres <= 3 * m) {
      var l: int16, r: int16 := 0x7fff, -0x8000;
      MidTooWide(l, r, mixbits, mixres, m);
    }
  }

  // Outside that range it is the extreme pair that needs more.
  lemma MidTooWide(l: int16, r: int16, mixbits: nat, mixres: int8, m: int)
    requires mixres != 0 && m == Pow2(mixbits) && !(-m <= 2 * mixres <= 3 * m) && l == 0x7fff && r == -0x8000
    ensures !Fits(MixU(l, r, mixbits, mixres), 17)
  {
    MidFitsBounds(l, r, mixbits, mixres, m);
    MulIsProduct(mixres, 0xffff);
    if Fits(MixU(l, r, mixbits, mixres), 17) {
      ExtremePair(m, mixres);
    }
  }

  // The mid channel of one pair fits in 17 bits when q(L - R) + m R is between -2^16 m and 2^16 m.
  lemma MidFitsBounds(l: int, r: int, mixbits: nat, mixres: int8, m: int)
    requires mixres != 0 && m == Pow2(mixbits)
    ensures Fits(MixU(l, r, mixbits, mixres), 17)
            <==> -0x1_0000 * m <= Mul(mixres, l - r) + m * r < 0x1_0000 * m
  {
    ProductSplit(m, mixres, l, r);
    ShrFits17(Mul(mixres, l) + Mul(m - mixres, r), mixbits, m);
  }

  lemma MidFits(l: int16, r: int16, mixbits: nat, mixres: int8, m: int)
    requires mixres != 0 && m == Pow2(mixbits) && -m <= 2 * mixres <= 3 * m
    ensures Fits(MixU(l, r, mixbits, mixres), 17)
  {
    MulIsProduct(mixres, l - r);
    MixBounds(l, r, m, mixres);
    MidFitsBounds(l, r, mixbits, mixres, m);
  }
}
