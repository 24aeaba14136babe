/**
 Fixed-width machine arithmetic over unbounded integers: shifts, two's-complement wrap-around
 and the bitwise operators the codec applies to unsigned words.
 */
module Words {

  type byte = x: int | 0 <= x < 256
  type int16 = x: int | -0x8000 <= x < 0x8000
  type int32 = x: int | -0x8000_0000 <= x < 0x8000_0000
  type uint16 = x: int | 0 <= x < 0x1_0000
  type uint32 = x: int | 0 <= x < 0x1_0000_0000

  const TWO32: int := 0x1_0000_0000
  const TWO64: nat := 0x1_0000_0000_0000_0000

  function Pow2(n: nat): (r: nat)
    ensures r > 0
  {
    if n == 0 then 1 else Pow2(n - 1) + Pow2(n - 1)
  }

  // ---------- shifts of unbounded integers ----------

  // `x << n` before any truncation.
  function Scale(x: int, n: nat): int
    decreases n, x
  {
    if n == 0 then x else Scale(x, n - 1) + Scale(x, n - 1)
  }

  // `x >> n`: the floor of x / 2^n, so arithmetic on negative values.
  function Shr(x: int, n: nat): int
    decreases n, x
  {
    if n == 0 then x else Shr(x / 2, n - 1)
  }

  // The low n bits of x.
  function Low(x: int, n: nat): (r: nat)
    ensures r < Pow2(n)
    decreases n, x
  {
    if n == 0 then 0 else Low(x / 2, n - 1) + Low(x / 2, n - 1) + x % 2
  }

  // Does x fit in a signed field of b bits?
  predicate Fits(x: int, b: nat)
    requires b >= 1
  {
    var half: int := Pow2(b - 1);
    -half <= x < half
  }

  ghost predicate AllFit(xs: seq<int>, b: nat)
    requires b >= 1
  {
    forall i :: 0 <= i < |xs| ==> Fits(xs[i], b)
  }

  // ---------- registers ----------

  function Wrap32(x: int): int32 {
    (x + 0x8000_0000) % TWO32 - 0x8000_0000
  }

  function Wrap16(x: int): int16 {
    (x + 0x8000) % 0x1_0000 - 0x8000
  }

  function U32(x: int): uint32 {
    x % TWO32
  }

  // ---------- bytes ----------

  // The low bytes of a value, most significant first.
  function Be16(v: int): (b: seq<byte>)
    ensures |b| == 2
  {
    [v / 256 % 256, v % 256]
  }

  function Be32(v: int): (b: seq<byte>)
    ensures |b| == 4
  {
    [v / 0x100_0000 % 256, v / 0x1_0000 % 256, v / 256 % 256, v % 256]
  }

  // ---------- bitwise operators ----------

  function BitOr(x: nat, y: nat): (r: nat)
  {
    if x == 0 then y
    else if y == 0 then x
    else BitOr(x / 2, y / 2) + BitOr(x / 2, y / 2) + (if x % 2 == 1 || y % 2 == 1 then 1 else 0)
  }

  function BitAnd(x: nat, y: nat): (r: nat)
  {
    if x == 0 || y == 0 then 0
    else BitAnd(x / 2, y / 2) + BitAnd(x / 2, y / 2) + (if x % 2 == 1 && y % 2 == 1 then 1 else 0)
  }

  // `~x` on a byte.
  function NotByte(x: byte): byte {
    255 - x
  }

  // `~x` on a 32-bit word.
  function Not32(x: uint32): uint32 {
    TWO32 - 1 - x
  }

  // Bit j of x, counted from the least significant end.
  function BitAt(x: int, j: nat): int {
    Shr(x, j) % 2
  }

  // ---------- the shifts are multiplication, division and remainder ----------

  lemma {:induction false} ShiftsAreArithmetic(x: int, n: nat)
    ensures Scale(x, n) == x * Pow2(n)
    ensures Shr(x, n) == x / Pow2(n)
    ensures Low(x, n) == x % Pow2(n)
  {
    ScaleIsProduct(x, n);
    ScaleIsProduct(Shr(x, n), n);
    Recompose(x, n);
    DivModUnique(x, Pow2(n), Shr(x, n), Low(x, n));
  }

  lemma {:induction false} ScaleIsProduct(x: int, n: nat)
    ensures Scale(x, n) == x * Pow2(n)
  {
    if n > 0 {
      ScaleIsProduct(x, n - 1);
    }
  }

  lemma MulAtLeast(q: int, d: int)
    requires d > 0 && q >= 1
    ensures q * d >= d
  {
    assert (q - 1) * d >= 0;
  }

  lemma DivModUnique(x: int, d: int, q: int, r: int)
    requires d > 0 && 0 <= r < d && x == q * d + r
    ensures x / d == q && x % d == r
  {
    var q', r' := x / d, x % d;
    assert x == d * q' + r' && 0 <= r' < d;
    assert (q - q') * d == r' - r;
    assert (q' - q) * d == r - r';
    if q > q' {
      MulAtLeast(q - q', d);
      assert false;
    } else if q < q' {
      MulAtLeast(q' - q, d);
      assert false;
    }
  }

  // The product a * m as a sum of a terms.
  function Times(a: nat, m: int): int {
    if a == 0 then 0 else Times(a - 1, m) + m
  }

  lemma {:induction false} TimesIsProduct(a: nat, m: int)
    ensures Times(a, m) == a * m
  {
    if a > 0 {
      TimesIsProduct(a - 1, m);
      assert a * m == (a - 1) * m + m;
    }
  }

  lemma {:induction false} TimesNat(a: nat, m: nat)
    ensures Times(a, m) >= 0
  {
    if a > 0 {
      TimesNat(a - 1, m);
    }
  }

  // The signed product c * d.
  function Mul(c: int, d: int): int {
    if c < 0 then -Times(-c, d) else Times(c, d)
  }

  lemma MulIsProduct(c: int, d: int)
    ensures Mul(c, d) == c * d
  {
    if c < 0 {
      TimesIsProduct(-c, d);
      assert c * d == -((-c) * d);
    } else {
      TimesIsProduct(c, d);
    }
  }

  // ---------- shift lemmas ----------

  lemma {:induction false} Pow2Mono(a: nat, b: nat)
    requires a <= b
    ensures Pow2(a) <= Pow2(b)
  {
    if a < b {
      Pow2Mono(a, b - 1);
    }
  }

  lemma Pow2Values()
    ensures Pow2(0) == 1 && Pow2(1) == 2 && Pow2(7) == 128 && Pow2(8) == 256 && Pow2(9) == 512
    ensures Pow2(14) == 16384 && Pow2(15) == 0x8000 && Pow2(16) == 0x1_0000 && Pow2(17) == 0x2_0000
    ensures Pow2(23) == 0x80_0000 && Pow2(24) == 0x100_0000 && Pow2(25) == 0x200_0000
    ensures Pow2(31) == 0x8000_0000 && Pow2(32) == TWO32
  {
  }

  lemma {:induction false} ScalePow2(a: nat, n: nat)
    ensures Scale(Pow2(a), n) == Pow2(a + n)
  {
    if n > 0 {
      ScalePow2(a, n - 1);
    }
  }

  lemma {:induction false} ScaleAdd(x: int, y: int, n: nat)
    ensures Scale(x + y, n) == Scale(x, n) + Scale(y, n)
  {
    if n > 0 {
      ScaleAdd(x, y, n - 1);
    }
  }

  lemma {:induction false} ScaleScale(x: int, a: nat, b: nat)
    ensures Scale(Scale(x, a), b) == Scale(x, a + b)
  {
    if b > 0 {
      ScaleScale(x, a, b - 1);
    }
  }

  lemma {:induction false} ShrShr(x: int, a: nat, b: nat)
    ensures Shr(Shr(x, a), b) == Shr(x, a + b)
    decreases a
  {
    if a > 0 {
      ShrShr(x / 2, a - 1, b);
    }
  }

  // Scaling keeps strict order with room to spare.
  lemma {:induction false} ScaleMono(x: int, y: int, n: nat)
    requires x <= y
    ensures Scale(x, n) <= Scale(y, n)
  {
    if n > 0 {
      ScaleMono(x, y, n - 1);
    }
  }

  lemma {:induction false} ScaleZero(n: nat)
    ensures Scale(0, n) == 0
  {
    if n > 0 {
      ScaleZero(n - 1);
    }
  }

  lemma {:induction false} SplitUnique(h: int, t: int, n: nat)
    requires 0 <= t < Pow2(n)
    ensures Shr(Scale(h, n) + t, n) == h
    ensures Low(Scale(h, n) + t, n) == t
    decreases n
  {
    if n > 0 {
      SplitUnique(h, t / 2, n - 1);
      assert (Scale(h, n) + t) / 2 == Scale(h, n - 1) + t / 2;
    }
  }

  lemma {:induction false} ShrNat(x: nat, n: nat)
    ensures 0 <= Shr(x, n) <= x
  {
    if n > 0 {
      ShrNat(x / 2, n - 1);
    }
  }

  lemma ShrScale(h: int, n: nat)
    ensures Shr(Scale(h, n), n) == h
  {
    SplitUnique(h, 0, n);
  }

  lemma LowOfSmall(t: nat, n: nat)
    requires t < Pow2(n)
    ensures Low(t, n) == t && Shr(t, n) == 0
  {
    ScaleZero(n);
    SplitUnique(0, t, n);
  }

  lemma {:induction false} Recompose(x: int, n: nat)
    ensures x == Scale(Shr(x, n), n) + Low(x, n)
    decreases n
  {
    if n > 0 {
      Recompose(x / 2, n - 1);
    }
  }

  lemma {:induction false} LowShift(x: int, k: int, n: nat)
    ensures Low(x + Scale(k, n), n) == Low(x, n)
    decreases n
  {
    if n > 0 {
      LowShift(x / 2, k, n - 1);
      assert (x + Scale(k, n)) / 2 == x / 2 + Scale(k, n - 1);
      assert (x + Scale(k, n)) % 2 == x % 2;
    }
  }

  lemma {:induction false} LowOfScaled(y: int, n: nat, b: nat)
    ensures Low(Scale(y, n), n + b) == Scale(Low(y, b), n)
    decreases n
  {
    if n > 0 {
      LowOfScaled(y, n - 1, b);
      assert Scale(y, n) / 2 == Scale(y, n - 1);
    }
  }

  // The low bits of a register of width n whose modulus is m.
  lemma LowIsMod(x: int, n: nat, m: int)
    requires m == Pow2(n)
    ensures Low(x, n) == x % m
  {
    ShiftsAreArithmetic(x, n);
  }

  // ---------- wrap-around lemmas ----------

  lemma ModShift(x: int, k: int)
    ensures (x + k * TWO32) % TWO32 == x % TWO32
  {
  }

  lemma Wrap32Shift(x: int, k: int)
    ensures Wrap32(x + k * TWO32) == Wrap32(x)
  {
    ModShift(x + 0x8000_0000, k);
  }

  // A wrapped value differs from the true one by a multiple of 2^32.
  lemma Wrap32Residue(x: int) returns (k: int)
    ensures Wrap32(x) == x + k * TWO32
  {
    k := -((x + 0x8000_0000) / TWO32);
  }

  lemma Wrap32Add(x: int, y: int)
    ensures Wrap32(Wrap32(x) + y) == Wrap32(x + y)
  {
    var k := Wrap32Residue(x);
    Wrap32Shift(x + y, k);
  }

  lemma Wrap32Mul(c: int, x: int)
    ensures Wrap32(c * Wrap32(x)) == Wrap32(c * x)
  {
    var k := Wrap32Residue(x);
    assert c * (x + k * TWO32) == c * x + (c * k) * TWO32;
    Wrap32Shift(c * x, c * k);
  }

  // ---------- sign extension ----------

  // Reduction modulo 2^b into the signed range of b bits.
  function SignExtend(x: int, b: nat): (r: int32)
    requires 1 <= b <= 32
    ensures Fits(r, b)
  {
    Pow2Mono(b - 1, 31);
    Pow2Values();
    Low(x + Pow2(b - 1), b) - Pow2(b - 1)
  }

  // The pair of shifts `(x << (32 - b)) >> (32 - b)` in a 32-bit signed register.
  function ShiftPair(x: int, b: nat): int
    requires b <= 32
  {
    Shr(Wrap32(Scale(x, 32 - b)), 32 - b)
  }

  lemma WrapOfScaled(x: int, n: nat)
    requires n < 32
    ensures Wrap32(Scale(x, n)) == Scale(Low(x + Pow2(31 - n), 32 - n) - Pow2(31 - n), n)
  {
    var h := Pow2(31 - n);
    HalfScaled(n);
    ScaleAdd(x, h, n);
    var low: int := Low(x + h, 32 - n);
    ScaledMod(x + h, n, 32 - n, Scale(x + h, n));
    ScaleAdd(low - h, h, n);
  }

  lemma HalfScaled(n: nat)
    requires n < 32
    ensures Scale(Pow2(31 - n), n) == 0x8000_0000
  {
    ScalePow2(31 - n, n);
    Pow2Values();
  }

  lemma ScaledMod(z: int, n: nat, b: nat, y: int)
    requires n + b == 32 && y == Scale(z, n)
    ensures y % TWO32 == Scale(Low(z, b), n)
  {
    var width := n + b;
    Pow2Values();
    LowIsMod(y, width, TWO32);
    LowOfScaled(z, n, b);
  }

  lemma ShiftPairExtends(x: int, b: nat)
    requires 1 <= b <= 32
    ensures ShiftPair(x, b) == SignExtend(x, b)
  {
    WrapOfScaled(x, 32 - b);
    ShrScale(Low(x + Pow2(b - 1), b) - Pow2(b - 1), 32 - b);
  }

  lemma SignExtendId(x: int, b: nat)
    requires 1 <= b <= 32 && Fits(x, b)
    ensures SignExtend(x, b) == x
  {
    LowOfSmall(x + Pow2(b - 1), b);
  }

  lemma SignExtendShift(x: int, k: int, b: nat)
    requires 1 <= b <= 32
    ensures SignExtend(x + Scale(k, b), b) == SignExtend(x, b)
  {
    assert x + Scale(k, b) + Pow2(b - 1) == x + Pow2(b - 1) + Scale(k, b);
    LowShift(x + Pow2(b - 1), k, b);
  }

  // Reducing a term first, to b bits or to 32, does not change the reduced sum.
  lemma SignExtendAdd(x: int, y: int, b: nat)
    requires 1 <= b <= 32
    ensures SignExtend(SignExtend(x, b) + y, b) == SignExtend(x + y, b)
  {
    var k := Shr(x + Pow2(b - 1), b);
    Recompose(x + Pow2(b - 1), b);
    ScaleAdd(k, -k, b);
    ScaleZero(b);
    SignExtendShift(x + y, -k, b);
  }

  lemma SignExtendWrap(x: int, b: nat)
    requires 1 <= b <= 32
    ensures SignExtend(Wrap32(x), b) == SignExtend(x, b)
  {
    var k := Wrap32Residue(x);
    ScaleScale(k, 32 - b, b);
    ScaleIsProduct(k, 32);
    Pow2Values();
    SignExtendShift(x, Scale(k, 32 - b), b);
  }

  // ---------- bitwise lemmas ----------

  lemma {:induction false} BitOrDisjoint(x: nat, y: nat, k: nat)
    requires y < Pow2(k)
    ensures Scale(x, k) >= 0 && BitOr(Scale(x, k), y) == Scale(x, k) + y
  {
    ScaleZero(k);
    ScaleMono(0, x, k);
    if k > 0 {
      ScaleZero(k - 1);
      ScaleMono(0, x, k - 1);
      BitOrDisjoint(x, y / 2, k - 1);
    }
  }

  lemma {:induction false} BitAndMask(x: nat, k: nat)
    ensures BitAnd(x, Pow2(k) - 1) == Low(x, k)
    decreases k
  {
    if k > 0 {
      BitAndMask(x / 2, k - 1);
      if x == 0 {
        LowOfSmall(0, k);
      }
    }
  }

  lemma {:induction false} BitAtZero(j: nat)
    ensures BitAt(0, j) == 0
  {
    if j > 0 {
      BitAtZero(j - 1);
    }
  }

  lemma {:induction false} BitOrBit(x: nat, y: nat, j: nat)
    ensures BitAt(BitOr(x, y), j) == if BitAt(x, j) == 1 || BitAt(y, j) == 1 then 1 else 0
    decreases j
  {
    BitAtZero(j);
    if j > 0 {
      BitOrBit(x / 2, y / 2, j - 1);
    }
  }

  lemma {:induction false} BitAndBit(x: nat, y: nat, j: nat)
    ensures BitAt(BitAnd(x, y), j) == if BitAt(x, j) == 1 && BitAt(y, j) == 1 then 1 else 0
    decreases j
  {
    BitAtZero(j);
    if j > 0 {
      BitAndBit(x / 2, y / 2, j - 1);
    }
  }

  lemma {:induction false} BitAtScaled(x: int, s: nat, j: nat)
    ensures BitAt(Scale(x, s), j) == if j >= s then BitAt(x, j - s) else 0
    decreases s
  {
    if s > 0 && j > 0 {
      BitAtScaled(x, s - 1, j - 1);
      assert Scale(x, s) / 2 == Scale(x, s - 1);
    }
  }

  lemma {:induction false} BitAtLow(x: int, k: nat, j: nat)
    ensures BitAt(Low(x, k), j) == if j < k then BitAt(x, j) else 0
    decreases k
  {
    BitAtZero(j);
    if k > 0 && j > 0 {
      BitAtLow(x / 2, k - 1, j - 1);
      assert Low(x, k) / 2 == Low(x / 2, k - 1);
    }
  }

  lemma {:induction false} BitAtOnes(c: nat, j: nat)
    ensures BitAt(Pow2(c) - 1, j) == if j < c then 1 else 0
    decreases c
  {
    BitAtZero(j);
    if c > 0 && j > 0 {
      BitAtOnes(c - 1, j - 1);
      assert (Pow2(c) - 1) / 2 == Pow2(c - 1) - 1;
    }
  }

  lemma {:induction false} BitAtNot(x: nat, n: nat, j: nat)
    requires x < Pow2(n) && j < n
    ensures BitAt(Pow2(n) - 1 - x, j) == 1 - BitAt(x, j)
    decreases n
  {
    if j > 0 {
      BitAtNot(x / 2, n - 1, j - 1);
      assert (Pow2(n) - 1 - x) / 2 == Pow2(n - 1) - 1 - x / 2;
    }
  }

  lemma {:induction false} BitOrBound(x: nat, y: nat, n: nat)
    requires x < Pow2(n) && y < Pow2(n)
    ensures BitOr(x, y) < Pow2(n)
  {
    if n > 0 {
      BitOrBound(x / 2, y / 2, n - 1);
    }
  }

  lemma {:induction false} BitAndBound(x: nat, y: nat)
    ensures BitAnd(x, y) <= y && BitAnd(x, y) <= x
  {
    if x > 0 && y > 0 {
      BitAndBound(x / 2, y / 2);
    }
  }
}
