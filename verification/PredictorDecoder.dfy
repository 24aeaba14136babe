/**
 unpc_block: the predictor as the code runs it, in place over the work buffers, with its copying,
 integrating, 4-tap, 8-tap and general paths, each tied to the one synthesis function.
 */
module PredictorDecoder {
  import opened Words
  import opened Predictor

  // ---------- arithmetic in 32-bit registers ----------

  // `c * d`
  method Multiply(c: int16, d: int32) returns (r: int32)
    ensures r == Wrap32(Mul(c, d))
  {
    MulIsProduct(c, d);
    r := Wrap32(c * d);
  }

  lemma WrapBoth(x: int, y: int)
    ensures Wrap32(Wrap32(x) + Wrap32(y)) == Wrap32(x + y)
    ensures Wrap32(Wrap32(x) - Wrap32(y)) == Wrap32(x - y)
  {
    var i := Wrap32Residue(x);
    var j := Wrap32Residue(y);
    Wrap32Shift(x + y, i + j);
    Wrap32Shift(x - y, i - j);
  }

  lemma MulNeg(c: int, d: int)
    ensures Mul(c, -d) == -Mul(c, d)
  {
    MulIsProduct(c, d);
    MulIsProduct(c, -d);
    assert c * (-d) == -(c * d);
  }

  lemma MulWrap(c: int, x: int)
    ensures Wrap32(Mul(c, Wrap32(x))) == Wrap32(Mul(c, x))
  {
    MulIsProduct(c, Wrap32(x));
    MulIsProduct(c, x);
    Wrap32Mul(c, x);
  }

  // `sum1 += coefs[k] * (pout[-k] - top)` subtracts the product with the opposite difference.
  lemma SumStep(acc: int, c: int, top: int, x: int)
    ensures Wrap32(Wrap32(acc) + Wrap32(Mul(c, Wrap32(x - top)))) == Wrap32(acc - Mul(c, Difference(top, x)))
  {
    var d := top - x;
    assert x - top == -d;
    MulWrap(c, -d);
    MulNeg(c, d);
    WrapBoth(acc, -Mul(c, d));
    NegWrap(c, d);
    WrapBoth(acc, -Mul(c, Wrap32(d)));
    assert Wrap32(Mul(c, Wrap32(-d))) == Wrap32(-Mul(c, Wrap32(d)));
  }

  lemma NegWrap(c: int, d: int)
    ensures Wrap32(-Mul(c, d)) == Wrap32(-Mul(c, Wrap32(d)))
  {
    MulWrap(c, d);
    var i := Wrap32Residue(Mul(c, d));
    var j := Wrap32Residue(Mul(c, Wrap32(d)));
    assert -Mul(c, d) == -Mul(c, Wrap32(d)) + (i - j) * TWO32;
    Wrap32Shift(-Mul(c, Wrap32(d)), i - j);
  }

  // sign_of_int: the sign of i from two shifts
  method SignOfInt(i: int32) returns (r: int)
    ensures r == Sign(i)
  {
    var neg: int := -(i as int);
    var negishift := U32(neg) / 0x8000_0000;
    // an arithmetic shift by 31 leaves 0 or -1, and or-ing with -1 gives -1
    r := if i < 0 then -1 else negishift;
  }

  // ---------- one tap of the adaptation ----------

  // The product of a value with its sign, and the weighted move it causes.
  method TapError(b: int32, sgn: int, sg: int, del0: int32, w: nat, den: nat) returns (r: int32)
    requires (sg > 0 && sgn == Sign(b)) || (sg < 0 && sgn == -Sign(b))
    ensures r == Wrap32(del0 - Times(w, Move(sg, b, den)))
  {
    assert sgn * b == if sg > 0 then Abs(b) else -Abs(b);
    var m := Shr(Wrap32(sgn * b), den);
    TimesIsProduct(w, m);
    r := Wrap32(del0 - w * m);
  }

  lemma AdaptUnfold(c: seq<int16>, d: seq<int32>, sg: int, k: nat, k': nat, w: nat, del: int, den: nat, left: int,
                    a: int16, c': seq<int16>)
    requires k < |c| == |d| && k' == k + 1 && w == |d| - k && left == ErrorLeft(d, sg, k, del, den)
    requires a == Wrap16(if sg > 0 then c[k] - Sign(d[k]) else c[k] + Sign(d[k])) && c' == c[k := a]
    ensures AdaptFrom(c, d, sg, k', del, den)
            == if (sg > 0 && left <= 0) || (sg < 0 && left >= 0) then c' else AdaptFrom(c', d, sg, k, left, den)
  {
  }

  // A tap when the error is positive.
  method TapUp(ghost c: seq<int16>, ghost d: seq<int32>, ghost k: nat, a: int16, b: int32, del0: int32, w: nat,
               den: nat, ghost goal: seq<int16>)
    returns (a': int16, r: int32, ghost c': seq<int16>)
    requires k < |c| == |d| && c[k] == a && d[k] == b && w == |d| - k
    requires goal == AdaptFrom(c, d, 1, k + 1, del0, den)
    ensures c' == c[k := a']
    ensures goal == if r <= 0 then c' else AdaptFrom(c', d, 1, k, r, den)
  {
    var sgn := SignOfInt(b);
    a' := Wrap16(a - sgn);
    r := TapError(b, sgn, 1, del0, w, den);
    c' := c[k := a'];
    AdaptUnfold(c, d, 1, k, k + 1, w, del0, den, r, a', c');
  }

  // A tap when the error is negative; the sign is flipped to avoid negations.
  method TapDown(ghost c: seq<int16>, ghost d: seq<int32>, ghost k: nat, a: int16, b: int32, del0: int32, w: nat,
                 den: nat, ghost goal: seq<int16>)
    returns (a': int16, r: int32, ghost c': seq<int16>)
    requires k < |c| == |d| && c[k] == a && d[k] == b && w == |d| - k
    requires goal == AdaptFrom(c, d, -1, k + 1, del0, den)
    ensures c' == c[k := a']
    ensures goal == if r >= 0 then c' else AdaptFrom(c', d, -1, k, r, den)
  {
    var s := SignOfInt(b);
    var sgn := -s;
    a' := Wrap16(a - sgn);
    r := TapError(b, sgn, -1, del0, w, den);
    c' := c[k := a'];
    AdaptUnfold(c, d, -1, k, k + 1, w, del0, den, r, a', c');
  }

  // ---------- the general path ----------

  lemma DiffAt(out: seq<int32>, n: nat, k: nat, top: int32, x: int32)
    requires k < n < |out| && top == out[|out| - n - 1] && x == out[|out| - 1 - k]
    ensures Diffs(out, n)[k] == Difference(top, x)
  {
  }

  lemma DotStep(coefs: seq<int16>, d: seq<int32>, k: nat)
    requires k < |coefs| && k < |d|
    ensures Dot(coefs, d, k + 1) == Dot(coefs, d, k) + Mul(coefs[k], d[k])
  {
  }

  // The prediction of the general path for index j.
  method PredictGeneral(coefs: array<int16>, out: array<int32>, j: nat, n: nat, den: nat) returns (p: int)
    requires n < j <= out.Length && n <= coefs.Length && 1 <= den <= 15
    ensures p == Predict(coefs[..n], Diffs(out[..j], n), den)
  {
    var top := out[j - n - 1];
    var sum1: int32 := 0;
    ghost var c, d := coefs[..n], Diffs(out[..j], n);
    var k := 0;
    while k < n
      invariant k <= n
      invariant sum1 == Wrap32(-Dot(c, d, k))
    {
      var x: int := out[j - 1 - k];
      var diff: int32 := Wrap32(x - top);
      var product := Multiply(coefs[k], diff);
      DiffAt(out[..j], n, k, top, x);
      DotStep(c, d, k);
      SumStep(-Dot(c, d, k), coefs[k], top, x);
      WrapTwice(-Dot(c, d, k), Mul(coefs[k], diff));
      sum1 := Wrap32(sum1 + product);
      k := k + 1;
    }
    Wrap32Add(-Dot(c, d, n), Pow2(den - 1));
    p := Shr(Wrap32(sum1 + Pow2(den - 1)), den);
  }

  lemma WrapTwice(x: int, y: int)
    ensures Wrap32(Wrap32(x) + Wrap32(y)) == Wrap32(Wrap32(x) + Wrap32(Wrap32(y)))
  {
  }

  // The adaptation loop of the general path for a positive error.
  method AdaptGeneralUp(coefs: array<int16>, out: array<int32>, j: nat, n: nat, del: int32, den: nat,
                        ghost d: seq<int32>)
    requires n < j <= out.Length && n <= coefs.Length && d == Diffs(out[..j], n)
    modifies coefs
    ensures coefs[..n] == AdaptFrom(old(coefs[..n]), d, 1, n, del, den)
    ensures coefs[n..] == old(coefs[n..])
  {
    ghost var goal := AdaptFrom(coefs[..n], d, 1, n, del, den);
    var top := out[j - n - 1];
    var del0, k := del, n;
    ghost var c, rest := coefs[..n], coefs[n..];
    while k > 0
      invariant k <= n && c == coefs[..n]
      invariant goal == AdaptFrom(c, d, 1, k, del0, den)
      invariant coefs[n..] == rest
    {
      k := k - 1;
      var x := out[j - 1 - k];
      var dd := Difference(top, x);
      DiffAt(out[..j], n, k, top, x);
      var a;
      a, del0, c := TapUp(c, d, k, coefs[k], dd, del0, n - k, den, goal);
      coefs[k] := a;
      if del0 <= 0 {
        break;
      }
    }
  }

  // The adaptation loop of the general path for a negative error.
  method AdaptGeneralDown(coefs: array<int16>, out: array<int32>, j: nat, n: nat, del: int32, den: nat,
                          ghost d: seq<int32>)
    requires n < j <= out.Length && n <= coefs.Length && d == Diffs(out[..j], n)
    modifies coefs
    ensures coefs[..n] == AdaptFrom(old(coefs[..n]), d, -1, n, del, den)
    ensures coefs[n..] == old(coefs[n..])
  {
    ghost var goal := AdaptFrom(coefs[..n], d, -1, n, del, den);
    var top := out[j - n - 1];
    var del0, k := del, n;
    ghost var c, rest := coefs[..n], coefs[n..];
    while k > 0
      invariant k <= n && c == coefs[..n]
      invariant goal == AdaptFrom(c, d, -1, k, del0, den)
      invariant coefs[n..] == rest
    {
      k := k - 1;
      var x := out[j - 1 - k];
      var dd := Difference(top, x);
      DiffAt(out[..j], n, k, top, x);
      var a;
      a, del0, c := TapDown(c, d, k, coefs[k], dd, del0, n - k, den, goal);
      coefs[k] := a;
      if del0 >= 0 {
        break;
      }
    }
  }

  // ---------- the unrolled paths ----------

  function DenHalf(den: nat): (r: int32)
    requires 1 <= den <= 15
    ensures r == Pow2(den - 1) == Wrap32(Pow2(den - 1))
  {
    Pow2Mono(den - 1, 15);
    Pow2Values();
    Pow2(den - 1)
  }

  // `- a * b` in the unrolled sum
  method MulSub(ghost c: seq<int16>, ghost d: seq<int32>, ghost k: nat, ghost den: nat, ghost acc: int,
                sum1: int32, a: int16, b: int32)
    returns (r: int32, ghost acc': int)
    requires k < |c| == |d| && c[k] == a && d[k] == b && den >= 1
    requires sum1 == Wrap32(acc) && acc == Pow2(den - 1) - Dot(c, d, k)
    ensures r == Wrap32(acc') && acc' == Pow2(den - 1) - Dot(c, d, k + 1)
  {
    var product := Multiply(a, b);
    acc' := acc - Mul(a, b);
    WrapBoth(acc, Mul(a, b));
    DotStep(c, d, k);
    r := Wrap32(sum1 - product);
  }

  // The rounded prediction of the 4-tap path, unrolled.
  method Predict4(a0: int16, a1: int16, a2: int16, a3: int16,
                  b0: int32, b1: int32, b2: int32, b3: int32, den: nat) returns (p: int)
    requires 1 <= den <= 15
    ensures p == Predict([a0, a1, a2, a3], [b0, b1, b2, b3], den)
  {
    ghost var c: seq<int16>, d: seq<int32> := [a0, a1, a2, a3], [b0, b1, b2, b3];
    var sum1 := DenHalf(den);
    ghost var acc: int := Pow2(den - 1);
    sum1, acc := MulSub(c, d, 0, den, acc, sum1, a0, b0);
    sum1, acc := MulSub(c, d, 1, den, acc, sum1, a1, b1);
    sum1, acc := MulSub(c, d, 2, den, acc, sum1, a2, b2);
    sum1, acc := MulSub(c, d, 3, den, acc, sum1, a3, b3);
    p := Shr(sum1, den);
  }

  // The unrolled adaptation for a positive error, leaving early when the error changes sign.
  method Adapt4Up(a0: int16, a1: int16, a2: int16, a3: int16,
                  b0: int32, b1: int32, b2: int32, b3: int32, del: int32, den: nat)
    returns (r0: int16, r1: int16, r2: int16, r3: int16)
    ensures [r0, r1, r2, r3] == AdaptFrom([a0, a1, a2, a3], [b0, b1, b2, b3], 1, 4, del, den)
  {
    r0, r1, r2, r3 := a0, a1, a2, a3;
    var del0 := del;
    ghost var c: seq<int16>, d: seq<int32> := [a0, a1, a2, a3], [b0, b1, b2, b3];
    ghost var goal := AdaptFrom(c, d, 1, 4, del, den);
    r3, del0, c := TapUp(c, d, 3, r3, b3, del0, 1, den, goal);
    if del0 <= 0 {
      return;
    }
    r2, del0, c := TapUp(c, d, 2, r2, b2, del0, 2, den, goal);
    if del0 <= 0 {
      return;
    }
    r1, del0, c := TapUp(c, d, 1, r1, b1, del0, 3, den, goal);
    if del0 <= 0 {
      return;
    }
    var sgn := SignOfInt(b0);
    r0 := Wrap16(r0 - sgn);
  }

  // The unrolled adaptation for a negative error, leaving early when the error changes sign.
  method Adapt4Down(a0: int16, a1: int16, a2: int16, a3: int16,
                  b0: int32, b1: int32, b2: int32, b3: int32, del: int32, den: nat)
    returns (r0: int16, r1: int16, r2: int16, r3: int16)
    ensures [r0, r1, r2, r3] == AdaptFrom([a0, a1, a2, a3], [b0, b1, b2, b3], -1, 4, del, den)
  {
    r0, r1, r2, r3 := a0, a1, a2, a3;
    var del0 := del;
    ghost var c: seq<int16>, d: seq<int32> := [a0, a1, a2, a3], [b0, b1, b2, b3];
    ghost var goal := AdaptFrom(c, d, -1, 4, del, den);
    r3, del0, c := TapDown(c, d, 3, r3, b3, del0, 1, den, goal);
    if del0 >= 0 {
      return;
    }
    r2, del0, c := TapDown(c, d, 2, r2, b2, del0, 2, den, goal);
    if del0 >= 0 {
      return;
    }
    r1, del0, c := TapDown(c, d, 1, r1, b1, del0, 3, den, goal);
    if del0 >= 0 {
      return;
    }
    var sgn := SignOfInt(b0);
    r0 := Wrap16(r0 + sgn);
  }

  // The rounded prediction of the 8-tap path, unrolled.
  method Predict8(a0: int16, a1: int16, a2: int16, a3: int16, a4: int16, a5: int16, a6: int16, a7: int16,
                  b0: int32, b1: int32, b2: int32, b3: int32, b4: int32, b5: int32, b6: int32, b7: int32, den: nat)
    returns (p: int)
    requires 1 <= den <= 15
    ensures p == Predict([a0, a1, a2, a3, a4, a5, a6, a7], [b0, b1, b2, b3, b4, b5, b6, b7], den)
  {
    ghost var c: seq<int16>, d: seq<int32> := [a0, a1, a2, a3, a4, a5, a6, a7], [b0, b1, b2, b3, b4, b5, b6, b7];
    var sum1 := DenHalf(den);
    ghost var acc: int := Pow2(den - 1);
    sum1, acc := MulSub(c, d, 0, den, acc, sum1, a0, b0);
    sum1, acc := MulSub(c, d, 1, den, acc, sum1, a1, b1);
    sum1, acc := MulSub(c, d, 2, den, acc, sum1, a2, b2);
    sum1, acc := MulSub(c, d, 3, den, acc, sum1, a3, b3);
    sum1, acc := MulSub(c, d, 4, den, acc, sum1, a4, b4);
    sum1, acc := MulSub(c, d, 5, den, acc, sum1, a5, b5);
    sum1, acc := MulSub(c, d, 6, den, acc, sum1, a6, b6);
    sum1, acc := MulSub(c, d, 7, den, acc, sum1, a7, b7);
    p := Shr(sum1, den);
  }

  // The first four taps of the unrolled 8-tap adaptation for a positive error.
  method Adapt8UpFirst(a4: int16, a5: int16, a6: int16, a7: int16,
                    b4: int32, b5: int32, b6: int32, b7: int32, del: int32, den: nat,
                       ghost c0: seq<int16>, ghost d: seq<int32>,
                    ghost goal: seq<int16>)
    returns (r4: int16, r5: int16, r6: int16, r7: int16, del0: int32, done: bool, ghost c: seq<int16>)
    requires |c0| == |d| == 8 && c0[4..] == [a4, a5, a6, a7] && d[4..] == [b4, b5, b6, b7]
    requires goal == AdaptFrom(c0, d, 1, 8, del, den)
    ensures c == c0[..4] + [r4, r5, r6, r7]
    ensures goal == if done then c else AdaptFrom(c, d, 1, 4, del0, den)
  {
    r4, r5, r6, r7, del0, done, c := a4, a5, a6, a7, del, true, c0;
    assert c0[4] == a4 && c0[5] == a5 && c0[6] == a6 && c0[7] == a7;
    assert d[4] == b4 && d[5] == b5 && d[6] == b6 && d[7] == b7;
    r7, del0, c := TapUp(c, d, 7, r7, b7, del0, 1, den, goal);
    if del0 <= 0 {
      return;
    }
    r6, del0, c := TapUp(c, d, 6, r6, b6, del0, 2, den, goal);
    if del0 <= 0 {
      return;
    }
    r5, del0, c := TapUp(c, d, 5, r5, b5, del0, 3, den, goal);
    if del0 <= 0 {
      return;
    }
    r4, del0, c := TapUp(c, d, 4, r4, b4, del0, 4, den, goal);
    done := del0 <= 0;
  }

  // The last four taps.
  method Adapt8UpLast(a0: int16, a1: int16, a2: int16, a3: int16,
                   b0: int32, b1: int32, b2: int32, b3: int32, del: int32, den: nat,
                      ghost c0: seq<int16>, ghost d: seq<int32>,
                   ghost goal: seq<int16>)
    returns (r0: int16, r1: int16, r2: int16, r3: int16)
    requires |c0| == |d| == 8 && c0[..4] == [a0, a1, a2, a3] && d[..4] == [b0, b1, b2, b3]
    requires goal == AdaptFrom(c0, d, 1, 4, del, den)
    ensures goal == [r0, r1, r2, r3] + c0[4..]
  {
    r0, r1, r2, r3 := a0, a1, a2, a3;
    var del0 := del;
    ghost var c := c0;
    assert c0[0] == a0 && c0[1] == a1 && c0[2] == a2 && c0[3] == a3;
    assert d[0] == b0 && d[1] == b1 && d[2] == b2 && d[3] == b3;
    r3, del0, c := TapUp(c, d, 3, r3, b3, del0, 5, den, goal);
    if del0 <= 0 {
      return;
    }
    r2, del0, c := TapUp(c, d, 2, r2, b2, del0, 6, den, goal);
    if del0 <= 0 {
      return;
    }
    r1, del0, c := TapUp(c, d, 1, r1, b1, del0, 7, den, goal);
    if del0 <= 0 {
      return;
    }
    var sgn := SignOfInt(b0);
    r0 := Wrap16(r0 - sgn);
  }

  // The unrolled adaptation for a positive error, leaving early when the error changes sign.
  method Adapt8Up(a0: int16, a1: int16, a2: int16, a3: int16, a4: int16, a5: int16, a6: int16, a7: int16,
                  b0: int32, b1: int32, b2: int32, b3: int32, b4: int32, b5: int32, b6: int32, b7: int32,
                  del: int32, den: nat)
    returns (r0: int16, r1: int16, r2: int16, r3: int16, r4: int16, r5: int16, r6: int16, r7: int16)
    ensures [r0, r1, r2, r3, r4, r5, r6, r7]
            == AdaptFrom([a0, a1, a2, a3, a4, a5, a6, a7], [b0, b1, b2, b3, b4, b5, b6, b7], 1, 8, del, den)
  {
    ghost var c: seq<int16>, d: seq<int32> := [a0, a1, a2, a3, a4, a5, a6, a7], [b0, b1, b2, b3, b4, b5, b6, b7];
    ghost var goal := AdaptFrom(c, d, 1, 8, del, den);
    r0, r1, r2, r3 := a0, a1, a2, a3;
    var del0, done;
    r4, r5, r6, r7, del0, done, c := Adapt8UpFirst(a4, a5, a6, a7, b4, b5, b6, b7, del, den, c, d, goal);
    if !done {
      r0, r1, r2, r3 := Adapt8UpLast(a0, a1, a2, a3, b0, b1, b2, b3, del0, den, c, d, goal);
    }
  }

  // The first four taps of the unrolled 8-tap adaptation for a negative error.
  method Adapt8DownFirst(a4: int16, a5: int16, a6: int16, a7: int16,
                    b4: int32, b5: int32, b6: int32, b7: int32, del: int32, den: nat,
                         ghost c0: seq<int16>, ghost d: seq<int32>,
                    ghost goal: seq<int16>)
    returns (r4: int16, r5: int16, r6: int16, r7: int16, del0: int32, done: bool, ghost c: seq<int16>)
    requires |c0| == |d| == 8 && c0[4..] == [a4, a5, a6, a7] && d[4..] == [b4, b5, b6, b7]
    requires goal == AdaptFrom(c0, d, -1, 8, del, den)
    ensures c == c0[..4] + [r4, r5, r6, r7]
    ensures goal == if done then c else AdaptFrom(c, d, -1, 4, del0, den)
  {
    r4, r5, r6, r7, del0, done, c := a4, a5, a6, a7, del, true, c0;
    assert c0[4] == a4 && c0[5] == a5 && c0[6] == a6 && c0[7] == a7;
    assert d[4] == b4 && d[5] == b5 && d[6] == b6 && d[7] == b7;
    r7, del0, c := TapDown(c, d, 7, r7, b7, del0, 1, den, goal);
    if del0 >= 0 {
      return;
    }
    r6, del0, c := TapDown(c, d, 6, r6, b6, del0, 2, den, goal);
    if del0 >= 0 {
      return;
    }
    r5, del0, c := TapDown(c, d, 5, r5, b5, del0, 3, den, goal);
    if del0 >= 0 {
      return;
    }
    r4, del0, c := TapDown(c, d, 4, r4, b4, del0, 4, den, goal);
    done := del0 >= 0;
  }

  // The last four taps.
  method Adapt8DownLast(a0: int16, a1: int16, a2: int16, a3: int16,
                   b0: int32, b1: int32, b2: int32, b3: int32, del: int32, den: nat,
                        ghost c0: seq<int16>, ghost d: seq<int32>,
                   ghost goal: seq<int16>)
    returns (r0: int16, r1: int16, r2: int16, r3: int16)
    requires |c0| == |d| == 8 && c0[..4] == [a0, a1, a2, a3] && d[..4] == [b0, b1, b2, b3]
    requires goal == AdaptFrom(c0, d, -1, 4, del, den)
    ensures goal == [r0, r1, r2, r3] + c0[4..]
  {
    r0, r1, r2, r3 := a0, a1, a2, a3;
    var del0 := del;
    ghost var c := c0;
    assert c0[0] == a0 && c0[1] == a1 && c0[2] == a2 && c0[3] == a3;
    assert d[0] == b0 && d[1] == b1 && d[2] == b2 && d[3] == b3;
    r3, del0, c := TapDown(c, d, 3, r3, b3, del0, 5, den, goal);
    if del0 >= 0 {
      return;
    }
    r2, del0, c := TapDown(c, d, 2, r2, b2, del0, 6, den, goal);
    if del0 >= 0 {
      return;
    }
    r1, del0, c := TapDown(c, d, 1, r1, b1, del0, 7, den, goal);
    if del0 >= 0 {
      return;
    }
    var sgn := SignOfInt(b0);
    r0 := Wrap16(r0 + sgn);
  }

  // The unrolled adaptation for a negative error, leaving early when the error changes sign.
  method Adapt8Down(a0: int16, a1: int16, a2: int16, a3: int16, a4: int16, a5: int16, a6: int16, a7: int16,
                  b0: int32, b1: int32, b2: int32, b3: int32, b4: int32, b5: int32, b6: int32, b7: int32,
                    del: int32, den: nat)
    returns (r0: int16, r1: int16, r2: int16, r3: int16, r4: int16, r5: int16, r6: int16, r7: int16)
    ensures [r0, r1, r2, r3, r4, r5, r6, r7]
            == AdaptFrom([a0, a1, a2, a3, a4, a5, a6, a7], [b0, b1, b2, b3, b4, b5, b6, b7], -1, 8, del, den)
  {
    ghost var c: seq<int16>, d: seq<int32> := [a0, a1, a2, a3, a4, a5, a6, a7], [b0, b1, b2, b3, b4, b5, b6, b7];
    ghost var goal := AdaptFrom(c, d, -1, 8, del, den);
    r0, r1, r2, r3 := a0, a1, a2, a3;
    var del0, done;
    r4, r5, r6, r7, del0, done, c := Adapt8DownFirst(a4, a5, a6, a7, b4, b5, b6, b7, del, den, c, d, goal);
    if !done {
      r0, r1, r2, r3 := Adapt8DownLast(a0, a1, a2, a3, b0, b1, b2, b3, del0, den, c, d, goal);
    }
  }
}
