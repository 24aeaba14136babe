/**
 What one step of the predictor does to the sample and to the taps, written out over the samples before it and apart
 from the functions the decoder and its inverse share; and that every run of the synthesis consists of such steps.
 */
module PredictorSteps {
  import opened Words
  import opened Predictor
  import opened PredictorDecoder

  // ---------- the sample ----------

  // The taps' weighted sum over the k most recent samples, relative to the one |cs| + 1 back.
  function Weighted(cs: seq<int16>, out: seq<int32>, k: nat): int
    requires k <= |cs| < |out|
  {
    if k == 0 then 0
    else
      var top: int, x: int := out[|out| - |cs| - 1], out[|out| - k];
      Weighted(cs, out, k - 1) + cs[k - 1] * (x - top)
  }

  // The whole sum and one half of the scale, as 32 bits hold them.
  function Rounded(cs: seq<int16>, out: seq<int32>, den: nat): int32
    requires |cs| < |out| && 1 <= den
  {
    Wrap32(Pow2(den - 1) + Weighted(cs, out, |cs|))
  }

  // q is x / 2^den, rounded down.
  ghost predicate Floor(q: int, x: int, den: nat) {
    Pow2(den) * q <= x < Pow2(den) * (q + 1)
  }

  // The sample behind out: the residual, the oldest sample looked at, and the rounded weighted sum.
  ghost predicate Predicted(x: int32, cs: seq<int16>, out: seq<int32>, den: nat, bits: nat, y: int32)
    requires |cs| < |out| && 1 <= den && 1 <= bits <= 32
  {
    var top: int := out[|out| - |cs| - 1];
    exists q :: Floor(q, Rounded(cs, out, den), den) && y == SignExtend(x + top + q, bits)
  }

  // ---------- the taps ----------

  // How the sample n + 1 back differs from the one tap k looks at.
  function Gap(out: seq<int32>, n: nat, k: nat): int32
    requires k < n < |out|
  {
    var top: int, x: int := out[|out| - n - 1], out[|out| - 1 - k];
    Wrap32(top - x)
  }

  // What tap k takes off an error of sign sg, for every step of its weight n - k.
  function Part(out: seq<int32>, n: nat, sg: int, den: nat, k: nat): int
    requires k < n < |out|
  {
    Wrap32(sg * Sign(Gap(out, n, k)) * Gap(out, n, k)) / Pow2(den)
  }

  // What the taps from the last down to tap k take off together.
  function Spent(out: seq<int32>, n: nat, sg: int, den: nat, k: nat): int
    requires k <= n < |out|
    decreases n - k
  {
    if k == n then 0 else Spent(out, n, sg, den, k + 1) + (n - k) * Part(out, n, sg, den, k)
  }

  // The error left behind tap k.
  function Left(x: int32, out: seq<int32>, n: nat, den: nat, k: nat): int32
    requires k <= n < |out|
  {
    Wrap32(x - Spent(out, n, Sign(x), den, k))
  }

  // The taps from `stop` on have moved by one, against the sign of their gap when the residual is positive and with it
  // when it is negative; `stop` is the last tap behind which the error is gone or has changed sign, or the first tap.
  ghost predicate Stopped(x: int32, cs: seq<int16>, out: seq<int32>, den: nat, stop: nat, cs': seq<int16>)
    requires |cs| < |out|
  {
    && stop < |cs| == |cs'|
    && (forall k :: 0 <= k < stop ==> cs'[k] == cs[k])
    && (forall k :: stop <= k < |cs| ==> cs'[k] == Wrap16(cs[k] - Sign(x) * Sign(Gap(out, |cs|, k))))
    && (forall k :: stop < k < |cs| ==> Sign(Left(x, out, |cs|, den, k)) == Sign(x))
    && (stop > 0 ==> Sign(Left(x, out, |cs|, den, stop)) != Sign(x))
  }

  ghost predicate Adapted(x: int32, cs: seq<int16>, out: seq<int32>, den: nat, cs': seq<int16>)
    requires |cs| < |out|
  {
    if x == 0 then cs' == cs else exists stop :: Stopped(x, cs, out, den, stop, cs')
  }

  // ---------- one step, and a run of them ----------

  // From residual x, behind the samples out: 0 taps copy, 31 add to the sample before, and so do fewer until there are
  // samples enough.
  ghost predicate Step(C: Config, x: int32, out: seq<int32>, cs: seq<int16>, y: int32, cs': seq<int16>)
    requires C.Valid() && |cs| == C.n
  {
    if C.n == 0 || out == [] then y == x && cs' == cs
    else if C.n == 31 || |out| <= C.n then y == SignExtend(x + out[|out| - 1], C.bits) && cs' == cs
    else Predicted(x, cs, out, C.den, C.bits, y) && Adapted(x, cs, out, C.den, cs')
  }

  // All samples, with the taps before each of them and behind the last.
  ghost predicate Run(C: Config, pc: seq<int32>, out: seq<int32>, taps: seq<seq<int16>>)
    requires C.Valid()
  {
    && |out| == |pc| && |taps| == |pc| + 1
    && (forall j :: 0 <= j <= |pc| ==> |taps[j]| == C.n)
    && (forall j :: 0 <= j < |pc| ==> Step(C, pc[j], out[..j], taps[j], out[j], taps[j + 1]))
  }

  // Some run from the given taps to the given taps.
  ghost predicate Runs(C: Config, pc: seq<int32>, cs: seq<int16>, out: seq<int32>, cs': seq<int16>)
    requires C.Valid()
  {
    exists taps :: Run(C, pc, out, taps) && taps[0] == cs && taps[|pc|] == cs'
  }

  // ---------- a step is determined by its residual ----------

  lemma FloorUnique(q: int, r: int, x: int, den: nat)
    requires Floor(q, x, den) && Floor(r, x, den)
    ensures q == r
  {
    var m := Pow2(den);
    if q < r {
      assert m * (q + 1) <= m * r by { MulMono(m, q + 1, r); }
    } else if r < q {
      assert m * (r + 1) <= m * q by { MulMono(m, r + 1, q); }
    }
  }

  lemma MulMono(m: nat, a: int, b: int)
    requires a <= b
    ensures m * a <= m * b
  {
    assert m * (b - a) >= 0;
  }

  lemma StoppedUnique(x: int32, cs: seq<int16>, out: seq<int32>, den: nat, s: nat, t: nat, a: seq<int16>,
                      b: seq<int16>)
    requires |cs| < |out| && Stopped(x, cs, out, den, s, a) && Stopped(x, cs, out, den, t, b)
    ensures a == b
  {
    assert s == t;
    assert forall k :: 0 <= k < |cs| ==> a[k] == b[k];
  }

  lemma StepUnique(C: Config, x: int32, out: seq<int32>, cs: seq<int16>, y: int32, y': int32, a: seq<int16>,
                   b: seq<int16>)
    requires C.Valid() && |cs| == C.n && Step(C, x, out, cs, y, a) && Step(C, x, out, cs, y', b)
    ensures y == y' && a == b
  {
    if C.n != 0 && out != [] && C.n != 31 && |out| > C.n {
      PredictedUnique(x, cs, out, C.den, C.bits, y, y');
      if x != 0 {
        var s :| Stopped(x, cs, out, C.den, s, a);
        var t :| Stopped(x, cs, out, C.den, t, b);
        StoppedUnique(x, cs, out, C.den, s, t, a, b);
      }
    }
  }

  lemma PredictedUnique(x: int32, cs: seq<int16>, out: seq<int32>, den: nat, bits: nat, y: int32, y': int32)
    requires |cs| < |out| && 1 <= den && 1 <= bits <= 32
    requires Predicted(x, cs, out, den, bits, y) && Predicted(x, cs, out, den, bits, y')
    ensures y == y'
  {
    var top: int := out[|out| - |cs| - 1];
    var q :| Floor(q, Rounded(cs, out, den), den) && y == SignExtend(x + top + q, bits);
    var r :| Floor(r, Rounded(cs, out, den), den) && y' == SignExtend(x + top + r, bits);
    FloorUnique(q, r, Rounded(cs, out, den), den);
  }

  // There is one run from given taps.
  lemma {:induction false} RunUnique(C: Config, pc: seq<int32>, out: seq<int32>, out': seq<int32>,
                                     a: seq<seq<int16>>, b: seq<seq<int16>>, j: nat)
    requires C.Valid() && Run(C, pc, out, a) && Run(C, pc, out', b) && a[0] == b[0] && j <= |pc|
    ensures out[..j] == out'[..j] && a[j] == b[j]
    decreases j
  {
    if j > 0 {
      var i := j - 1;
      RunUnique(C, pc, out, out', a, b, i);
      StepUnique(C, pc[i], out[..i], a[i], out[i], out'[i], a[i + 1], b[i + 1]);
      assert out[..j] == out[..i] + [out[i]] && out'[..j] == out'[..i] + [out'[i]];
    }
  }

  // ---------- the synthesis takes these steps ----------

  lemma {:induction false} DotIsWeighted(cs: seq<int16>, out: seq<int32>, k: nat, h: int)
    requires k <= |cs| < |out|
    ensures Wrap32(h - Dot(cs, Diffs(out, |cs|), k)) == Wrap32(h + Weighted(cs, out, k))
    decreases k
  {
    if k > 0 {
      var i, d := k - 1, Diffs(out, |cs|);
      var top: int, x: int := out[|out| - |cs| - 1], out[|out| - k];
      DotIsWeighted(cs, out, i, h);
      DotStep(cs, d, i);
      GapIsDiff(out, |cs|, i);
      TermWraps(h - Dot(cs, d, i), h + Weighted(cs, out, i), cs[i], top, x, d[i]);
      WeightedStep(cs, out, k, top, x);
    }
  }

  lemma WeightedStep(cs: seq<int16>, out: seq<int32>, k: nat, top: int, x: int)
    requires 0 < k <= |cs| < |out| && top == out[|out| - |cs| - 1] && x == out[|out| - k]
    ensures Weighted(cs, out, k) == Weighted(cs, out, k - 1) + cs[k - 1] * (x - top)
  {
  }

  // One term on both sides.
  lemma TermWraps(a: int, b: int, c: int, top: int, x: int, d: int)
    requires Wrap32(a) == Wrap32(b) && d == Wrap32(top - x)
    ensures Wrap32(a - Mul(c, d)) == Wrap32(b + c * (x - top))
  {
    NegWrap(c, top - x);
    MulIsProduct(c, top - x);
    assert c * (x - top) == -(c * (top - x));
    WrapBoth(a, -Mul(c, d));
    WrapBoth(b, -Mul(c, top - x));
  }

  lemma ShrFloors(x: int, den: nat)
    ensures Floor(Shr(x, den), x, den)
  {
    ShiftsAreArithmetic(x, den);
    QuotientFloors(x, Pow2(den), x / Pow2(den));
  }

  lemma QuotientFloors(x: int, m: int, q: int)
    requires m > 0 && q == x / m
    ensures m * q <= x < m * (q + 1)
  {
    assert x == m * q + x % m;
    assert m * (q + 1) == m * q + m;
  }

  lemma PredictFloors(cs: seq<int16>, out: seq<int32>, den: nat)
    requires |cs| < |out| && den >= 1
    ensures Floor(Predict(cs, Diffs(out, |cs|), den), Rounded(cs, out, den), den)
  {
    DotIsWeighted(cs, out, |cs|, Pow2(den - 1));
    ShrFloors(Rounded(cs, out, den), den);
  }

  lemma BasePredicts(C: Config, x: int32, out: seq<int32>, cs: seq<int16>)
    requires C.Valid() && C.Adaptive() && |cs| == C.n < |out|
    ensures Predicted(x, cs, out, C.den, C.bits, SynthValue(C, x, out, cs))
  {
    PredictFloors(cs, out, C.den);
    var top: int, q := out[|out| - |cs| - 1], Predict(cs, Diffs(out, |cs|), C.den);
    assert SynthValue(C, x, out, cs) == SignExtend(x + top + q, C.bits);
  }

  lemma MoveIsPart(out: seq<int32>, n: nat, sg: int, den: nat, k: nat)
    requires k < n < |out| && (sg == 1 || sg == -1)
    ensures Move(sg, Diffs(out, n)[k], den) == Part(out, n, sg, den, k)
  {
    var d := Gap(out, n, k);
    GapIsDiff(out, n, k);
    assert sg * Sign(d) * d == if sg > 0 then Abs(d) else -Abs(d);
    ShiftsAreArithmetic(Wrap32(if sg > 0 then Abs(d) else -Abs(d)), den);
  }

  lemma LeftStep(x: int32, out: seq<int32>, n: nat, den: nat, k: nat)
    requires k < n < |out| && x != 0
    ensures ErrorLeft(Diffs(out, n), Sign(x), k, Left(x, out, n, den, k + 1), den) == Left(x, out, n, den, k)
  {
    var sg, part, spent := Sign(x), Part(out, n, Sign(x), den, k), Spent(out, n, Sign(x), den, k + 1);
    MoveIsPart(out, n, sg, den, k);
    TimesIsProduct(n - k, part);
    Wrap32Add(x - spent, -((n - k) * part));
  }

  // The taps from k on have moved and none of them stops the loop.
  ghost predicate Going(x: int32, cs: seq<int16>, out: seq<int32>, den: nat, k: nat, c: seq<int16>)
    requires |cs| < |out|
  {
    && k <= |cs| == |c|
    && (forall i :: 0 <= i < k ==> c[i] == cs[i])
    && (forall i :: k <= i < |cs| ==> c[i] == Wrap16(cs[i] - Sign(x) * Sign(Gap(out, |cs|, i))))
    && (forall i :: k <= i < |cs| ==> Sign(Left(x, out, |cs|, den, i)) == Sign(x))
  }

  lemma NudgeMoves(x: int32, cs: seq<int16>, out: seq<int32>, k: nat, c: seq<int16>)
    requires k < |cs| == |c| && |cs| < |out| && c[k] == cs[k] && x != 0
    ensures Nudge(c, Diffs(out, |cs|), Sign(x), k)
            == c[k := Wrap16(cs[k] - Sign(x) * Sign(Gap(out, |cs|, k)))]
  {
    GapIsDiff(out, |cs|, k);
  }

  lemma GapIsDiff(out: seq<int32>, n: nat, k: nat)
    requires k < n < |out|
    ensures Diffs(out, n)[k] == Gap(out, n, k)
  {
    var top: int, x: int := out[|out| - n - 1], out[|out| - 1 - k];
    DiffAt(out, n, k, top, x);
  }

  lemma {:induction false} AdaptStops(x: int32, cs: seq<int16>, out: seq<int32>, den: nat, k: nat, c: seq<int16>)
    returns (stop: nat)
    requires |cs| < |out| && x != 0 && 0 < k && Going(x, cs, out, den, k, c)
    ensures Stopped(x, cs, out, den, stop,
                    AdaptFrom(c, Diffs(out, |cs|), Sign(x), k, Left(x, out, |cs|, den, k), den))
    decreases k
  {
    var d, i := Diffs(out, |cs|), k - 1;
    var left := Left(x, out, |cs|, den, i);
    var c' := Nudge(c, d, Sign(x), i);
    AdaptForm(x, cs, out, den, k, i, c, c', left);
    if Sign(left) == Sign(x) && i > 0 {
      stop := AdaptStops(x, cs, out, den, i, c');
    } else {
      stop := i;
    }
  }

  // One turn of the loop over the taps.
  lemma AdaptForm(x: int32, cs: seq<int16>, out: seq<int32>, den: nat, k: nat, i: nat, c: seq<int16>, c': seq<int16>,
                  left: int32)
    requires |cs| < |out| && x != 0 && k == i + 1 && Going(x, cs, out, den, k, c)
    requires left == Left(x, out, |cs|, den, i) && c' == Nudge(c, Diffs(out, |cs|), Sign(x), i)
    ensures c' == c[i := Wrap16(cs[i] - Sign(x) * Sign(Gap(out, |cs|, i)))]
    ensures AdaptFrom(c, Diffs(out, |cs|), Sign(x), k, Left(x, out, |cs|, den, k), den)
            == if Sign(left) != Sign(x) || i == 0 then c'
               else AdaptFrom(c', Diffs(out, |cs|), Sign(x), i, left, den)
  {
    LeftStep(x, out, |cs|, den, i);
    NudgeMoves(x, cs, out, i, c);
  }

  lemma AdaptAdapts(x: int32, cs: seq<int16>, out: seq<int32>, den: nat)
    requires 0 < |cs| < |out|
    ensures Adapted(x, cs, out, den, Adapt(cs, Diffs(out, |cs|), x, den))
  {
    if x != 0 {
      assert Left(x, out, |cs|, den, |cs|) == x;
      var stop := AdaptStops(x, cs, out, den, |cs|, cs);
    }
  }

  lemma SynthSteps(C: Config, x: int32, out: seq<int32>, cs: seq<int16>)
    requires C.Valid() && |cs| == C.n
    ensures Step(C, x, out, cs, SynthValue(C, x, out, cs), NextCoefs(C, x, out, cs))
  {
    if C.Adaptive() && |out| > C.n {
      BasePredicts(C, x, out, cs);
      AdaptAdapts(x, cs, out, C.den);
    }
  }

  // The run the synthesis makes from what is known.
  lemma {:induction false} SynthRun(C: Config, pc: seq<int32>, out: seq<int32>, cs: seq<int16>,
                                    before: seq<seq<int16>>) returns (taps: seq<seq<int16>>)
    requires C.Valid() && |cs| == C.n && |out| <= |pc| && Run(C, pc[..|out|], out, before) && before[|out|] == cs
    ensures Run(C, pc, Synth(C, pc, out, cs).0, taps)
    ensures taps[0] == before[0] && taps[|pc|] == Synth(C, pc, out, cs).1
    decreases |pc| - |out|
  {
    if |out| == |pc| {
      assert pc[..|out|] == pc;
      taps := before;
    } else {
      var x := pc[|out|];
      var y, cs' := SynthValue(C, x, out, cs), NextCoefs(C, x, out, cs);
      SynthSteps(C, x, out, cs);
      var out', grown := out + [y], before + [cs'];
      RunGrows(C, pc[..|out|], x, out, before, y, cs', pc[..|out'|], out', grown);
      SynthStep(C, pc, out, cs, y, out', cs');
      taps := SynthRun(C, pc, out', cs', grown);
    }
  }

  lemma RunGrows(C: Config, pc: seq<int32>, x: int32, out: seq<int32>, taps: seq<seq<int16>>, y: int32,
                 cs: seq<int16>, pc': seq<int32>, out': seq<int32>, taps': seq<seq<int16>>)
    requires C.Valid() && Run(C, pc, out, taps) && |cs| == C.n && Step(C, x, out, taps[|pc|], y, cs)
    requires pc' == pc + [x] && out' == out + [y] && taps' == taps + [cs]
    ensures Run(C, pc', out', taps')
  {
    forall j | 0 <= j < |pc'|
      ensures Step(C, pc'[j], out'[..j], taps'[j], out'[j], taps'[j + 1])
    {
      assert out'[..j] == out[..j];
      if j == |pc| {
        assert out[..j] == out;
      }
    }
  }

  lemma SynthRuns(C: Config, pc: seq<int32>, cs: seq<int16>)
    requires C.Valid() && |cs| == C.n
    ensures var r := Synth(C, pc, [], cs); Runs(C, pc, cs, r.0, r.1)
  {
    assert pc[..0] == [];
    var taps := SynthRun(C, pc, [], cs, [cs]);
  }

  // The run is the only one, so what the decoder stores is pinned by the steps alone.
  lemma RunsExactly(C: Config, pc: seq<int32>, cs: seq<int16>, out: seq<int32>, cs': seq<int16>)
    requires C.Valid() && |cs| == C.n
    ensures Runs(C, pc, cs, out, cs') <==> (out, cs') == Synth(C, pc, [], cs)
  {
    var r := Synth(C, pc, [], cs);
    SynthRuns(C, pc, cs);
    if Runs(C, pc, cs, out, cs') {
      var a :| Run(C, pc, r.0, a) && a[0] == cs && a[|pc|] == r.1;
      var b :| Run(C, pc, out, b) && b[0] == cs && b[|pc|] == cs';
      RunUnique(C, pc, r.0, out, a, b, |pc|);
      assert r.0[..|pc|] == r.0 && out[..|pc|] == out;
    }
  }
}
