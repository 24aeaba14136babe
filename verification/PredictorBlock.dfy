/**
 unpc_block itself: dispatch on the number of taps and the loops over the work buffers.
 */
module PredictorBlock {
  import opened Words
  import opened Predictor
  import opened PredictorDecoder
  import opened PredictorSteps

  type State = (seq<int32>, seq<int16>)

  // The active coefficients of a possibly absent array.
  function Taps(coefs: array?<int16>, n: nat): (r: seq<int16>)
    requires coefs == null || n <= coefs.Length
    reads coefs
    ensures |r| == n
  {
    if coefs == null then seq(n, i => 0) else coefs[..n]
  }

  function Least(a: nat, b: nat): nat {
    if a < b then a else b
  }

  // `(del << chanshift) >> chanshift`
  method Extend(del: int32, prev: int32, bits: nat) returns (r: int32)
    requires 1 <= bits <= 32
    ensures r == SignExtend((del as int) + prev, bits)
  {
    var x: int := (del as int) + prev;
    ShiftPairExtends(Wrap32(x), bits);
    SignExtendWrap(x, bits);
    r := ShiftPair(Wrap32(x), bits);
  }

  // One sample more.
  lemma {:induction false} SynthCopies(C: Config, pc: seq<int32>, out: seq<int32>, cs: seq<int16>)
    requires C.Valid() && C.n == |cs| == 0 && |out| <= |pc|
    ensures Synth(C, pc, out, cs) == (out + pc[|out|..], cs)
    decreases |pc| - |out|
  {
    if |out| < |pc| {
      var x := pc[|out|];
      SynthCopies(C, pc, out + [x], cs);
      assert out + [x] + pc[|out| + 1..] == out + pc[|out|..];
    } else {
      assert out + pc[|out|..] == out;
    }
  }

  // numactive == 0: copy, unless the buffers are the same
  method CopyBlock(pc1: array<int32>, out: array<int32>, num: nat)
    requires num <= pc1.Length && num <= out.Length && 1 <= out.Length && 1 <= pc1.Length
    requires out[0] == pc1[0]
    modifies out
    ensures out[..num] == old(pc1[..num])
    ensures forall i | num <= i < out.Length :: out[i] == old(out[i])
  {
    if num > 1 && pc1 != out {
      var i := 1;
      while i < num
        invariant 1 <= i <= num && out[..i] == pc1[..i]
        invariant forall k | num <= k < out.Length :: out[k] == old(out[k])
        invariant pc1[..num] == old(pc1[..num])
      {
        out[i] := pc1[i];
        i := i + 1;
      }
    }
  }

  // numactive == 31: the integrator, which may run in place
  method Integrate(pc1: array<int32>, out: array<int32>, num: nat, C: Config, ghost pcs: seq<int32>,
                   ghost cs: seq<int16>, ghost goal: State)
    requires C.Valid() && C.n == 31 == |cs| && 1 <= num <= pc1.Length && num <= out.Length
    requires |pcs| == num && pc1[..num][1..] == pcs[1..]
    requires goal == Synth(C, pcs, out[..1], cs)
    modifies out
    ensures out[..num] == goal.0 && goal.1 == cs
    ensures forall i | num <= i < out.Length :: out[i] == old(out[i])
  {
    var prev := out[0];
    var j := 1;
    while j < num
      invariant 1 <= j <= num && prev == out[j - 1]
      invariant forall i | j <= i < num :: pc1[i] == pcs[i]
      invariant goal == Synth(C, pcs, out[..j], cs)
      invariant forall i | num <= i < out.Length :: out[i] == old(out[i])
    {
      ghost var before := out[..j];
      prev := Extend(pc1[j], prev, C.bits);
      out[j] := prev;
      j := j + 1;
      SynthStep(C, pcs, before, cs, prev, out[..j], cs);
    }
  }

  // The first numactive samples are differences, whatever num is.
  method WarmUp(pc1: array<int32>, out: array<int32>, num: nat, C: Config, ghost pcs: seq<int32>,
                ghost cs: seq<int16>, ghost goal: State)
    requires C.Valid() && C.Adaptive() && C.n == |cs| && C.n < pc1.Length && C.n < out.Length
    requires num <= pc1.Length && num <= out.Length && pc1 != out && pcs == pc1[..num]
    requires goal == Synth(C, pcs, out[..Least(1, num)], cs)
    modifies out
    ensures goal == Synth(C, pcs, out[..Least(C.n + 1, num)], cs)
    ensures forall i | C.n < i < out.Length :: out[i] == old(out[i])
  {
    var j := 1;
    while j <= C.n
      invariant 1 <= j <= C.n + 1
      invariant goal == Synth(C, pcs, out[..Least(j, num)], cs)
      invariant pcs == pc1[..num]
      invariant forall i | C.n < i < out.Length :: out[i] == old(out[i])
    {
      ghost var before := out[..Least(j, num)];
      var x := Extend(pc1[j], out[j - 1], C.bits);
      out[j] := x;
      j := j + 1;
      if j <= num {
        SynthStep(C, pcs, before, cs, x, out[..j], cs);
      }
    }
  }

  // `del += top + prediction`, reduced to the sample width
  method NextSample(C: Config, del: int32, top: int32, p: int, ghost base: int) returns (r: int32)
    requires C.Valid() && base == (top as int) + p
    ensures r == SignExtend((del as int) + base, C.bits)
  {
    var moved := Wrap32((top as int) + p);
    r := Extend(del, moved, C.bits);
    ReducedSum(del, base, C.bits);
  }

  lemma ReducedSum(x: int, y: int, b: nat)
    requires 1 <= b <= 32
    ensures SignExtend(x + Wrap32(y), b) == SignExtend(x + y, b)
  {
    Wrap32Add(y, x);
    SignExtendWrap(x + y, b);
    SignExtendWrap(x + Wrap32(y), b);
    assert Wrap32(y) + x == x + Wrap32(y) && y + x == x + y;
  }

  // One step of the adaptive loops, at index j past the warm-up.
  lemma AdaptiveStep(C: Config, pcs: seq<int32>, out: seq<int32>, cs: seq<int16>, d: seq<int32>, x: int32, v: int32,
                     out': seq<int32>, cs': seq<int16>, base: int, goal: State)
    requires C.Valid() && C.Adaptive() && C.n == |cs| && C.n < |out| < |pcs| && x == pcs[|out|]
    requires d == Diffs(out, C.n) && base == (out[|out| - C.n - 1] as int) + Predict(cs, d, C.den)
    requires v == SignExtend((x as int) + base, C.bits)
    requires out' == out + [v] && cs' == Adapt(cs, d, x, C.den)
    requires goal == Synth(C, pcs, out, cs)
    ensures goal == Synth(C, pcs, out', cs')
  {
    BaseForm(C, out, cs, d, base);
    ValueForm(C, out, cs, x, v, base);
    CoefsForm(C, out, cs, d, x);
    SynthStep(C, pcs, out, cs, v, out', cs');
  }

  lemma ValueForm(C: Config, out: seq<int32>, cs: seq<int16>, x: int32, v: int32, base: int)
    requires C.Valid() && C.Adaptive() && C.n == |cs| && C.n < |out| && base == Base(C, out, cs)
    requires v == SignExtend((x as int) + base, C.bits)
    ensures v == SynthValue(C, x, out, cs)
  {
  }

  lemma CoefsForm(C: Config, out: seq<int32>, cs: seq<int16>, d: seq<int32>, x: int32)
    requires C.Valid() && C.Adaptive() && C.n == |cs| && C.n < |out| && d == Diffs(out, C.n)
    ensures NextCoefs(C, x, out, cs) == Adapt(cs, d, x, C.den)
  {
  }

  lemma BaseForm(C: Config, out: seq<int32>, cs: seq<int16>, d: seq<int32>, base: int)
    requires C.Valid() && C.Adaptive() && C.n == |cs| && C.n < |out| && d == Diffs(out, C.n)
    requires base == (out[|out| - C.n - 1] as int) + Predict(cs, d, C.den)
    ensures Base(C, out, cs) == base
  {
  }

  // The general path for one index.
  method GeneralTurn(pc1: array<int32>, out: array<int32>, j: nat, coefs: array<int16>, C: Config,
                     ghost pcs: seq<int32>, ghost goal: State)
    requires C.Valid() && C.Adaptive() && C.n <= coefs.Length && C.n < j < |pcs|
    requires |pcs| <= pc1.Length && |pcs| <= out.Length && pc1 != out && pcs == pc1[..|pcs|]
    requires goal == Synth(C, pcs, out[..j], coefs[..C.n])
    modifies out, coefs
    ensures goal == Synth(C, pcs, out[..j + 1], coefs[..C.n])
    ensures coefs[C.n..] == old(coefs[C.n..])
    ensures forall i | j < i < out.Length :: out[i] == old(out[i])
  {
    ghost var before, cs := out[..j], coefs[..C.n];
    ghost var d := Diffs(before, C.n);
    var p := PredictGeneral(coefs, out, j, C.n, C.den);
    var top, del := out[j - C.n - 1], pc1[j];
    ghost var base := (top as int) + p;
    var x := NextSample(C, del, top, p, base);
    out[j] := x;
    assert out[..j] == before;
    var sg := SignOfInt(del);
    if sg > 0 {
      AdaptGeneralUp(coefs, out, j, C.n, del, C.den, d);
    } else if sg < 0 {
      AdaptGeneralDown(coefs, out, j, C.n, del, C.den, d);
    }
    AdaptiveStep(C, pcs, before, cs, d, del, x, out[..j + 1], coefs[..C.n], base, goal);
  }

  // The general path.
  method General(pc1: array<int32>, out: array<int32>, num: nat, coefs: array<int16>, C: Config,
                 ghost pcs: seq<int32>, ghost goal: State)
    requires C.Valid() && C.Adaptive() && C.n <= coefs.Length && C.n < pc1.Length && C.n < out.Length
    requires num <= pc1.Length && num <= out.Length && pc1 != out && pcs == pc1[..num]
    requires goal == Synth(C, pcs, out[..Least(C.n + 1, num)], coefs[..C.n])
    modifies out, coefs
    ensures out[..num] == goal.0 && coefs[..C.n] == goal.1 && coefs[C.n..] == old(coefs[C.n..])
    ensures forall i | num <= i < out.Length :: out[i] == old(out[i])
  {
    var lim := C.n + 1;
    var j := lim;
    ghost var m := Least(lim, num);
    while j < num
      invariant lim <= j && m == Least(j, num) && pcs == pc1[..num]
      invariant goal == Synth(C, pcs, out[..m], coefs[..C.n])
      invariant coefs[C.n..] == old(coefs[C.n..])
      invariant forall i | num <= i < out.Length :: out[i] == old(out[i])
    {
      GeneralTurn(pc1, out, j, coefs, C, pcs, goal);
      j := j + 1;
      m := j;
    }
    assert out[..m] == out[..num];
  }

  // ---------- the unrolled paths ----------

  lemma DiffsFour(out: seq<int32>, d: seq<int32>)
    requires |out| > 4 && |d| == 4
    requires var j, top := |out|, out[|out| - 5];
             && d[0] == Difference(top, out[j - 1]) && d[1] == Difference(top, out[j - 2])
             && d[2] == Difference(top, out[j - 3]) && d[3] == Difference(top, out[j - 4])
    ensures d == Diffs(out, 4)
  {
  }

  // The 4-tap path for one index, the coefficients in local variables.
  method FourTurn(pc1: array<int32>, out: array<int32>, j: nat, C: Config,
                  a0: int16, a1: int16, a2: int16, a3: int16, ghost pcs: seq<int32>, ghost goal: State)
    returns (r0: int16, r1: int16, r2: int16, r3: int16)
    requires C.Valid() && C.n == 4 && 4 < j < |pcs|
    requires |pcs| <= pc1.Length && |pcs| <= out.Length && pc1 != out && pcs == pc1[..|pcs|]
    requires goal == Synth(C, pcs, out[..j], [a0, a1, a2, a3])
    modifies out
    ensures goal == Synth(C, pcs, out[..j + 1], [r0, r1, r2, r3])
    ensures forall i | j < i < out.Length :: out[i] == old(out[i])
  {
    ghost var before, cs: seq<int16> := out[..j], [a0, a1, a2, a3];
    var top := out[j - 5];
    var b0, b1 := Difference(top, out[j - 1]), Difference(top, out[j - 2]);
    var b2, b3 := Difference(top, out[j - 3]), Difference(top, out[j - 4]);
    ghost var d: seq<int32> := [b0, b1, b2, b3];
    DiffsFour(before, d);
    var p := Predict4(a0, a1, a2, a3, b0, b1, b2, b3, C.den);
    var del := pc1[j];
    ghost var base := (top as int) + p;
    var x := NextSample(C, del, top, p, base);
    out[j] := x;
    assert out[..j] == before;
    r0, r1, r2, r3 := a0, a1, a2, a3;
    var sg := SignOfInt(del);
    if sg > 0 {
      r0, r1, r2, r3 := Adapt4Up(a0, a1, a2, a3, b0, b1, b2, b3, del, C.den);
    } else if sg < 0 {
      r0, r1, r2, r3 := Adapt4Down(a0, a1, a2, a3, b0, b1, b2, b3, del, C.den);
    }
    AdaptiveStep(C, pcs, before, cs, d, del, x, out[..j + 1], [r0, r1, r2, r3], base, goal);
  }

  method Four(pc1: array<int32>, out: array<int32>, num: nat, coefs: array<int16>, C: Config,
              ghost pcs: seq<int32>, ghost goal: State)
    requires C.Valid() && C.n == 4 <= coefs.Length && 4 < pc1.Length && 4 < out.Length
    requires num <= pc1.Length && num <= out.Length && pc1 != out && pcs == pc1[..num]
    requires goal == Synth(C, pcs, out[..Least(5, num)], coefs[..4])
    modifies out, coefs
    ensures out[..num] == goal.0 && coefs[..4] == goal.1 && coefs[4..] == old(coefs[4..])
    ensures forall i | num <= i < out.Length :: out[i] == old(out[i])
  {
    var a0, a1, a2, a3 := coefs[0], coefs[1], coefs[2], coefs[3];
    assert coefs[..4] == [a0, a1, a2, a3];
    var j := 5;
    ghost var m := Least(5, num);
    while j < num
      invariant 5 <= j && m == Least(j, num) && pcs == pc1[..num]
      invariant goal == Synth(C, pcs, out[..m], [a0, a1, a2, a3])
      invariant coefs[..] == old(coefs[..])
      invariant forall i | num <= i < out.Length :: out[i] == old(out[i])
    {
      a0, a1, a2, a3 := FourTurn(pc1, out, j, C, a0, a1, a2, a3, pcs, goal);
      j := j + 1;
      m := j;
    }
    assert out[..m] == out[..num];
    StoreFour(coefs, a0, a1, a2, a3);
  }

  method StoreFour(coefs: array<int16>, a0: int16, a1: int16, a2: int16, a3: int16)
    requires 4 <= coefs.Length
    modifies coefs
    ensures coefs[..4] == [a0, a1, a2, a3] && coefs[4..] == old(coefs[4..])
  {
    coefs[0], coefs[1], coefs[2], coefs[3] := a0, a1, a2, a3;
  }

  lemma DiffsEight(out: seq<int32>, d: seq<int32>)
    requires |out| > 8 && |d| == 8
    requires var j, top := |out|, out[|out| - 9];
             && d[0] == Difference(top, out[j - 1]) && d[1] == Difference(top, out[j - 2])
             && d[2] == Difference(top, out[j - 3]) && d[3] == Difference(top, out[j - 4])
             && d[4] == Difference(top, out[j - 5]) && d[5] == Difference(top, out[j - 6])
             && d[6] == Difference(top, out[j - 7]) && d[7] == Difference(top, out[j - 8])
    ensures d == Diffs(out, 8)
  {
  }

  // The 8-tap path for one index.
  method EightTurn(pc1: array<int32>, out: array<int32>, j: nat, C: Config,
                   a0: int16, a1: int16, a2: int16, a3: int16, a4: int16, a5: int16, a6: int16, a7: int16,
                   ghost pcs: seq<int32>, ghost goal: State)
    returns (r0: int16, r1: int16, r2: int16, r3: int16, r4: int16, r5: int16, r6: int16, r7: int16)
    requires C.Valid() && C.n == 8 && 8 < j < |pcs|
    requires |pcs| <= pc1.Length && |pcs| <= out.Length && pc1 != out && pcs == pc1[..|pcs|]
    requires goal == Synth(C, pcs, out[..j], [a0, a1, a2, a3, a4, a5, a6, a7])
    modifies out
    ensures goal == Synth(C, pcs, out[..j + 1], [r0, r1, r2, r3, r4, r5, r6, r7])
    ensures forall i | j < i < out.Length :: out[i] == old(out[i])
  {
    ghost var before, cs: seq<int16> := out[..j], [a0, a1, a2, a3, a4, a5, a6, a7];
    var top := out[j - 9];
    var b0, b1 := Difference(top, out[j - 1]), Difference(top, out[j - 2]);
    var b2, b3 := Difference(top, out[j - 3]), Difference(top, out[j - 4]);
    var b4, b5 := Difference(top, out[j - 5]), Difference(top, out[j - 6]);
    var b6, b7 := Difference(top, out[j - 7]), Difference(top, out[j - 8]);
    ghost var d: seq<int32> := [b0, b1, b2, b3, b4, b5, b6, b7];
    DiffsEight(before, d);
    var p := Predict8(a0, a1, a2, a3, a4, a5, a6, a7, b0, b1, b2, b3, b4, b5, b6, b7, C.den);
    var del := pc1[j];
    ghost var base := (top as int) + p;
    var x := NextSample(C, del, top, p, base);
    out[j] := x;
    assert out[..j] == before;
    r0, r1, r2, r3, r4, r5, r6, r7 := a0, a1, a2, a3, a4, a5, a6, a7;
    var sg := SignOfInt(del);
    if sg > 0 {
      r0, r1, r2, r3, r4, r5, r6, r7 :=
        Adapt8Up(a0, a1, a2, a3, a4, a5, a6, a7, b0, b1, b2, b3, b4, b5, b6, b7, del, C.den);
    } else if sg < 0 {
      r0, r1, r2, r3, r4, r5, r6, r7 :=
        Adapt8Down(a0, a1, a2, a3, a4, a5, a6, a7, b0, b1, b2, b3, b4, b5, b6, b7, del, C.den);
    }
    AdaptiveStep(C, pcs, before, cs, d, del, x, out[..j + 1], [r0, r1, r2, r3, r4, r5, r6, r7], base, goal);
  }

  method Eight(pc1: array<int32>, out: array<int32>, num: nat, coefs: array<int16>, C: Config,
               ghost pcs: seq<int32>, ghost goal: State)
    requires C.Valid() && C.n == 8 <= coefs.Length && 8 < pc1.Length && 8 < out.Length
    requires num <= pc1.Length && num <= out.Length && pc1 != out && pcs == pc1[..num]
    requires goal == Synth(C, pcs, out[..Least(9, num)], coefs[..8])
    modifies out, coefs
    ensures out[..num] == goal.0 && coefs[..8] == goal.1 && coefs[8..] == old(coefs[8..])
    ensures forall i | num <= i < out.Length :: out[i] == old(out[i])
  {
    var a0, a1, a2, a3 := coefs[0], coefs[1], coefs[2], coefs[3];
    var a4, a5, a6, a7 := coefs[4], coefs[5], coefs[6], coefs[7];
    assert coefs[..8] == [a0, a1, a2, a3, a4, a5, a6, a7];
    var j := 9;
    ghost var m := Least(9, num);
    while j < num
      invariant 9 <= j && m == Least(j, num) && pcs == pc1[..num]
      invariant goal == Synth(C, pcs, out[..m], [a0, a1, a2, a3, a4, a5, a6, a7])
      invariant coefs[..] == old(coefs[..])
      invariant forall i | num <= i < out.Length :: out[i] == old(out[i])
    {
      a0, a1, a2, a3, a4, a5, a6, a7 := EightTurn(pc1, out, j, C, a0, a1, a2, a3, a4, a5, a6, a7, pcs, goal);
      j := j + 1;
      m := j;
    }
    assert out[..m] == out[..num];
    StoreEight(coefs, a0, a1, a2, a3, a4, a5, a6, a7);
  }

  method StoreEight(coefs: array<int16>, a0: int16, a1: int16, a2: int16, a3: int16, a4: int16, a5: int16,
                    a6: int16, a7: int16)
    requires 8 <= coefs.Length
    modifies coefs
    ensures coefs[..8] == [a0, a1, a2, a3, a4, a5, a6, a7] && coefs[8..] == old(coefs[8..])
  {
    coefs[0], coefs[1], coefs[2], coefs[3] := a0, a1, a2, a3;
    coefs[4], coefs[5], coefs[6], coefs[7] := a4, a5, a6, a7;
  }

  // unpc_block: every path computes the one synthesis, whose run of steps is the only one, and leaves alone what lies
  // past the samples and the warm-up.
  method UnpcBlock(pc1: array<int32>, out: array<int32>, num: nat, coefs: array?<int16>, C: Config)
    requires C.Valid() && num <= pc1.Length && num <= out.Length && 0 < pc1.Length && 0 < out.Length
    requires coefs == null || C.n <= coefs.Length
    requires C.Adaptive() ==> coefs != null && pc1 != out && C.n < pc1.Length && C.n < out.Length
    modifies out, if coefs != null then {coefs} else {}
    ensures out[..num] == Synth(C, old(pc1[..num]), [], old(Taps(coefs, C.n))).0
    ensures Taps(coefs, C.n) == Synth(C, old(pc1[..num]), [], old(Taps(coefs, C.n))).1
    ensures Runs(C, old(pc1[..num]), old(Taps(coefs, C.n)), out[..num], Taps(coefs, C.n))
    ensures coefs != null ==> coefs[C.n..] == old(coefs[C.n..])
    ensures forall i | num <= i < out.Length && C.n < i && 0 < i :: out[i] == old(out[i])
  {
    ghost var pcs, cs := pc1[..num], Taps(coefs, C.n);
    ghost var goal := Synth(C, pcs, [], cs);
    SynthRuns(C, pcs, cs);
    out[0] := pc1[0];
    if num > 0 {
      SynthStep(C, pcs, [], cs, pcs[0], out[..1], cs);
    }
    if C.n == 0 {
      CopyBlock(pc1, out, num);
      SynthCopies(C, pcs, [], cs);
    } else if C.n == 31 {
      if num > 0 {
        Integrate(pc1, out, num, C, pcs, cs, goal);
      }
    } else {
      Adaptive(pc1, out, num, coefs, C, pcs, goal);
    }
  }

  // The paths with coefficients.
  method Adaptive(pc1: array<int32>, out: array<int32>, num: nat, coefs: array<int16>, C: Config,
                  ghost pcs: seq<int32>, ghost goal: State)
    requires C.Valid() && C.Adaptive() && C.n <= coefs.Length && C.n < pc1.Length && C.n < out.Length
    requires num <= pc1.Length && num <= out.Length && pc1 != out && pcs == pc1[..num]
    requires goal == Synth(C, pcs, out[..Least(1, num)], coefs[..C.n])
    modifies out, coefs
    ensures out[..num] == goal.0 && coefs[..C.n] == goal.1 && coefs[C.n..] == old(coefs[C.n..])
    ensures forall i | num <= i < out.Length && C.n < i :: out[i] == old(out[i])
  {
    WarmUp(pc1, out, num, C, pcs, coefs[..C.n], goal);
    if C.n == 4 {
      Four(pc1, out, num, coefs, C, pcs, goal);
    } else if C.n == 8 {
      Eight(pc1, out, num, coefs, C, pcs, goal);
    } else {
      General(pc1, out, num, coefs, C, pcs, goal);
    }
  }
}
