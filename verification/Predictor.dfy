/**
 The sign-LMS adaptive linear predictor of dp_dec.c as a function on sequences, the analysis
 (pc_block) it undoes, and the proof that it does for every tap count.
 */
module Predictor {
  import opened Words

  // Taps, sample width and coefficient scale of one channel.
  datatype Config = Config(n: nat, bits: nat, den: nat) {
    // n taps means n taps, except that 0 copies and 31 integrates; the shift by den - 1 needs
    // den >= 1 wherever it is used.
    ghost predicate Valid() {
      n <= 31 && 1 <= bits <= 32 && den <= 15 && (n == 0 || n == 31 || den >= 1)
    }

    predicate Adaptive() {
      n != 0 && n != 31
    }
  }

  function Sign(i: int): int {
    if i > 0 then 1 else if i < 0 then -1 else 0
  }

  function Abs(i: int): int {
    if i < 0 then -i else i
  }

  // The sum of coefs[i] * d[i] over i < k.
  function Dot(coefs: seq<int16>, d: seq<int32>, k: nat): int
    requires k <= |coefs| && k <= |d|
    decreases k
  {
    if k == 0 then 0 else Dot(coefs, d, k - 1) + Mul(coefs[k - 1], d[k - 1])
  }

  // `top - x` in a 32-bit register
  function Difference(top: int, x: int): int32 {
    Wrap32(top - x)
  }

  // The differences between the sample n + 1 back and the n most recent ones, newest first.
  function Diffs(out: seq<int32>, n: nat): (d: seq<int32>)
    requires |out| > n
    ensures |d| == n
  {
    seq(n, (i: nat) requires i < n => Difference(out[|out| - n - 1], out[|out| - 1 - i]))
  }

  // The rounded prediction relative to the oldest sample.
  function Predict(coefs: seq<int16>, d: seq<int32>, den: nat): int
    requires |coefs| == |d| && den >= 1
  {
    Shr(Wrap32(Pow2(den - 1) - Dot(coefs, d, |d|)), den)
  }

  // How far a tap with difference d moves the error of sign sg.
  function Move(sg: int, d: int, den: nat): int {
    Shr(Wrap32(if sg > 0 then Abs(d) else -Abs(d)), den)
  }

  // Coefficient k after a step against the sign of its difference.
  function Nudge(coefs: seq<int16>, d: seq<int32>, sg: int, k: nat): (r: seq<int16>)
    requires k < |coefs| && k < |d|
    ensures |r| == |coefs|
  {
    coefs[k := Wrap16(if sg > 0 then coefs[k] - Sign(d[k]) else coefs[k] + Sign(d[k]))]
  }

  // The error left after tap k of w.
  function ErrorLeft(d: seq<int32>, sg: int, k: nat, del: int, den: nat): int32
    requires k < |d|
  {
    Wrap32(del - Times(|d| - k, Move(sg, d[k], den)))
  }

  // Sign-LMS adaptation from tap k - 1 down, stopping when the error changes sign.
  function AdaptFrom(coefs: seq<int16>, d: seq<int32>, sg: int, k: nat, del: int, den: nat): (r: seq<int16>)
    requires k <= |coefs| == |d|
    ensures |r| == |coefs|
    decreases k
  {
    if k == 0 then coefs
    else
      var left := ErrorLeft(d, sg, k - 1, del, den);
      var c := Nudge(coefs, d, sg, k - 1);
      if (sg > 0 && left <= 0) || (sg < 0 && left >= 0) then c
      else AdaptFrom(c, d, sg, k - 1, left, den)
  }

  function Adapt(coefs: seq<int16>, d: seq<int32>, del: int32, den: nat): (r: seq<int16>)
    requires |coefs| == |d|
    ensures |r| == |coefs|
  {
    if del == 0 then coefs else AdaptFrom(coefs, d, Sign(del), |coefs|, del, den)
  }

  // ---------- synthesis: residuals to samples ----------

  // What is added to the residual at index |out|.
  function Base(C: Config, out: seq<int32>, coefs: seq<int16>): int
    requires C.Valid() && C.n == |coefs| && out != []
  {
    if C.n == 31 || |out| <= C.n then out[|out| - 1]
    else if C.n == 0 then 0
    else out[|out| - C.n - 1] + Predict(coefs, Diffs(out, C.n), C.den)
  }

  // Are residuals passed through at this point?
  predicate Copies(C: Config, out: seq<int32>) {
    C.n == 0 || out == []
  }

  function SynthValue(C: Config, x: int32, out: seq<int32>, coefs: seq<int16>): int32
    requires C.Valid() && C.n == |coefs|
  {
    if Copies(C, out) then x else SignExtend(x + Base(C, out, coefs), C.bits)
  }

  // The coefficients after residual x.
  function NextCoefs(C: Config, x: int32, out: seq<int32>, coefs: seq<int16>): (r: seq<int16>)
    requires C.Valid() && C.n == |coefs|
    ensures |r| == |coefs|
  {
    if C.Adaptive() && |out| > C.n then Adapt(coefs, Diffs(out, C.n), x, C.den) else coefs
  }

  // Samples and coefficients after all residuals, given the samples already known.
  function Synth(C: Config, pc: seq<int32>, out: seq<int32>, coefs: seq<int16>): (r: (seq<int32>, seq<int16>))
    requires C.Valid() && C.n == |coefs| && |out| <= |pc|
    ensures |r.0| == |pc| && |r.1| == |coefs|
    decreases |pc| - |out|
  {
    if |out| == |pc| then (out, coefs)
    else
      var x := pc[|out|];
      Synth(C, pc, out + [SynthValue(C, x, out, coefs)], NextCoefs(C, x, out, coefs))
  }

  lemma SynthStep(C: Config, pc: seq<int32>, out: seq<int32>, cs: seq<int16>, v: int32, out': seq<int32>,
                  cs': seq<int16>)
    requires C.Valid() && C.n == |cs| && |out| < |pc| && v == SynthValue(C, pc[|out|], out, cs)
    requires out' == out + [v] && cs' == NextCoefs(C, pc[|out|], out, cs)
    ensures Synth(C, pc, out, cs) == Synth(C, pc, out', cs')
  {
  }

  // ---------- analysis: samples to residuals ----------

  function AnalysisValue(C: Config, y: int32, out: seq<int32>, coefs: seq<int16>): int32
    requires C.Valid() && C.n == |coefs|
  {
    if Copies(C, out) then y else SignExtend(y - Base(C, out, coefs), C.bits)
  }

  // The residuals of signal from index j on.
  function Analyze(C: Config, signal: seq<int32>, j: nat, coefs: seq<int16>): (r: seq<int32>)
    requires C.Valid() && C.n == |coefs| && j <= |signal|
    ensures |r| == |signal| - j
    decreases |signal| - j
  {
    if j == |signal| then []
    else
      var x := AnalysisValue(C, signal[j], signal[..j], coefs);
      [x] + Analyze(C, signal, j + 1, NextCoefs(C, x, signal[..j], coefs))
  }

  // The coefficients the analysis ends with.
  function AnalyzedCoefs(C: Config, signal: seq<int32>, j: nat, coefs: seq<int16>): (r: seq<int16>)
    requires C.Valid() && C.n == |coefs| && j <= |signal|
    ensures |r| == |coefs|
    decreases |signal| - j
  {
    if j == |signal| then coefs
    else
      var x := AnalysisValue(C, signal[j], signal[..j], coefs);
      AnalyzedCoefs(C, signal, j + 1, NextCoefs(C, x, signal[..j], coefs))
  }

  // ---------- inversion ----------

  // Whatever is predicted, adding it back to the reduced difference restores a value in range.
  lemma UndoDifference(y: int32, base: int, b: nat)
    requires 1 <= b <= 32 && Fits(y, b)
    ensures SignExtend(SignExtend(y - base, b) + base, b) == y
  {
    SignExtendAdd(y - base, base, b);
    SignExtendId(y, b);
  }

  lemma StepInverts(C: Config, y: int32, out: seq<int32>, coefs: seq<int16>)
    requires C.Valid() && C.n == |coefs| && Fits(y, C.bits)
    ensures SynthValue(C, AnalysisValue(C, y, out, coefs), out, coefs) == y
    ensures Fits(AnalysisValue(C, y, out, coefs), C.bits)
  {
    if !Copies(C, out) {
      UndoDifference(y, Base(C, out, coefs), C.bits);
    }
  }

  lemma {:induction false} SynthFrom(C: Config, pc: seq<int32>, signal: seq<int32>, j: nat, coefs: seq<int16>,
                                     out: seq<int32>)
    requires C.Valid() && C.n == |coefs| && AllFit(signal, C.bits)
    requires j <= |signal| == |pc| && pc[j..] == Analyze(C, signal, j, coefs) && out == signal[..j]
    ensures Synth(C, pc, out, coefs) == (signal, AnalyzedCoefs(C, signal, j, coefs))
    decreases |signal| - j
  {
    if j < |signal| {
      var x := AnalysisValue(C, signal[j], out, coefs);
      StepInverts(C, signal[j], out, coefs);
      assert pc[j] == pc[j..][0] == x;
      assert out + [signal[j]] == signal[..j + 1];
      assert pc[j + 1..] == pc[j..][1..];
      SynthFrom(C, pc, signal, j + 1, NextCoefs(C, x, out, coefs), out + [signal[j]]);
    } else {
      assert signal[..j] == signal;
    }
  }

  // The decoder restores every signal in range from its residuals and ends with the
  // coefficients the encoder ended with, whatever the taps, scale and first coefficients.
  lemma PredictorInversion(C: Config, signal: seq<int32>, coefs: seq<int16>)
    requires C.Valid() && C.n == |coefs| && AllFit(signal, C.bits)
    ensures Synth(C, Analyze(C, signal, 0, coefs), [], coefs) == (signal, AnalyzedCoefs(C, signal, 0, coefs))
  {
    var pc := Analyze(C, signal, 0, coefs);
    assert pc[0..] == pc && signal[..0] == [];
    SynthFrom(C, pc, signal, 0, coefs, []);
  }

  // Residuals stay in the range of the samples, so they can be coded in as many bits.
  lemma {:induction false} ResidualsFit(C: Config, signal: seq<int32>, j: nat, coefs: seq<int16>)
    requires C.Valid() && C.n == |coefs| && j <= |signal| && AllFit(signal, C.bits)
    ensures AllFit(Analyze(C, signal, j, coefs), C.bits)
    decreases |signal| - j
  {
    if j < |signal| {
      var x := AnalysisValue(C, signal[j], signal[..j], coefs);
      StepInverts(C, signal[j], signal[..j], coefs);
      ResidualsFit(C, signal, j + 1, NextCoefs(C, x, signal[..j], coefs));
    }
  }

  // ---------- the two-stage mode ----------

  function Integrator(bits: nat): Config {
    Config(31, bits, 0)
  }

  // The integrator has no use for coefficients.
  function NoCoefs(): seq<int16> {
    seq(31, i => 0)
  }

  // The second decoder stage of mode != 0 on top of the integrator.
  function Channel(C: Config, twoStage: bool, pc: seq<int32>, coefs: seq<int16>): (r: seq<int32>)
    requires C.Valid() && C.n == |coefs|
    ensures |r| == |pc|
  {
    var mid := if twoStage then Synth(Integrator(C.bits), pc, [], NoCoefs()).0 else pc;
    Synth(C, mid, [], coefs).0
  }

  function ChannelResiduals(C: Config, twoStage: bool, signal: seq<int32>, coefs: seq<int16>): (r: seq<int32>)
    requires C.Valid() && C.n == |coefs|
    ensures |r| == |signal|
  {
    var mid := Analyze(C, signal, 0, coefs);
    if twoStage then Analyze(Integrator(C.bits), mid, 0, NoCoefs()) else mid
  }

  // Both stages invert their analyses in the opposite order.
  lemma ChannelInversion(C: Config, twoStage: bool, signal: seq<int32>, coefs: seq<int16>)
    requires C.Valid() && C.n == |coefs| && AllFit(signal, C.bits)
    ensures Channel(C, twoStage, ChannelResiduals(C, twoStage, signal, coefs), coefs) == signal
    ensures AllFit(ChannelResiduals(C, twoStage, signal, coefs), C.bits)
  {
    var mid := Analyze(C, signal, 0, coefs);
    PredictorInversion(C, signal, coefs);
    ResidualsFit(C, signal, 0, coefs);
    if twoStage {
      PredictorInversion(Integrator(C.bits), mid, NoCoefs());
      ResidualsFit(Integrator(C.bits), mid, 0, NoCoefs());
    }
  }

  // ---------- the integrator ----------

  function Sum(pc: seq<int32>): int {
    if pc == [] then 0 else Sum(pc[..|pc| - 1]) + pc[|pc| - 1]
  }

  ghost predicate IsRunningSum(bits: nat, pc: seq<int32>, out: seq<int32>)
    requires 1 <= bits <= 32
  {
    |out| <= |pc| && forall j :: 0 <= j < |out| ==> out[j] == SignExtend(Sum(pc[..j + 1]), bits)
  }

  // Each integrator output is the reduced sum of all residuals so far.
  lemma {:induction false} IntegratorSum(bits: nat, pc: seq<int32>, out: seq<int32>)
    requires 1 <= bits <= 32 && pc != [] && Fits(pc[0], bits) && IsRunningSum(bits, pc, out)
    ensures IsRunningSum(bits, pc, Synth(Integrator(bits), pc, out, NoCoefs()).0)
    decreases |pc| - |out|
  {
    if |out| < |pc| {
      var j := |out|;
      assert pc[..j + 1][..j] == pc[..j];
      assert Sum(pc[..j + 1]) == Sum(pc[..j]) + pc[j];
      if j == 0 {
        SignExtendId(pc[0], bits);
      } else {
        SignExtendAdd(Sum(pc[..j]), pc[j], bits);
      }
      IntegratorSum(bits, pc, out + [SynthValue(Integrator(bits), pc[j], out, NoCoefs())]);
    }
  }

  // The closed form of the numactive == 31 path.
  lemma IntegratorClosedForm(bits: nat, pc: seq<int32>, j: nat)
    requires 1 <= bits <= 32 && j < |pc| && Fits(pc[0], bits)
    ensures Synth(Integrator(bits), pc, [], NoCoefs()).0[j] == SignExtend(Sum(pc[..j + 1]), bits)
  {
    IntegratorSum(bits, pc, []);
  }
}
