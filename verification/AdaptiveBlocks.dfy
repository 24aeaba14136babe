/**
 Blocks of symbols under an adaptive mean, for any way of reading and writing single symbols:
 a sample moves the mean, a quiet mean calls for a zero run.  Reading inverts writing for blocks
 as soon as it does so for single symbols.
 */
module AdaptiveBlocks {
  import opened Words
  import opened BitStream
  import opened AdaptiveGolomb
  import opened GolombCodes

  const RUN_CAP: nat := 65535

  type Mean = m: nat | m <= MEAN_LIMIT
  type QuietMean = m: nat | m < 128

  // A sample read: its value, the mean after it and the position after it.
  datatype Sample = Sample(value: int32, mean: Mean, next: nat)

  // Values decoded so far, the position reached, and whether the block was complete.
  datatype Decoded = Decoded(ok: bool, vals: seq<int32>, pos: nat)

  // How single symbols are read: a sample at a mean and mode, a run at a quiet mean.
  datatype Reader = Reader(sample: (Mean, nat, nat) -> Sample, run: (QuietMean, nat) -> Symbol)

  // How single symbols are written, the mean after a sample, and what a value comes back as.
  datatype Writer = Writer(
    sample: (Mean, nat, int) -> seq<bit>,
    run: (QuietMean, nat) -> seq<bit>,
    mean: (Mean, nat, int) -> Mean,
    back: int -> int32)

  function Prepend(head: seq<int32>, d: Decoded): Decoded {
    Decoded(d.ok, head + d.vals, d.pos)
  }

  function Zeros(n: nat): (z: seq<int32>)
    ensures |z| == n
  {
    seq(n, i => 0)
  }

  // After a zero run the next sample is known to be non-zero, unless the run was capped.
  function RunMode(run: nat): (zmode: nat)
    ensures zmode <= 1
  {
    if run >= RUN_CAP then 0 else 1
  }

  // The block of `left` samples found at p; a symbol must start before the limit.
  ghost function DecodeWith(R: Reader, limit: nat, mb: Mean, zmode: nat, p: nat, left: nat): (d: Decoded)
    ensures |d.vals| <= left && (d.ok ==> |d.vals| == left)
    decreases left
  {
    if left == 0 then Decoded(true, [], p)
    else if p >= limit then Decoded(false, [], p)
    else
      var x := R.sample(mb, zmode, p);
      if x.mean < 128 && left > 1 then
        var run := R.run(x.mean, x.next);
        if run.value > left - 1 then Decoded(false, [x.value], run.next)
        else
          Prepend([x.value] + Zeros(run.value),
                  DecodeWith(R, limit, 0, RunMode(run.value), run.next, left - 1 - run.value))
      else Prepend([x.value], DecodeWith(R, limit, x.mean, 0, x.next, left - 1))
  }

  // Does decoding come to a sample code at a position of the given kind?
  ghost predicate Reaches(R: Reader, kind: nat -> bool, limit: nat, mb: Mean, zmode: nat, p: nat, left: nat)
    decreases left
  {
    left > 0 && p < limit &&
    (kind(p) ||
     var x := R.sample(mb, zmode, p);
     if x.mean < 128 && left > 1 then
       var run := R.run(x.mean, x.next);
       run.value <= left - 1 && Reaches(R, kind, limit, 0, RunMode(run.value), run.next, left - 1 - run.value)
     else Reaches(R, kind, limit, x.mean, 0, x.next, left - 1))
  }

  // The number of leading zeros of a block, at most n.
  function ZeroRun(vals: seq<int>, n: nat): (r: nat)
    ensures r <= |vals| && r <= n
    ensures forall i :: 0 <= i < r ==> vals[i] == 0
    ensures r < |vals| && r < n ==> vals[r] != 0
  {
    if n == 0 || vals == [] || vals[0] != 0 then 0
    else
      var r := 1 + ZeroRun(vals[1..], n - 1);
      assert forall i :: 1 <= i < r ==> vals[i] == vals[1..][i - 1];
      r
  }

  // The longest run of zeros with a code of its own: only behind it may another zero follow.
  const LONGEST_RUN: nat := 65535

  function AfterRun(run: nat): (zmode: nat)
    ensures zmode <= 1
  {
    if run == 65535 then 0 else 1
  }

  ghost function EncodeWith(W: Writer, mb: Mean, zmode: nat, vals: seq<int>): (b: seq<bit>)
    decreases |vals|
  {
    if vals == [] then []
    else
      var mean := W.mean(mb, zmode, vals[0]);
      if mean < 128 && |vals| > 1 then
        var run := ZeroRun(vals[1..], LONGEST_RUN);
        W.sample(mb, zmode, vals[0])
        + (W.run(mean, run) + EncodeWith(W, 0, AfterRun(run), vals[1 + run..]))
      else W.sample(mb, zmode, vals[0]) + EncodeWith(W, mean, 0, vals[1..])
  }

  // Where the last sample code of a block coded from p on begins.
  ghost function LastStart(W: Writer, mb: Mean, zmode: nat, p: nat, vals: seq<int>): (r: nat)
    requires vals != []
    ensures r >= p
    decreases |vals|
  {
    var mean := W.mean(mb, zmode, vals[0]);
    var q := p + |W.sample(mb, zmode, vals[0])|;
    if mean < 128 && |vals| > 1 then
      var run := ZeroRun(vals[1..], LONGEST_RUN);
      if 1 + run == |vals| then p else LastStart(W, 0, AfterRun(run), q + |W.run(mean, run)|, vals[1 + run..])
    else if |vals| == 1 then p
    else LastStart(W, mean, 0, q, vals[1..])
  }

  // Does every sample code of the block begin before the limit?
  ghost predicate Within(W: Writer, limit: nat, mb: Mean, zmode: nat, p: nat, vals: seq<int>) {
    vals == [] || LastStart(W, mb, zmode, p, vals) < limit
  }

  lemma WithinPlain(W: Writer, limit: nat, mb: Mean, zmode: nat, p: nat, vals: seq<int>, mean: Mean, q: nat)
    requires vals != [] && mean == W.mean(mb, zmode, vals[0]) && q == p + |W.sample(mb, zmode, vals[0])|
    requires |vals| == 1 || mean >= 128
    ensures Within(W, limit, mb, zmode, p, vals) <==> p < limit && Within(W, limit, mean, 0, q, vals[1..])
  {
  }

  lemma WithinRun(W: Writer, limit: nat, mb: Mean, zmode: nat, p: nat, vals: seq<int>, mean: QuietMean, run: nat,
                  r: nat)
    requires |vals| > 1 && mean == W.mean(mb, zmode, vals[0]) && run == ZeroRun(vals[1..], RUN_CAP)
    requires r == p + |W.sample(mb, zmode, vals[0])| + |W.run(mean, run)|
    ensures Within(W, limit, mb, zmode, p, vals)
            <==> p < limit && Within(W, limit, 0, RunMode(run), r, vals[1 + run..])
  {
  }

  // Where bit strings are found: `at(p, b)` says that b stands at position p.
  type Placement = (nat, seq<bit>) -> bool

  // Parts of a bit string stand one after the other.
  ghost predicate Splits(at: Placement) {
    forall p: nat, a: seq<bit>, b: seq<bit> :: at(p, a + b) ==> at(p, a) && at(p + |a|, b)
  }

  // Reading a single symbol inverts writing it, for the values in a range.
  ghost predicate Inverse(R: Reader, W: Writer, at: Placement, range: int -> bool) {
    && (forall mb: Mean, z: nat, p: nat, v: int ::
          z <= 1 && range(v) && (z == 1 ==> v != 0) && at(p, W.sample(mb, z, v)) ==>
            && W.sample(mb, z, v) != []
            && R.sample(mb, z, p) == Sample(W.back(v), W.mean(mb, z, v), p + |W.sample(mb, z, v)|))
    && (forall mb: QuietMean, p: nat, n: nat ::
          n <= RUN_CAP && at(p, W.run(mb, n)) ==> R.run(mb, p) == Symbol(n, p + |W.run(mb, n)|))
  }

  // A block the encoder can be handed: values in range, and the first not zero after a run.
  ghost predicate Encodable(vals: seq<int>, zmode: nat, range: int -> bool) {
    && (forall i :: 0 <= i < |vals| ==> range(vals[i]))
    && zmode <= 1 && (zmode == 1 && vals != [] ==> vals[0] != 0)
  }

  // What a block comes back as.
  function Backs(W: Writer, vals: seq<int>): (r: seq<int32>)
    ensures |r| == |vals|
  {
    seq<int32>(|vals|, (i: nat) requires i < |vals| => W.back(vals[i]))
  }

  lemma BacksSplit(W: Writer, vals: seq<int>, run: nat)
    requires W.back(0) == 0
    requires 1 + run <= |vals| && forall i :: 0 <= i < run ==> vals[1..][i] == 0
    ensures Backs(W, vals) == [W.back(vals[0])] + Zeros(run) + Backs(W, vals[1 + run..])
  {
    var r := [W.back(vals[0])] + Zeros(run) + Backs(W, vals[1 + run..]);
    forall i | 0 <= i < |vals|
      ensures Backs(W, vals)[i] == r[i]
    {
      if 1 <= i <= run {
        assert vals[i] == vals[1..][i - 1] == 0;
      }
    }
  }

  lemma BacksStep(W: Writer, vals: seq<int>)
    requires vals != []
    ensures Backs(W, vals) == [W.back(vals[0])] + Backs(W, vals[1..])
  {
  }

  lemma Parts(at: Placement, p: nat, e: seq<bit>, a: seq<bit>, b: seq<bit>, c: seq<bit>, q: nat, r: nat)
    requires Splits(at) && at(p, e) && e == a + (b + c) && q == p + |a| && r == q + |b|
    ensures at(p, a) && at(q, b) && at(r, c) && r + |c| == p + |e|
  {
    assert at(p, a + (b + c));
    assert at(q, b + c);
  }

  lemma TwoParts(at: Placement, p: nat, e: seq<bit>, a: seq<bit>, b: seq<bit>, q: nat)
    requires Splits(at) && at(p, e) && e == a + b && q == p + |a|
    ensures at(p, a) && at(q, b) && q + |b| == p + |e|
  {
    assert at(p, a + b);
  }

  // One step of the decoder when no run follows, and when one does.
  lemma DecodePlain(R: Reader, limit: nat, mb: Mean, zmode: nat, p: nat, left: nat, x: Sample)
    requires left > 0 && p < limit && x == R.sample(mb, zmode, p) && (left == 1 || x.mean >= 128)
    ensures DecodeWith(R, limit, mb, zmode, p, left)
            == Prepend([x.value], DecodeWith(R, limit, x.mean, 0, x.next, left - 1))
  {
  }

  lemma DecodeRun(R: Reader, limit: nat, mb: Mean, zmode: nat, p: nat, left: nat, x: Sample, run: Symbol)
    requires left > 1 && p < limit && x == R.sample(mb, zmode, p) && x.mean < 128
    requires run == R.run(x.mean, x.next) && run.value < left
    ensures DecodeWith(R, limit, mb, zmode, p, left)
            == Prepend([x.value] + Zeros(run.value),
                       DecodeWith(R, limit, 0, RunMode(run.value), run.next, left - 1 - run.value))
  {
  }

  // What is not reached at all is not reached from the next code on.
  lemma PlainReach(R: Reader, kind: nat -> bool, limit: nat, mb: Mean, zmode: nat, p: nat, left: nat, x: Sample)
    requires left > 0 && p < limit && x == R.sample(mb, zmode, p) && (left == 1 || x.mean >= 128)
    requires !Reaches(R, kind, limit, mb, zmode, p, left)
    ensures !kind(p) && !Reaches(R, kind, limit, x.mean, 0, x.next, left - 1)
  {
  }

  lemma RunReach(R: Reader, kind: nat -> bool, limit: nat, mb: Mean, zmode: nat, p: nat, left: nat, x: Sample,
                 run: Symbol)
    requires left > 1 && p < limit && x == R.sample(mb, zmode, p) && x.mean < 128
    requires run == R.run(x.mean, x.next) && run.value < left
    requires !Reaches(R, kind, limit, mb, zmode, p, left)
    ensures !kind(p) && !Reaches(R, kind, limit, 0, RunMode(run.value), run.next, left - 1 - run.value)
  {
  }

  lemma HereReach(R: Reader, kind: nat -> bool, limit: nat, mb: Mean, zmode: nat, p: nat, left: nat)
    requires left > 0 && p < limit && !Reaches(R, kind, limit, mb, zmode, p, left)
    ensures !kind(p)
  {
  }

  lemma ReadsSample(R: Reader, W: Writer, at: Placement, range: int -> bool, mb: Mean, z: nat, p: nat, v: int)
    requires Inverse(R, W, at, range) && z <= 1 && range(v) && (z == 1 ==> v != 0)
    requires at(p, W.sample(mb, z, v))
    ensures W.sample(mb, z, v) != []
    ensures R.sample(mb, z, p) == Sample(W.back(v), W.mean(mb, z, v), p + |W.sample(mb, z, v)|)
  {
  }

  lemma ReadsRun(R: Reader, W: Writer, at: Placement, range: int -> bool, mb: QuietMean, p: nat, n: nat)
    requires Inverse(R, W, at, range) && n <= RUN_CAP && at(p, W.run(mb, n))
    ensures R.run(mb, p) == Symbol(n, p + |W.run(mb, n)|)
  {
  }

  // The claim of the round trip for one block.
  ghost predicate Recovered(R: Reader, W: Writer, limit: nat, mb: Mean, zmode: nat, p: nat, vals: seq<int>) {
    DecodeWith(R, limit, mb, zmode, p, |vals|)
    == Decoded(true, Backs(W, vals), p + |EncodeWith(W, mb, zmode, vals)|)
  }

  lemma PlainCase(R: Reader, W: Writer, at: Placement, range: int -> bool, limit: nat,
                  mb: Mean, zmode: nat, p: nat, vals: seq<int>, mean: Mean, code: seq<bit>, q: nat)
    requires Inverse(R, W, at, range) && zmode <= 1 && vals != [] && range(vals[0]) && (zmode == 1 ==> vals[0] != 0)
    requires code == W.sample(mb, zmode, vals[0]) && mean == W.mean(mb, zmode, vals[0])
    requires p < limit && at(p, code) && q == p + |code|
    requires |vals| == 1 || mean >= 128
    requires Recovered(R, W, limit, mean, 0, q, vals[1..])
    ensures Recovered(R, W, limit, mb, zmode, p, vals)
  {
    ReadsSample(R, W, at, range, mb, zmode, p, vals[0]);
    DecodePlain(R, limit, mb, zmode, p, |vals|, R.sample(mb, zmode, p));
    BacksStep(W, vals);
  }

  lemma RunCase(R: Reader, W: Writer, at: Placement, range: int -> bool, limit: nat, mb: Mean, zmode: nat,
                p: nat, vals: seq<int>, mean: QuietMean, code: seq<bit>, run: nat, q: nat, runCode: seq<bit>, r: nat)
    requires Inverse(R, W, at, range) && zmode <= 1 && |vals| > 1 && range(vals[0]) && (zmode == 1 ==> vals[0] != 0)
    requires code == W.sample(mb, zmode, vals[0]) && mean == W.mean(mb, zmode, vals[0]) && W.back(0) == 0
    requires p < limit && at(p, code) && q == p + |code|
    requires run == ZeroRun(vals[1..], RUN_CAP) && runCode == W.run(mean, run)
    requires at(q, runCode) && r == q + |runCode|
    requires Recovered(R, W, limit, 0, RunMode(run), r, vals[1 + run..])
    ensures Recovered(R, W, limit, mb, zmode, p, vals)
  {
    ReadsSample(R, W, at, range, mb, zmode, p, vals[0]);
    ReadsRun(R, W, at, range, mean, q, run);
    DecodeRun(R, limit, mb, zmode, p, |vals|, R.sample(mb, zmode, p), R.run(mean, q));
    BacksSplit(W, vals, run);
  }

  lemma EncodableRest(vals: seq<int>, run: nat, range: int -> bool)
    requires vals != [] && run == ZeroRun(vals[1..], RUN_CAP) && Encodable(vals, 0, range)
    ensures 1 + run <= |vals| && Encodable(vals[1 + run..], RunMode(run), range)
  {
    if RunMode(run) == 1 && vals[1 + run..] != [] {
      assert vals[1 + run..][0] == vals[1..][run];
    }
  }

  // Decoding what was encoded returns the block, whatever surrounds it, reads exactly its bits
  // and keeps the mean in lockstep with the encoder.
  lemma {:induction false} BlockRoundTrip(R: Reader, W: Writer, at: Placement, range: int -> bool, limit: nat,
                                          mb: Mean, zmode: nat, p: nat, vals: seq<int>)
    requires Splits(at) && Inverse(R, W, at, range) && Encodable(vals, zmode, range) && W.back(0) == 0
    requires at(p, EncodeWith(W, mb, zmode, vals)) && Within(W, limit, mb, zmode, p, vals)
    ensures Recovered(R, W, limit, mb, zmode, p, vals)
    decreases |vals|
  {
    if vals != [] {
      var mean := W.mean(mb, zmode, vals[0]);
      if mean < 128 && |vals| > 1 {
        var run := ZeroRun(vals[1..], RUN_CAP);
        RunInduction(R, W, at, range, limit, mb, zmode, p, vals, mean, run);
      } else {
        PlainInduction(R, W, at, range, limit, mb, zmode, p, vals, mean);
      }
    }
  }

  lemma {:induction false} PlainInduction(R: Reader, W: Writer, at: Placement, range: int -> bool, limit: nat,
                                          mb: Mean, zmode: nat, p: nat, vals: seq<int>, mean: Mean)
    requires Splits(at) && Inverse(R, W, at, range) && Encodable(vals, zmode, range) && W.back(0) == 0
    requires at(p, EncodeWith(W, mb, zmode, vals)) && Within(W, limit, mb, zmode, p, vals)
    requires vals != [] && mean == W.mean(mb, zmode, vals[0]) && (|vals| == 1 || mean >= 128)
    ensures Recovered(R, W, limit, mb, zmode, p, vals)
    decreases |vals|, 0
  {
    var code, tail := W.sample(mb, zmode, vals[0]), vals[1..];
    var q := p + |code|;
    WithinPlain(W, limit, mb, zmode, p, vals, mean, q);
    TwoParts(at, p, EncodeWith(W, mb, zmode, vals), code, EncodeWith(W, mean, 0, tail), q);
    ReadsSample(R, W, at, range, mb, zmode, p, vals[0]);
    BlockRoundTrip(R, W, at, range, limit, mean, 0, q, tail);
    PlainCase(R, W, at, range, limit, mb, zmode, p, vals, mean, code, q);
  }

  lemma {:induction false} RunInduction(R: Reader, W: Writer, at: Placement, range: int -> bool, limit: nat,
                                        mb: Mean, zmode: nat, p: nat, vals: seq<int>, mean: QuietMean, run: nat)
    requires Splits(at) && Inverse(R, W, at, range) && Encodable(vals, zmode, range) && W.back(0) == 0
    requires at(p, EncodeWith(W, mb, zmode, vals)) && Within(W, limit, mb, zmode, p, vals)
    requires |vals| > 1 && mean == W.mean(mb, zmode, vals[0]) && run == ZeroRun(vals[1..], RUN_CAP)
    ensures Recovered(R, W, limit, mb, zmode, p, vals)
    decreases |vals|, 0
  {
    var code, runCode := W.sample(mb, zmode, vals[0]), W.run(mean, run);
    var q := p + |code|;
    var r := q + |runCode|;
    WithinRun(W, limit, mb, zmode, p, vals, mean, run, r);
    EncodableRest(vals, run, range);
    var tail := vals[1 + run..];
    RunParts(W, at, mb, zmode, p, vals, mean, run, q, r);
    ReadsSample(R, W, at, range, mb, zmode, p, vals[0]);
    BlockRoundTrip(R, W, at, range, limit, 0, RunMode(run), r, tail);
    RunCase(R, W, at, range, limit, mb, zmode, p, vals, mean, code, run, q, runCode, r);
  }

  // A block that ends by the limit has all its codes begin before it.
  lemma {:induction false} EndsWithin(W: Writer, limit: nat, mb: Mean, zmode: nat, p: nat, vals: seq<int>)
    requires p + |EncodeWith(W, mb, zmode, vals)| <= limit
    requires forall m: Mean, z: nat, v: int :: |W.sample(m, z, v)| > 0
    ensures Within(W, limit, mb, zmode, p, vals)
    decreases |vals|
  {
    if vals != [] {
      var mean, q := W.mean(mb, zmode, vals[0]), p + |W.sample(mb, zmode, vals[0])|;
      if mean < 128 && |vals| > 1 {
        var run := ZeroRun(vals[1..], RUN_CAP);
        var r := q + |W.run(mean, run)|;
        RunEnds(W, mb, zmode, p, vals, mean, run, r);
        EndsWithin(W, limit, 0, RunMode(run), r, vals[1 + run..]);
        WithinRun(W, limit, mb, zmode, p, vals, mean, run, r);
      } else {
        PlainEnds(W, mb, zmode, p, vals, mean, q);
        EndsWithin(W, limit, mean, 0, q, vals[1..]);
        WithinPlain(W, limit, mb, zmode, p, vals, mean, q);
      }
    }
  }

  lemma PlainEnds(W: Writer, mb: Mean, zmode: nat, p: nat, vals: seq<int>, mean: Mean, q: nat)
    requires vals != [] && mean == W.mean(mb, zmode, vals[0]) && q == p + |W.sample(mb, zmode, vals[0])|
    requires |vals| == 1 || mean >= 128
    ensures p + |EncodeWith(W, mb, zmode, vals)| == q + |EncodeWith(W, mean, 0, vals[1..])|
  {
  }

  lemma RunEnds(W: Writer, mb: Mean, zmode: nat, p: nat, vals: seq<int>, mean: QuietMean, run: nat, r: nat)
    requires |vals| > 1 && mean == W.mean(mb, zmode, vals[0]) && run == ZeroRun(vals[1..], RUN_CAP)
    requires r == p + |W.sample(mb, zmode, vals[0])| + |W.run(mean, run)|
    ensures p + |EncodeWith(W, mb, zmode, vals)| == r + |EncodeWith(W, 0, RunMode(run), vals[1 + run..])|
  {
  }

  // A block with a sample code that begins at or behind the limit is not decoded.
  lemma {:induction false} CutOff(R: Reader, W: Writer, at: Placement, range: int -> bool, limit: nat, mb: Mean,
                                  zmode: nat, p: nat, vals: seq<int>)
    requires Splits(at) && Inverse(R, W, at, range) && Encodable(vals, zmode, range)
    requires at(p, EncodeWith(W, mb, zmode, vals)) && !Within(W, limit, mb, zmode, p, vals)
    ensures !DecodeWith(R, limit, mb, zmode, p, |vals|).ok
    decreases |vals|
  {
    if p < limit {
      var mean := W.mean(mb, zmode, vals[0]);
      if mean < 128 && |vals| > 1 {
        var run := ZeroRun(vals[1..], RUN_CAP);
        CutOffRun(R, W, at, range, limit, mb, zmode, p, vals, mean, run);
      } else {
        CutOffPlain(R, W, at, range, limit, mb, zmode, p, vals, mean);
      }
    }
  }

  lemma {:induction false} CutOffPlain(R: Reader, W: Writer, at: Placement, range: int -> bool, limit: nat, mb: Mean,
                                       zmode: nat, p: nat, vals: seq<int>, mean: Mean)
    requires Splits(at) && Inverse(R, W, at, range) && Encodable(vals, zmode, range)
    requires at(p, EncodeWith(W, mb, zmode, vals)) && !Within(W, limit, mb, zmode, p, vals) && p < limit
    requires vals != [] && mean == W.mean(mb, zmode, vals[0]) && (|vals| == 1 || mean >= 128)
    ensures !DecodeWith(R, limit, mb, zmode, p, |vals|).ok
    decreases |vals|, 0
  {
    var code, tail := W.sample(mb, zmode, vals[0]), vals[1..];
    var q := p + |code|;
    WithinPlain(W, limit, mb, zmode, p, vals, mean, q);
    TwoParts(at, p, EncodeWith(W, mb, zmode, vals), code, EncodeWith(W, mean, 0, tail), q);
    ReadsSample(R, W, at, range, mb, zmode, p, vals[0]);
    CutOff(R, W, at, range, limit, mean, 0, q, tail);
    PlainFails(R, W, at, range, limit, mb, zmode, p, vals, mean, code, q);
  }

  lemma PlainFails(R: Reader, W: Writer, at: Placement, range: int -> bool, limit: nat, mb: Mean, zmode: nat, p: nat,
                   vals: seq<int>, mean: Mean, code: seq<bit>, q: nat)
    requires Inverse(R, W, at, range) && zmode <= 1 && vals != [] && range(vals[0]) && (zmode == 1 ==> vals[0] != 0)
    requires code == W.sample(mb, zmode, vals[0]) && mean == W.mean(mb, zmode, vals[0])
    requires p < limit && at(p, code) && q == p + |code| && (|vals| == 1 || mean >= 128)
    requires !DecodeWith(R, limit, mean, 0, q, |vals| - 1).ok
    ensures !DecodeWith(R, limit, mb, zmode, p, |vals|).ok
  {
    ReadsSample(R, W, at, range, mb, zmode, p, vals[0]);
    DecodePlain(R, limit, mb, zmode, p, |vals|, R.sample(mb, zmode, p));
  }

  lemma {:induction false} CutOffRun(R: Reader, W: Writer, at: Placement, range: int -> bool, limit: nat, mb: Mean,
                                     zmode: nat, p: nat, vals: seq<int>, mean: QuietMean, run: nat)
    requires Splits(at) && Inverse(R, W, at, range) && Encodable(vals, zmode, range)
    requires at(p, EncodeWith(W, mb, zmode, vals)) && !Within(W, limit, mb, zmode, p, vals) && p < limit
    requires |vals| > 1 && mean == W.mean(mb, zmode, vals[0]) && run == ZeroRun(vals[1..], RUN_CAP)
    ensures !DecodeWith(R, limit, mb, zmode, p, |vals|).ok
    decreases |vals|, 0
  {
    var code, runCode := W.sample(mb, zmode, vals[0]), W.run(mean, run);
    var q := p + |code|;
    var r := q + |runCode|;
    WithinRun(W, limit, mb, zmode, p, vals, mean, run, r);
    EncodableRest(vals, run, range);
    var tail := vals[1 + run..];
    RunParts(W, at, mb, zmode, p, vals, mean, run, q, r);
    CutOff(R, W, at, range, limit, 0, RunMode(run), r, tail);
    RunFails(R, W, at, range, limit, mb, zmode, p, vals, mean, code, run, q, runCode, r);
  }

  // Where the parts of a block that begins with a run stand.
  lemma RunParts(W: Writer, at: Placement, mb: Mean, zmode: nat, p: nat, vals: seq<int>, mean: QuietMean, run: nat,
                 q: nat, r: nat)
    requires Splits(at) && at(p, EncodeWith(W, mb, zmode, vals))
    requires |vals| > 1 && mean == W.mean(mb, zmode, vals[0]) && run == ZeroRun(vals[1..], RUN_CAP)
    requires q == p + |W.sample(mb, zmode, vals[0])| && r == q + |W.run(mean, run)|
    ensures at(p, W.sample(mb, zmode, vals[0])) && at(q, W.run(mean, run))
    ensures at(r, EncodeWith(W, 0, RunMode(run), vals[1 + run..]))
  {
    Parts(at, p, EncodeWith(W, mb, zmode, vals), W.sample(mb, zmode, vals[0]), W.run(mean, run),
          EncodeWith(W, 0, RunMode(run), vals[1 + run..]), q, r);
  }

  lemma RunFails(R: Reader, W: Writer, at: Placement, range: int -> bool, limit: nat, mb: Mean, zmode: nat,
                 p: nat, vals: seq<int>, mean: QuietMean, code: seq<bit>, run: nat, q: nat, runCode: seq<bit>, r: nat)
    requires Inverse(R, W, at, range) && zmode <= 1 && |vals| > 1 && range(vals[0]) && (zmode == 1 ==> vals[0] != 0)
    requires code == W.sample(mb, zmode, vals[0]) && mean == W.mean(mb, zmode, vals[0])
    requires p < limit && at(p, code) && q == p + |code| && run < |vals| && run <= RUN_CAP
    requires runCode == W.run(mean, run) && at(q, runCode) && r == q + |runCode|
    requires !DecodeWith(R, limit, 0, RunMode(run), r, |vals| - 1 - run).ok
    ensures !DecodeWith(R, limit, mb, zmode, p, |vals|).ok
  {
    ReadsSample(R, W, at, range, mb, zmode, p, vals[0]);
    ReadsRun(R, W, at, range, mean, q, run);
    DecodeRun(R, limit, mb, zmode, p, |vals|, R.sample(mb, zmode, p), R.run(mean, q));
  }
}
