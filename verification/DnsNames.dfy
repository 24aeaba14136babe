/**
 Domain names in messages (sections 3.1 and 4.1.4 of RFC 1035): the writer put_name of the advertiser, its
 reader read_name, and the DACP client's own reader read_name_at.
 */
module DnsNames {
  import opened Words
  import opened Slices

  const DOT: byte := 46
  const MAX_JUMPS: nat := 8
  const MAX_STEPS: nat := 128
  const MAX_LABEL: nat := 63

  // Labels, the offset behind the name, and the steps and jumps it took.
  datatype Name = Fail | Name(labels: seq<bytes>, next: nat, steps: nat, jumps: nat)

  // a label in front of the rest, and a pointer to the rest.
  function Labelled(word: bytes, r: Name): Name {
    match r
    case Fail => Fail
    case Name(labels, next, steps, jumps) => Name([word] + labels, next, steps + 1, jumps)
  }

  function Pointed(next: nat, r: Name): Name {
    match r
    case Fail => Fail
    case Name(labels, _, steps, jumps) => Name(labels, next, steps + 1, jumps + 1)
  }

  // The target of the pointer at pos.
  function Target(data: bytes, pos: nat): nat
    requires pos + 1 < |data|
  {
    var high: int, low: int := data[pos], data[pos + 1];
    high % 64 * 256 + low
  }

  // read_name, `jumps` pointers followed so far: at most eight, labels of at most 63 bytes.
  function ReadName(data: bytes, pos: nat, jumps: nat): Name
    decreases MAX_JUMPS - jumps, |data| - pos
  {
    if pos >= |data| then Fail
    else
      var len := data[pos];
      if len == 0 then Name([], pos + 1, 1, 0)
      else if len >= 0xc0 then
        if pos + 1 >= |data| || jumps >= MAX_JUMPS || Target(data, pos) >= |data| then Fail
        else Pointed(pos + 2, ReadName(data, Target(data, pos), jumps + 1))
      else if len >= 0x40 || pos + 1 + len > |data| then Fail
      else Labelled(data[pos + 1..pos + 1 + len], ReadName(data, pos + 1 + len, jumps))
  }

  // read_name_at, with `guard` steps left: any number of jumps, labels of up to 191 bytes.
  function ReadNameAt(data: bytes, pos: nat, guard: nat): Name
    decreases guard, pos
  {
    if guard == 0 || pos >= |data| then Fail
    else
      var len := data[pos];
      if len == 0 then Name([], pos + 1, 1, 0)
      else if len >= 0xc0 then
        if pos + 1 >= |data| then Fail else Pointed(pos + 2, ReadNameAt(data, Target(data, pos), guard - 1))
      else if pos + 1 + len > |data| then Fail
      else Labelled(data[pos + 1..pos + 1 + len], ReadNameAt(data, pos + 1 + len, guard - 1))
  }

  // ---------- the two readers agree ----------

  ghost predicate ShortLabels(labels: seq<bytes>) {
    forall i :: 0 <= i < |labels| ==> |labels[i]| <= MAX_LABEL
  }

  // A name read by the first is read alike by the second when the steps suffice, and a name read by the
  // second is read alike by the first when it has few jumps and short labels.
  lemma {:induction false} ReadersAgree(data: bytes, pos: nat, jumps: nat, guard: nat)
    requires jumps <= MAX_JUMPS
    ensures var a, b := ReadName(data, pos, jumps), ReadNameAt(data, pos, guard);
            && (a.Name? && a.steps <= guard ==> b == a)
            && (b.Name? && jumps + b.jumps <= MAX_JUMPS && ShortLabels(b.labels) ==> a == b)
    decreases guard
  {
    if pos < |data| && data[pos] != 0 && guard > 0 {
      var len := data[pos];
      if len >= 0xc0 {
        if pos + 1 < |data| {
          if jumps < MAX_JUMPS {
            ReadersAgree(data, Target(data, pos), jumps + 1, guard - 1);
          }
        }
      } else if pos + 1 + len <= |data| {
        ReadersAgree(data, pos + 1 + len, jumps, guard - 1);
        var r := ReadNameAt(data, pos + 1 + len, guard - 1);
        if r.Name? {
          LabelledShort(data[pos + 1..pos + 1 + len], r);
        }
      }
    }
    StepsPositive(data, pos, jumps);
  }

  lemma LabelledShort(word: bytes, r: Name)
    requires r.Name?
    ensures ShortLabels(Labelled(word, r).labels) ==> |word| <= MAX_LABEL && ShortLabels(r.labels)
    ensures |word| <= MAX_LABEL && ShortLabels(r.labels) ==> ShortLabels(Labelled(word, r).labels)
  {
    var all := Labelled(word, r).labels;
    assert all[0] == word;
    assert forall i :: 0 <= i < |r.labels| ==> all[i + 1] == r.labels[i];
  }

  lemma {:induction false} StepsPositive(data: bytes, pos: nat, jumps: nat)
    ensures ReadName(data, pos, jumps).Name? ==> ReadName(data, pos, jumps).steps >= 1
  {
  }

  lemma {:induction false} StepsWithin(data: bytes, pos: nat, guard: nat)
    ensures ReadNameAt(data, pos, guard).Name? ==> ReadNameAt(data, pos, guard).steps <= guard
    decreases guard
  {
    if guard > 0 && pos < |data| && data[pos] != 0 {
      if data[pos] >= 0xc0 {
        if pos + 1 < |data| {
          StepsWithin(data, Target(data, pos), guard - 1);
        }
      } else {
        StepsWithin(data, pos + 1 + data[pos], guard - 1);
      }
    }
  }

  lemma {:induction false} JumpsWithin(data: bytes, pos: nat, jumps: nat)
    requires jumps <= MAX_JUMPS
    ensures var a := ReadName(data, pos, jumps);
            a.Name? ==> jumps + a.jumps <= MAX_JUMPS && ShortLabels(a.labels)
    decreases MAX_JUMPS - jumps, |data| - pos
  {
    if pos < |data| && data[pos] != 0 {
      var len := data[pos];
      if len >= 0xc0 {
        if pos + 1 < |data| && jumps < MAX_JUMPS && Target(data, pos) < |data| {
          JumpsWithin(data, Target(data, pos), jumps + 1);
        }
      } else if len < 0x40 && pos + 1 + len <= |data| {
        JumpsWithin(data, pos + 1 + len, jumps);
        var r := ReadName(data, pos + 1 + len, jumps);
        if r.Name? {
          LabelledShort(data[pos + 1..pos + 1 + len], r);
        }
      }
    }
  }

  // ---------- walks over a message ----------

  // From p the name goes on at q: behind a label, or where a pointer points.
  predicate Step(data: bytes, p: nat, q: nat) {
    p < |data| && data[p] != 0 &&
    if data[p] >= 0xc0 then p + 1 < |data| && q == Target(data, p) else q == p + 1 + data[p] <= |data|
  }

  // The positions a name that starts at pos goes through, up to its end.
  ghost predicate Walk(data: bytes, pos: nat, path: seq<nat>)
    decreases |path|
  {
    path != [] && path[0] == pos &&
    if |path| == 1 then pos < |data| && data[pos] == 0
    else Step(data, pos, path[1]) && Walk(data, path[1], path[1..])
  }

  function Pointers(data: bytes, path: seq<nat>): nat {
    if path == [] then 0
    else (if path[0] < |data| && data[path[0]] >= 0xc0 then 1 else 0) + Pointers(data, path[1..])
  }

  ghost predicate ShortWalk(data: bytes, path: seq<nat>) {
    forall i :: 0 <= i < |path| && path[i] < |data| ==> data[path[i]] <= MAX_LABEL || data[path[i]] >= 0xc0
  }

  // There is at most one.
  lemma {:induction false} WalkUnique(data: bytes, pos: nat, x: seq<nat>, y: seq<nat>)
    requires Walk(data, pos, x) && Walk(data, pos, y)
    ensures x == y
    decreases |x|
  {
    if |x| > 1 {
      WalkUnique(data, x[1], x[1..], y[1..]);
      assert x == [x[0]] + x[1..] && y == [y[0]] + y[1..];
    }
  }

  lemma ShortStep(data: bytes, pos: nat, path: seq<nat>)
    requires path != [] && path[0] == pos < |data|
    ensures ShortWalk(data, path)
            <==> (data[pos] <= MAX_LABEL || data[pos] >= 0xc0) && ShortWalk(data, path[1..])
  {
    if ShortWalk(data, path) {
      assert data[path[0]] <= MAX_LABEL || data[path[0]] >= 0xc0;
      assert forall i :: 0 <= i < |path[1..]| ==> path[1..][i] == path[i + 1];
    }
    if (data[pos] <= MAX_LABEL || data[pos] >= 0xc0) && ShortWalk(data, path[1..]) {
      forall i | 0 <= i < |path| && path[i] < |data|
        ensures data[path[i]] <= MAX_LABEL || data[path[i]] >= 0xc0
      {
        if i > 0 {
          assert path[1..][i - 1] == path[i];
        }
      }
    }
  }

  lemma WalkStep(data: bytes, pos: nat, path: seq<nat>, next: nat)
    requires Step(data, pos, next) && Walk(data, next, path)
    ensures Walk(data, pos, [pos] + path)
    ensures Pointers(data, [pos] + path) == (if data[pos] >= 0xc0 then 1 else 0) + Pointers(data, path)
    ensures ShortWalk(data, [pos] + path)
            <==> (data[pos] <= MAX_LABEL || data[pos] >= 0xc0) && ShortWalk(data, path)
  {
    var whole := [pos] + path;
    assert whole[1..] == path && whole[1] == next;
    ShortStep(data, pos, whole);
  }

  // A name the second reader reads is walked in its steps and jumps.
  lemma {:induction false} WalkOf(data: bytes, pos: nat, guard: nat) returns (path: seq<nat>)
    requires ReadNameAt(data, pos, guard).Name?
    ensures Walk(data, pos, path) && |path| == ReadNameAt(data, pos, guard).steps
    ensures Pointers(data, path) == ReadNameAt(data, pos, guard).jumps
    ensures ShortWalk(data, path) <==> ShortLabels(ReadNameAt(data, pos, guard).labels)
    decreases guard
  {
    if data[pos] == 0 {
      path := [pos];
      assert Pointers(data, path[1..]) == 0;
    } else {
      var len := data[pos];
      var next := if len >= 0xc0 then Target(data, pos) else pos + 1 + len;
      var rest := WalkOf(data, next, guard - 1);
      WalkStep(data, pos, rest, next);
      path := [pos] + rest;
      if len < 0xc0 {
        LabelledShort(data[pos + 1..next], ReadNameAt(data, next, guard - 1));
      }
    }
  }

  // A walk within the guard is read by the second reader.
  lemma {:induction false} WalkRead(data: bytes, pos: nat, path: seq<nat>, guard: nat)
    requires Walk(data, pos, path) && |path| <= guard
    ensures ReadNameAt(data, pos, guard).Name?
    decreases |path|
  {
    if |path| > 1 {
      WalkRead(data, path[1], path[1..], guard - 1);
    }
  }

  // And one with few pointers and short labels by the first.
  lemma {:induction false} WalkReadFirst(data: bytes, pos: nat, path: seq<nat>, jumps: nat)
    requires Walk(data, pos, path) && jumps + Pointers(data, path) <= MAX_JUMPS && ShortWalk(data, path)
    ensures ReadName(data, pos, jumps).Name? && ReadName(data, pos, jumps).steps == |path|
    decreases |path|
  {
    if |path| > 1 {
      ShortStep(data, pos, path);
      if data[pos] >= 0xc0 {
        InBounds(data, path[1], path[1..]);
        WalkReadFirst(data, path[1], path[1..], jumps + 1);
      } else {
        WalkReadFirst(data, path[1], path[1..], jumps);
      }
    }
  }

  lemma InBounds(data: bytes, pos: nat, path: seq<nat>)
    requires Walk(data, pos, path)
    ensures pos < |data|
  {
  }

  // What the first reader reads, the second reads with steps enough.
  lemma WalkOfFirst(data: bytes, pos: nat) returns (path: seq<nat>)
    requires ReadName(data, pos, 0).Name?
    ensures Walk(data, pos, path) && Pointers(data, path) <= MAX_JUMPS && ShortWalk(data, path)
  {
    var a := ReadName(data, pos, 0);
    ReadersAgree(data, pos, 0, a.steps);
    JumpsWithin(data, pos, 0);
    path := WalkOf(data, pos, a.steps);
  }

  // The two readers agree on a message exactly when the walk of the name, if it comes to an end at all, takes at
  // most 128 steps if and only if it takes at most eight pointers and labels of at most 63 bytes.
  lemma AgreeExactly(data: bytes, pos: nat, guard: nat)
    requires guard == MAX_STEPS
    ensures ReadName(data, pos, 0) == ReadNameAt(data, pos, guard) <==>
            forall path :: Walk(data, pos, path) ==>
              (|path| <= MAX_STEPS <==> Pointers(data, path) <= MAX_JUMPS && ShortWalk(data, path))
  {
    var a, b := ReadName(data, pos, 0), ReadNameAt(data, pos, guard);
    if a.Name? || b.Name? {
      var path: seq<nat>;
      if a.Name? {
        path := WalkOfFirst(data, pos);
      } else {
        path := WalkOf(data, pos, guard);
      }
      WalkDecides(data, pos, guard, path);
      forall other | Walk(data, pos, other)
        ensures other == path
      {
        WalkUnique(data, pos, other, path);
      }
    } else {
      forall path | Walk(data, pos, path)
        ensures |path| <= MAX_STEPS <==> Pointers(data, path) <= MAX_JUMPS && ShortWalk(data, path)
      {
        WalkDecides(data, pos, guard, path);
      }
    }
  }

  lemma WalkDecides(data: bytes, pos: nat, guard: nat, path: seq<nat>)
    requires guard == MAX_STEPS && Walk(data, pos, path)
    ensures ReadNameAt(data, pos, guard).Name? <==> |path| <= MAX_STEPS
    ensures ReadName(data, pos, 0).Name? <==> Pointers(data, path) <= MAX_JUMPS && ShortWalk(data, path)
    ensures ReadName(data, pos, 0) == ReadNameAt(data, pos, guard)
            <==> (ReadName(data, pos, 0).Name? <==> ReadNameAt(data, pos, guard).Name?)
  {
    var a, b := ReadName(data, pos, 0), ReadNameAt(data, pos, guard);
    if b.Name? {
      StepsWithin(data, pos, guard);
      var y := WalkOf(data, pos, guard);
      WalkUnique(data, pos, path, y);
    }
    if |path| <= MAX_STEPS {
      WalkRead(data, pos, path, guard);
    }
    if a.Name? {
      var x := WalkOfFirst(data, pos);
      WalkUnique(data, pos, path, x);
    }
    if Pointers(data, path) <= MAX_JUMPS && ShortWalk(data, path) {
      WalkReadFirst(data, pos, path, 0);
    }
    ReadersAgree(data, pos, 0, guard);
  }

  // ---------- text ----------

  // Labels joined by dots.
  function Join(labels: seq<bytes>): bytes {
    if labels == [] then []
    else if |labels| == 1 then labels[0]
    else labels[0] + [DOT] + Join(labels[1..])
  }

  // The first dot, or the end.
  function Dot(name: bytes): (d: nat)
    ensures d <= |name| && DOT !in name[..d] && (d < |name| ==> name[d] == DOT)
  {
    if name == [] || name[0] == DOT then 0
    else
      var d := Dot(name[1..]);
      assert name[..d + 1] == [name[0]] + name[1..][..d];
      d + 1
  }

  function Split(name: bytes): (labels: seq<bytes>)
    ensures |labels| >= 1
    decreases |name|
  {
    var d := Dot(name);
    if d == |name| then [name] else [name[..d]] + Split(name[d + 1..])
  }

  lemma {:induction false} JoinSplit(name: bytes)
    ensures Join(Split(name)) == name
    decreases |name|
  {
    var d := Dot(name);
    if d < |name| {
      var rest := name[d + 1..];
      JoinSplit(rest);
      JoinCons(name[..d], Split(rest), Split(name));
      DotCuts(name, d, rest);
    }
  }

  lemma DotCuts(name: bytes, d: nat, rest: bytes)
    requires d < |name| && name[d] == DOT && rest == name[d + 1..]
    ensures name[..d] + [DOT] + rest == name
  {
  }

  lemma JoinCons(first: bytes, rest: seq<bytes>, labels: seq<bytes>)
    requires labels == [first] + rest && rest != []
    ensures Join(labels) == first + [DOT] + Join(rest)
  {
    assert labels[1..] == rest;
  }

  // Empty labels dropped, long ones cut to 63 bytes.
  function Kept(labels: seq<bytes>): (r: seq<bytes>)
    ensures forall i :: 0 <= i < |r| ==> 1 <= |r[i]| <= MAX_LABEL
  {
    if labels == [] then []
    else if labels[0] == [] then Kept(labels[1..])
    else [if |labels[0]| > MAX_LABEL then labels[0][..MAX_LABEL] else labels[0]] + Kept(labels[1..])
  }

  ghost predicate Normal(name: bytes) {
    forall i :: 0 <= i < |Split(name)| ==> 1 <= |Split(name)[i]| <= MAX_LABEL
  }

  lemma {:induction false} KeptNormal(labels: seq<bytes>)
    requires forall i :: 0 <= i < |labels| ==> 1 <= |labels[i]| <= MAX_LABEL
    ensures Kept(labels) == labels
  {
    if labels != [] {
      KeptNormal(labels[1..]);
      assert labels == [labels[0]] + labels[1..];
    }
  }

  // ---------- writing ----------

  function LabelBytes(labels: seq<bytes>): bytes
    requires forall i :: 0 <= i < |labels| ==> 1 <= |labels[i]| <= MAX_LABEL
  {
    if labels == [] then [] else [|labels[0]|] + labels[0] + LabelBytes(labels[1..])
  }

  // put_name
  function PutName(name: bytes): (b: bytes)
    ensures |b| >= 1
  {
    LabelBytes(Kept(Split(name))) + [0]
  }

  lemma LabelHere(data: bytes, p: nat, word: bytes, rest: bytes, q: nat)
    requires 1 <= |word| <= MAX_LABEL && At(data, p, [|word|] + word + rest) && q == p + 1 + |word|
    ensures p < |data| && data[p] == |word| && q <= |data| && data[p + 1..q] == word && At(data, q, rest)
  {
    AtParts(data, p, [|word|] + word, rest, q);
    AtParts(data, p, [|word|], word, p + 1);
    assert data[p] == data[p..p + 1][0];
  }

  // Labels written are read back by both readers, whatever was followed before.
  lemma {:induction false} LabelsRead(data: bytes, p: nat, labels: seq<bytes>, jumps: nat, guard: nat, end: nat)
    requires forall i :: 0 <= i < |labels| ==> 1 <= |labels[i]| <= MAX_LABEL
    requires At(data, p, LabelBytes(labels) + [0]) && end == p + |LabelBytes(labels)| + 1
    ensures ReadName(data, p, jumps) == Name(labels, end, |labels| + 1, 0)
    ensures ReadNameAt(data, p, guard) == if |labels| < guard then Name(labels, end, |labels| + 1, 0) else Fail
    decreases |labels|
  {
    if labels == [] {
      assert LabelBytes(labels) + [0] == [0];
      assert data[p] == data[p..p + 1][0];
    } else {
      var word, rest := labels[0], labels[1..];
      var q := p + 1 + |word|;
      assert LabelBytes(labels) + [0] == [|word|] + word + (LabelBytes(rest) + [0]);
      LabelHere(data, p, word, LabelBytes(rest) + [0], q);
      LabelsRead(data, q, rest, jumps, if guard > 0 then guard - 1 else 0, end);
      assert labels == [word] + rest;
    }
  }

  // Both readers invert put_name: up to empty and overlong labels for every name, exactly for normal ones.
  lemma NameReadBack(data: bytes, p: nat, name: bytes, jumps: nat, guard: nat)
    requires At(data, p, PutName(name))
    ensures var labels := Kept(Split(name));
            && ReadName(data, p, jumps) == Name(labels, p + |PutName(name)|, |labels| + 1, 0)
            && (|labels| < guard ==> ReadNameAt(data, p, guard) == Name(labels, p + |PutName(name)|, |labels| + 1, 0))
            && (Normal(name) ==> Join(labels) == name)
  {
    var labels := Kept(Split(name));
    LabelsRead(data, p, labels, jumps, guard, p + |PutName(name)|);
    if Normal(name) {
      KeptNormal(Split(name));
      JoinSplit(name);
    }
  }

  // ---------- where the readers differ ----------

  // A label of 64 bytes.
  function LongLabel(): bytes {
    seq(64, (i: nat) => 97)
  }

  lemma LongLabelDiffers(data: bytes, guard: nat)
    requires data == [64] + LongLabel() + [0] && guard == MAX_STEPS
    ensures ReadName(data, 0, 0) == Fail && ReadNameAt(data, 0, guard) == Name([LongLabel()], 66, 2, 0)
  {
    assert data[1..65] == LongLabel();
    var rest := guard - 1;
    assert ReadNameAt(data, 65, rest) == Name([], 66, 1, 0);
    assert [LongLabel()] + [] == [LongLabel()];
  }

  // Nine pointers, each to the next, and the end they lead to.
  function Chain(): bytes {
    seq(19, (i: nat) => if i == 18 then 0 else if i % 2 == 0 then 0xc0 else i + 1)
  }

  lemma {:induction false} ChainRead(data: bytes, pos: nat, left: nat, jumps: nat, guard: nat)
    requires data == Chain() && pos + left + left == 18 && jumps <= MAX_JUMPS
    ensures ReadName(data, pos, jumps).Name? <==> jumps + left <= MAX_JUMPS
    ensures ReadNameAt(data, pos, guard).Name? <==> left < guard
    ensures left < guard ==> ReadNameAt(data, pos, guard).jumps == left
    decreases left
  {
    if left > 0 {
      assert data[pos] == 0xc0 && Target(data, pos) == pos + 2;
      ChainRead(data, pos + 2, left - 1, if jumps < MAX_JUMPS then jumps + 1 else jumps,
                if guard > 0 then guard - 1 else 0);
    }
  }

  lemma NinePointersDiffer(data: bytes, guard: nat)
    requires data == Chain() && guard == MAX_STEPS
    ensures ReadName(data, 0, 0) == Fail && ReadNameAt(data, 0, guard).Name? && ReadNameAt(data, 0, guard).jumps == 9
  {
    ChainRead(data, 0, 9, 0, guard);
  }

  // 128 labels of one byte each, so 129 steps.
  function OneByteLabels(n: nat): seq<bytes> {
    seq(n, (i: nat) => [97])
  }

  lemma ManyStepsDiffer(data: bytes, n: nat, guard: nat)
    requires n == guard == MAX_STEPS && data == LabelBytes(OneByteLabels(n)) + [0]
    ensures ReadName(data, 0, 0).Name? && ReadName(data, 0, 0).steps == 129 && ReadNameAt(data, 0, guard) == Fail
  {
    assert At(data, 0, data);
    LabelsRead(data, 0, OneByteLabels(n), 0, guard, |data|);
  }
}
