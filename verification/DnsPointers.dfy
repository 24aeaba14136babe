/**
 Compressed names (section 4.1.4 of RFC 1035), and what the writer keeps of a name.
 */
module DnsPointers {
  import opened Slices
  import opened DnsNames

  // A name that goes on at t: the labels in front of what is found there, the pointer two bytes long.
  function Continued(labels: seq<bytes>, r: Name, end: nat): Name {
    match r
    case Fail => Fail
    case Name(more, _, steps, jumps) => Name(labels + more, end, |labels| + 1 + steps, jumps + 1)
  }

  function PointerBytes(t: nat): bytes
    requires t < 0x4000
  {
    [0xc0 + t / 256, t % 256]
  }

  lemma PointerHere(data: bytes, p: nat, t: nat)
    requires t < 0x4000 && At(data, p, PointerBytes(t))
    ensures p + 1 < |data| && data[p] >= 0xc0 && Target(data, p) == t
  {
    var b := data[p..p + 2];
    assert data[p] == b[0] && data[p + 1] == b[1];
  }

  lemma LabelledContinued(word: bytes, labels: seq<bytes>, rest: seq<bytes>, r: Name, end: nat)
    requires labels == [word] + rest
    ensures Labelled(word, Continued(rest, r, end)) == Continued(labels, r, end)
  {
    if r.Name? {
      assert [word] + (rest + r.labels) == labels + r.labels;
    }
  }

  lemma OnlyPointer(data: bytes, p: nat, t: nat, jumps: nat, guard: nat, end: nat)
    requires t < 0x4000 && t < |data| && jumps < 8 && 0 < guard && At(data, p, PointerBytes(t)) && end == p + 2
    ensures ReadName(data, p, jumps) == Continued([], ReadName(data, t, jumps + 1), end)
    ensures ReadNameAt(data, p, guard) == Continued([], ReadNameAt(data, t, guard - 1), end)
  {
    PointerHere(data, p, t);
    var a, b := ReadName(data, t, jumps + 1), ReadNameAt(data, t, guard - 1);
    assert a.Name? ==> [] + a.labels == a.labels;
    assert b.Name? ==> [] + b.labels == b.labels;
  }

  lemma LabelFirst(labels: seq<bytes>, word: bytes, rest: seq<bytes>, tail: bytes)
    requires labels == [word] + rest && forall i :: 0 <= i < |labels| ==> 1 <= |labels[i]| <= 63
    ensures forall i :: 0 <= i < |rest| ==> 1 <= |rest[i]| <= 63
    ensures LabelBytes(labels) + tail == [|word|] + word + (LabelBytes(rest) + tail)
    ensures |LabelBytes(labels)| == 1 + |word| + |LabelBytes(rest)|
  {
    assert rest == labels[1..];
    assert forall i :: 0 <= i < |rest| ==> rest[i] == labels[i + 1];
    assert 1 <= |labels[0]| <= 63;
    var first: bytes := [|word|] + word;
    Assoc(first, LabelBytes(rest), tail);
  }

  lemma OneLabel(data: bytes, p: nat, word: bytes, q: nat, jumps: nat, guard: nat)
    requires p < |data| && data[p] == |word| && 1 <= |word| <= 63 && q == p + 1 + |word| <= |data| && 0 < guard
    requires data[p + 1..q] == word
    ensures ReadName(data, p, jumps) == Labelled(word, ReadName(data, q, jumps))
    ensures ReadNameAt(data, p, guard) == Labelled(word, ReadNameAt(data, q, guard - 1))
  {
  }

  // Both readers go on at the target, the first one jump on, the second with the steps that are left.
  lemma {:induction false} PointerFollowed(data: bytes, p: nat, labels: seq<bytes>, t: nat, jumps: nat, guard: nat,
                                           left: nat, end: nat)
    requires t < 0x4000 && t < |data| && jumps < 8 && guard == |labels| + 1 + left
    requires forall i :: 0 <= i < |labels| ==> 1 <= |labels[i]| <= 63
    requires At(data, p, LabelBytes(labels) + PointerBytes(t)) && end == p + |LabelBytes(labels)| + 2
    ensures ReadName(data, p, jumps) == Continued(labels, ReadName(data, t, jumps + 1), end)
    ensures ReadNameAt(data, p, guard) == Continued(labels, ReadNameAt(data, t, left), end)
    decreases |labels|
  {
    if labels == [] {
      assert LabelBytes(labels) + PointerBytes(t) == PointerBytes(t);
      OnlyPointer(data, p, t, jumps, guard, end);
    } else {
      var word, rest := labels[0], labels[1..];
      assert labels == [word] + rest;
      var q := p + 1 + |word|;
      LabelFirst(labels, word, rest, PointerBytes(t));
      LabelHere(data, p, word, LabelBytes(rest) + PointerBytes(t), q);
      OneLabel(data, p, word, q, jumps, guard);
      PointerFollowed(data, q, rest, t, jumps, guard - 1, left, end);
      LabelledContinued(word, labels, rest, ReadName(data, t, jumps + 1), end);
      LabelledContinued(word, labels, rest, ReadNameAt(data, t, left), end);
    }
  }

  // The ninth pointer is not followed.
  lemma NinthRefused(data: bytes, p: nat, t: nat)
    requires t < 0x4000 && At(data, p, PointerBytes(t))
    ensures ReadName(data, p, 8) == Fail
  {
    PointerHere(data, p, t);
  }

  // ---------- what is kept of a name ----------

  // The writer leaves out the empty labels and cuts the others to their first 63 bytes.
  lemma {:induction false} EmptyLeftOut(a: seq<bytes>, b: seq<bytes>)
    ensures Kept(a + ([[]] + b)) == Kept(a + b)
    decreases |a|
  {
    if a == [] {
      assert a + ([[]] + b) == [[]] + b && ([[]] + b)[1..] == b && a + b == b;
    } else {
      assert (a + ([[]] + b))[1..] == a[1..] + ([[]] + b);
      assert (a + b)[1..] == a[1..] + b;
      EmptyLeftOut(a[1..], b);
    }
  }

  lemma {:induction false} LongCut(labels: seq<bytes>, i: nat)
    requires i < |labels| && forall j :: 0 <= j < |labels| ==> labels[j] != []
    ensures |Kept(labels)| == |labels|
    ensures Kept(labels)[i] == if |labels[i]| > 63 then labels[i][..63] else labels[i]
    decreases |labels|
  {
    if |labels| > 1 {
      LongCut(labels[1..], if i > 0 then i - 1 else 0);
    }
  }
}
