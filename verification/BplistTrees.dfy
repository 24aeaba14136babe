/**
 Trees of dictionaries, arrays, strings and 16-bit integers: laid out as a list of objects, written and
 parsed they come back; the reply to SETUP is one of them.
 */
module BplistTrees {
  import opened Words
  import opened Slices
  import opened Plist
  import opened BplistWriter

  datatype Tree =
    | Leaf(text: bytes)
    | Count(n: uint16)
    | List(items: seq<Tree>)
    | Dict(keys: seq<bytes>, vals: seq<Tree>)

  // ---------- what a tree stands for ----------

  function ValueOf(t: Tree): Value {
    match t
    case Leaf(text) => String(text)
    case Count(n) => Integer(n)
    case List(items) => Array(ValuesOf(items))
    case Dict(keys, vals) => Dictionary(Bound(keys, ValuesOf(vals), map[]))
  }

  function ValuesOf(ts: seq<Tree>): (vs: seq<Value>)
    ensures |vs| == |ts|
  {
    if ts == [] then [] else [ValueOf(ts[0])] + ValuesOf(ts[1..])
  }

  // Keys bound in order, the first of equal ones staying.
  function Bound(keys: seq<bytes>, vals: seq<Value>, done: map<bytes, Value>): map<bytes, Value> {
    if keys == [] || vals == [] then done else Bound(keys[1..], vals[1..], Emplace(done, keys[0], vals[0]))
  }

  // The longest chain of references below the root.
  function Height(t: Tree): nat {
    match t
    case List(items) => HeightAll(items)
    case Dict(keys, vals) => if keys == [] && vals == [] then 0 else if vals == [] then 1 else HeightAll(vals)
    case _ => 0
  }

  function HeightAll(ts: seq<Tree>): nat {
    if ts == [] then 0
    else
      var h, rest := Height(ts[0]) + 1, HeightAll(ts[1..]);
      if h > rest then h else rest
  }

  // ---------- the graph holds the tree ----------

  // Object i of the graph is the root of t.
  ghost predicate Holds(g: Graph, i: nat, t: Tree)
    decreases t, 1
  {
    match t
    case Leaf(text) => g(i) == Atom(String(text))
    case Count(n) => g(i) == Atom(Integer(n))
    case List(items) => g(i).ArrayNode? && HoldsAll(g, g(i).refs, items)
    case Dict(keys, vals) =>
      g(i).DictNode? && |keys| == |vals| && HoldsKeys(g, g(i).keys, keys) && HoldsAll(g, g(i).vals, vals)
  }

  ghost predicate HoldsAll(g: Graph, refs: seq<nat>, ts: seq<Tree>)
    decreases ts, 0
  {
    |refs| == |ts| && (ts != [] ==> Holds(g, refs[0], ts[0]) && HoldsAll(g, refs[1..], ts[1..]))
  }

  ghost predicate HoldsKeys(g: Graph, refs: seq<nat>, keys: seq<bytes>) {
    |refs| == |keys| &&
    (keys != [] ==> g(refs[0]) == Atom(String(keys[0])) && HoldsKeys(g, refs[1..], keys[1..]))
  }

  // ---------- parsing a tree that is there ----------

  lemma {:induction false} TreeParses(g: Graph, i: nat, t: Tree, depth: nat)
    requires Holds(g, i, t) && depth + Height(t) <= MAX_DEPTH
    ensures ParseObject(g, i, depth) == Ok(ValueOf(t))
    decreases t, 1
  {
    match t
    case List(items) => ItemsOf(g, g(i).refs, items, depth + 1);
    case Dict(keys, vals) => EntriesOf(g, g(i).keys, g(i).vals, keys, vals, depth + 1, map[]);
    case _ =>
  }

  lemma {:induction false} ItemsOf(g: Graph, refs: seq<nat>, ts: seq<Tree>, depth: nat)
    requires HoldsAll(g, refs, ts) && (ts != [] ==> depth - 1 + HeightAll(ts) <= MAX_DEPTH)
    ensures ParseItems(g, refs, depth) == Ok(ValuesOf(ts))
    decreases ts, 0
  {
    if ts != [] {
      TreeParses(g, refs[0], ts[0], depth);
      ItemsOf(g, refs[1..], ts[1..], depth);
    }
  }

  lemma {:induction false} EntriesOf(g: Graph, keyRefs: seq<nat>, valRefs: seq<nat>, keys: seq<bytes>, ts: seq<Tree>,
                                     depth: nat, done: map<bytes, Value>)
    requires |keys| == |ts| && HoldsKeys(g, keyRefs, keys) && HoldsAll(g, valRefs, ts)
    requires ts != [] ==> depth - 1 + HeightAll(ts) <= MAX_DEPTH
    ensures ParseEntries(g, keyRefs, valRefs, depth, done) == Ok(Dictionary(Bound(keys, ValuesOf(ts), done)))
    decreases ts, 0
  {
    if ts != [] {
      TreeParses(g, valRefs[0], ts[0], depth);
      assert ParseObject(g, keyRefs[0], depth) == Ok(String(keys[0]));
      EntriesOf(g, keyRefs[1..], valRefs[1..], keys[1..], ts[1..], depth, Emplace(done, keys[0], ValueOf(ts[0])));
      assert ValuesOf(ts)[1..] == ValuesOf(ts[1..]);
    }
  }

  // ---------- laying a tree out ----------

  function Size(t: Tree): (n: nat)
    ensures n >= 1
  {
    match t
    case List(items) => 1 + SizeAll(items)
    case Dict(keys, vals) => 1 + |keys| + SizeAll(vals)
    case _ => 1
  }

  function SizeAll(ts: seq<Tree>): nat {
    if ts == [] then 0 else Size(ts[0]) + SizeAll(ts[1..])
  }

  // Where the roots of consecutive trees lie, the first at base.
  function Roots(ts: seq<Tree>, base: nat): (refs: seq<nat>)
    ensures |refs| == |ts|
    decreases |ts|
  {
    if ts == [] then [] else [base] + Roots(ts[1..], base + Size(ts[0]))
  }

  function Consecutive(n: nat, base: nat): (refs: seq<nat>)
    ensures |refs| == n
    decreases n
  {
    if n == 0 then [] else [base] + Consecutive(n - 1, base + 1)
  }

  function KeyObjects(keys: seq<bytes>): (objs: seq<Obj>)
    ensures |objs| == |keys|
  {
    if keys == [] then [] else [Text(keys[0])] + KeyObjects(keys[1..])
  }

  // The objects of a tree, root first, when the root has index base: a container, its keys, and then the
  // objects of its items.
  function Flatten(t: Tree, base: nat): (objs: seq<Obj>)
    ensures |objs| == Size(t)
    decreases t, 1
  {
    match t
    case Leaf(text) => [Text(text)]
    case Count(n) => [Number(n)]
    case List(items) => [Items(Roots(items, base + 1))] + FlattenAll(items, base + 1)
    case Dict(keys, vals) =>
      var first := base + 1 + |keys|;
      [Entries(Consecutive(|keys|, base + 1), Roots(vals, first))] + KeyObjects(keys) + FlattenAll(vals, first)
  }

  function FlattenAll(ts: seq<Tree>, base: nat): (objs: seq<Obj>)
    ensures |objs| == SizeAll(ts)
    decreases ts, 0
  {
    if ts == [] then [] else Flatten(ts[0], base) + FlattenAll(ts[1..], base + Size(ts[0]))
  }

  // The graph holds these objects from index base on.
  ghost predicate Lies(g: Graph, base: nat, objs: seq<Obj>)
    decreases |objs|
  {
    objs == [] || (g(base) == NodeOf(objs[0]) && Lies(g, base + 1, objs[1..]))
  }

  lemma {:induction false} LiesSplit(g: Graph, base: nat, a: seq<Obj>, b: seq<Obj>, q: nat)
    requires Lies(g, base, a + b) && q == base + |a|
    ensures Lies(g, base, a) && Lies(g, q, b)
    decreases |a|
  {
    if a == [] {
      assert a + b == b;
    } else {
      assert (a + b)[1..] == a[1..] + b;
      LiesSplit(g, base + 1, a[1..], b, q);
    }
  }

  // Every dictionary has as many keys as values.
  ghost predicate Paired(t: Tree) {
    match t
    case List(items) => forall i :: 0 <= i < |items| ==> Paired(items[i])
    case Dict(keys, vals) => |keys| == |vals| && forall i :: 0 <= i < |vals| ==> Paired(vals[i])
    case _ => true
  }

  lemma {:induction false} KeysHeld(g: Graph, base: nat, keys: seq<bytes>)
    requires Lies(g, base, KeyObjects(keys))
    ensures HoldsKeys(g, Consecutive(|keys|, base), keys)
    decreases |keys|
  {
    if keys != [] {
      assert KeyObjects(keys)[1..] == KeyObjects(keys[1..]);
      KeysHeld(g, base + 1, keys[1..]);
    }
  }

  // A graph that holds the objects of a tree holds the tree.
  lemma {:induction false} FlattenHeld(g: Graph, base: nat, t: Tree)
    requires Paired(t) && Lies(g, base, Flatten(t, base))
    ensures Holds(g, base, t)
    decreases t, 1
  {
    match t
    case Leaf(_) =>
    case Count(_) =>
    case List(items) =>
      var root := [Items(Roots(items, base + 1))];
      LiesSplit(g, base, root, FlattenAll(items, base + 1), base + 1);
      FlattenAllHeld(g, base + 1, items);
    case Dict(keys, vals) =>
      var first := base + 1 + |keys|;
      var root := [Entries(Consecutive(|keys|, base + 1), Roots(vals, first))];
      LiesSplit(g, base, root + KeyObjects(keys), FlattenAll(vals, first), first);
      LiesSplit(g, base, root, KeyObjects(keys), base + 1);
      KeysHeld(g, base + 1, keys);
      FlattenAllHeld(g, first, vals);
  }

  lemma {:induction false} FlattenAllHeld(g: Graph, base: nat, ts: seq<Tree>)
    requires (forall i :: 0 <= i < |ts| ==> Paired(ts[i])) && Lies(g, base, FlattenAll(ts, base))
    ensures HoldsAll(g, Roots(ts, base), ts)
    decreases ts, 0
  {
    if ts != [] {
      var next := base + Size(ts[0]);
      LiesSplit(g, base, Flatten(ts[0], base), FlattenAll(ts[1..], next), next);
      FlattenHeld(g, base, ts[0]);
      FlattenAllHeld(g, next, ts[1..]);
    }
  }

  lemma {:induction false} LiesFrom(g: Graph, base: nat, objs: seq<Obj>)
    requires forall i :: 0 <= i < |objs| ==> g(base + i) == NodeOf(objs[i])
    ensures Lies(g, base, objs)
    decreases |objs|
  {
    if objs != [] {
      assert g(base + 0) == NodeOf(objs[0]);
      forall i | 0 <= i < |objs[1..]|
        ensures g(base + 1 + i) == NodeOf(objs[1..][i])
      {
        assert g(base + (i + 1)) == NodeOf(objs[i + 1]);
      }
      LiesFrom(g, base + 1, objs[1..]);
    }
  }

  // ---------- the round trip ----------

  // Written and parsed, a tree at most 16 references deep comes back.
  lemma TreeRoundTrip(t: Tree)
    requires Paired(t) && Height(t) <= 16 && WellSized(Flatten(t, 0))
    ensures Parse(Layout(Flatten(t, 0))) == Ok(ValueOf(t))
  {
    var objs := Flatten(t, 0);
    DocumentRead(objs);
    var g := GraphOf(Open(Layout(objs)).value);
    assert forall i :: 0 <= i < |objs| ==> g(0 + i) == NodeOf(objs[i]);
    LiesFrom(g, 0, objs);
    FlattenHeld(g, 0, t);
    TreeParses(g, 0, t, 0);
  }

  // ---------- the reply to SETUP ----------

  function SetupObjects(dataPort: uint16, controlPort: uint16): (objs: seq<Obj>)
    ensures |objs| == 10
  {
    [Entries([1], [2]), Text(Ascii("streams")), Items([3]), Entries([4, 5, 6], [7, 8, 9]),
     Text(Ascii("dataPort")), Text(Ascii("controlPort")), Text(Ascii("type")),
     Number(dataPort), Number(controlPort), Number(96)]
  }

  // { streams = [ { dataPort; controlPort; type = 96 } ] }
  function SetupTree(dataPort: uint16, controlPort: uint16): Tree {
    Dict([Ascii("streams")],
         [List([Dict([Ascii("dataPort"), Ascii("controlPort"), Ascii("type")],
                     [Count(dataPort), Count(controlPort), Count(96)])])])
  }

  lemma SetupHeld(g: Graph, dataPort: uint16, controlPort: uint16)
    requires forall i :: 0 <= i < 10 ==> g(i) == NodeOf(SetupObjects(dataPort, controlPort)[i])
    ensures Holds(g, 0, SetupTree(dataPort, controlPort))
  {
    var stream := Dict([Ascii("dataPort"), Ascii("controlPort"), Ascii("type")],
                       [Count(dataPort), Count(controlPort), Count(96)]);
    SetupStreamHeld(g, dataPort, controlPort, stream);
    assert HoldsAll(g, [3], [stream]);
    assert g(2) == NodeOf(SetupObjects(dataPort, controlPort)[2]) == ArrayNode([3]);
    assert Holds(g, 2, List([stream]));
    assert HoldsAll(g, [2], [List([stream])]);
    assert HoldsKeys(g, [1], [Ascii("streams")]);
  }

  lemma SetupStreamHeld(g: Graph, dataPort: uint16, controlPort: uint16, stream: Tree)
    requires forall i :: 0 <= i < 10 ==> g(i) == NodeOf(SetupObjects(dataPort, controlPort)[i])
    requires stream == Dict([Ascii("dataPort"), Ascii("controlPort"), Ascii("type")],
                            [Count(dataPort), Count(controlPort), Count(96)])
    ensures Holds(g, 3, stream)
  {
    assert HoldsKeys(g, [6], [Ascii("type")]);
    assert HoldsKeys(g, [5, 6], [Ascii("controlPort"), Ascii("type")]);
    assert HoldsKeys(g, [4, 5, 6], [Ascii("dataPort"), Ascii("controlPort"), Ascii("type")]);
    assert HoldsAll(g, [9], [Count(96)]);
    assert HoldsAll(g, [8, 9], [Count(controlPort), Count(96)]);
    assert HoldsAll(g, [7, 8, 9], [Count(dataPort), Count(controlPort), Count(96)]);
  }

  // Objects of at most 100 bytes.
  ghost predicate Small(objs: seq<Obj>) {
    objs == [] || (|Encode(objs[0])| <= 100 && Writable(objs[0]) && Small(objs[1..]))
  }

  lemma {:induction false} SmallBodies(objs: seq<Obj>)
    requires Small(objs)
    ensures |Bodies(Encoded(objs))| <= 100 * |objs|
    ensures forall i :: 0 <= i < |objs| ==> Writable(objs[i])
    decreases |objs|
  {
    if objs != [] {
      SmallBodies(objs[1..]);
      assert Encoded(objs)[1..] == Encoded(objs[1..]);
      assert forall i :: 0 < i < |objs| ==> objs[i] == objs[1..][i - 1];
    }
  }

  lemma AddText(text: bytes, rest: seq<Obj>)
    requires |text| < 15 && Small(rest)
    ensures Small([Text(text)] + rest)
  {
    assert ([Text(text)] + rest)[1..] == rest;
  }

  lemma AddNumber(n: uint16, rest: seq<Obj>)
    requires Small(rest)
    ensures Small([Number(n)] + rest)
  {
    assert ([Number(n)] + rest)[1..] == rest;
  }

  lemma AddItems(refs: seq<nat>, rest: seq<Obj>)
    requires |refs| < 15 && AllByte(refs) && Small(rest)
    ensures Small([Items(refs)] + rest)
  {
    assert ([Items(refs)] + rest)[1..] == rest;
  }

  lemma AddEntries(keys: seq<nat>, vals: seq<nat>, rest: seq<Obj>)
    requires |keys| == |vals| < 15 && AllByte(keys) && AllByte(vals) && Small(rest)
    ensures Small([Entries(keys, vals)] + rest)
  {
    assert ([Entries(keys, vals)] + rest)[1..] == rest;
  }

  lemma SetupTexts(numbers: seq<Obj>)
    requires Small(numbers)
    ensures Small([Text(Ascii("dataPort")), Text(Ascii("controlPort")), Text(Ascii("type"))] + numbers)
  {
    AddText(Ascii("type"), numbers);
    AddText(Ascii("controlPort"), [Text(Ascii("type"))] + numbers);
    AddText(Ascii("dataPort"), [Text(Ascii("controlPort"))] + ([Text(Ascii("type"))] + numbers));
    assert [Text(Ascii("dataPort")), Text(Ascii("controlPort")), Text(Ascii("type"))] + numbers
        == [Text(Ascii("dataPort"))] + ([Text(Ascii("controlPort"))] + ([Text(Ascii("type"))] + numbers));
  }

  lemma SetupNumbers(dataPort: uint16, controlPort: uint16)
    ensures Small([Number(dataPort), Number(controlPort), Number(96)])
  {
    AddNumber(96, []);
    AddNumber(controlPort, [Number(96)] + []);
    AddNumber(dataPort, [Number(controlPort)] + ([Number(96)] + []));
    assert [Number(dataPort), Number(controlPort), Number(96)]
        == [Number(dataPort)] + ([Number(controlPort)] + ([Number(96)] + []));
  }

  lemma SetupContainers(leaves: seq<Obj>, text: bytes)
    requires Small(leaves) && |text| < 15
    ensures Small([Entries([1], [2])] + ([Text(text)] + ([Items([3])] + ([Entries([4, 5, 6], [7, 8, 9])] + leaves))))
  {
    AddEntries([4, 5, 6], [7, 8, 9], leaves);
    var stream := [Entries([4, 5, 6], [7, 8, 9])] + leaves;
    AddItems([3], stream);
    AddText(text, [Items([3])] + stream);
    AddEntries([1], [2], [Text(text)] + ([Items([3])] + stream));
  }

  lemma SetupSplit(dataPort: uint16, controlPort: uint16, leaves: seq<Obj>)
    requires leaves == [Text(Ascii("dataPort")), Text(Ascii("controlPort")), Text(Ascii("type"))] +
                       [Number(dataPort), Number(controlPort), Number(96)]
    ensures SetupObjects(dataPort, controlPort)
            == [Entries([1], [2])] +
               ([Text(Ascii("streams"))] + ([Items([3])] + ([Entries([4, 5, 6], [7, 8, 9])] + leaves)))
  {
  }

  lemma SetupSized(dataPort: uint16, controlPort: uint16)
    ensures WellSized(SetupObjects(dataPort, controlPort))
  {
    var numbers := [Number(dataPort), Number(controlPort), Number(96)];
    var leaves := [Text(Ascii("dataPort")), Text(Ascii("controlPort")), Text(Ascii("type"))] + numbers;
    SetupNumbers(dataPort, controlPort);
    SetupTexts(numbers);
    SetupContainers(leaves, Ascii("streams"));
    SetupSplit(dataPort, controlPort, leaves);
    SmallBodies(SetupObjects(dataPort, controlPort));
  }

  // For every pair of ports the parser finds both, the stream type, and nothing else.
  lemma SetupReplyParses(dataPort: uint16, controlPort: uint16)
    ensures Parse(Layout(SetupObjects(dataPort, controlPort)))
            == Ok(Dictionary(map[Ascii("streams") := Array([Dictionary(map[
                  Ascii("dataPort") := Integer(dataPort),
                  Ascii("controlPort") := Integer(controlPort),
                  Ascii("type") := Integer(96)])])]))
  {
    var objs, t := SetupObjects(dataPort, controlPort), SetupTree(dataPort, controlPort);
    SetupSized(dataPort, controlPort);
    DocumentRead(objs);
    var g := GraphOf(Open(Layout(objs)).value);
    assert forall i :: 0 <= i < 10 ==> g(i) == NodeOf(objs[i]);
    SetupHeld(g, dataPort, controlPort);
    SetupHeight(dataPort, controlPort);
    TreeParses(g, 0, t, 0);
    SetupValue(dataPort, controlPort);
  }

  lemma SetupHeight(dataPort: uint16, controlPort: uint16)
    ensures Height(SetupTree(dataPort, controlPort)) <= MAX_DEPTH
  {
    var ports := [Count(dataPort), Count(controlPort), Count(96)];
    assert HeightAll(ports[1..][1..][1..]) == 0;
    assert HeightAll(ports[1..][1..]) == 1;
    assert HeightAll(ports[1..]) == 1;
    assert Height(ports[0]) == 0 && HeightAll(ports) == 1;
    var stream := Dict([Ascii("dataPort"), Ascii("controlPort"), Ascii("type")], ports);
    assert Height(stream) == 1;
    assert HeightAll([stream]) == 2;
    assert HeightAll([List([stream])]) == 3;
  }

  lemma SetupValue(dataPort: uint16, controlPort: uint16)
    ensures ValueOf(SetupTree(dataPort, controlPort))
            == Dictionary(map[Ascii("streams") := Array([Dictionary(map[
                  Ascii("dataPort") := Integer(dataPort),
                  Ascii("controlPort") := Integer(controlPort),
                  Ascii("type") := Integer(96)])])])
  {
    var keys := [Ascii("dataPort"), Ascii("controlPort"), Ascii("type")];
    var ports := [Count(dataPort), Count(controlPort), Count(96)];
    assert |keys[0]| == 8 && |keys[1]| == 11 && |keys[2]| == 4;
    var vals := [Integer(dataPort), Integer(controlPort), Integer(96)];
    assert ValuesOf(ports[2..]) == [Integer(96)];
    assert ports[1..][1..] == ports[2..];
    assert ValuesOf(ports[1..]) == [Integer(controlPort), Integer(96)];
    assert ValuesOf(ports) == vals;
    PortsBound(keys, vals);
    var stream := Dict(keys, ports);
    assert ValuesOf([stream]) == [ValueOf(stream)];
    var streams := List([stream]);
    assert ValuesOf([streams]) == [Array([ValueOf(stream)])];
    assert Bound([Ascii("streams")], [Array([ValueOf(stream)])], map[])
           == map[Ascii("streams") := Array([ValueOf(stream)])];
  }

  lemma PortsBound(keys: seq<bytes>, vals: seq<Value>)
    requires |keys| == |vals| == 3 && keys[0] != keys[1] && keys[0] != keys[2] && keys[1] != keys[2]
    ensures Bound(keys, vals, map[]) == map[keys[0] := vals[0], keys[1] := vals[1], keys[2] := vals[2]]
  {
    var m1 := Emplace(map[], keys[0], vals[0]);
    var m2 := Emplace(m1, keys[1], vals[1]);
    var m3 := Emplace(m2, keys[2], vals[2]);
    assert Bound(keys[1..][1..], vals[1..][1..], m2) == m3;
    assert Bound(keys[1..], vals[1..], m1) == m3;
  }
}
