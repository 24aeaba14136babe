/**
 What the parser accepts and what it returns: it succeeds exactly when every path of references from the
 top object is at most 16 long and meets only good objects, so the reachable graph is acyclic; and the
 tree it returns is the one unfolding of that graph.
 */
module PlistGraph {
  import opened Slices
  import opened Plist

  // ---------- paths ----------

  function Children(n: Node): seq<nat> {
    match n
    case ArrayNode(refs) => refs
    case DictNode(keys, vals) => keys + vals
    case _ => []
  }

  // Dictionaries have as many keys as values.
  ghost predicate Shaped(g: Graph) {
    forall ref: nat :: g(ref).DictNode? ==> |g(ref).keys| == |g(ref).vals|
  }

  predicate IsKey(g: Graph, ref: nat) {
    g(ref).Atom? && g(ref).value.String?
  }

  // An object that can be read, its keys strings.
  ghost predicate Good(g: Graph, ref: nat) {
    !g(ref).Bad? && (g(ref).DictNode? ==> forall k :: k in g(ref).keys ==> IsKey(g, k))
  }

  // Each object refers to the next.
  ghost predicate Path(g: Graph, p: seq<nat>) {
    p != [] && forall i: nat {:trigger p[i]} | i < |p| - 1 :: p[i + 1] in Children(g(p[i]))
  }

  // Every path from ref has at most `edges` references and ends in a good object.
  ghost predicate Sound(g: Graph, ref: nat, edges: int) {
    forall p :: Path(g, p) && p[0] == ref ==> |p| - 1 <= edges && Good(g, p[|p| - 1])
  }

  // ---------- what success says ----------

  lemma {:induction false} ItemParsed(g: Graph, refs: seq<nat>, depth: nat, i: nat)
    requires ParseItems(g, refs, depth).Ok? && i < |refs|
    ensures ParseObject(g, refs[i], depth) == Ok(ParseItems(g, refs, depth).value[i])
    decreases |refs|
  {
    if i > 0 {
      ItemParsed(g, refs[1..], depth, i - 1);
    }
  }

  lemma {:induction false} EntryParsed(g: Graph, keys: seq<nat>, vals: seq<nat>, depth: nat, done: map<bytes, Value>,
                                       i: nat)
    requires ParseEntries(g, keys, vals, depth, done).Ok? && i < |keys| == |vals|
    ensures ParseObject(g, keys[i], depth).Ok? && ParseObject(g, keys[i], depth).value.String?
    ensures ParseObject(g, vals[i], depth).Ok?
    decreases |keys|
  {
    if i > 0 {
      var key, child := ParseObject(g, keys[0], depth).value, ParseObject(g, vals[0], depth).value;
      EntryParsed(g, keys[1..], vals[1..], depth, Emplace(done, key.text, child), i - 1);
    }
  }

  // Only a string object parses to a string.
  lemma StringIsKey(g: Graph, ref: nat, depth: nat)
    requires ParseObject(g, ref, depth).Ok? && ParseObject(g, ref, depth).value.String?
    ensures IsKey(g, ref)
  {
    match g(ref)
    case DictNode(keys, vals) => EntriesMakeDictionary(g, keys, vals, depth + 1, map[]);
    case _ =>
  }

  lemma {:induction false} EntriesMakeDictionary(g: Graph, keys: seq<nat>, vals: seq<nat>, depth: nat,
                                                 done: map<bytes, Value>)
    ensures ParseEntries(g, keys, vals, depth, done).Ok? ==> ParseEntries(g, keys, vals, depth, done).value.Dictionary?
    decreases |keys|
  {
    if keys != [] && vals != [] && ParseEntries(g, keys, vals, depth, done).Ok? {
      var key, child := ParseObject(g, keys[0], depth).value, ParseObject(g, vals[0], depth).value;
      EntriesMakeDictionary(g, keys[1..], vals[1..], depth, Emplace(done, key.text, child));
    }
  }

  // A parsed object is good, within the depth, and so are its children one level down.
  lemma ChildParsed(g: Graph, ref: nat, depth: nat)
    requires Shaped(g) && ParseObject(g, ref, depth).Ok?
    ensures depth <= MAX_DEPTH && Good(g, ref)
    ensures forall c :: c in Children(g(ref)) ==> ParseObject(g, c, depth + 1).Ok?
  {
    match g(ref)
    case ArrayNode(refs) =>
      forall i | 0 <= i < |refs| ensures ParseObject(g, refs[i], depth + 1).Ok? {
        ItemParsed(g, refs, depth + 1, i);
      }
    case DictNode(keys, vals) =>
      forall i | 0 <= i < |keys|
        ensures ParseObject(g, keys[i], depth + 1).Ok? && ParseObject(g, vals[i], depth + 1).Ok? && IsKey(g, keys[i])
      {
        EntryParsed(g, keys, vals, depth + 1, map[], i);
        StringIsKey(g, keys[i], depth + 1);
      }
    case _ =>
  }

  // Success reaches along every path.
  lemma {:induction false} ParsedAlong(g: Graph, ref: nat, depth: nat, p: seq<nat>)
    requires Shaped(g) && ParseObject(g, ref, depth).Ok? && Path(g, p) && p[0] == ref
    ensures depth + |p| - 1 <= MAX_DEPTH && Good(g, p[|p| - 1])
    ensures ParseObject(g, p[|p| - 1], depth + |p| - 1).Ok?
    decreases |p|
  {
    ChildParsed(g, ref, depth);
    if |p| > 1 {
      assert p[0 + 1] in Children(g(p[0]));
      var rest := p[1..];
      TailPath(g, p);
      ParsedAlong(g, rest[0], depth + 1, rest);
    }
  }

  lemma TailPath(g: Graph, p: seq<nat>)
    requires Path(g, p) && |p| > 1
    ensures Path(g, p[1..])
  {
    var rest := p[1..];
    forall i: nat | i < |rest| - 1
      ensures rest[i + 1] in Children(g(rest[i]))
    {
      assert rest[i] == p[i + 1];
      assert p[(i + 1) + 1] in Children(g(p[i + 1]));
    }
  }

  // No object that parses refers back to itself, over any number of references.
  lemma {:induction false} Acyclic(g: Graph, ref: nat, depth: nat, p: seq<nat>)
    requires Shaped(g) && ParseObject(g, ref, depth).Ok?
    requires Path(g, p) && p[0] == p[|p| - 1] == ref
    ensures |p| == 1
    decreases MAX_DEPTH + 1 - depth
  {
    ParsedAlong(g, ref, depth, p);
    if |p| > 1 {
      Acyclic(g, ref, depth + |p| - 1, p);
    }
  }

  // ---------- what success takes ----------

  lemma {:induction false} ItemsParse(g: Graph, refs: seq<nat>, depth: nat)
    requires forall c :: c in refs ==> ParseObject(g, c, depth).Ok?
    ensures ParseItems(g, refs, depth).Ok?
    decreases |refs|
  {
    if refs != [] {
      ItemsParse(g, refs[1..], depth);
    }
  }

  lemma {:induction false} EntriesParse(g: Graph, keys: seq<nat>, vals: seq<nat>, depth: nat, done: map<bytes, Value>)
    requires |keys| == |vals|
    requires forall k :: k in keys ==> ParseObject(g, k, depth).Ok? && IsKey(g, k)
    requires forall c :: c in vals ==> ParseObject(g, c, depth).Ok?
    ensures ParseEntries(g, keys, vals, depth, done).Ok?
    decreases |keys|
  {
    if keys != [] {
      assert keys[0] in keys && vals[0] in vals;
      var key, child := ParseObject(g, keys[0], depth).value, ParseObject(g, vals[0], depth).value;
      EntriesParse(g, keys[1..], vals[1..], depth, Emplace(done, key.text, child));
    }
  }

  lemma ExtendPath(g: Graph, ref: nat, p: seq<nat>)
    requires Path(g, p) && p[0] in Children(g(ref))
    ensures Path(g, [ref] + p)
  {
    var q := [ref] + p;
    forall i: nat | i < |q| - 1
      ensures q[i + 1] in Children(g(q[i]))
    {
      if i > 0 {
        assert q[i] == p[i - 1] && q[i + 1] == p[(i - 1) + 1];
      }
    }
  }

  lemma ChildSound(g: Graph, ref: nat, edges: int, c: nat)
    requires Sound(g, ref, edges) && c in Children(g(ref))
    ensures Sound(g, c, edges - 1)
  {
    forall p | Path(g, p) && p[0] == c
      ensures |p| - 1 <= edges - 1 && Good(g, p[|p| - 1])
    {
      ExtendPath(g, ref, p);
      var q := [ref] + p;
      assert q[0] == ref && q[|q| - 1] == p[|p| - 1];
    }
  }

  lemma SoundHere(g: Graph, ref: nat, edges: int)
    requires Sound(g, ref, edges)
    ensures 0 <= edges && Good(g, ref)
  {
    var p := [ref];
    assert Path(g, p) && p[0] == ref && p[|p| - 1] == ref;
  }

  // An object parses when it is good and its children parse one level down.
  lemma ChildrenParse(g: Graph, ref: nat, depth: nat, next: nat)
    requires Shaped(g) && Good(g, ref) && depth <= MAX_DEPTH && next == depth + 1
    requires forall c :: c in Children(g(ref)) ==> ParseObject(g, c, next).Ok?
    ensures ParseObject(g, ref, depth).Ok?
  {
    match g(ref)
    case ArrayNode(refs) => ItemsParse(g, refs, next);
    case DictNode(keys, vals) => EntriesParse(g, keys, vals, next, map[]);
    case _ =>
  }

  // Sound paths are enough.
  lemma {:induction false} SoundParses(g: Graph, ref: nat, depth: nat, edges: int)
    requires Shaped(g) && Sound(g, ref, edges) && edges == MAX_DEPTH - depth
    ensures ParseObject(g, ref, depth).Ok?
    decreases MAX_DEPTH + 1 - depth
  {
    SoundHere(g, ref, edges);
    var next := depth + 1;
    forall c | c in Children(g(ref))
      ensures ParseObject(g, c, next).Ok?
    {
      ChildSound(g, ref, edges, c);
      SoundParses(g, c, next, edges - 1);
    }
    ChildrenParse(g, ref, depth, next);
  }

  // The parser accepts an object exactly when all paths from it are short and good.
  lemma AcceptsExactly(g: Graph, ref: nat)
    requires Shaped(g)
    ensures ParseObject(g, ref, 0).Ok? <==> Sound(g, ref, 16)
  {
    if ParseObject(g, ref, 0).Ok? {
      forall p | Path(g, p) && p[0] == ref
        ensures |p| - 1 <= MAX_DEPTH && Good(g, p[|p| - 1])
      {
        ParsedAlong(g, ref, 0, p);
      }
    }
    if Sound(g, ref, MAX_DEPTH) {
      SoundParses(g, ref, 0, MAX_DEPTH);
    }
  }

  // ---------- the unfolding ----------

  // The text of a key object.
  function KeyText(g: Graph, ref: nat): bytes
    requires IsKey(g, ref)
  {
    g(ref).value.text
  }

  // Is entry i the first with its key?
  ghost predicate FirstOf(g: Graph, keys: seq<nat>, i: nat)
    requires i < |keys| && forall k :: k in keys ==> IsKey(g, k)
  {
    forall j: nat | j < i :: KeyText(g, keys[j]) != KeyText(g, keys[i])
  }

  // v is the tree that the graph unfolds to at ref: atoms as they are, arrays item by item, and
  // dictionaries with just the keys there are, each bound by its first entry.
  ghost predicate Unfolds(g: Graph, ref: nat, v: Value)
    decreases v
  {
    Good(g, ref) &&
    match g(ref)
    case Atom(a) => v == a
    case ArrayNode(refs) =>
      v.Array? && |v.items| == |refs| && forall i: nat | i < |refs| :: Unfolds(g, refs[i], v.items[i])
    case DictNode(keys, vals) =>
      && v.Dictionary? && |keys| == |vals|
      && (forall t :: t in v.entries <==> exists i: nat :: i < |keys| && KeyText(g, keys[i]) == t)
      && (forall i: nat | i < |keys| && FirstOf(g, keys, i) ::
            KeyText(g, keys[i]) in v.entries && Unfolds(g, vals[i], v.entries[KeyText(g, keys[i])]))
    case Bad(_) => false
  }

  // ---------- what the parser returns ----------

  lemma KeyParses(g: Graph, ref: nat, depth: nat)
    requires IsKey(g, ref) && depth <= MAX_DEPTH
    ensures ParseObject(g, ref, depth) == Ok(String(KeyText(g, ref)))
  {
  }

  // What parsed entries i and up leave in the map: keys done before stay, new ones are bound by their
  // first entry.
  lemma {:induction false} EntriesBind(g: Graph, keys: seq<nat>, vals: seq<nat>, depth: nat, done: map<bytes, Value>,
                                       out: map<bytes, Value>)
    requires |keys| == |vals| && forall k :: k in keys ==> IsKey(g, k)
    requires depth <= MAX_DEPTH && ParseEntries(g, keys, vals, depth, done) == Ok(Dictionary(out))
    ensures forall t :: t in out <==> t in done || exists i: nat :: i < |keys| && KeyText(g, keys[i]) == t
    ensures forall t :: t in done ==> out[t] == done[t]
    ensures forall i: nat :: i < |keys| && FirstOf(g, keys, i) && KeyText(g, keys[i]) !in done ==>
              ParseObject(g, vals[i], depth) == Ok(out[KeyText(g, keys[i])])
    decreases |keys|
  {
    if keys != [] {
      var text := KeyText(g, keys[0]);
      KeyParses(g, keys[0], depth);
      var child := ParseObject(g, vals[0], depth).value;
      var next := Emplace(done, text, child);
      assert forall k :: k in keys[1..] ==> k in keys;
      EntriesBind(g, keys[1..], vals[1..], depth, next, out);
      EntriesStep(g, keys, vals, depth, done, out, next);
    }
  }

  lemma EntriesStep(g: Graph, keys: seq<nat>, vals: seq<nat>, depth: nat, done: map<bytes, Value>,
                    out: map<bytes, Value>, next: map<bytes, Value>)
    requires |keys| == |vals| && keys != [] && forall k :: k in keys ==> IsKey(g, k)
    requires forall k :: k in keys[1..] ==> IsKey(g, k)
    requires ParseObject(g, vals[0], depth).Ok?
    requires next == Emplace(done, KeyText(g, keys[0]), ParseObject(g, vals[0], depth).value)
    requires forall t :: t in out <==> t in next || exists i: nat :: i < |keys[1..]| && KeyText(g, keys[1..][i]) == t
    requires forall t :: t in next ==> out[t] == next[t]
    requires forall i: nat :: i < |keys[1..]| && FirstOf(g, keys[1..], i) && KeyText(g, keys[1..][i]) !in next ==>
               ParseObject(g, vals[1..][i], depth) == Ok(out[KeyText(g, keys[1..][i])])
    ensures forall t :: t in out <==> t in done || exists i: nat :: i < |keys| && KeyText(g, keys[i]) == t
    ensures forall t :: t in done ==> out[t] == done[t]
    ensures forall i: nat :: i < |keys| && FirstOf(g, keys, i) && KeyText(g, keys[i]) !in done ==>
              ParseObject(g, vals[i], depth) == Ok(out[KeyText(g, keys[i])])
  {
    var text, rest := KeyText(g, keys[0]), keys[1..];
    forall t
      ensures t in out <==> t in done || exists i: nat :: i < |keys| && KeyText(g, keys[i]) == t
    {
      if i: nat :| i < |rest| && KeyText(g, rest[i]) == t {
        assert KeyText(g, keys[i + 1]) == t;
      }
      if i: nat :| i < |keys| && KeyText(g, keys[i]) == t {
        if i > 0 {
          assert KeyText(g, rest[i - 1]) == t;
        }
      }
      assert KeyText(g, keys[0]) == text;
    }
    forall i: nat | i < |keys| && FirstOf(g, keys, i) && KeyText(g, keys[i]) !in done
      ensures ParseObject(g, vals[i], depth) == Ok(out[KeyText(g, keys[i])])
    {
      if i > 0 {
        assert KeyText(g, keys[0]) != KeyText(g, keys[i]);
        assert rest[i - 1] == keys[i] && vals[1..][i - 1] == vals[i];
        forall j: nat | j < i - 1
          ensures KeyText(g, rest[j]) != KeyText(g, rest[i - 1])
        {
          assert rest[j] == keys[j + 1];
        }
        assert FirstOf(g, rest, i - 1);
      }
    }
  }

  // The tree the parser returns is the unfolding.
  lemma {:induction false} ParsedUnfolds(g: Graph, ref: nat, depth: nat, v: Value)
    requires Shaped(g) && ParseObject(g, ref, depth) == Ok(v)
    ensures Unfolds(g, ref, v)
    decreases v
  {
    ChildParsed(g, ref, depth);
    match g(ref)
    case ArrayNode(refs) =>
      forall i: nat | i < |refs|
        ensures Unfolds(g, refs[i], v.items[i])
      {
        ItemParsed(g, refs, depth + 1, i);
        ParsedUnfolds(g, refs[i], depth + 1, v.items[i]);
      }
    case DictNode(keys, vals) =>
      DictUnfolds(g, keys, vals, depth + 1, v);
      forall i: nat | i < |keys| && FirstOf(g, keys, i)
        ensures Unfolds(g, vals[i], v.entries[KeyText(g, keys[i])])
      {
        ParsedUnfolds(g, vals[i], depth + 1, v.entries[KeyText(g, keys[i])]);
      }
    case _ =>
  }

  lemma DictUnfolds(g: Graph, keys: seq<nat>, vals: seq<nat>, depth: nat, v: Value)
    requires |keys| == |vals| && (forall k :: k in keys ==> IsKey(g, k))
    requires ParseEntries(g, keys, vals, depth, map[]) == Ok(v)
    requires keys != [] ==> depth <= MAX_DEPTH
    ensures v.Dictionary? && forall t :: t in v.entries <==> exists i: nat :: i < |keys| && KeyText(g, keys[i]) == t
    ensures forall i: nat :: i < |keys| && FirstOf(g, keys, i) ==>
              KeyText(g, keys[i]) in v.entries && ParseObject(g, vals[i], depth) == Ok(v.entries[KeyText(g, keys[i])])
  {
    EntriesMakeDictionary(g, keys, vals, depth, map[]);
    if keys != [] {
      EntriesBind(g, keys, vals, depth, map[], v.entries);
    }
    forall i: nat | i < |keys| && FirstOf(g, keys, i)
      ensures KeyText(g, keys[i]) in v.entries
    {
    }
  }

  // There is at most one unfolding.
  lemma {:induction false} UnfoldingUnique(g: Graph, ref: nat, v: Value, w: Value)
    requires Unfolds(g, ref, v) && Unfolds(g, ref, w)
    ensures v == w
    decreases v
  {
    match g(ref)
    case Atom(_) =>
    case ArrayNode(refs) =>
      forall i: nat | i < |refs|
        ensures v.items[i] == w.items[i]
      {
        UnfoldingUnique(g, refs[i], v.items[i], w.items[i]);
      }
      assert v.items == w.items;
    case DictNode(keys, vals) =>
      forall t | t in v.entries
        ensures t in w.entries && v.entries[t] == w.entries[t]
      {
        var i := FirstWith(g, keys, t);
        UnfoldingUnique(g, vals[i], v.entries[t], w.entries[t]);
      }
      assert v.entries.Keys == w.entries.Keys;
      assert v.entries == w.entries;
    case Bad(_) =>
  }

  lemma FirstWith(g: Graph, keys: seq<nat>, t: bytes) returns (i: nat)
    requires forall k :: k in keys ==> IsKey(g, k)
    requires exists i: nat :: i < |keys| && KeyText(g, keys[i]) == t
    ensures i < |keys| && KeyText(g, keys[i]) == t && FirstOf(g, keys, i)
  {
    i := 0;
    while KeyText(g, keys[i]) != t
      invariant i < |keys| && forall j: nat | j < i :: KeyText(g, keys[j]) != t
      decreases |keys| - i
    {
      var k: nat :| k < |keys| && KeyText(g, keys[k]) == t;
      assert k > i;
      i := i + 1;
    }
  }

  // ---------- documents ----------

  lemma DocumentShaped(D: Document)
    ensures Shaped(GraphOf(D))
  {
  }

  // A document parses exactly when it opens and its reachable objects are good and at most 16
  // references deep; the value is then the one unfolding of its top object.
  lemma ParseIsUnfolding(data: bytes)
    ensures Parse(data).Ok? <==> Open(data).Ok? && Sound(GraphOf(Open(data).value), Open(data).value.top, 16)
    ensures forall v :: Parse(data) == Ok(v) ==>
              Unfolds(GraphOf(Open(data).value), Open(data).value.top, v)
              && forall w :: Unfolds(GraphOf(Open(data).value), Open(data).value.top, w) ==> w == v
  {
    if Open(data).Ok? {
      var D := Open(data).value;
      DocumentShaped(D);
      AcceptsExactly(GraphOf(D), D.top);
      forall v | Parse(data) == Ok(v)
        ensures Unfolds(GraphOf(D), D.top, v)
        ensures forall w :: Unfolds(GraphOf(D), D.top, w) ==> w == v
      {
        ParsedUnfolds(GraphOf(D), D.top, 0, v);
        forall w | Unfolds(GraphOf(D), D.top, w)
          ensures w == v
        {
          UnfoldingUnique(GraphOf(D), D.top, v, w);
        }
      }
    }
  }
}
