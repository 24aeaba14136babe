/**
 The binary property list writer of raop_control.cpp: lengths, strings, integers, object and offset
 tables; and what the parser makes of the documents it writes.
 */
module BplistWriter {
  import opened Words
  import opened Slices
  import opened Plist

  // An object to write, its references as indices into the object list.
  datatype Obj =
    | Text(text: bytes)
    | Number(n: uint16)
    | Items(refs: seq<nat>)
    | Entries(keys: seq<nat>, vals: seq<nat>)

  // ---------- encoding ----------

  // n in k big-endian bytes
  function Be(n: nat, k: nat): (b: bytes)
    ensures |b| == k
    decreases k, n
  {
    if k == 0 then [] else Be(n / 256, k - 1) + [n % 256]
  }

  // append_bplist_length
  function LengthBytes(marker: byte, length: nat): (b: bytes)
    requires marker % 16 == 0
    ensures |b| >= 1
  {
    if length < 15 then [marker + length]
    else if length <= 0xff then [marker + 15, 0x10, length]
    else [marker + 15, 0x11] + Be(length % 0x1_0000, 2)
  }

  // A reference in one byte.
  function RefBytes(refs: seq<nat>): (b: bytes)
    ensures |b| == |refs|
  {
    if refs == [] then [] else [refs[0] % 256] + RefBytes(refs[1..])
  }

  function Encode(o: Obj): (b: bytes)
    ensures |b| >= 1
  {
    match o
    case Text(text) => LengthBytes(0x50, |text|) + text
    case Number(n) => [0x11] + Be(n, 2)
    case Items(refs) => LengthBytes(0xa0, |refs|) + RefBytes(refs)
    case Entries(keys, vals) => LengthBytes(0xd0, |keys|) + RefBytes(keys) + RefBytes(vals)
  }

  // Encoded objects one after the other.
  function Bodies(objects: seq<bytes>): bytes {
    if objects == [] then [] else objects[0] + Bodies(objects[1..])
  }

  // Two bytes of offset an object, the first at `at`.
  function Table(objects: seq<bytes>, at: nat): (b: bytes)
    ensures |b| == 2 * |objects|
    decreases |objects|
  {
    if objects == [] then [] else Be(at % 0x1_0000, 2) + Table(objects[1..], at + |objects[0]|)
  }

  function Trailer(count: nat, table: nat): (b: bytes)
    ensures |b| == 32
  {
    [0, 0, 0, 0, 0, 0, 2, 1] + Be(count, 8) + Be(0, 8) + Be(table, 8)
  }

  // The document of a list of encoded objects, the first on top.
  function File(objects: seq<bytes>): bytes {
    MAGIC + Bodies(objects) + Table(objects, 8) + Trailer(|objects|, 8 + |Bodies(objects)|)
  }

  function Encoded(objs: seq<Obj>): (objects: seq<bytes>)
    ensures |objects| == |objs| && forall i :: 0 <= i < |objs| ==> objects[i] == Encode(objs[i])
  {
    seq(|objs|, i requires 0 <= i < |objs| => Encode(objs[i]))
  }

  function Layout(objs: seq<Obj>): bytes {
    File(Encoded(objs))
  }

  // ---------- reading back numbers ----------

  function Limit(k: nat): nat {
    if k == 0 then 1 else 256 * Limit(k - 1)
  }

  lemma {:induction false} LimitBound(k: nat)
    requires k <= 8
    ensures 1 <= Limit(k) <= TWO64
    decreases 8 - k
  {
    if k == 8 {
      assert Limit(1) == 256 && Limit(2) == 0x1_0000;
      assert Limit(4) == 256 * (256 * Limit(2));
      assert Limit(6) == 256 * (256 * Limit(4));
      assert Limit(8) == 256 * (256 * Limit(6));
    } else {
      LimitBound(k + 1);
    }
  }

  lemma {:induction false} NumberRead(data: bytes, o: nat, n: nat, k: nat)
    requires k <= 8 && n < Limit(k) && At(data, o, Be(n, k))
    ensures ReadBe(data, o, k) == n
    decreases k
  {
    if k > 0 {
      LimitBound(k);
      AtParts(data, o, Be(n / 256, k - 1), [n % 256], o + (k - 1));
      NumberRead(data, o, n / 256, k - 1);
      assert data[o + k - 1] == data[o + (k - 1)..o + (k - 1) + 1][0] == n % 256;
    }
  }

  // ---------- reading back lengths ----------

  lemma TwoBytes(data: bytes, o: nat, n: nat)
    requires n < 0x1_0000 && At(data, o, Be(n, 2))
    ensures ReadBe(data, o, 2) == n
  {
    assert Limit(2) == 0x1_0000 by { assert Limit(1) == 256; }
    NumberRead(data, o, n, 2);
  }

  lemma OneByte(data: bytes, o: nat)
    requires o < |data|
    ensures ReadBe(data, o, 1) == data[o]
  {
    assert ReadBe(data, o, 0) == 0;
  }

  // The marker and the count behind it.
  lemma LengthRead(data: bytes, start: nat, marker: byte, length: nat, q: nat)
    requires marker % 16 == 0 && length < 0x1_0000 && At(data, start, LengthBytes(marker, length))
    requires q == start + |LengthBytes(marker, length)|
    ensures start < |data| && data[start] / 16 == marker / 16
    ensures ReadCount(data, start + 1, data[start] % 16) == Ok((length, q))
  {
    var b, p := LengthBytes(marker, length), start + 1;
    var s := data[start..start + |b|];
    assert data[start] == s[0];
    if length >= 15 {
      assert data[p] == s[1];
      assert Pow2(0) == 1 && Pow2(1) == 2;
      if length <= 0xff {
        assert data[p + 1] == s[2];
        OneByte(data, p + 1);
      } else {
        AtParts(data, start, [marker + 15, 0x11], Be(length % 0x1_0000, 2), start + 2);
        TwoBytes(data, start + 2, length);
      }
    }
  }

  lemma {:induction false} RefsRead(data: bytes, o: nat, refs: seq<nat>)
    requires At(data, o, RefBytes(refs)) && AllByte(refs)
    ensures ReadRefs(data, o, 1, |refs|) == refs
    decreases |refs|
  {
    if refs != [] {
      AtParts(data, o, [refs[0] % 256], RefBytes(refs[1..]), o + 1);
      assert data[o..o + 1][0] == data[o];
      OneByte(data, o);
      RefsRead(data, o + 1, refs[1..]);
      assert refs == [refs[0]] + refs[1..];
    }
  }

  // ---------- reading back objects ----------

  // What the writer's formats hold: lengths of two bytes, references of one.
  ghost predicate Writable(o: Obj) {
    match o
    case Text(text) => |text| < 0x1_0000
    case Number(_) => true
    case Items(refs) => |refs| <= MAX_OBJECTS && AllByte(refs)
    case Entries(keys, vals) => |keys| == |vals| <= MAX_OBJECTS && AllByte(keys) && AllByte(vals)
  }

  ghost predicate AllByte(refs: seq<nat>) {
    forall i :: 0 <= i < |refs| ==> refs[i] < 256
  }

  // The object the parser is to find.
  function NodeOf(o: Obj): Node {
    match o
    case Text(text) => Atom(String(text))
    case Number(n) => Atom(Integer(n))
    case Items(refs) => ArrayNode(refs)
    case Entries(keys, vals) => DictNode(keys, vals)
  }

  lemma {:induction false} SpanOne(n: nat)
    ensures Span(n, 1) == n
  {
    if n > 0 {
      SpanOne(n - 1);
    }
  }

  lemma TextRead(data: bytes, start: nat, text: bytes)
    requires |text| < 0x1_0000 && At(data, start, LengthBytes(0x50, |text|) + text)
    ensures start < |data| && NodeFrom(data, start, 1) == Atom(String(text))
  {
    var q := start + |LengthBytes(0x50, |text|)|;
    AtParts(data, start, LengthBytes(0x50, |text|), text, q);
    LengthRead(data, start, 0x50, |text|, q);
    TextForm(data, start, q, text);
  }

  lemma TextForm(data: bytes, start: nat, q: nat, text: bytes)
    requires start < |data| && data[start] / 16 == 5 && ReadCount(data, start + 1, data[start] % 16) == Ok((|text|, q))
    requires At(data, q, text) && |text| < 0x1_0000
    ensures NodeFrom(data, start, 1) == Atom(String(text))
  {
  }

  lemma NumberNode(data: bytes, start: nat, n: uint16)
    requires At(data, start, [0x11] + Be(n, 2))
    ensures start < |data| && NodeFrom(data, start, 1) == Atom(Integer(n))
  {
    AtParts(data, start, [0x11], Be(n, 2), start + 1);
    assert data[start] == data[start..start + 1][0];
    assert Pow2(1) == 2;
    TwoBytes(data, start + 1, n);
  }

  lemma ArrayForm(data: bytes, start: nat, offset: nat, refs: seq<nat>, n: nat, q: nat)
    requires start < |data| && data[start] / 16 == 0xa && offset == start + 1 && n == |refs| <= MAX_OBJECTS
    requires ReadCount(data, offset, data[start] % 16) == Ok((n, q)) && q + n <= |data|
    requires Span(n, 1) == n && ReadRefs(data, q, 1, n) == refs
    ensures NodeFrom(data, start, 1) == ArrayNode(refs)
  {
  }

  lemma ItemsRead(data: bytes, start: nat, refs: seq<nat>, head: bytes, body: bytes, n: nat)
    requires n == |refs| <= MAX_OBJECTS && AllByte(refs) && At(data, start, head + body)
    requires head == LengthBytes(0xa0, n) && body == RefBytes(refs)
    ensures start < |data| && NodeFrom(data, start, 1) == ArrayNode(refs)
  {
    var q, offset := start + |head|, start + 1;
    AtParts(data, start, head, body, q);
    LengthRead(data, start, 0xa0, n, q);
    SpanOne(n);
    RefsRead(data, q, refs);
    ArrayForm(data, start, offset, refs, n, q);
  }

  lemma DictForm(data: bytes, start: nat, offset: nat, keys: seq<nat>, vals: seq<nat>, n: nat, q: nat, r: nat)
    requires start < |data| && data[start] / 16 == 0xd && offset == start + 1 && n == |keys| == |vals| <= MAX_OBJECTS
    requires ReadCount(data, offset, data[start] % 16) == Ok((n, q)) && r == q + n && r + n <= |data|
    requires Span(n, 1) == n && ReadRefs(data, q, 1, n) == keys && ReadRefs(data, r, 1, n) == vals
    ensures NodeFrom(data, start, 1) == DictNode(keys, vals)
  {
  }

  lemma EntriesRead(data: bytes, start: nat, keys: seq<nat>, vals: seq<nat>, n: nat, head: bytes, first: bytes,
                    second: bytes)
    requires |keys| == |vals| == n <= MAX_OBJECTS && AllByte(keys) && AllByte(vals)
    requires At(data, start, head + first + second)
    requires head == LengthBytes(0xd0, n) && first == RefBytes(keys) && second == RefBytes(vals)
    ensures start < |data| && NodeFrom(data, start, 1) == DictNode(keys, vals)
  {
    var q, offset := start + |head|, start + 1;
    var r := q + n;
    AtParts(data, start, head + first, second, r);
    AtParts(data, start, head, first, q);
    LengthRead(data, start, 0xd0, n, q);
    SpanOne(n);
    RefsRead(data, q, keys);
    RefsRead(data, r, vals);
    DictForm(data, start, offset, keys, vals, n, q, r);
  }

  lemma ObjectRead(data: bytes, start: nat, o: Obj)
    requires Writable(o) && At(data, start, Encode(o))
    ensures start < |data| && NodeFrom(data, start, 1) == NodeOf(o)
  {
    match o
    case Text(text) => TextRead(data, start, text);
    case Number(n) => NumberNode(data, start, n);
    case Items(refs) => ItemsRead(data, start, refs, LengthBytes(0xa0, |refs|), RefBytes(refs), |refs|);
    case Entries(keys, vals) =>
      EntriesRead(data, start, keys, vals, |keys|, LengthBytes(0xd0, |keys|), RefBytes(keys), RefBytes(vals));
  }

  // ---------- reading back the document ----------

  // Where the objects start when the first starts at `at`.
  function Starts(objects: seq<bytes>, at: nat): (starts: seq<nat>)
    ensures |starts| == |objects|
  {
    if objects == [] then [] else [at] + Starts(objects[1..], at + |objects[0]|)
  }

  lemma {:induction false} BodyAt(data: bytes, at: nat, objects: seq<bytes>, i: nat)
    requires i < |objects| && At(data, at, Bodies(objects))
    ensures At(data, Starts(objects, at)[i], objects[i])
    ensures Starts(objects, at)[i] + |objects[i]| <= at + |Bodies(objects)|
    decreases i
  {
    var rest, q := objects[1..], at + |objects[0]|;
    AtParts(data, at, objects[0], Bodies(rest), q);
    if i > 0 {
      BodyAt(data, q, rest, i - 1);
    }
  }

  lemma EntryRead(data: bytes, o: nat, at: nat, rest: bytes, p: nat)
    requires at < 0x1_0000 && At(data, o, Be(at % 0x1_0000, 2) + rest) && p == o + 2
    ensures ReadBe(data, o, 2) == at && At(data, p, rest) && p <= |data|
  {
    AtParts(data, o, Be(at, 2), rest, p);
    TwoBytes(data, o, at);
  }

  lemma {:induction false} TableRead(data: bytes, o: nat, objects: seq<bytes>, at: nat)
    requires At(data, o, Table(objects, at)) && at + |Bodies(objects)| < 0x1_0000
    ensures ReadOffsets(data, o, 2, |objects|) == Ok(Starts(objects, at))
    decreases |objects|
  {
    if objects != [] {
      var rest, next, p, n := objects[1..], at + |objects[0]|, o + 2, |objects[1..]|;
      EntryRead(data, o, at, Table(rest, next), p);
      TableRead(data, p, rest, next);
      OffsetsForm(data, o, p, at, |objects|, n, Starts(rest, next));
    }
  }

  lemma OffsetsForm(data: bytes, o: nat, p: nat, at: nat, n: nat, m: nat, tail: seq<nat>)
    requires n == m + 1 && p == o + 2 <= |data| && ReadBe(data, o, 2) == at && ReadOffsets(data, p, 2, m) == Ok(tail)
    ensures ReadOffsets(data, o, 2, n) == Ok([at] + tail)
  {
  }

  // The document fits the writer's formats.
  ghost predicate WellSized(objs: seq<Obj>) {
    |objs| <= 256 && 8 + |Bodies(Encoded(objs))| < 0x1_0000 && forall i :: 0 <= i < |objs| ==> Writable(objs[i])
  }

  // The parts of a document, where they lie.
  lemma LayoutParts(objects: seq<bytes>, data: bytes, table: nat, trailer: nat)
    requires data == File(objects) && table == 8 + |Bodies(objects)| && trailer == table + 2 * |objects|
    ensures |data| == trailer + 32 && data[..8] == MAGIC
    ensures At(data, 8, Bodies(objects)) && At(data, table, Table(objects, 8))
    ensures At(data, trailer, Trailer(|objects|, table))
  {
    var all := MAGIC + Bodies(objects) + Table(objects, 8) + Trailer(|objects|, table);
    assert data == all;
    assert At(data, 0, all);
    AtParts(data, 0, MAGIC + Bodies(objects) + Table(objects, 8), Trailer(|objects|, table), trailer);
    AtParts(data, 0, MAGIC + Bodies(objects), Table(objects, 8), table);
    AtParts(data, 0, MAGIC, Bodies(objects), 8);
  }

  lemma TrailerRead(data: bytes, o: nat, count: nat, table: nat)
    requires count <= 256 && table < 0x1_0000 && At(data, o, Trailer(count, table))
    ensures o + 32 <= |data| && data[o + 6] == 2 && data[o + 7] == 1
    ensures ReadBe(data, o + 8, 8) == count && ReadBe(data, o + 16, 8) == 0 && ReadBe(data, o + 24, 8) == table
  {
    var head: bytes := [0, 0, 0, 0, 0, 0, 2, 1];
    AtParts(data, o, head + Be(count, 8) + Be(0, 8), Be(table, 8), o + 24);
    AtParts(data, o, head + Be(count, 8), Be(0, 8), o + 16);
    AtParts(data, o, head, Be(count, 8), o + 8);
    assert data[o..o + 8] == head;
    assert data[o + 6] == data[o..o + 8][6] && data[o + 7] == data[o..o + 8][7];
    BigLimit();
    NumberRead(data, o + 8, count, 8);
    NumberRead(data, o + 16, 0, 8);
    NumberRead(data, o + 24, table, 8);
  }

  lemma BigLimit()
    ensures Limit(8) >= 0x1_0000
  {
    assert Limit(2) == 0x1_0000 by { assert Limit(1) == 256; }
    LimitBound(5);
    assert Limit(4) == 256 * (256 * Limit(2));
    assert Limit(6) == 256 * (256 * Limit(4));
    assert Limit(8) == 256 * (256 * Limit(6));
  }

  lemma OpenForm(data: bytes, trailer: nat, count: nat, table: nat)
    requires |data| == trailer + 32 && trailer >= 8 && data[..8] == MAGIC && count <= 256 && table < |data|
    requires data[trailer + 6] == 2 && data[trailer + 7] == 1
    requires ReadBe(data, trailer + 8, 8) == count && ReadBe(data, trailer + 16, 8) == 0
    requires ReadBe(data, trailer + 24, 8) == table && ReadOffsets(data, table, 2, count).Ok?
    ensures Open(data) == Ok(Document(data, 1, ReadOffsets(data, table, 2, count).value, 0))
  {
  }

  // The parser finds every object written, under the index it was written with.
  lemma DocumentRead(objs: seq<Obj>)
    requires WellSized(objs)
    ensures Open(Layout(objs)).Ok? && Open(Layout(objs)).value.top == 0
    ensures forall i :: 0 <= i < |objs| ==> NodeAt(Open(Layout(objs)).value, i) == NodeOf(objs[i])
  {
    var objects := Encoded(objs);
    var data, table := File(objects), 8 + |Bodies(objects)|;
    var trailer := table + 2 * |objs|;
    LayoutParts(objects, data, table, trailer);
    TrailerRead(data, trailer, |objs|, table);
    TableRead(data, table, objects, 8);
    OpenForm(data, trailer, |objs|, table);
    var D := Document(data, 1, Starts(objects, 8), 0);
    forall i | 0 <= i < |objs|
      ensures NodeAt(D, i) == NodeOf(objs[i])
    {
      BodyAt(data, 8, objects, i);
      ObjectRead(data, D.offsets[i], objs[i]);
    }
  }
}
