/**
 The binary property list format from the writing side, for every type, width of a count, width of a reference and
 width of an offset; and that the parser finds what was written, whatever bytes surround it.
 */
module PlistFormat {
  import opened Words
  import opened Slices
  import opened Plist
  import opened BplistWriter

  // Objects as the format has them. A width is given by its exponent: 2^k bytes.
  datatype Leaf =
    | Nothing
    | Truth(truth: bool)
    | Whole(n: nat, k: nat)
    | Float(raw: nat, k: nat)
    | Blob(blob: bytes, k: nat)
    | Plain(plain: bytes, k: nat)
    | Wide(units: seq<(byte, byte)>, k: nat)

  // k selects a width of 1, 2, 4 or 8 bytes, and n fits in it.
  ghost predicate Holds(n: nat, k: nat) {
    k <= 3 && n < Limit(Pow2(k))
  }

  ghost predicate Encodable(leaf: Leaf) {
    match leaf
    case Nothing => true
    case Truth(_) => true
    case Whole(n, k) => Holds(n, k)
    case Float(raw, k) => (k == 2 || k == 3) && Holds(raw, k)
    case Blob(blob, k) => Holds(|blob|, k)
    case Plain(plain, k) => Holds(|plain|, k)
    case Wide(units, k) => Holds(|units|, k)
  }

  // ---------- writing ----------

  // A marker with its type and a count: in the marker below 15, else behind it as an integer of 2^k bytes.
  function Counted(kind: nat, n: nat, k: nat): (b: bytes)
    requires kind < 16 && k < 16
    ensures |b| >= 1
  {
    if n < 15 then [16 * kind + n] else [16 * kind + 15, 0x10 + k] + Be(n, Pow2(k))
  }

  function UnitBytes(units: seq<(byte, byte)>): (b: bytes)
    ensures |b| == 2 * |units|
  {
    if units == [] then [] else [units[0].0, units[0].1] + UnitBytes(units[1..])
  }

  function LeafBytes(leaf: Leaf): bytes
    requires Encodable(leaf)
  {
    match leaf
    case Nothing => [0x00]
    case Truth(truth) => [if truth then 0x09 else 0x08]
    case Whole(n, k) => [0x10 + k] + Be(n, Pow2(k))
    case Float(raw, k) => [0x20 + k] + Be(raw, Pow2(k))
    case Blob(blob, k) => Counted(4, |blob|, k) + blob
    case Plain(plain, k) => Counted(5, |plain|, k) + plain
    case Wide(units, k) => Counted(6, |units|, k) + UnitBytes(units)
  }

  // The low byte of every unit, a question mark for a zero.
  function UnitText(units: seq<(byte, byte)>): (text: bytes)
    ensures |text| == |units|
  {
    seq(|units|, (i: nat) requires i < |units| => if units[i].1 == 0 then 63 else units[i].1)
  }

  function LeafValue(leaf: Leaf): Value
    requires Encodable(leaf)
  {
    match leaf
    case Nothing => Null
    case Truth(truth) => Boolean(truth)
    case Whole(n, _) => Integer(n)
    case Float(raw, k) => Real(raw, if k == 2 then 4 else 8)
    case Blob(blob, _) => Data(blob)
    case Plain(plain, _) => String(plain)
    case Wide(units, _) => String(UnitText(units))
  }

  // References of the given width, one behind the other.
  function WideRefs(refs: seq<nat>, size: nat): (b: bytes)
    ensures |b| == Span(|refs|, size)
  {
    if refs == [] then [] else Be(refs[0], size) + WideRefs(refs[1..], size)
  }

  ghost predicate AllHeld(refs: seq<nat>, size: nat) {
    1 <= size <= 8 && forall i :: 0 <= i < |refs| ==> refs[i] < Limit(size)
  }

  // ---------- reading counts ----------

  lemma Widths(k: nat, w: nat)
    requires k <= 3 && w == Pow2(k)
    ensures w == 1 || w == 2 || w == 4 || w == 8
  {
    assert Pow2(0) == 1 && Pow2(1) == 2 && Pow2(2) == 4 && Pow2(3) == 8;
  }

  // A number of w bytes behind a marker.
  lemma NumberBehind(data: bytes, start: nat, marker: byte, n: nat, w: nat)
    requires w <= 8 && n < Limit(w) && At(data, start, [marker] + Be(n, w))
    ensures start + 1 + w <= |data| && data[start] == marker && ReadBe(data, start + 1, w) == n
  {
    var p := start + 1;
    AtParts(data, start, [marker], Be(n, w), p);
    NumberRead(data, p, n, w);
    assert data[start] == data[start..p][0];
  }

  lemma CountRead(data: bytes, start: nat, kind: nat, n: nat, k: nat, q: nat)
    requires 0 < kind < 16 && Holds(n, k) && At(data, start, Counted(kind, n, k))
    requires q == start + |Counted(kind, n, k)|
    ensures start < |data| && data[start] / 16 == kind
    ensures ReadCount(data, start + 1, data[start] % 16) == Ok((n, q))
  {
    var b := Counted(kind, n, k);
    assert data[start] == data[start..start + |b|][0];
    if n >= 15 {
      var p, w := start + 1, Pow2(k);
      Widths(k, w);
      AtParts(data, start, [16 * kind + 15], [0x10 + k] + Be(n, w), p) by {
        assert b == [16 * kind + 15] + ([0x10 + k] + Be(n, w));
      }
      NumberBehind(data, p, 0x10 + k, n, w);
    }
  }

  // ---------- reading leaves ----------

  lemma {:induction false} UnitsRead(data: bytes, o: nat, units: seq<(byte, byte)>)
    requires At(data, o, UnitBytes(units))
    ensures o + 2 * |units| <= |data| && Narrow(data, o, |units|) == UnitText(units)
    decreases |units|
  {
    if units != [] {
      var first, rest := [units[0].0, units[0].1], units[1..];
      AtParts(data, o, first, UnitBytes(rest), o + 2);
      assert data[o + 1] == data[o..o + 2][1];
      UnitsRead(data, o + 2, rest);
    }
  }

  lemma MarkerRead(data: bytes, start: nat, marker: byte)
    requires At(data, start, [marker])
    ensures start < |data| && data[start] == marker
  {
    assert data[start] == data[start..start + 1][0];
  }

  lemma WholeRead(data: bytes, start: nat, n: nat, k: nat, w: nat, refSize: nat)
    requires Holds(n, k) && w == Pow2(k) && At(data, start, [0x10 + k] + Be(n, w))
    ensures start < |data| && NodeFrom(data, start, refSize) == Atom(Integer(n))
  {
    Widths(k, w);
    NumberBehind(data, start, 0x10 + k, n, w);
    WholeForm(data, start, n, k, w, refSize);
  }

  lemma WholeForm(data: bytes, start: nat, n: nat, k: nat, w: nat, refSize: nat)
    requires k <= 3 && w == Pow2(k) && start + 1 + w <= |data| && data[start] == 0x10 + k
    requires ReadBe(data, start + 1, w) == n
    ensures NodeFrom(data, start, refSize) == Atom(Integer(n))
  {
  }

  lemma FloatRead(data: bytes, start: nat, raw: nat, k: nat, w: nat, refSize: nat)
    requires (k == 2 || k == 3) && Holds(raw, k) && w == Pow2(k) && At(data, start, [0x20 + k] + Be(raw, w))
    ensures start < |data| && NodeFrom(data, start, refSize) == Atom(Real(raw, if k == 2 then 4 else 8))
  {
    assert Pow2(2) == 4 && Pow2(3) == 8;
    NumberBehind(data, start, 0x20 + k, raw, w);
  }

  lemma LeafRead(data: bytes, start: nat, leaf: Leaf, refSize: nat)
    requires Encodable(leaf) && At(data, start, LeafBytes(leaf))
    ensures start < |data| && NodeFrom(data, start, refSize) == Atom(LeafValue(leaf))
  {
    match leaf
    case Nothing => MarkerRead(data, start, 0x00);
    case Truth(truth) => MarkerRead(data, start, if truth then 0x09 else 0x08);
    case Whole(n, k) => WholeRead(data, start, n, k, Pow2(k), refSize);
    case Float(raw, k) => FloatRead(data, start, raw, k, Pow2(k), refSize);
    case Blob(blob, k) => BlobRead(data, start, blob, k, refSize);
    case Plain(plain, k) => PlainRead(data, start, plain, k, refSize);
    case Wide(units, k) => WideRead(data, start, units, k, refSize);
  }

  // Under its index in a document.
  lemma LeafFound(D: Document, i: nat, leaf: Leaf)
    requires i < |D.offsets| && Encodable(leaf) && At(D.data, D.offsets[i], LeafBytes(leaf))
    ensures NodeAt(D, i) == Atom(LeafValue(leaf))
  {
    LeafRead(D.data, D.offsets[i], leaf, D.refSize);
  }

  lemma BlobRead(data: bytes, start: nat, blob: bytes, k: nat, refSize: nat)
    requires Holds(|blob|, k) && At(data, start, Counted(4, |blob|, k) + blob)
    ensures start < |data| && NodeFrom(data, start, refSize) == Atom(Data(blob))
  {
    var head := Counted(4, |blob|, k);
    var q := start + |head|;
    AtParts(data, start, head, blob, q);
    CountRead(data, start, 4, |blob|, k, q);
    BlobForm(data, start, blob, |blob|, q, refSize);
  }

  lemma BlobForm(data: bytes, start: nat, blob: bytes, n: nat, q: nat, refSize: nat)
    requires start < |data| && data[start] / 16 == 4 && n == |blob|
    requires ReadCount(data, start + 1, data[start] % 16) == Ok((n, q)) && At(data, q, blob)
    ensures NodeFrom(data, start, refSize) == Atom(Data(blob))
  {
  }

  lemma PlainRead(data: bytes, start: nat, plain: bytes, k: nat, refSize: nat)
    requires Holds(|plain|, k) && At(data, start, Counted(5, |plain|, k) + plain)
    ensures start < |data| && NodeFrom(data, start, refSize) == Atom(String(plain))
  {
    var head := Counted(5, |plain|, k);
    var q := start + |head|;
    AtParts(data, start, head, plain, q);
    CountRead(data, start, 5, |plain|, k, q);
    PlainForm(data, start, plain, |plain|, q, refSize);
  }

  lemma PlainForm(data: bytes, start: nat, plain: bytes, n: nat, q: nat, refSize: nat)
    requires start < |data| && data[start] / 16 == 5 && n == |plain|
    requires ReadCount(data, start + 1, data[start] % 16) == Ok((n, q)) && At(data, q, plain)
    ensures NodeFrom(data, start, refSize) == Atom(String(plain))
  {
  }

  lemma WideRead(data: bytes, start: nat, units: seq<(byte, byte)>, k: nat, refSize: nat)
    requires Holds(|units|, k) && At(data, start, Counted(6, |units|, k) + UnitBytes(units))
    ensures start < |data| && NodeFrom(data, start, refSize) == Atom(String(UnitText(units)))
  {
    var head := Counted(6, |units|, k);
    var q := start + |head|;
    AtParts(data, start, head, UnitBytes(units), q);
    CountRead(data, start, 6, |units|, k, q);
    UnitsRead(data, q, units);
    WideForm(data, start, units, |units|, q, refSize);
  }

  lemma WideForm(data: bytes, start: nat, units: seq<(byte, byte)>, n: nat, q: nat, refSize: nat)
    requires start < |data| && data[start] / 16 == 6 && n == |units| && q + 2 * n <= |data|
    requires ReadCount(data, start + 1, data[start] % 16) == Ok((n, q)) && Narrow(data, q, n) == UnitText(units)
    ensures NodeFrom(data, start, refSize) == Atom(String(UnitText(units)))
  {
  }

  // ---------- reading references ----------

  lemma {:induction false} RefsFound(data: bytes, o: nat, refs: seq<nat>, size: nat)
    requires AllHeld(refs, size) && At(data, o, WideRefs(refs, size))
    ensures ReadRefs(data, o, size, |refs|) == refs
    decreases |refs|
  {
    if refs != [] {
      var rest, q := refs[1..], o + size;
      AtParts(data, o, Be(refs[0], size), WideRefs(rest, size), q);
      NumberRead(data, o, refs[0], size);
      RefsFound(data, q, rest, size);
      RefsStep(data, o, q, refs[0], rest, |refs|, |rest|, size);
      assert refs == [refs[0]] + rest;
    }
  }

  lemma RefsStep(data: bytes, o: nat, q: nat, first: nat, rest: seq<nat>, n: nat, m: nat, size: nat)
    requires n == m + 1 && q == o + size && ReadBe(data, o, size) == first && ReadRefs(data, q, size, m) == rest
    ensures ReadRefs(data, o, size, n) == [first] + rest
  {
  }

  // An array of references of any width.
  lemma ArrayRead(data: bytes, start: nat, refs: seq<nat>, k: nat, size: nat)
    requires Holds(|refs|, k) && AllHeld(refs, size) && |refs| <= 4096
    requires At(data, start, Counted(10, |refs|, k) + WideRefs(refs, size))
    ensures start < |data| && NodeFrom(data, start, size) == ArrayNode(refs)
  {
    var head := Counted(10, |refs|, k);
    var q := start + |head|;
    AtParts(data, start, head, WideRefs(refs, size), q);
    CountRead(data, start, 10, |refs|, k, q);
    RefsFound(data, q, refs, size);
    ArrayForm(data, start, refs, |refs|, q, size);
  }

  lemma ArrayForm(data: bytes, start: nat, refs: seq<nat>, n: nat, q: nat, size: nat)
    requires start < |data| && data[start] / 16 == 10 && n == |refs| <= 4096 && q + Span(n, size) <= |data|
    requires ReadCount(data, start + 1, data[start] % 16) == Ok((n, q)) && ReadRefs(data, q, size, n) == refs
    ensures NodeFrom(data, start, size) == ArrayNode(refs)
  {
  }

  // A dictionary: all keys, and behind them all values.
  lemma DictRead(data: bytes, start: nat, keys: seq<nat>, vals: seq<nat>, k: nat, size: nat)
    requires |keys| == |vals| <= 4096 && Holds(|keys|, k) && AllHeld(keys, size) && AllHeld(vals, size)
    requires At(data, start, Counted(13, |keys|, k) + (WideRefs(keys, size) + WideRefs(vals, size)))
    ensures start < |data| && NodeFrom(data, start, size) == DictNode(keys, vals)
  {
    var head, first, second := Counted(13, |keys|, k), WideRefs(keys, size), WideRefs(vals, size);
    var q := start + |head|;
    var r := q + |first|;
    AtParts(data, start, head, first + second, q);
    AtParts(data, q, first, second, r);
    CountRead(data, start, 13, |keys|, k, q);
    RefsFound(data, q, keys, size);
    RefsFound(data, r, vals, size);
    DictForm(data, start, keys, vals, |keys|, q, r, size);
  }

  lemma DictForm(data: bytes, start: nat, keys: seq<nat>, vals: seq<nat>, n: nat, q: nat, r: nat, size: nat)
    requires start < |data| && data[start] / 16 == 13 && n == |keys| == |vals| <= 4096
    requires r == q + Span(n, size) && r + Span(n, size) <= |data|
    requires ReadCount(data, start + 1, data[start] % 16) == Ok((n, q))
    requires ReadRefs(data, q, size, n) == keys && ReadRefs(data, r, size, n) == vals
    ensures NodeFrom(data, start, size) == DictNode(keys, vals)
  {
  }

  // ---------- what is refused ----------

  lemma {:induction false} SpanIs(n: nat, size: nat)
    ensures Span(n, size) == n * size
  {
    if n > 0 {
      SpanIs(n - 1, size);
      assert n * size == (n - 1) * size + size;
    }
  }

  // A count is read exactly when it stands in the marker, or behind it as a whole integer.
  lemma CountExactly(data: bytes, offset: nat, low: nat)
    ensures ReadCount(data, offset, low).Ok? <==>
            low < 15 || (offset < |data| && data[offset] / 16 == 1 && offset + 1 + Pow2(data[offset] % 16) <= |data|)
  {
  }

  // An array is found exactly when it has at most 4096 references and all of them are there.
  lemma ArrayExactly(data: bytes, start: nat, n: nat, q: nat, size: nat)
    requires start < |data| && data[start] / 16 == 10
    requires ReadCount(data, start + 1, data[start] % 16) == Ok((n, q))
    ensures NodeFrom(data, start, size).ArrayNode? <==> n <= 4096 && q + n * size <= |data|
    ensures NodeFrom(data, start, size).ArrayNode? || NodeFrom(data, start, size) == Bad(BadArray)
  {
    SpanIs(n, size);
  }

  // And a dictionary when it has at most 4096 of either.
  lemma DictExactly(data: bytes, start: nat, n: nat, q: nat, size: nat)
    requires start < |data| && data[start] / 16 == 13
    requires ReadCount(data, start + 1, data[start] % 16) == Ok((n, q))
    ensures NodeFrom(data, start, size).DictNode? <==> n <= 4096 && q + 2 * (n * size) <= |data|
    ensures NodeFrom(data, start, size).DictNode? || NodeFrom(data, start, size) == Bad(BadDictionary)
  {
    SpanIs(n, size);
  }

  // An integer of any width and a real of 4 or 8 bytes, when their bytes are there.
  lemma NumberExactly(data: bytes, start: nat, k: nat, size: nat)
    requires start < |data| && k == data[start] % 16
    ensures data[start] / 16 == 1 ==>
              if start + 1 + Pow2(k) <= |data| then NodeFrom(data, start, size).Atom?
              else NodeFrom(data, start, size) == Bad(TruncatedInteger)
    ensures data[start] / 16 == 2 ==>
              if (k == 2 || k == 3) && start + 1 + Pow2(k) <= |data| then NodeFrom(data, start, size).Atom?
              else NodeFrom(data, start, size) == Bad(UnsupportedReal)
  {
    assert Pow2(0) == 1 && Pow2(1) == 2 && Pow2(2) == 4 && Pow2(3) == 8;
    if k > 3 {
      Pow2Mono(4, k);
    }
  }

  // Without a count each type is refused in its own words; and so is every marker the format does not have.
  lemma MarkerRefused(data: bytes, start: nat, kind: nat, size: nat)
    requires start < |data| && kind == data[start] / 16
    ensures ReadCount(data, start + 1, data[start] % 16).Err? ==>
              && (kind == 4 ==> NodeFrom(data, start, size) == Bad(TruncatedData))
              && (kind == 5 || kind == 6 ==> NodeFrom(data, start, size) == Bad(BadStringLength))
              && (kind == 10 ==> NodeFrom(data, start, size) == Bad(BadArray))
              && (kind == 13 ==> NodeFrom(data, start, size) == Bad(BadDictionary))
    ensures kind == 3 || 7 <= kind <= 9 || kind == 11 || kind == 12 || 14 <= kind ==>
              NodeFrom(data, start, size) == Bad(UnsupportedMarker)
    ensures kind == 0 && data[start] != 0 && data[start] != 8 && data[start] != 9 ==>
              NodeFrom(data, start, size) == Bad(UnsupportedMarker)
  {
  }

  // Below 16 references nothing is looked at; a key that is no string ends its dictionary.
  lemma DepthRefused(g: Graph, ref: nat, depth: nat)
    ensures 16 < depth ==> ParseObject(g, ref, depth) == Err(TooDeep)
  {
  }

  lemma KeyRefused(g: Graph, ref: nat, keys: seq<nat>, vals: seq<nat>, v: Value)
    requires g(ref) == DictNode(keys, vals) && keys != [] && vals != [] && ParseObject(g, keys[0], 1) == Ok(v)
    ensures !v.String? ==> ParseObject(g, ref, 0) == Err(KeyNotString)
  {
  }

  // A reference is bad when there is no such object, or its offset lies behind the data, and only then.
  lemma ReferenceExactly(D: Document, ref: nat)
    ensures NodeAt(D, ref) == Bad(BadReference) <==> ref >= |D.offsets| || D.offsets[ref] >= |D.data|
  {
  }

  // The offset table is read exactly when it ends within the data.
  lemma {:induction false} OffsetsExactly(data: bytes, table: nat, size: nat, count: nat)
    ensures ReadOffsets(data, table, size, count).Ok? <==> count == 0 || table + count * size <= |data|
    decreases count
  {
    if count > 0 {
      OffsetsExactly(data, table + size, size, count - 1);
      assert table + count * size == table + size + (count - 1) * size;
      assert (count - 1) * size >= 0;
    }
  }

  // A file is opened exactly when it has a header and a trailer, widths that are not 0, at most 4096 objects, and its
  // offset table starts and ends within it.
  lemma OpenExactly(data: bytes, trailer: nat, size: nat, refSize: nat, count: nat, table: nat)
    requires |data| >= 40 && trailer == |data| - 32 && size == data[trailer + 6] && refSize == data[trailer + 7]
    requires count == ReadBe(data, trailer + 8, 8) && table == ReadBe(data, trailer + 24, 8)
    ensures Open(data).Ok? <==>
            && data[..8] == Ascii("bplist00") && size != 0 && refSize != 0 && count <= 4096 && table < |data|
            && table + count * size <= |data|
  {
    assert MAGIC == Ascii("bplist00");
    OffsetsExactly(data, table, size, count);
    OpenNeeds(data, trailer, size, refSize, count, table);
  }

  lemma OpenNeeds(data: bytes, trailer: nat, size: nat, refSize: nat, count: nat, table: nat)
    requires |data| >= 40 && trailer == |data| - 32 && size == data[trailer + 6] && refSize == data[trailer + 7]
    requires count == ReadBe(data, trailer + 8, 8) && table == ReadBe(data, trailer + 24, 8)
    ensures Open(data).Ok? <==>
            && data[..8] == MAGIC && size != 0 && refSize != 0 && count <= 4096 && table < |data|
            && ReadOffsets(data, table, size, count).Ok?
  {
  }

  // ---------- whole files ----------

  // The trailer: six bytes that are not looked at, the widths, the number of objects, the top one, and the place of the
  // offset table.
  function TrailerBytes(unused: bytes, size: byte, refSize: byte, count: nat, top: nat, table: nat): (b: bytes)
    ensures |b| == |unused| + 26
  {
    unused + ([size, refSize] + (Be(count, 8) + (Be(top, 8) + Be(table, 8))))
  }

  // A file of any body, with a table of offsets of the given width behind it.
  function FileBytes(body: bytes, unused: bytes, size: byte, refSize: byte, offsets: seq<nat>, top: nat): bytes {
    [98, 112, 108, 105, 115, 116, 48, 48] +
    (body + (WideRefs(offsets, size) + TrailerBytes(unused, size, refSize, |offsets|, top, 8 + |body|)))
  }

  lemma {:induction false} OffsetsFound(data: bytes, o: nat, offsets: seq<nat>, size: nat)
    requires AllHeld(offsets, size) && At(data, o, WideRefs(offsets, size))
    ensures ReadOffsets(data, o, size, |offsets|) == Ok(offsets)
    decreases |offsets|
  {
    if offsets != [] {
      var rest, q := offsets[1..], o + size;
      AtParts(data, o, Be(offsets[0], size), WideRefs(rest, size), q);
      NumberRead(data, o, offsets[0], size);
      OffsetsFound(data, q, rest, size);
      OffsetsStep(data, o, q, offsets[0], rest, |offsets|, |rest|, size);
      assert offsets == [offsets[0]] + rest;
    }
  }

  lemma OffsetsStep(data: bytes, o: nat, q: nat, first: nat, rest: seq<nat>, n: nat, m: nat, size: nat)
    requires n == m + 1 && q == o + size <= |data| && ReadBe(data, o, size) == first
    requires ReadOffsets(data, q, size, m) == Ok(rest)
    ensures ReadOffsets(data, o, size, n) == Ok([first] + rest)
  {
  }

  lemma TrailerFound(data: bytes, o: nat, unused: bytes, size: byte, refSize: byte, count: nat, top: nat, table: nat)
    requires |unused| == 6 && count < TWO64 && top < TWO64 && table < TWO64
    requires At(data, o, TrailerBytes(unused, size, refSize, count, top, table))
    ensures o + 32 <= |data| && data[o + 6] == size && data[o + 7] == refSize
    ensures ReadBe(data, o + 8, 8) == count && ReadBe(data, o + 16, 8) == top && ReadBe(data, o + 24, 8) == table
  {
    var widths: bytes := [size, refSize];
    AtParts(data, o, unused, widths + (Be(count, 8) + (Be(top, 8) + Be(table, 8))), o + 6);
    AtParts(data, o + 6, widths, Be(count, 8) + (Be(top, 8) + Be(table, 8)), o + 8);
    AtParts(data, o + 8, Be(count, 8), Be(top, 8) + Be(table, 8), o + 16);
    AtParts(data, o + 16, Be(top, 8), Be(table, 8), o + 24);
    assert data[o + 6] == data[o + 6..o + 8][0] && data[o + 7] == data[o + 6..o + 8][1];
    EightBytes(8);
    NumberRead(data, o + 8, count, 8);
    NumberRead(data, o + 16, top, 8);
    NumberRead(data, o + 24, table, 8);
  }

  lemma EightBytes(k: nat)
    requires k == 8
    ensures Limit(k) == TWO64
  {
    assert Limit(1) == 256 && Limit(2) == 0x1_0000;
    assert Limit(4) == 256 * (256 * Limit(2));
    assert Limit(6) == 256 * (256 * Limit(4));
    assert Limit(k) == 256 * (256 * Limit(6));
  }

  // The parser finds the widths, every offset and the top object of every such file.
  lemma FileRead(body: bytes, unused: bytes, size: byte, refSize: byte, offsets: seq<nat>, top: nat, data: bytes)
    requires |unused| == 6 && AllHeld(offsets, size) && 0 < refSize && |offsets| <= 4096 && top < TWO64
    requires data == FileBytes(body, unused, size, refSize, offsets, top) && |data| < TWO64
    ensures Open(data) == Ok(Document(data, refSize, offsets, top))
  {
    var table := 8 + |body|;
    var trailer := table + Span(|offsets|, size);
    FileParts(data, body, unused, size, refSize, offsets, top, table, trailer);
    TrailerFound(data, trailer, unused, size, refSize, |offsets|, top, table);
    OffsetsFound(data, table, offsets, size);
    OpenForm(data, trailer, size, refSize, offsets, top, table, |offsets|);
  }

  lemma FileParts(data: bytes, body: bytes, unused: bytes, size: byte, refSize: byte, offsets: seq<nat>, top: nat,
                  table: nat, trailer: nat)
    requires data == FileBytes(body, unused, size, refSize, offsets, top) && |unused| == 6
    requires table == 8 + |body| && trailer == table + Span(|offsets|, size)
    ensures |data| == trailer + 32 && data[..8] == MAGIC && At(data, table, WideRefs(offsets, size))
    ensures At(data, trailer, TrailerBytes(unused, size, refSize, |offsets|, top, table))
  {
    var end := TrailerBytes(unused, size, refSize, |offsets|, top, table);
    var refs := WideRefs(offsets, size);
    assert data == MAGIC + (body + (refs + end));
    assert At(data, 0, MAGIC + (body + (refs + end)));
    AtParts(data, 0, MAGIC, body + (refs + end), 8);
    AtParts(data, 8, body, refs + end, table);
    AtParts(data, table, refs, end, trailer);
  }

  lemma OpenForm(data: bytes, trailer: nat, size: byte, refSize: byte, offsets: seq<nat>, top: nat, table: nat, n: nat)
    requires |data| == trailer + 32 && 8 <= trailer && data[..8] == MAGIC && n == |offsets| <= 4096 && table < |data|
    requires data[trailer + 6] == size > 0 && data[trailer + 7] == refSize > 0
    requires ReadBe(data, trailer + 8, 8) == n && ReadBe(data, trailer + 16, 8) == top
    requires ReadBe(data, trailer + 24, 8) == table && ReadOffsets(data, table, size, n) == Ok(offsets)
    ensures Open(data) == Ok(Document(data, refSize, offsets, top))
  {
  }
}
