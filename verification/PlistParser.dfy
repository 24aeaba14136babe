/**
 BinaryPlistParser with its loops, moving offset and containers filled in place, tied to the functions of
 Plist.
 */
module PlistParser {
  import opened Words
  import opened Slices
  import opened Plist

  // ---------- loops over bytes ----------

  lemma TopByteLost(value: nat, x: nat, high: nat)
    requires x == 256 * value && high == value % 0x100_0000_0000_0000
    ensures x % TWO64 == 256 * high
  {
    var lost := value / 0x100_0000_0000_0000;
    assert x == 256 * high + lost * TWO64;
  }

  lemma LowByteStays(x: nat, b: byte, top: nat, high: nat)
    requires top == x % TWO64 && top == 256 * high
    ensures (x + b) % TWO64 == top + b
  {
    var lost := x / TWO64;
    assert x + b == (top + b) + lost * TWO64;
    assert top + b < TWO64;
  }

  lemma OrByte(high: nat, b: byte, w: nat, top: nat)
    requires w == 8 && top == 256 * high
    ensures BitOr(top, b) == top + b
  {
    ScaleIsProduct(high, w);
    assert Pow2(w) == 256;
    BitOrDisjoint(high, b, w);
  }

  // `value << 8 | byte` in 64 bits
  lemma ShiftIn(value: nat, x: nat, b: byte, top: nat, high: nat)
    requires x == 256 * value && top == x % TWO64 && high == value % 0x100_0000_0000_0000
    ensures BitOr(top, b) == (x + b) % TWO64
  {
    TopByteLost(value, x, high);
    OrByte(high, b, 8, top);
    LowByteStays(x, b, top, high);
  }

  lemma {:induction false} ReadPastEnd(data: bytes, offset: nat, n: nat, m: nat)
    requires n <= m && offset + n >= |data|
    ensures ReadBe(data, offset, m) == ReadBe(data, offset, n)
    decreases m
  {
    if n < m {
      ReadPastEnd(data, offset, n, m - 1);
    }
  }

  // read_be
  method ReadBytes(data: bytes, offset: nat, n: nat) returns (value: nat)
    ensures value == ReadBe(data, offset, n)
  {
    value := 0;
    var i := 0;
    while i < n && offset + i < |data|
      invariant i <= n && value == ReadBe(data, offset, i)
    {
      var top := 256 * value % TWO64;
      ShiftIn(value, 256 * value, data[offset + i], top, value % 0x100_0000_0000_0000);
      value := BitOr(top, data[offset + i]);
      i := i + 1;
    }
    if i < n {
      ReadPastEnd(data, offset, i, n);
    }
  }

  // The loop over UTF-16 units.
  method NarrowText(data: bytes, offset: nat, count: nat) returns (text: bytes)
    requires offset + 2 * count <= |data|
    ensures text == Narrow(data, offset, count)
  {
    text := [];
    ghost var pos, left := offset, count;
    for i := 0 to count
      invariant pos == offset + 2 * i && left == count - i
      invariant text + Narrow(data, pos, left) == Narrow(data, offset, count)
    {
      var ch := data[offset + i * 2 + 1];
      text := text + [if ch == 0 then 63 else ch];
      pos, left := pos + 2, left - 1;
    }
  }

  // ---------- the parser ----------

  // What was read before what r holds.
  function Prefixed<T>(head: seq<T>, r: Result<seq<T>>): Result<seq<T>> {
    match r
    case Ok(rest) => Ok(head + rest)
    case Err(e) => Err(e)
  }

  lemma PrefixedNone<T>(r: Result<seq<T>>, all: seq<T>)
    ensures Prefixed([], r) == r
    ensures Prefixed(all, Ok([])) == Ok(all)
  {
    if r.Ok? {
      assert [] + r.value == r.value;
    }
    assert all + [] == all;
  }

  lemma TableStep(head: seq<nat>, data: bytes, pos: nat, size: nat, left: nat, next: nat, rest: nat)
    requires left == rest + 1 && next == pos + size && next <= |data|
    ensures Prefixed(head, ReadOffsets(data, pos, size, left))
            == Prefixed(head + [ReadBe(data, pos, size)], ReadOffsets(data, next, size, rest))
  {
    var x := ReadBe(data, pos, size);
    match ReadOffsets(data, next, size, rest)
    case Ok(more) => assert head + ([x] + more) == head + [x] + more;
    case Err(_) =>
  }

  lemma EntriesOne(g: Graph, keys: seq<nat>, vals: seq<nat>, depth: nat, done: map<bytes, Value>, key: Value,
                   child: Value)
    requires keys != [] && vals != [] && ParseObject(g, keys[0], depth) == Ok(key) && key.String?
    requires ParseObject(g, vals[0], depth) == Ok(child)
    ensures ParseEntries(g, keys, vals, depth, done)
            == ParseEntries(g, keys[1..], vals[1..], depth, Emplace(done, key.text, child))
  {
  }

  lemma RefsTail(data: bytes, pos: nat, size: nat, left: nat, next: nat, rest: nat)
    requires left == rest + 1 && next == pos + size
    ensures ReadRefs(data, pos, size, left)[0] == ReadBe(data, pos, size)
    ensures ReadRefs(data, pos, size, left)[1..] == ReadRefs(data, next, size, rest)
  {
  }

  lemma PrefixedOne(items: seq<Value>, v: Value, g: Graph, refs: seq<nat>, depth: nat, rest: seq<nat>)
    requires refs != [] && rest == refs[1..] && ParseObject(g, refs[0], depth) == Ok(v)
    ensures Prefixed(items, ParseItems(g, refs, depth)) == Prefixed(items + [v], ParseItems(g, rest, depth))
  {
    match ParseItems(g, rest, depth)
    case Ok(more) => assert items + ([v] + more) == items + [v] + more;
    case Err(_) =>
  }

  class BinaryPlistParser {
    const data: bytes
    var offsetIntSize: nat
    var objectRefSize: nat
    var topObject: nat
    var offsets: seq<nat>

    constructor (data: bytes)
      ensures this.data == data
    {
      this.data := data;
      offsetIntSize, objectRefSize, topObject, offsets := 0, 0, 0, [];
    }

    // The document read so far.
    ghost function Doc(): Document
      reads this
    {
      Document(data, objectRefSize, offsets, topObject)
    }

    ghost function Objects(): Graph
      reads this
    {
      GraphOf(Doc())
    }

    // parse
    method ParseRoot() returns (r: Result<Value>)
      modifies this
      ensures r == Parse(data)
    {
      if |data| < 40 || data[..8] != MAGIC {
        return Err(NotBinaryPlist);
      }
      var trailer := |data| - 32;
      offsetIntSize, objectRefSize := data[trailer + 6], data[trailer + 7];
      var objectCount := ReadBytes(data, trailer + 8, 8);
      topObject := ReadBytes(data, trailer + 16, 8);
      var offsetTable := ReadBytes(data, trailer + 24, 8);
      if offsetIntSize == 0 || objectRefSize == 0 || objectCount > MAX_OBJECTS || offsetTable >= |data| {
        return Err(InvalidTrailer);
      }
      var ok := ReadTable(offsetTable, objectCount);
      if !ok {
        return Err(TruncatedOffsetTable);
      }
      r := ParseAt(topObject, 0);
    }

    // The offset table, entry by entry.
    method ReadTable(offsetTable: nat, objectCount: nat) returns (ok: bool)
      modifies this`offsets
      ensures ok == ReadOffsets(data, offsetTable, offsetIntSize, objectCount).Ok?
      ensures !ok ==> ReadOffsets(data, offsetTable, offsetIntSize, objectCount) == Err(TruncatedOffsetTable)
      ensures ok ==> ReadOffsets(data, offsetTable, offsetIntSize, objectCount) == Ok(offsets)
    {
      offsets := [];
      ghost var goal := ReadOffsets(data, offsetTable, offsetIntSize, objectCount);
      var pos: nat, left: nat := offsetTable, objectCount;
      PrefixedNone(goal, []);
      while left > 0
        invariant goal == Prefixed(offsets, ReadOffsets(data, pos, offsetIntSize, left))
      {
        if pos + offsetIntSize > |data| {
          return false;
        }
        var x := ReadBytes(data, pos, offsetIntSize);
        var next, rest := pos + offsetIntSize, left - 1;
        TableStep(offsets, data, pos, offsetIntSize, left, next, rest);
        offsets := offsets + [x];
        pos, left := next, rest;
      }
      PrefixedNone(goal, offsets);
      ok := true;
    }

    // read_count
    method CountAt(offset: nat, low: nat) returns (r: Result<(nat, nat)>)
      ensures r == ReadCount(data, offset, low)
    {
      if low < 15 {
        return Ok((low, offset));
      }
      if offset >= |data| {
        return Err(BadStringLength);
      }
      var marker := data[offset];
      if marker / 16 != 1 {
        return Err(BadStringLength);
      }
      var width := Pow2(marker % 16);
      if offset + 1 + width > |data| {
        return Err(BadStringLength);
      }
      var count := ReadBytes(data, offset + 1, width);
      r := Ok((count, offset + 1 + width));
    }

    // parse_object
    method ParseAt(ref: nat, depth: nat) returns (r: Result<Value>)
      ensures r == ParseObject(Objects(), ref, depth)
      decreases MAX_DEPTH + 1 - depth, 4
    {
      if depth > MAX_DEPTH {
        return Err(TooDeep);
      }
      if ref >= |offsets| || offsets[ref] >= |data| {
        return Err(BadReference);
      }
      var start := offsets[ref];
      var marker, offset := data[start], start + 1;
      var high, low := marker / 16, marker % 16;
      assert Objects()(ref) == NodeFrom(data, start, objectRefSize);
      if marker == 0x00 {
        r := Ok(Null);
      } else if marker == 0x08 || marker == 0x09 {
        r := Ok(Boolean(marker == 0x09));
      } else if high == 0x1 || high == 0x2 {
        r := ParseNumber(offset, high, Pow2(low));
      } else if high == 0x4 || high == 0x5 || high == 0x6 {
        r := ParseBlob(offset, high, low);
      } else if high == 0xa {
        r := ArrayBranch(offset, low, depth);
      } else if high == 0xd {
        r := DictionaryBranch(offset, low, depth);
      } else {
        r := Err(UnsupportedMarker);
      }
    }

    method ArrayBranch(offset: nat, low: nat, depth: nat) returns (r: Result<Value>)
      requires depth <= MAX_DEPTH
      ensures r == Follow(Objects(), ArrayAt(data, offset, low, objectRefSize), depth)
      decreases MAX_DEPTH + 1 - depth, 3
    {
      var c := CountAt(offset, low);
      if c.Err? || c.value.0 > MAX_OBJECTS {
        return Err(BadArray);
      }
      var (count, items) := c.value;
      SpanIsProduct(count, objectRefSize);
      if items + count * objectRefSize > |data| {
        return Err(BadArray);
      }
      r := ParseArray(items, count, depth + 1);
    }

    method DictionaryBranch(offset: nat, low: nat, depth: nat) returns (r: Result<Value>)
      requires depth <= MAX_DEPTH
      ensures r == Follow(Objects(), DictAt(data, offset, low, objectRefSize), depth)
      decreases MAX_DEPTH + 1 - depth, 3
    {
      var c := CountAt(offset, low);
      if c.Err? || c.value.0 > MAX_OBJECTS {
        return Err(BadDictionary);
      }
      var (count, keys) := c.value;
      SpanIsProduct(count, objectRefSize);
      if keys + count * objectRefSize * 2 > |data| {
        return Err(BadDictionary);
      }
      var vals := keys + count * objectRefSize;
      r := ParseDictionary(keys, vals, count, depth + 1);
    }

    // Integers and reals.
    method ParseNumber(offset: nat, high: nat, width: nat) returns (r: Result<Value>)
      requires high == 1 || high == 2
      ensures r == Leaf(if high == 1 then IntegerNode(data, offset, width) else RealNode(data, offset, width))
    {
      if offset + width > |data| || (high == 2 && width != 4 && width != 8) {
        return Err(if high == 1 then TruncatedInteger else UnsupportedReal);
      }
      var raw := ReadBytes(data, offset, width);
      r := Ok(if high == 1 then Integer(raw) else Real(raw, width));
    }

    // Data and strings.
    method ParseBlob(offset: nat, high: nat, low: nat) returns (r: Result<Value>)
      requires (high == 4 || high == 5 || high == 6) && offset <= |data|
      ensures r == Leaf(if high == 4 then DataNode(data, offset, low)
                        else if high == 5 then AsciiNode(data, offset, low) else Utf16Node(data, offset, low))
    {
      var c := CountAt(offset, low);
      if c.Err? {
        return Err(if high == 4 then TruncatedData else BadStringLength);
      }
      var (count, from) := c.value;
      if high == 6 {
        if (from + count * 2) % TWO64 > |data| {
          return Err(TruncatedUtf16);
        }
        if from + count * 2 > |data| {
          return Err(Oversized);
        }
        var text := NarrowText(data, from, count);
        r := Ok(String(text));
      } else {
        if (from + count) % TWO64 > |data| {
          return Err(if high == 4 then TruncatedData else TruncatedString);
        }
        if high == 4 && from + count > |data| {
          return Err(Oversized);
        }
        var text := Substr(data, from, count);
        r := Ok(if high == 4 then Data(text) else String(text));
      }
    }

    // The items of an array, into a growing sequence.
    method ParseArray(offset: nat, count: nat, depth: nat) returns (r: Result<Value>)
      requires depth <= MAX_DEPTH + 1
      ensures r == ArrayOf(ParseItems(Objects(), ReadRefs(data, offset, objectRefSize, count), depth))
      decreases MAX_DEPTH + 1 - depth, 5
    {
      ghost var g, size, refs := Objects(), objectRefSize, ReadRefs(data, offset, objectRefSize, count);
      ghost var goal := ParseItems(g, refs, depth);
      var items, pos: nat, left: nat := [], offset, count;
      PrefixedNone(goal, []);
      while left > 0
        invariant refs == ReadRefs(data, pos, size, left) && Prefixed(items, ParseItems(g, refs, depth)) == goal
      {
        var next, rest := pos + objectRefSize, left - 1;
        RefsTail(data, pos, size, left, next, rest);
        var ref := ReadBytes(data, pos, objectRefSize);
        var item := ParseAt(ref, depth);
        if item.Err? {
          return item;
        }
        PrefixedOne(items, item.value, g, refs, depth, refs[1..]);
        items := items + [item.value];
        pos, left, refs := next, rest, refs[1..];
      }
      PrefixedNone(goal, items);
      r := Ok(Array(items));
    }

    // The entries of a dictionary, emplaced into a map.
    method ParseDictionary(keys: nat, vals: nat, count: nat, depth: nat) returns (r: Result<Value>)
      requires depth <= MAX_DEPTH + 1
      ensures r == ParseEntries(Objects(), ReadRefs(data, keys, objectRefSize, count),
                                ReadRefs(data, vals, objectRefSize, count), depth, map[])
      decreases MAX_DEPTH + 1 - depth, 5
    {
      ghost var g, size := Objects(), objectRefSize;
      ghost var ks, vs := ReadRefs(data, keys, size, count), ReadRefs(data, vals, size, count);
      ghost var goal := ParseEntries(g, ks, vs, depth, map[]);
      var dict, keyPos: nat, valPos: nat, left: nat := map[], keys, vals, count;
      while left > 0
        invariant ks == ReadRefs(data, keyPos, size, left) && vs == ReadRefs(data, valPos, size, left)
        invariant goal == ParseEntries(g, ks, vs, depth, dict)
      {
        var nextKey, nextVal, rest := keyPos + objectRefSize, valPos + objectRefSize, left - 1;
        RefsTail(data, keyPos, size, left, nextKey, rest);
        RefsTail(data, valPos, size, left, nextVal, rest);
        var ref := ReadBytes(data, keyPos, objectRefSize);
        var key := ParseAt(ref, depth);
        if key.Err? {
          return key;
        }
        if !key.value.String? {
          return Err(KeyNotString);
        }
        ref := ReadBytes(data, valPos, objectRefSize);
        var child := ParseAt(ref, depth);
        if child.Err? {
          return child;
        }
        EntriesOne(g, ks, vs, depth, dict, key.value, child.value);
        dict := Emplace(dict, key.value.text, child.value);
        keyPos, valPos, left := nextKey, nextVal, rest;
        ks, vs := ks[1..], vs[1..];
      }
      r := Ok(Dictionary(dict));
    }
  }

  // What an object becomes once its references are followed.
  function Follow(g: Graph, n: Node, depth: nat): Result<Value> {
    match n
    case Bad(e) => Err(e)
    case Atom(v) => Ok(v)
    case ArrayNode(refs) => ArrayOf(ParseItems(g, refs, depth + 1))
    case DictNode(keys, vals) => ParseEntries(g, keys, vals, depth + 1, map[])
  }

  // The value of an object without references.
  function Leaf(n: Node): Result<Value> {
    match n
    case Bad(e) => Err(e)
    case Atom(v) => Ok(v)
    case _ => Err(UnsupportedMarker)
  }

  lemma {:induction false} SpanIsProduct(n: nat, size: nat)
    ensures Span(n, size) == n * size
  {
    if n > 0 {
      SpanIsProduct(n - 1, size);
      assert n * size == (n - 1) * size + size;
    }
  }
}
