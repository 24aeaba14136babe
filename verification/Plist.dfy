/**
 Binary property lists as BinaryPlistParser reads them: a table of objects that refer to each other,
 unfolded into a tree.
 */
module Plist {
  import opened Words
  import opened Slices

  // A real keeps the bits it was read from.
  datatype Value =
    | Null
    | Boolean(boolean: bool)
    | Integer(integer: nat)
    | Real(raw: nat, width: nat)
    | String(text: bytes)
    | Data(data: bytes)
    | Array(items: seq<Value>)
    | Dictionary(entries: map<bytes, Value>)

  // Oversized is no error of the source's own: a range of more than 2^62 bytes that its test let through. Making
  // a string of it throws, and making a data block of it is undefined.
  datatype Error =
    | NotBinaryPlist | InvalidTrailer | TruncatedOffsetTable | TooDeep | BadReference | TruncatedInteger
    | UnsupportedReal | TruncatedData | BadStringLength | TruncatedString | TruncatedUtf16 | BadArray
    | BadDictionary | KeyNotString | UnsupportedMarker | Oversized

  datatype Result<T> = Ok(value: T) | Err(error: Error)

  // One object, its references not yet followed.
  datatype Node =
    | Bad(error: Error)
    | Atom(value: Value)
    | ArrayNode(refs: seq<nat>)
    | DictNode(keys: seq<nat>, vals: seq<nat>)

  // What the parser object holds once the trailer and the offset table are read.
  datatype Document = Document(data: bytes, refSize: nat, offsets: seq<nat>, top: nat)

  const MAX_DEPTH: nat := 16
  const MAX_OBJECTS: nat := 4096

  // ---------- bytes ----------

  // read_be: big-endian, stopping at the end of the data, in a 64-bit register.
  function ReadBe(data: bytes, offset: nat, n: nat): (r: nat)
    ensures r < TWO64
    decreases n, offset
  {
    if n == 0 then 0
    else
      var high := ReadBe(data, offset, n - 1);
      if offset + n - 1 < |data| then (256 * high + data[offset + n - 1]) % TWO64 else high
  }

  // read_ref, count times
  function ReadRefs(data: bytes, offset: nat, size: nat, count: nat): (refs: seq<nat>)
    ensures |refs| == count
    decreases count, offset
  {
    if count == 0 then [] else [ReadBe(data, offset, size)] + ReadRefs(data, offset + size, size, count - 1)
  }

  // Every second byte of a UTF-16 string, a zero shown as '?'.
  function Narrow(data: bytes, offset: nat, count: nat): (text: bytes)
    requires offset + 2 * count <= |data|
    ensures |text| == count
    decreases count
  {
    if count == 0 then []
    else
      var ch := data[offset + 1];
      [if ch == 0 then 63 else ch] + Narrow(data, offset + 2, count - 1)
  }

  // read_count: the count and the offset behind it
  function ReadCount(data: bytes, offset: nat, low: nat): (r: Result<(nat, nat)>)
    ensures r.Ok? ==> offset <= r.value.1 && (offset <= |data| ==> r.value.1 <= |data|)
  {
    if low < 15 then Ok((low, offset))
    else if offset >= |data| then Err(BadStringLength)
    else
      var marker := data[offset];
      var width := Pow2(marker % 16);
      if marker / 16 != 1 || offset + 1 + width > |data| then Err(BadStringLength)
      else Ok((ReadBe(data, offset + 1, width), offset + 1 + width))
  }

  // n times size, as a sum.
  function Span(n: nat, size: nat): nat {
    if n == 0 then 0 else Span(n - 1, size) + size
  }

  // ---------- one object ----------

  function IntegerNode(data: bytes, offset: nat, width: nat): Node {
    if offset + width > |data| then Bad(TruncatedInteger) else Atom(Integer(ReadBe(data, offset, width)))
  }

  function RealNode(data: bytes, offset: nat, width: nat): Node {
    if offset + width > |data| || (width != 4 && width != 8) then Bad(UnsupportedReal)
    else Atom(Real(ReadBe(data, offset, width), width))
  }

  // `offset + size > data_.size()`, the sum in a 64-bit register.
  predicate RunsPast(data: bytes, offset: nat, size: nat) {
    (offset + size) % TWO64 > |data|
  }

  function DataNode(data: bytes, offset: nat, low: nat): Node {
    match ReadCount(data, offset, low)
    case Err(_) => Bad(TruncatedData)
    case Ok((count, from)) =>
      if RunsPast(data, from, count) then Bad(TruncatedData)
      else if from + count > |data| then Bad(Oversized)
      else Atom(Data(data[from..from + count]))
  }

  function AsciiNode(data: bytes, offset: nat, low: nat): Node
    requires offset <= |data|
  {
    match ReadCount(data, offset, low)
    case Err(_) => Bad(BadStringLength)
    case Ok((count, from)) =>
      if RunsPast(data, from, count) then Bad(TruncatedString) else Atom(String(Substr(data, from, count)))
  }

  function Utf16Node(data: bytes, offset: nat, low: nat): Node {
    match ReadCount(data, offset, low)
    case Err(_) => Bad(BadStringLength)
    case Ok((count, from)) =>
      if RunsPast(data, from, 2 * count) then Bad(TruncatedUtf16)
      else if from + 2 * count > |data| then Bad(Oversized)
      else Atom(String(Narrow(data, from, count)))
  }

  function ArrayAt(data: bytes, offset: nat, low: nat, refSize: nat): Node {
    var c := ReadCount(data, offset, low);
    if c.Err? || c.value.0 > MAX_OBJECTS || c.value.1 + Span(c.value.0, refSize) > |data| then Bad(BadArray)
    else ArrayNode(ReadRefs(data, c.value.1, refSize, c.value.0))
  }

  function DictAt(data: bytes, offset: nat, low: nat, refSize: nat): Node {
    var c := ReadCount(data, offset, low);
    if c.Err? || c.value.0 > MAX_OBJECTS || c.value.1 + 2 * Span(c.value.0, refSize) > |data| then Bad(BadDictionary)
    else DictNode(ReadRefs(data, c.value.1, refSize, c.value.0),
                  ReadRefs(data, c.value.1 + Span(c.value.0, refSize), refSize, c.value.0))
  }

  // The object whose marker is at start.
  function NodeFrom(data: bytes, start: nat, refSize: nat): Node
    requires start < |data|
  {
    var marker, offset := data[start], start + 1;
    var high, low := marker / 16, marker % 16;
    if marker == 0x00 then Atom(Null)
    else if marker == 0x08 || marker == 0x09 then Atom(Boolean(marker == 0x09))
    else if high == 0x1 then IntegerNode(data, offset, Pow2(low))
    else if high == 0x2 then RealNode(data, offset, Pow2(low))
    else if high == 0x4 then DataNode(data, offset, low)
    else if high == 0x5 then AsciiNode(data, offset, low)
    else if high == 0x6 then Utf16Node(data, offset, low)
    else if high == 0xa then ArrayAt(data, offset, low, refSize)
    else if high == 0xd then DictAt(data, offset, low, refSize)
    else Bad(UnsupportedMarker)
  }

  // The object a reference names.
  function NodeAt(D: Document, ref: nat): Node {
    if ref >= |D.offsets| || D.offsets[ref] >= |D.data| then Bad(BadReference)
    else NodeFrom(D.data, D.offsets[ref], D.refSize)
  }

  // ---------- the tree ----------

  // std::map::emplace: an earlier entry of the same key stays.
  function Emplace(m: map<bytes, Value>, key: bytes, v: Value): map<bytes, Value> {
    if key in m then m else m[key := v]
  }

  // Objects as a function of their references, so that what follows does not depend on the bytes.
  type Graph = nat -> Node

  // parse_object at a depth.
  function ParseObject(g: Graph, ref: nat, depth: nat): (r: Result<Value>)
    decreases MAX_DEPTH + 1 - depth, 2, 0
  {
    if depth > MAX_DEPTH then Err(TooDeep)
    else
      match g(ref)
      case Bad(e) => Err(e)
      case Atom(v) => Ok(v)
      case ArrayNode(refs) => ArrayOf(ParseItems(g, refs, depth + 1))
      case DictNode(keys, vals) => ParseEntries(g, keys, vals, depth + 1, map[])
  }

  function ArrayOf(r: Result<seq<Value>>): Result<Value> {
    match r
    case Ok(items) => Ok(Array(items))
    case Err(e) => Err(e)
  }

  // The items of an array in order, up to the first that fails.
  function ParseItems(g: Graph, refs: seq<nat>, depth: nat): (r: Result<seq<Value>>)
    ensures r.Ok? ==> |r.value| == |refs|
    decreases MAX_DEPTH + 1 - depth, 3, |refs|
  {
    if refs == [] then Ok([])
    else
      match ParseObject(g, refs[0], depth)
      case Err(e) => Err(e)
      case Ok(v) =>
        match ParseItems(g, refs[1..], depth)
        case Err(e) => Err(e)
        case Ok(rest) => Ok([v] + rest)
  }

  // The entries of a dictionary in order, into those already there: key, check, value.
  function ParseEntries(g: Graph, keys: seq<nat>, vals: seq<nat>, depth: nat, done: map<bytes, Value>)
    : (r: Result<Value>)
    decreases MAX_DEPTH + 1 - depth, 3, |keys|
  {
    if keys == [] || vals == [] then Ok(Dictionary(done))
    else
      match ParseObject(g, keys[0], depth)
      case Err(e) => Err(e)
      case Ok(key) =>
        if !key.String? then Err(KeyNotString)
        else
          match ParseObject(g, vals[0], depth)
          case Err(e) => Err(e)
          case Ok(child) => ParseEntries(g, keys[1..], vals[1..], depth, Emplace(done, key.text, child))
  }

  // ---------- the document ----------

  function GraphOf(D: Document): Graph {
    (ref: nat) => NodeAt(D, ref)
  }

  // The offset table, or nothing when it runs past the data.
  function ReadOffsets(data: bytes, table: nat, size: nat, count: nat): (r: Result<seq<nat>>)
    ensures r.Ok? ==> |r.value| == count
    ensures r.Err? ==> r.error == TruncatedOffsetTable
    decreases count, table
  {
    if count == 0 then Ok([])
    else if table + size > |data| then Err(TruncatedOffsetTable)
    else
      match ReadOffsets(data, table + size, size, count - 1)
      case Err(e) => Err(e)
      case Ok(rest) => Ok([ReadBe(data, table, size)] + rest)
  }

  const MAGIC: bytes := [98, 112, 108, 105, 115, 116, 48, 48]

  // The header and trailer of a document.
  function Open(data: bytes): (r: Result<Document>) {
    if |data| < 40 || data[..8] != MAGIC then Err(NotBinaryPlist)
    else
      var trailer := |data| - 32;
      var intSize, refSize: nat := data[trailer + 6], data[trailer + 7];
      var count, top := ReadBe(data, trailer + 8, 8), ReadBe(data, trailer + 16, 8);
      var table := ReadBe(data, trailer + 24, 8);
      if intSize == 0 || refSize == 0 || count > MAX_OBJECTS || table >= |data| then Err(InvalidTrailer)
      else
        match ReadOffsets(data, table, intSize, count)
        case Err(e) => Err(e)
        case Ok(offsets) => Ok(Document(data, refSize, offsets, top))
  }

  // parse_binary_plist
  function Parse(data: bytes): Result<Value> {
    match Open(data)
    case Err(e) => Err(e)
    case Ok(D) => ParseObject(GraphOf(D), D.top, 0)
  }

  // ---------- the tests of a length ----------

  // A string comes out shorter than its count, with the rest of the data for its text, exactly when the sum in
  // the test wraps; it comes out whole exactly when its bytes are there.
  lemma StringLength(data: bytes, offset: nat, low: nat, count: nat, from: nat)
    requires offset <= |data| < TWO64 && ReadCount(data, offset, low) == Ok((count, from))
    ensures AsciiNode(data, offset, low) == Atom(String(data[from..])) && |data[from..]| < count
            <==> from + count >= TWO64
    ensures AsciiNode(data, offset, low).Atom? && |AsciiNode(data, offset, low).value.text| == count
            <==> from + count <= |data|
  {
    CountFits(data, offset, low);
    if from + count >= TWO64 {
      assert (from + count) % TWO64 == from + count - TWO64;
    }
  }

  lemma CountFits(data: bytes, offset: nat, low: nat)
    requires offset <= |data| < TWO64 && ReadCount(data, offset, low).Ok?
    ensures ReadCount(data, offset, low).value.0 < TWO64 && ReadCount(data, offset, low).value.1 <= |data|
  {
  }

  // A data block passes the test although its bytes are not there exactly when the sum wraps.
  lemma DataLength(data: bytes, offset: nat, low: nat, count: nat, from: nat)
    requires offset <= |data| < TWO64 && ReadCount(data, offset, low) == Ok((count, from))
    ensures DataNode(data, offset, low) == Bad(Oversized) <==> from + count >= TWO64
    ensures DataNode(data, offset, low).Atom? <==> from + count <= |data|
  {
    CountFits(data, offset, low);
    if from + count >= TWO64 {
      assert (from + count) % TWO64 == from + count - TWO64;
    }
  }

  // A UTF-16 string passes only when its bytes are there.
  lemma WideLength(data: bytes, offset: nat, low: nat, count: nat, from: nat)
    requires offset <= |data| && ReadCount(data, offset, low) == Ok((count, from))
    ensures Utf16Node(data, offset, low).Atom? <==> from + 2 * count <= |data|
  {
  }
}
