/**
 RTSP requests as try_parse_request takes them off the front of a buffer; Content-Length framing follows
 section 12.14 of RFC 2326.
 */
module RtspMessage {
  import opened Words
  import opened Wrappers
  import opened Slices

  const CR: byte := 13
  const LF: byte := 10
  const COLON: byte := 58

  type size = x: int | 0 <= x < 0x1_0000_0000_0000_0000

  datatype Request = Request(verb: bytes, uri: bytes, version: bytes, headers: map<bytes, bytes>, body: bytes)

  // ---------- text ----------

  predicate IsSpace(c: byte) {
    9 <= c <= 13 || c == 32
  }

  function Lower(c: byte): byte {
    if 65 <= c <= 90 then c + 32 else c
  }

  function ToLower(s: bytes): (r: bytes)
    ensures |r| == |s|
  {
    seq(|s|, (i: nat) requires i < |s| => Lower(s[i]))
  }

  function TrimLeft(s: bytes): bytes {
    if s != [] && IsSpace(s[0]) then TrimLeft(s[1..]) else s
  }

  function TrimRight(s: bytes): bytes {
    if s != [] && IsSpace(s[|s| - 1]) then TrimRight(s[..|s| - 1]) else s
  }

  function Trim(s: bytes): bytes {
    TrimRight(TrimLeft(s))
  }

  // The first c, or the end.
  function IndexOf(s: bytes, c: byte): (i: nat)
    ensures i <= |s| && (i < |s| ==> s[i] == c)
  {
    if s == [] || s[0] == c then 0 else 1 + IndexOf(s[1..], c)
  }

  lemma {:induction false} IndexIs(s: bytes, c: byte, i: nat)
    requires i <= |s| && c !in s[..i] && (i < |s| ==> s[i] == c)
    ensures IndexOf(s, c) == i
  {
    if i > 0 {
      assert s[0] == s[..i][0];
      assert s[1..][..i - 1] == s[..i][1..];
      IndexIs(s[1..], c, i - 1);
    }
  }

  // Up to the first white space.
  function WordEnd(s: bytes): (i: nat)
    ensures i <= |s|
  {
    if s == [] || IsSpace(s[0]) then 0 else 1 + WordEnd(s[1..])
  }

  function DropCr(line: bytes): bytes {
    if line != [] && line[|line| - 1] == CR then line[..|line| - 1] else line
  }

  // split_lines: no last line when the text ends with a line feed.
  function Lines(s: bytes): seq<bytes>
    decreases |s|
  {
    if s == [] then []
    else
      var i := IndexOf(s, LF);
      if i == |s| then [DropCr(s)] else [DropCr(s[..i])] + Lines(s[i + 1..])
  }

  predicate IsDigit(c: byte) {
    48 <= c <= 57
  }

  // The value of the leading digits.
  function Digits(s: bytes, acc: nat): nat
    decreases |s|
  {
    if s == [] || !IsDigit(s[0]) then acc else Digits(s[1..], 10 * acc + (s[0] as int - 48))
  }

  // std::from_chars: without digits, or out of range, the old value stays.
  function FromChars(s: bytes, before: size): size {
    if s == [] || !IsDigit(s[0]) then before
    else
      var v := Digits(s, 0);
      if v < TWO64 then v else before
  }

  // ---------- the head ----------

  datatype Head = NoLines | BadStart | Head(request: Request, contentLength: size)

  const CONTENT_LENGTH: bytes := [99, 111, 110, 116, 101, 110, 116, 45, 108, 101, 110, 103, 116, 104]

  // The three words of a start line; missing ones are empty.
  function StartLine(line: bytes): Request {
    var a := TrimLeft(line);
    var b := TrimLeft(a[WordEnd(a)..]);
    var c := TrimLeft(b[WordEnd(b)..]);
    Request(a[..WordEnd(a)], b[..WordEnd(b)], c[..WordEnd(c)], map[], [])
  }

  // The header lines, in order.
  function HeaderLines(lines: seq<bytes>, r: Request, length: size): (Request, size)
    decreases |lines|
  {
    if lines == [] then (r, length)
    else
      var line := lines[0];
      var colon := IndexOf(line, COLON);
      if colon == |line| then HeaderLines(lines[1..], r, length)
      else
        var name, value := ToLower(Trim(line[..colon])), Trim(line[colon + 1..]);
        HeaderLines(lines[1..], r.(headers := r.headers[name := value]),
                    if name == CONTENT_LENGTH then FromChars(value, length) else length)
  }

  // Everything the header block says.
  function ParseHead(block: bytes): Head {
    var lines := Lines(block);
    if lines == [] then NoLines
    else
      var start := StartLine(lines[0]);
      if start.verb == [] || start.version == [] then BadStart
      else
        var (r, length) := HeaderLines(lines[1..], start, 0);
        Head(r, length)
  }

  // Framing does not depend on how a header block is read.
  type HeadParser = bytes -> Head

  // The one of this module.
  function RtspHead(): HeadParser {
    (block: bytes) => ParseHead(block)
  }

  // ---------- framing ----------

  predicate EndAt(s: bytes, i: nat) {
    i + 4 <= |s| && s[i] == CR && s[i + 1] == LF && s[i + 2] == CR && s[i + 3] == LF
  }

  // The first CR LF CR LF from i on.
  function HeaderEnd(s: bytes, i: nat): (e: Option<nat>)
    ensures e.Some? ==> i <= e.value && EndAt(s, e.value)
    decreases |s| - i
  {
    if i + 4 > |s| then None else if EndAt(s, i) then Some(i) else HeaderEnd(s, i + 1)
  }

  // A parsed request with the bytes to erase; or the bytes a malformed head takes, which no caller uses.
  datatype Parsed = Failed(consumed: nat) | Parsed(request: Request, consumed: nat)

  // header_end + 4 + content_length in a 64-bit register
  function Total(end: nat, length: nat): nat {
    (end + 4 + length) % TWO64
  }

  // try_parse_request
  function TryParse(h: HeadParser, buffer: bytes): (r: Parsed)
    ensures r.Parsed? ==> r.consumed <= |buffer|
  {
    var e := HeaderEnd(buffer, 0);
    if e.None? then Failed(0)
    else
      match h(buffer[..e.value])
      case NoLines => Failed(0)
      case BadStart => Failed(e.value + 4)
      case Head(request, length) =>
        var total := Total(e.value, length);
        if |buffer| < total then Failed(0)
        else Parsed(request.(body := Substr(buffer, e.value + 4, length)), total)
  }

  // Does the buffer start with a head whose length does not fit in 64 bits?
  predicate Wraps(h: HeadParser, buffer: bytes) {
    var e := HeaderEnd(buffer, 0);
    e.Some? && var d := h(buffer[..e.value]); d.Head? && e.value + 4 + d.contentLength >= TWO64
  }

  // ---------- framing facts ----------

  // Within 64 bits the sum stands; past them it falls short of the head.
  lemma TotalOf(end: nat, length: size)
    requires end + 4 < TWO64
    ensures end + 4 + length < TWO64 ==> Total(end, length) == end + 4 + length
    ensures end + 4 + length >= TWO64 ==> Total(end, length) == end + 4 + length - TWO64 < end + 4
  {
  }

  // The first end of a header stays the first when bytes are appended.
  lemma {:induction false} HeaderEndStable(s: bytes, ext: bytes, i: nat)
    requires HeaderEnd(s, i).Some?
    ensures HeaderEnd(s + ext, i) == HeaderEnd(s, i)
    decreases |s| - i
  {
    if !EndAt(s, i) {
      HeaderEndStable(s, ext, i + 1);
    }
  }

  lemma TotalAndBody(buffer: bytes, e: nat, length: size, start: nat, end: nat)
    requires start == e + 4 && end == start + length <= |buffer| && end < TWO64
    ensures Total(e, length) == end && Substr(buffer, start, length) == buffer[start..end]
  {
    TotalOf(e, length);
  }

  lemma FitsForm(h: HeadParser, buffer: bytes, e: nat, r: Request, length: size)
    requires HeaderEnd(buffer, 0) == Some(e) && h(buffer[..e]) == Head(r, length)
    ensures Wraps(h, buffer) <==> e + 4 + length >= TWO64
  {
  }

  lemma ParsedForm(h: HeadParser, buffer: bytes, e: nat, r: Request, length: size, start: nat, end: nat, body: bytes)
    requires HeaderEnd(buffer, 0) == Some(e) && h(buffer[..e]) == Head(r, length)
    requires start == e + 4 && end == start + length <= |buffer| && end < TWO64 && body == buffer[start..end]
    ensures TryParse(h, buffer) == Parsed(r.(body := body), end) && !Wraps(h, buffer)
  {
    TotalAndBody(buffer, e, length, start, end);
    TotalForm(h, buffer, e, r, length, start, end);
    FitsForm(h, buffer, e, r, length);
  }

  lemma TotalForm(h: HeadParser, buffer: bytes, e: nat, r: Request, length: size, start: nat, end: nat)
    requires HeaderEnd(buffer, 0) == Some(e) && h(buffer[..e]) == Head(r, length)
    requires Total(e, length) == end <= |buffer| && start == e + 4
    ensures TryParse(h, buffer) == Parsed(r.(body := Substr(buffer, start, length)), end)
  {
  }

  lemma CompleteHead(h: HeadParser, buffer: bytes, e: nat, r: Request, length: size)
    requires TryParse(h, buffer).Parsed? && !Wraps(h, buffer) && HeaderEnd(buffer, 0) == Some(e)
    requires h(buffer[..e]) == Head(r, length)
    ensures e + 4 + length <= |buffer| && e + 4 + length < TWO64
  {
    TotalOf(e, length);
  }

  // A request that was parsed is parsed the same when more bytes follow, unless its length wraps.
  lemma ParsedStable(h: HeadParser, buffer: bytes, ext: bytes)
    requires TryParse(h, buffer).Parsed? && !Wraps(h, buffer)
    ensures TryParse(h, buffer + ext) == TryParse(h, buffer) && !Wraps(h, buffer + ext)
  {
    var all, e := buffer + ext, HeaderEnd(buffer, 0).value;
    HeaderEndStable(buffer, ext, 0);
    assert all[..e] == buffer[..e];
    var d := h(buffer[..e]);
    CompleteHead(h, buffer, e, d.request, d.contentLength);
    var start, end := e + 4, e + 4 + d.contentLength;
    var body := buffer[start..end];
    assert all[start..end] == body;
    ParsedForm(h, buffer, e, d.request, d.contentLength, start, end, body);
    ParsedForm(h, all, e, d.request, d.contentLength, start, end, body);
  }

  // A parsed request takes its whole head and body, at least four bytes, unless its length wraps: then
  // it takes less than its head.
  lemma ConsumedExactly(h: HeadParser, buffer: bytes, e: nat)
    requires TryParse(h, buffer).Parsed? && |buffer| < TWO64 && HeaderEnd(buffer, 0) == Some(e)
    ensures TryParse(h, buffer).consumed <= |buffer|
    ensures !Wraps(h, buffer) ==> TryParse(h, buffer).consumed == e + 4 + |TryParse(h, buffer).request.body|
    ensures Wraps(h, buffer) ==> TryParse(h, buffer).consumed < e + 4
  {
    TotalOf(e, h(buffer[..e]).contentLength);
  }

  // A head whose length wraps always parses, with all that follows it for a body.
  lemma WrappedTakesAll(h: HeadParser, buffer: bytes, e: nat)
    requires Wraps(h, buffer) && |buffer| < TWO64 && HeaderEnd(buffer, 0) == Some(e)
    ensures TryParse(h, buffer).Parsed? && TryParse(h, buffer).request.body == buffer[e + 4..]
  {
    var d, start := h(buffer[..e]), e + 4;
    FitsForm(h, buffer, e, d.request, d.contentLength);
    TotalOf(e, d.contentLength);
    var total := Total(e, d.contentLength);
    assert total <= |buffer|;
    BodyBeyond(buffer, start, d.contentLength);
    TotalForm(h, buffer, e, d.request, d.contentLength, start, total);
  }

  lemma BodyBeyond(buffer: bytes, start: nat, length: nat)
    requires start <= |buffer| <= start + length
    ensures Substr(buffer, start, length) == buffer[start..]
  {
  }

  lemma WrapsStable(h: HeadParser, buffer: bytes, ext: bytes)
    requires Wraps(h, buffer)
    ensures Wraps(h, buffer + ext) && HeaderEnd(buffer + ext, 0) == HeaderEnd(buffer, 0)
  {
    HeaderEndStable(buffer, ext, 0);
    var e := HeaderEnd(buffer, 0).value;
    assert (buffer + ext)[..e] == buffer[..e];
  }
}
