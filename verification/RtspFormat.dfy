/**
 Requests from the writing side: a start line, header fields in any letter case with any blanks around them, and a body;
 and that try_parse_request takes exactly these apart.
 */
module RtspFormat {
  import opened Words
  import opened Wrappers
  import opened Slices
  import opened RtspMessage

  // ---------- characters ----------

  // White space that does not end a line.
  predicate Blank(c: byte) {
    c == 9 || c == 11 || c == 12 || c == 32
  }

  // Neither white space of any kind.
  predicate Dark(c: byte) {
    c < 9 || 13 < c < 32 || 32 < c
  }

  // A byte of a line.
  predicate Inline(c: byte) {
    c != 10 && c != 13
  }

  ghost predicate Blanks(s: bytes) {
    forall i :: 0 <= i < |s| ==> Blank(s[i])
  }

  // A word of the start line.
  ghost predicate Word(s: bytes) {
    s != [] && forall i :: 0 <= i < |s| ==> Dark(s[i])
  }

  // Text within a line that does not begin or end with white space.
  ghost predicate Tight(s: bytes) {
    (forall i :: 0 <= i < |s| ==> Inline(s[i])) && (s != [] ==> Dark(s[0]) && Dark(s[|s| - 1]))
  }

  // b is a with its capital letters made small.
  ghost predicate Folds(a: bytes, b: bytes) {
    |a| == |b| && forall i :: 0 <= i < |a| ==> b[i] == if 65 <= a[i] <= 90 then a[i] + 32 else a[i]
  }

  // ---------- numbers ----------

  predicate Numeral(c: byte) {
    48 <= c < 58
  }

  // The value of decimal digits.
  function Decimal(s: bytes): nat
    requires forall i :: 0 <= i < |s| ==> Numeral(s[i])
  {
    if s == [] then 0
    else
      assert Numeral(s[|s| - 1]);
      10 * Decimal(s[..|s| - 1]) + (s[|s| - 1] as int - 48)
  }

  // s begins with exactly n digits.
  ghost predicate Leads(s: bytes, n: nat) {
    n <= |s| && (forall i :: 0 <= i < n ==> Numeral(s[i])) && (n < |s| ==> !Numeral(s[n]))
  }

  // v is the number s begins with, if it has one of 64 bits.
  ghost predicate Names(s: bytes, v: nat) {
    exists n :: n > 0 && Leads(s, n) && v == Decimal(s[..n]) && v < 0x1_0000_0000_0000_0000
  }

  // ---------- requests ----------

  // A header field with the blanks around its parts.
  datatype Field = Field(left: bytes, name: bytes, mid: bytes, gap: bytes, value: bytes, right: bytes) {
    ghost predicate Valid() {
      Blanks(left) && Blanks(mid) && Blanks(gap) && Blanks(right) && Tight(name) && Tight(value) && 58 !in name
    }

    function Line(): bytes {
      left + name + mid + [58] + (gap + value + right)
    }
  }

  // A start line of three words with the blanks around them.
  datatype Start = Start(left: bytes, verb: bytes, gap: bytes, uri: bytes, gap': bytes, version: bytes, right: bytes) {
    ghost predicate Valid() {
      && Blanks(left) && Blanks(gap) && Blanks(gap') && Blanks(right) && gap != [] && gap' != []
      && Word(verb) && Word(uri) && Word(version)
    }

    function Line(): bytes {
      left + (verb + (gap + (uri + (gap' + (version + right)))))
    }
  }

  ghost predicate AllValid(fields: seq<Field>) {
    forall i :: 0 <= i < |fields| ==> fields[i].Valid()
  }

  function FieldLines(fields: seq<Field>): (lines: seq<bytes>)
    ensures |lines| == |fields|
  {
    seq(|fields|, (i: nat) requires i < |fields| => fields[i].Line())
  }

  // Lines with CR LF between them.
  function Joined(lines: seq<bytes>): bytes
    requires lines != []
  {
    if |lines| == 1 then lines[0] else lines[0] + ([13, 10] + Joined(lines[1..]))
  }

  // A head, and a whole request with what follows it.
  function HeadBytes(start: Start, fields: seq<Field>): bytes {
    Joined([start.Line()] + FieldLines(fields))
  }

  function RequestBytes(start: Start, fields: seq<Field>, body: bytes): bytes {
    HeadBytes(start, fields) + [13, 10, 13, 10] + body
  }

  // The headers of a request: the names made small, each with the value of its last field.
  ghost predicate Holds(fields: seq<Field>, headers: map<bytes, bytes>) {
    && (forall name :: name in headers ==> exists i :: 0 <= i < |fields| && Folds(fields[i].name, name))
    && (forall i: nat, name :: i < |fields| && Folds(fields[i].name, name) && LastOf(fields, i, name) ==>
          name in headers && headers[name] == fields[i].value)
  }

  ghost predicate LastOf(fields: seq<Field>, i: nat, name: bytes) {
    forall j :: i < j < |fields| ==> !Folds(fields[j].name, name)
  }

  // The length of the body: what the last field content-length with a number says, or 0.
  ghost predicate Announces(fields: seq<Field>, length: nat)
    decreases |fields|
  {
    if fields == [] then length == 0
    else
      var last := fields[|fields| - 1];
      if Folds(last.name, Ascii("content-length")) && exists v :: Names(last.value, v) then Names(last.value, length)
      else Announces(fields[..|fields| - 1], length)
  }

  // ---------- characters read ----------

  lemma FoldIs(s: bytes)
    ensures Folds(s, ToLower(s))
  {
  }

  lemma FoldOnly(s: bytes, t: bytes)
    requires Folds(s, t)
    ensures t == ToLower(s)
  {
  }

  lemma {:induction false} TrimLeftSkips(a: bytes, s: bytes)
    requires Blanks(a) && (s != [] ==> !IsSpace(s[0]))
    ensures TrimLeft(a + s) == s
    decreases |a|
  {
    if a == [] {
      assert a + s == s;
    } else {
      assert (a + s)[1..] == a[1..] + s;
      TrimLeftSkips(a[1..], s);
    }
  }

  lemma {:induction false} TrimRightSkips(s: bytes, b: bytes)
    requires Blanks(b) && (s != [] ==> !IsSpace(s[|s| - 1]))
    ensures TrimRight(s + b) == s
    decreases |b|
  {
    if b == [] {
      assert s + b == s;
    } else {
      assert (s + b)[..|s + b| - 1] == s + b[..|b| - 1];
      TrimRightSkips(s, b[..|b| - 1]);
    }
  }

  lemma TrimPadded(a: bytes, s: bytes, b: bytes)
    requires Blanks(a) && Blanks(b) && Tight(s)
    ensures Trim(a + s + b) == s
  {
    if s == [] {
      assert a + s + b == (a + b) + [];
      assert Blanks(a + b);
      TrimLeftSkips(a + b, []);
    } else {
      assert a + s + b == a + (s + b);
      TrimLeftSkips(a, s + b);
      TrimRightSkips(s, b);
    }
  }

  lemma {:induction false} WordEndIs(w: bytes, rest: bytes)
    requires (forall i :: 0 <= i < |w| ==> Dark(w[i])) && (rest != [] ==> IsSpace(rest[0]))
    ensures WordEnd(w + rest) == |w|
    decreases |w|
  {
    if w == [] {
      assert w + rest == rest;
    } else {
      assert (w + rest)[1..] == w[1..] + rest;
      WordEndIs(w[1..], rest);
    }
  }

  // ---------- numbers read ----------

  lemma {:induction false} DigitsAppend(s: bytes, acc: nat)
    requires s != [] && forall i :: 0 <= i < |s| ==> IsDigit(s[i])
    ensures Digits(s, acc) == 10 * Digits(s[..|s| - 1], acc) + (s[|s| - 1] as int - 48)
    decreases |s|
  {
    if |s| > 1 {
      var next := 10 * acc + (s[0] as int - 48);
      assert s[1..][..|s| - 2] == s[..|s| - 1][1..];
      DigitsAppend(s[1..], next);
    } else {
      assert s[1..] == [] && s[..0] == [];
    }
  }

  lemma {:induction false} DigitsAreDecimal(s: bytes)
    requires forall i :: 0 <= i < |s| ==> Numeral(s[i])
    ensures Digits(s, 0) == Decimal(s)
    decreases |s|
  {
    if s != [] {
      DigitsAppend(s, 0);
      DigitsAreDecimal(s[..|s| - 1]);
    }
  }

  lemma {:induction false} DigitsStop(s: bytes, n: nat, acc: nat)
    requires Leads(s, n)
    ensures Digits(s, acc) == Digits(s[..n], acc)
    decreases n
  {
    if n > 0 {
      assert s[..n][1..] == s[1..][..n - 1];
      DigitsStop(s[1..], n - 1, 10 * acc + (s[0] as int - 48));
    }
  }

  lemma {:induction false} LeadingDigits(s: bytes) returns (n: nat)
    ensures Leads(s, n)
  {
    if s == [] || !Numeral(s[0]) {
      n := 0;
    } else {
      n := LeadingDigits(s[1..]);
      assert forall i :: 1 <= i <= n ==> s[i] == s[1..][i - 1];
      n := n + 1;
    }
  }

  lemma ValueOf(s: bytes, n: nat)
    requires Leads(s, n)
    ensures Digits(s, 0) == Decimal(s[..n])
  {
    DigitsStop(s, n, 0);
    DigitsAreDecimal(s[..n]);
  }

  lemma LeadsUnique(s: bytes, n: nat, m: nat)
    requires Leads(s, n) && Leads(s, m)
    ensures n == m
  {
  }

  // What from_chars makes of a value.
  lemma NumberTaken(s: bytes, before: size)
    ensures forall v: nat :: Names(s, v) ==> FromChars(s, before) == v
    ensures (forall v: nat :: !Names(s, v)) ==> FromChars(s, before) == before
  {
    var n := LeadingDigits(s);
    ValueOf(s, n);
    forall v: nat | Names(s, v)
      ensures FromChars(s, before) == v
    {
      var m :| m > 0 && Leads(s, m) && v == Decimal(s[..m]) && v < 0x1_0000_0000_0000_0000;
      LeadsUnique(s, n, m);
    }
    if n > 0 && Decimal(s[..n]) < TWO64 {
      assert Names(s, Decimal(s[..n]));
    }
  }

  // ---------- fields read ----------

  lemma NoColon(f: Field)
    requires f.Valid()
    ensures 58 !in f.left + f.name + f.mid
  {
  }

  // A field line as the loop over header lines takes it apart.
  lemma FieldRead(f: Field, line: bytes)
    requires f.Valid() && line == f.Line()
    ensures var colon := IndexOf(line, COLON);
            && colon < |line| && ToLower(Trim(line[..colon])) == ToLower(f.name) && Trim(line[colon + 1..]) == f.value
  {
    var front, back := f.left + f.name + f.mid, f.gap + f.value + f.right;
    assert line == front + [58] + back;
    assert line[..|front|] == front && line[|front| + 1..] == back;
    NoColon(f);
    IndexIs(line, COLON, |front|);
    TrimPadded(f.left, f.name, f.mid);
    TrimPadded(f.gap, f.value, f.right);
  }

  lemma {:induction false} HeaderLinesAppend(lines: seq<bytes>, last: bytes, r: Request, length: size)
    ensures var (q, m) := HeaderLines(lines, r, length);
            HeaderLines(lines + [last], r, length) == HeaderLines([last], q, m)
    decreases |lines|
  {
    if lines == [] {
      assert lines + [last] == [last];
    } else {
      var all := lines + [last];
      assert all[1..] == lines[1..] + [last] && all[0] == lines[0];
      var line := lines[0];
      var colon := IndexOf(line, COLON);
      if colon == |line| {
        HeaderLinesAppend(lines[1..], last, r, length);
      } else {
        var name, value := ToLower(Trim(line[..colon])), Trim(line[colon + 1..]);
        HeaderLinesAppend(lines[1..], last, r.(headers := r.headers[name := value]),
                          if name == CONTENT_LENGTH then FromChars(value, length) else length);
      }
    }
  }

  lemma OneLine(f: Field, r: Request, length: size)
    requires f.Valid()
    ensures HeaderLines([f.Line()], r, length)
            == (r.(headers := r.headers[ToLower(f.name) := f.value]),
                if ToLower(f.name) == CONTENT_LENGTH then FromChars(f.value, length) else length)
  {
    FieldRead(f, f.Line());
    assert [f.Line()][1..] == [];
  }

  lemma ContentLengthName(name: bytes)
    ensures Folds(name, Ascii("content-length")) <==> ToLower(name) == CONTENT_LENGTH
  {
    assert Ascii("content-length") == CONTENT_LENGTH;
    if Folds(name, CONTENT_LENGTH) {
      FoldOnly(name, CONTENT_LENGTH);
    }
  }

  lemma FieldLinesSplit(fields: seq<Field>)
    requires fields != []
    ensures FieldLines(fields) == FieldLines(fields[..|fields| - 1]) + [fields[|fields| - 1].Line()]
  {
  }

  // All fields, the last of each name counting.
  lemma {:induction false} FieldsRead(fields: seq<Field>, r: Request)
    requires AllValid(fields) && r.headers == map[]
    ensures var (q, length) := HeaderLines(FieldLines(fields), r, 0);
            && q == r.(headers := q.headers) && Holds(fields, q.headers) && Announces(fields, length)
    decreases |fields|
  {
    if fields != [] {
      var before, last := fields[..|fields| - 1], fields[|fields| - 1];
      FieldsRead(before, r);
      var (q, length) := HeaderLines(FieldLines(before), r, 0);
      LastField(fields, before, last, r, q, length);
      HoldsMore(fields, before, last, q.headers);
      AnnouncesMore(fields, before, last, length);
    }
  }

  lemma LastField(fields: seq<Field>, before: seq<Field>, last: Field, r: Request, q: Request, length: size)
    requires fields == before + [last] && last.Valid() && (q, length) == HeaderLines(FieldLines(before), r, 0)
    ensures HeaderLines(FieldLines(fields), r, 0)
            == (q.(headers := q.headers[ToLower(last.name) := last.value]),
                if ToLower(last.name) == CONTENT_LENGTH then FromChars(last.value, length) else length)
  {
    assert before == fields[..|fields| - 1];
    FieldLinesSplit(fields);
    HeaderLinesAppend(FieldLines(before), last.Line(), r, 0);
    OneLine(last, q, length);
  }

  lemma HoldsMore(fields: seq<Field>, before: seq<Field>, last: Field, headers: map<bytes, bytes>)
    requires fields == before + [last] && Holds(before, headers)
    ensures Holds(fields, headers[ToLower(last.name) := last.value])
  {
    var all, n := headers[ToLower(last.name) := last.value], |before|;
    FoldIs(last.name);
    forall name | name in all
      ensures exists i :: 0 <= i < |fields| && Folds(fields[i].name, name)
    {
      if name == ToLower(last.name) {
        assert fields[n] == last;
      } else {
        var i :| 0 <= i < |before| && Folds(before[i].name, name);
        assert fields[i] == before[i];
      }
    }
    forall i: nat, name | i < |fields| && Folds(fields[i].name, name) && LastOf(fields, i, name)
      ensures name in all && all[name] == fields[i].value
    {
      FoldOnly(fields[i].name, name);
      if i < n {
        assert fields[n] == last;
        assert LastOf(before, i, name) by {
          assert forall j :: 0 <= j < n ==> fields[j] == before[j];
        }
      }
    }
  }

  lemma AnnouncesMore(fields: seq<Field>, before: seq<Field>, last: Field, length: size)
    requires fields == before + [last] && Announces(before, length)
    ensures Announces(fields, if ToLower(last.name) == CONTENT_LENGTH then FromChars(last.value, length) else length)
  {
    assert fields[..|fields| - 1] == before && fields[|fields| - 1] == last;
    ContentLengthName(last.name);
    NumberTaken(last.value, length);
  }

  // The length announced is the only one.
  lemma {:induction false} AnnouncesOne(fields: seq<Field>, a: nat, b: nat)
    requires Announces(fields, a) && Announces(fields, b)
    ensures a == b
    decreases |fields|
  {
    if fields != [] {
      var last := fields[|fields| - 1];
      NumberTaken(last.value, 0);
      if !(Folds(last.name, Ascii("content-length")) && exists v :: Names(last.value, v)) {
        AnnouncesOne(fields[..|fields| - 1], a, b);
      }
    }
  }

  // ---------- start lines read ----------

  lemma WordThen(w: bytes, gap: bytes, rest: bytes)
    requires Word(w) && Blanks(gap) && gap != [] && (rest != [] ==> Dark(rest[0]))
    ensures var s := w + (gap + rest); WordEnd(s) == |w| && s[..|w|] == w && TrimLeft(s[|w|..]) == rest
  {
    var s := w + (gap + rest);
    WordEndIs(w, gap + rest);
    assert s[|w|..] == gap + rest;
    TrimLeftSkips(gap, rest);
  }

  lemma LastWord(w: bytes, right: bytes)
    requires Word(w) && Blanks(right)
    ensures WordEnd(w + right) == |w| && (w + right)[..|w|] == w
  {
    WordEndIs(w, right);
  }

  lemma StartRead(start: Start)
    requires start.Valid()
    ensures StartLine(start.Line()) == Request(start.verb, start.uri, start.version, map[], [])
  {
    var c := start.version + start.right;
    var b := start.uri + (start.gap' + c);
    var a := start.verb + (start.gap + b);
    TrimLeftSkips(start.left, a);
    WordThen(start.verb, start.gap, b);
    WordThen(start.uri, start.gap', c);
    LastWord(start.version, start.right);
  }

  // ---------- lines read ----------

  // A line within a head: not empty, and without the bytes that end one.
  ghost predicate Solid(line: bytes) {
    line != [] && forall i :: 0 <= i < |line| ==> Inline(line[i])
  }

  ghost predicate AllSolid(lines: seq<bytes>) {
    lines != [] && forall i :: 0 <= i < |lines| ==> Solid(lines[i])
  }

  lemma {:induction false} LinesRead(lines: seq<bytes>)
    requires AllSolid(lines)
    ensures Lines(Joined(lines)) == lines && Joined(lines) != [] && Inline(Joined(lines)[0])
    decreases |lines|
  {
    var line := lines[0];
    if |lines| == 1 {
      LastLine(line);
      assert lines == [line];
    } else {
      LinesRead(lines[1..]);
      FirstLine(line, Joined(lines[1..]));
      assert lines == [line] + lines[1..];
    }
  }

  lemma LastLine(line: bytes)
    requires Solid(line)
    ensures Lines(line) == [line] && Inline(line[0])
  {
    assert line[..|line|] == line && Inline(line[|line| - 1]);
    IndexIs(line, LF, |line|);
  }

  lemma FirstLine(line: bytes, rest: bytes)
    requires Solid(line)
    ensures var s := line + ([13, 10] + rest); Lines(s) == [line] + Lines(rest) && Inline(s[0])
  {
    var s, i := line + ([13, 10] + rest), |line| + 1;
    assert s[..i] == line + [13] && s[i + 1..] == rest && s[i] == 10;
    IndexIs(s, LF, i);
    assert DropCr(line + [13]) == line;
    assert Inline(line[0]);
  }

  // No head ends within its lines.
  lemma {:induction false} NoEndWithin(lines: seq<bytes>, tail: bytes, k: nat)
    requires AllSolid(lines) && k < |Joined(lines)|
    ensures !EndAt(Joined(lines) + tail, k)
    decreases |lines|
  {
    var line, s := lines[0], Joined(lines) + tail;
    if |lines| == 1 || k < |line| {
      assert s[k] == line[k];
    } else {
      var rest := Joined(lines[1..]);
      LinesRead(lines[1..]);
      var front: bytes := line + [13, 10];
      assert s == front + (rest + tail);
      if k < |front| {
        NoEndAtBreak(line, rest + tail, k);
      } else {
        NoEndWithin(lines[1..], tail, k - |front|);
        EndShifted(front, rest + tail, k - |front|);
      }
    }
  }

  // The two bytes behind a line do not end a head when another line follows.
  lemma NoEndAtBreak(line: bytes, rest: bytes, k: nat)
    requires |line| <= k < |line| + 2 && rest != [] && Inline(rest[0])
    ensures !EndAt(line + [13, 10] + rest, k)
  {
    var s := line + [13, 10] + rest;
    assert s[|line| + 1] == 10 && s[|line| + 2] == rest[0];
  }

  lemma EndShifted(front: bytes, s: bytes, i: nat)
    ensures EndAt(front + s, |front| + i) <==> EndAt(s, i)
  {
    assert forall j :: 0 <= j < |s| ==> (front + s)[|front| + j] == s[j];
  }

  lemma {:induction false} HeaderEndIs(s: bytes, i: nat, e: nat)
    requires i <= e && EndAt(s, e) && forall k :: i <= k < e ==> !EndAt(s, k)
    ensures HeaderEnd(s, i) == Some(e)
    decreases e - i
  {
    if i < e {
      HeaderEndIs(s, i + 1, e);
    }
  }

  lemma EndRead(lines: seq<bytes>, tail: bytes)
    requires AllSolid(lines)
    ensures HeaderEnd(Joined(lines) + [13, 10, 13, 10] + tail, 0) == Some(|Joined(lines)|)
  {
    var head, end := Joined(lines), [13, 10, 13, 10] + tail;
    var s := head + end;
    assert head + [13, 10, 13, 10] + tail == s;
    forall k | 0 <= k < |head|
      ensures !EndAt(s, k)
    {
      NoEndWithin(lines, end, k);
    }
    assert s[|head|] == 13 && s[|head| + 1] == 10 && s[|head| + 2] == 13 && s[|head| + 3] == 10;
    HeaderEndIs(s, 0, |head|);
  }

  lemma StartSolid(start: Start)
    requires start.Valid()
    ensures Solid(start.Line())
  {
    var c := start.version + start.right;
    var b := start.uri + (start.gap' + c);
    assert Solid(start.version) && Solid(start.uri) && Solid(start.verb);
    assert Solid(c);
    assert Solid(start.gap' + c);
    assert Solid(b);
    assert Solid(start.gap + b);
    assert Solid(start.verb + (start.gap + b));
  }

  lemma FieldSolid(f: Field)
    requires f.Valid()
    ensures Solid(f.Line())
  {
    var front, back := f.left + f.name + f.mid, f.gap + f.value + f.right;
    assert forall i :: 0 <= i < |front| ==> Inline(front[i]);
    assert forall i :: 0 <= i < |back| ==> Inline(back[i]);
  }

  lemma HeadSolid(start: Start, fields: seq<Field>)
    requires start.Valid() && AllValid(fields)
    ensures AllSolid([start.Line()] + FieldLines(fields))
  {
    var lines := [start.Line()] + FieldLines(fields);
    StartSolid(start);
    forall i | 0 <= i < |lines|
      ensures Solid(lines[i])
    {
      if i > 0 {
        FieldSolid(fields[i - 1]);
      }
    }
  }

  // ---------- requests read ----------

  lemma HeadRead(start: Start, fields: seq<Field>) returns (headers: map<bytes, bytes>, length: size)
    requires start.Valid() && AllValid(fields)
    ensures ParseHead(HeadBytes(start, fields))
            == Head(Request(start.verb, start.uri, start.version, headers, []), length)
    ensures Holds(fields, headers) && Announces(fields, length)
  {
    var lines := [start.Line()] + FieldLines(fields);
    HeadSolid(start, fields);
    LinesRead(lines);
    StartRead(start);
    var r := Request(start.verb, start.uri, start.version, map[], []);
    FieldsRead(fields, r);
    assert lines[1..] == FieldLines(fields);
    var (q, n) := HeaderLines(FieldLines(fields), r, 0);
    headers, length := q.headers, n;
  }

  lemma HeadSeen(start: Start, fields: seq<Field>)
    requires start.Valid() && AllValid(fields)
    ensures var d := ParseHead(HeadBytes(start, fields)); d.Head? && Holds(fields, d.request.headers)
  {
    var headers, length := HeadRead(start, fields);
  }

  // Whatever the request and whatever follows it: its words, its headers and its body are found, and all of it is
  // taken.
  lemma RequestRead(start: Start, fields: seq<Field>, body: bytes, tail: bytes, buffer: bytes)
    returns (headers: map<bytes, bytes>)
    requires start.Valid() && AllValid(fields) && Announces(fields, |body|)
    requires buffer == RequestBytes(start, fields, body) + tail && |buffer| < TWO64
    ensures Holds(fields, headers)
    ensures TryParse(RtspHead(), buffer)
            == Parsed(Request(start.verb, start.uri, start.version, headers, body), |RequestBytes(start, fields, body)|)
  {
    var length;
    headers, length := HeadRead(start, fields);
    RequestSeen(start, fields, body, tail, buffer);
  }

  lemma RequestSeen(start: Start, fields: seq<Field>, body: bytes, tail: bytes, buffer: bytes)
    requires start.Valid() && AllValid(fields) && Announces(fields, |body|)
    requires buffer == RequestBytes(start, fields, body) + tail && |buffer| < TWO64
    ensures ParseHead(HeadBytes(start, fields)).Head?
    ensures var headers := ParseHead(HeadBytes(start, fields)).request.headers;
            TryParse(RtspHead(), buffer)
            == Parsed(Request(start.verb, start.uri, start.version, headers, body), |RequestBytes(start, fields, body)|)
    ensures !Wraps(RtspHead(), buffer)
  {
    var headers, length := HeadRead(start, fields);
    AnnouncesOne(fields, length, |body|);
    HeadSolid(start, fields);
    var lines, r := [start.Line()] + FieldLines(fields), Request(start.verb, start.uri, start.version, headers, []);
    Framed(lines, HeadBytes(start, fields), r, body, tail, buffer);
  }

  lemma Framed(lines: seq<bytes>, head: bytes, r: Request, body: bytes, tail: bytes, buffer: bytes)
    requires AllSolid(lines) && head == Joined(lines) && |body| < TWO64 && ParseHead(head) == Head(r, |body|)
    requires buffer == head + [13, 10, 13, 10] + body + tail && |buffer| < TWO64
    ensures TryParse(RtspHead(), buffer) == Parsed(r.(body := body), |head + [13, 10, 13, 10] + body|)
    ensures !Wraps(RtspHead(), buffer)
  {
    var start, end := |head| + 4, |head| + 4 + |body|;
    EndRead(lines, body + tail);
    assert buffer == head + [13, 10, 13, 10] + (body + tail);
    assert buffer[..|head|] == head;
    assert buffer[start..end] == body;
    ParsedForm(RtspHead(), buffer, |head|, r, |body|, start, end, body);
  }

  // A request that has not arrived whole is left alone.
  lemma RequestWaits(start: Start, fields: seq<Field>, body: bytes, k: nat)
    requires start.Valid() && AllValid(fields) && Announces(fields, |body|)
    requires k < |RequestBytes(start, fields, body)| < TWO64
    ensures TryParse(RtspHead(), RequestBytes(start, fields, body)[..k]) == Failed(0)
    ensures !Wraps(RtspHead(), RequestBytes(start, fields, body)[..k])
  {
    var all, head := RequestBytes(start, fields, body), HeadBytes(start, fields);
    var part, lines := all[..k], [start.Line()] + FieldLines(fields);
    var headers, length := HeadRead(start, fields);
    AnnouncesOne(fields, length, |body|);
    HeadSolid(start, fields);
    EndRead(lines, body);
    assert all == part + all[k..];
    if HeaderEnd(part, 0).Some? {
      HeaderEndStable(part, all[k..], 0);
      assert part[..|head|] == head;
      TotalOf(|head|, length);
    }
  }

  // An empty head is refused, with nothing taken.
  lemma EmptyHeadRefused(tail: bytes)
    ensures TryParse(RtspHead(), [13, 10, 13, 10] + tail) == Failed(0)
  {
    var s := [13, 10, 13, 10] + tail;
    HeaderEndIs(s, 0, 0);
    assert s[..0] == [];
  }

  // Header lines without a colon are passed over.
  lemma {:induction false} NoiseIgnored(a: seq<bytes>, noise: bytes, b: seq<bytes>, r: Request, length: size)
    requires 58 !in noise
    ensures HeaderLines(a + ([noise] + b), r, length) == HeaderLines(a + b, r, length)
    decreases |a|
  {
    var all := a + ([noise] + b);
    if a == [] {
      assert all == [noise] + b && all[1..] == b && a + b == b;
      assert noise[..|noise|] == noise;
      IndexIs(noise, COLON, |noise|);
    } else {
      var line, next := a[0], a[1..];
      var colon := IndexOf(line, COLON);
      assert all[0] == line && all[1..] == next + ([noise] + b);
      assert (a + b)[0] == line && (a + b)[1..] == next + b;
      if colon == |line| {
        NoiseIgnored(next, noise, b, r, length);
      } else {
        var name, value := ToLower(Trim(line[..colon])), Trim(line[colon + 1..]);
        NoiseIgnored(next, noise, b, r.(headers := r.headers[name := value]),
                     if name == CONTENT_LENGTH then FromChars(value, length) else length);
      }
    }
  }

  lemma BlanksTrimmed(s: bytes)
    requires Blanks(s)
    ensures TrimLeft(s) == []
  {
    assert s + [] == s;
    TrimLeftSkips(s, []);
  }

  // A start line of fewer than three words: two, one or none, with blanks around them.
  lemma ShortStart(left: bytes, verb: bytes, gap: bytes, uri: bytes, right: bytes, line: bytes)
    requires Blanks(left) && Blanks(gap) && Blanks(right) && line == left + (verb + (gap + (uri + right)))
    requires (Word(verb) && Word(uri) && gap != []) || (Word(verb) && uri == []) || (verb == [] && uri == [])
    ensures StartLine(line).version == []
  {
    var b := uri + right;
    var a := verb + (gap + b);
    if verb == [] {
      BlanksTrimmed(line);
    } else {
      TrimLeftSkips(left, a);
      if uri == [] {
        LastWord(verb, gap + b);
        assert a[|verb|..] == gap + b;
        BlanksTrimmed(gap + b);
      } else {
        WordThen(verb, gap, b);
        LastWord(uri, right);
        assert b[|uri|..] == right;
        BlanksTrimmed(right);
      }
    }
  }

  // It is refused, whatever header lines and bytes follow.
  lemma ShortStartRefused(left: bytes, verb: bytes, gap: bytes, uri: bytes, right: bytes, lines: seq<bytes>,
                          tail: bytes, head: bytes)
    requires AllSolid(lines) && lines[0] == left + (verb + (gap + (uri + right))) && head == Joined(lines)
    requires Blanks(left) && Blanks(gap) && Blanks(right)
    requires (Word(verb) && Word(uri) && gap != []) || (Word(verb) && uri == []) || (verb == [] && uri == [])
    ensures TryParse(RtspHead(), head + [13, 10, 13, 10] + tail) == Failed(|head| + 4)
  {
    ShortStart(left, verb, gap, uri, right, lines[0]);
    LinesRead(lines);
    EndRead(lines, tail);
    assert (head + [13, 10, 13, 10] + tail)[..|head|] == head;
  }
}
