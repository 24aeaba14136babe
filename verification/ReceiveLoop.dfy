/**
 The receive loop of handle_client over a stream that arrives in chunks: what is dispatched does not
 depend on where the stream is cut, exactly unless a head's length wraps with bytes behind it. All of it holds
 for any way h of reading a header block.
 */
module ReceiveLoop {
  import opened Words
  import opened Wrappers
  import opened Slices
  import opened RtspMessage

  // Requests dispatched and the bytes left; or a loop that dispatches the same request for ever.
  datatype Outcome = Waiting(requests: seq<Request>, rest: bytes) | Diverged(requests: seq<Request>)

  function Before(r: Request, o: Outcome): Outcome {
    match o
    case Waiting(requests, rest) => Waiting([r] + requests, rest)
    case Diverged(requests) => Diverged([r] + requests)
  }

  function AllBefore(rs: seq<Request>, o: Outcome): Outcome {
    match o
    case Waiting(requests, rest) => Waiting(rs + requests, rest)
    case Diverged(requests) => Diverged(rs + requests)
  }

  // The inner loop: parse, erase, dispatch, until nothing parses.
  function Drain(h: HeadParser, buffer: bytes): (o: Outcome)
    decreases |buffer|
  {
    match TryParse(h, buffer)
    case Failed(_) => Waiting([], buffer)
    case Parsed(r, consumed) =>
      if consumed == 0 then Diverged([r])
      else Before(r, Drain(h, buffer[consumed..]))
  }

  // The outer loop: append a chunk, drain.
  function Receive(h: HeadParser, buffer: bytes, chunks: seq<bytes>): Outcome
    decreases |chunks|
  {
    if chunks == [] then Waiting([], buffer)
    else
      match Drain(h, buffer + chunks[0])
      case Diverged(requests) => Diverged(requests)
      case Waiting(requests, rest) => AllBefore(requests, Receive(h, rest, chunks[1..]))
  }

  function Concat(chunks: seq<bytes>): bytes {
    if chunks == [] then [] else chunks[0] + Concat(chunks[1..])
  }

  const CHUNK_SIZE: nat := 8192

  // recv returns at least one byte, and at most as many as there is room for.
  ghost predicate Chunks(chunks: seq<bytes>) {
    forall i :: 0 <= i < |chunks| ==> 1 <= |chunks[i]| <= CHUNK_SIZE
  }

  // No head whose length wraps, except one that ends the stream.
  predicate Settled(h: HeadParser, stream: bytes)
    decreases |stream|
  {
    if Wraps(h, stream) then HeaderEnd(stream, 0).value + 4 == |stream|
    else
      match TryParse(h, stream)
      case Failed(_) => true
      case Parsed(_, consumed) => consumed == 0 || Settled(h, stream[consumed..])
  }

  // ---------- one cut ----------

  lemma AllBeforeNone(o: Outcome)
    ensures AllBefore([], o) == o
  {
    assert [] + o.requests == o.requests;
  }

  lemma BeforeAll(r: Request, rs: seq<Request>, o: Outcome)
    ensures Before(r, AllBefore(rs, o)) == AllBefore([r] + rs, o)
  {
    assert [r] + (rs + o.requests) == [r] + rs + o.requests;
  }

  // A parsed request within 64 bits takes at least four bytes, and no more than there are.
  lemma Progress(h: HeadParser, buffer: bytes)
    requires TryParse(h, buffer).Parsed? && !Wraps(h, buffer) && |buffer| < TWO64
    ensures 4 <= TryParse(h, buffer).consumed <= |buffer|
  {
    ConsumedExactly(h, buffer, HeaderEnd(buffer, 0).value);
  }

  // Draining a settled stream is draining what has arrived of it and then the rest.
  lemma {:induction false} DrainCut(h: HeadParser, a: bytes, b: bytes)
    requires Settled(h, a + b) && b != [] && |a + b| < TWO64
    ensures Drain(h, a).Waiting? && Settled(h, Drain(h, a).rest + b) && |Drain(h, a).rest| <= |a|
    ensures Drain(h, a + b) == AllBefore(Drain(h, a).requests, Drain(h, Drain(h, a).rest + b))
    decreases |a|
  {
    if Wraps(h, a) {
      WrapsStable(h, a, b);
      assert false;
    }
    match TryParse(h, a)
    case Failed(_) =>
      AllBeforeNone(Drain(h, a + b));
    case Parsed(r, consumed) =>
      Progress(h, a);
      ParsedStable(h, a, b);
      var rest := a[consumed..];
      assert (a + b)[consumed..] == rest + b;
      DrainCut(h, rest, b);
      BeforeAll(r, Drain(h, rest).requests, Drain(h, Drain(h, rest).rest + b));
  }

  // ---------- every cutting ----------

  // Whatever has arrived is drained already.
  ghost predicate Drained(h: HeadParser, buffer: bytes) {
    Drain(h, buffer) == Waiting([], buffer)
  }

  lemma {:induction false} RestDrained(h: HeadParser, a: bytes)
    requires Drain(h, a).Waiting?
    ensures Drained(h, Drain(h, a).rest)
    decreases |a|
  {
    match TryParse(h, a)
    case Failed(_) =>
    case Parsed(r, consumed) =>
      if 0 < consumed {
        RestDrained(h, a[consumed..]);
      }
  }

  lemma {:induction false} ConcatNonempty(chunks: seq<bytes>)
    requires Chunks(chunks) && chunks != []
    ensures Concat(chunks) != []
  {
    assert chunks[0] != [];
  }

  // A settled stream is dispatched alike however it is cut.
  lemma {:induction false} ReceiveIsDrain(h: HeadParser, buffer: bytes, chunks: seq<bytes>)
    requires Chunks(chunks) && Drained(h, buffer) && Settled(h, buffer + Concat(chunks))
    requires |buffer + Concat(chunks)| < TWO64
    ensures Receive(h, buffer, chunks) == Drain(h, buffer + Concat(chunks))
    decreases |chunks|
  {
    if chunks == [] {
      assert buffer + [] == buffer;
    } else {
      var a, tail := buffer + chunks[0], Concat(chunks[1..]);
      assert buffer + Concat(chunks) == a + tail;
      assert forall i :: 0 <= i < |chunks[1..]| ==> chunks[1..][i] == chunks[i + 1];
      if chunks[1..] == [] {
        assert a + tail == a;
        LastChunk(h, a, chunks);
      } else {
        ConcatNonempty(chunks[1..]);
        DrainCut(h, a, tail);
        RestDrained(h, a);
        ReceiveIsDrain(h, Drain(h, a).rest, chunks[1..]);
      }
    }
  }

  lemma LastChunk(h: HeadParser, a: bytes, chunks: seq<bytes>)
    requires |chunks| == 1
    ensures Drain(h, a) == match Drain(h, a)
                        case Diverged(requests) => Diverged(requests)
                        case Waiting(requests, rest) => AllBefore(requests, Receive(h, rest, chunks[1..]))
  {
    if Drain(h, a).Waiting? {
      assert Drain(h, a).requests + [] == Drain(h, a).requests;
    }
  }

  // ---------- streams that are not settled ----------

  lemma {:induction false} HeaderEndPrefix(s: bytes, k: nat, i: nat, e: nat)
    requires k <= |s| && HeaderEnd(s, i) == Some(e) && e + 4 <= k
    ensures HeaderEnd(s[..k], i) == Some(e)
    decreases |s| - i
  {
    if !EndAt(s, i) {
      HeaderEndPrefix(s, k, i + 1, e);
    }
  }

  lemma PrefixSlice(s: bytes, k: nat, start: nat, end: nat)
    requires start <= end <= k <= |s|
    ensures s[..k][start..end] == s[start..end]
  {
  }

  // A request within 64 bits is parsed from the bytes it takes and any that follow.
  lemma ParsedPrefix(h: HeadParser, s: bytes, k: nat)
    requires TryParse(h, s).Parsed? && !Wraps(h, s) && |s| < TWO64 && TryParse(h, s).consumed <= k <= |s|
    ensures TryParse(h, s[..k]) == TryParse(h, s) && !Wraps(h, s[..k])
  {
    var a, e := s[..k], HeaderEnd(s, 0).value;
    ConsumedExactly(h, s, e);
    HeaderEndPrefix(s, k, 0, e);
    assert a[..e] == s[..e];
    var d := h(s[..e]);
    CompleteHead(h, s, e, d.request, d.contentLength);
    var start, end := e + 4, e + 4 + d.contentLength;
    var body := s[start..end];
    ParsedForm(h, s, e, d.request, d.contentLength, start, end, body);
    PrefixSlice(s, k, start, end);
    ParsedForm(h, a, e, d.request, d.contentLength, start, end, body);
  }

  lemma WrapsPrefix(h: HeadParser, s: bytes, k: nat, e: nat)
    requires Wraps(h, s) && HeaderEnd(s, 0) == Some(e) && e + 4 <= k <= |s|
    ensures Wraps(h, s[..k]) && HeaderEnd(s[..k], 0) == Some(e)
  {
    HeaderEndPrefix(s, k, 0, e);
    assert s[..k][..e] == s[..e];
  }

  // Two sequences that disagree where both have a request.
  ghost predicate Differ(x: seq<Request>, y: seq<Request>) {
    exists i :: 0 <= i < |x| && i < |y| && x[i] != y[i]
  }

  // Right behind a head whose length wraps: its body is what has arrived, nothing or all the rest.
  lemma WrappedCut(h: HeadParser, s: bytes, e: nat, k: nat, a: bytes)
    requires Wraps(h, s) && |s| < TWO64 && HeaderEnd(s, 0) == Some(e) && k == e + 4 < |s| && a == s[..k]
    ensures Differ(Drain(h, a).requests, Drain(h, s).requests)
  {
    WrapsPrefix(h, s, k, e);
    WrappedTakesAll(h, s, e);
    WrappedTakesAll(h, a, e);
    ConsumedExactly(h, s, e);
    ConsumedExactly(h, a, e);
    FirstRequest(h, s);
    FirstRequest(h, a);
    assert Drain(h, a).requests[0].body == a[k..] == [];
    assert Drain(h, s).requests[0].body == s[k..] != [];
  }

  // A request within 64 bits is taken off a prefix alike, and what is left of the prefix is one of the rest.
  lemma PrefixRest(h: HeadParser, s: bytes, consumed: nat, r: Request, rest: bytes, i: nat, k: nat, a: bytes, a': bytes)
    requires TryParse(h, s) == Parsed(r, consumed) && !Wraps(h, s) && |s| < TWO64 && consumed <= |s|
    requires rest == s[consumed..] && i <= |rest| && k == consumed + i && a == s[..k] && a' == rest[..i]
    ensures TryParse(h, a) == Parsed(r, consumed) && !Wraps(h, a) && consumed <= |a| && a[consumed..] == a'
  {
    ParsedPrefix(h, s, k);
  }

  lemma DifferBehind(r: Request, x: seq<Request>, y: seq<Request>)
    requires Differ(x, y)
    ensures Differ([r] + x, [r] + y)
  {
    var i :| 0 <= i < |x| && i < |y| && x[i] != y[i];
    assert ([r] + x)[i + 1] == x[i] && ([r] + y)[i + 1] == y[i];
  }

  lemma DrainMore(h: HeadParser, s: bytes, consumed: nat, rest: bytes)
    requires TryParse(h, s).Parsed? && 0 < consumed == TryParse(h, s).consumed <= |s| && rest == s[consumed..]
    ensures Drain(h, s).requests == [TryParse(h, s).request] + Drain(h, rest).requests
  {
  }

  lemma UnsettledHere(h: HeadParser, s: bytes)
    requires !Settled(h, s) && |s| < TWO64
    ensures Wraps(h, s) ==> HeaderEnd(s, 0).Some? && HeaderEnd(s, 0).value + 4 < |s|
    ensures !Wraps(h, s) ==> TryParse(h, s).Parsed? && 4 <= TryParse(h, s).consumed <= |s|
    ensures !Wraps(h, s) ==> !Settled(h, s[TryParse(h, s).consumed..])
  {
    if !Wraps(h, s) {
      Progress(h, s);
    }
  }

  // No head is reached whose length wraps.
  predicate NoWrap(h: HeadParser, s: bytes)
    decreases |s|
  {
    !Wraps(h, s) &&
    match TryParse(h, s)
    case Failed(_) => true
    case Parsed(_, consumed) => consumed == 0 || NoWrap(h, s[consumed..])
  }

  lemma {:induction false} NoWrapSettled(h: HeadParser, s: bytes)
    requires NoWrap(h, s)
    ensures Settled(h, s)
    decreases |s|
  {
    if TryParse(h, s).Parsed? && TryParse(h, s).consumed > 0 {
      NoWrapSettled(h, s[TryParse(h, s).consumed..]);
    }
  }

  // Draining what no wrapping head is reached in, and then what follows it.
  lemma {:induction false} DrainOn(h: HeadParser, a: bytes, b: bytes)
    requires NoWrap(h, a) && |a + b| < TWO64
    ensures Drain(h, a).Waiting?
    ensures Drain(h, a + b) == AllBefore(Drain(h, a).requests, Drain(h, Drain(h, a).rest + b))
    decreases |a|
  {
    match TryParse(h, a)
    case Failed(_) =>
      AllBeforeNone(Drain(h, a + b));
    case Parsed(r, consumed) =>
      Progress(h, a);
      ParsedStable(h, a, b);
      var rest := a[consumed..];
      assert (a + b)[consumed..] == rest + b;
      DrainOn(h, rest, b);
      BeforeAll(r, Drain(h, rest).requests, Drain(h, Drain(h, rest).rest + b));
  }

  // Three prefixes of a stream around the end of a head whose length wraps: no such head is reached in x, a ends with
  // one, and the byte more of b makes another request of it.
  ghost predicate Around(h: HeadParser, x: bytes, a: bytes, b: bytes) {
    NoWrap(h, x) && Settled(h, a) && Differ(Drain(h, a).requests, Drain(h, b).requests)
  }

  lemma NoEndYet(s: bytes, i: nat, e: nat)
    requires HeaderEnd(s, i) == Some(e) && e + 4 == |s|
    ensures HeaderEnd(s[..|s| - 1], i).None?
    decreases |s| - i
  {
    if i < e {
      NoEndYet(s, i + 1, e);
    }
  }

  lemma NoHeadNoWrap(h: HeadParser, x: bytes)
    requires HeaderEnd(x, 0).None?
    ensures NoWrap(h, x)
  {
  }

  lemma WrapAtEnd(h: HeadParser, a: bytes, e: nat)
    requires Wraps(h, a) && HeaderEnd(a, 0) == Some(e) && e + 4 == |a|
    ensures Settled(h, a)
  {
  }

  lemma CutHere(h: HeadParser, s: bytes, e: nat, k: nat, x: bytes, a: bytes, b: bytes)
    requires Wraps(h, s) && |s| < TWO64 && HeaderEnd(s, 0) == Some(e) && k == e + 4 < |s|
    requires x == s[..k - 1] && a == s[..k] && b == s[..k + 1]
    ensures Around(h, x, a, b)
  {
    WrapsPrefix(h, s, k, e);
    WrapsPrefix(h, s, k + 1, e);
    assert b[..k] == a && a[..k - 1] == x;
    WrapAtEnd(h, a, e);
    WrappedCut(h, b, e, k, a);
    NoEndYet(a, 0, e);
    NoHeadNoWrap(h, x);
  }

  lemma NoWrapBehind(h: HeadParser, x: bytes, consumed: nat, rest: bytes)
    requires TryParse(h, x).Parsed? && !Wraps(h, x) && TryParse(h, x).consumed == consumed <= |x|
    requires rest == x[consumed..] && NoWrap(h, rest)
    ensures NoWrap(h, x)
  {
  }

  lemma SettledBehind(h: HeadParser, a: bytes, consumed: nat, rest: bytes)
    requires TryParse(h, a).Parsed? && !Wraps(h, a) && TryParse(h, a).consumed == consumed <= |a|
    requires rest == a[consumed..] && Settled(h, rest)
    ensures Settled(h, a)
  {
  }

  lemma CutLater(h: HeadParser, s: bytes, consumed: nat, rest: bytes, x': bytes, a': bytes, b': bytes, i: nat, k: nat,
                 x: bytes, a: bytes, b: bytes)
    requires TryParse(h, s).Parsed? && !Wraps(h, s) && |s| < TWO64 && 4 <= consumed == TryParse(h, s).consumed <= |s|
    requires rest == s[consumed..] && 4 <= i < |rest| && k == consumed + i && Around(h, x', a', b')
    requires x' == rest[..i - 1] && a' == rest[..i] && b' == rest[..i + 1]
    requires x == s[..k - 1] && a == s[..k] && b == s[..k + 1]
    ensures Around(h, x, a, b)
  {
    var r := TryParse(h, s).request;
    PrefixRest(h, s, consumed, r, rest, i - 1, k - 1, x, x');
    PrefixRest(h, s, consumed, r, rest, i, k, a, a');
    PrefixRest(h, s, consumed, r, rest, i + 1, k + 1, b, b');
    AroundBehind(h, r, consumed, x', a', b', x, a, b);
  }

  lemma AroundBehind(h: HeadParser, r: Request, consumed: nat, x': bytes, a': bytes, b': bytes, x: bytes, a: bytes,
                     b: bytes)
    requires 0 < consumed <= |x| && consumed <= |a| && consumed <= |b| && Around(h, x', a', b')
    requires TryParse(h, x) == TryParse(h, a) == TryParse(h, b) == Parsed(r, consumed)
    requires !Wraps(h, x) && !Wraps(h, a) && !Wraps(h, b)
    requires x' == x[consumed..] && a' == a[consumed..] && b' == b[consumed..]
    ensures Around(h, x, a, b)
  {
    NoWrapBehind(h, x, consumed, x');
    SettledBehind(h, a, consumed, a');
    LaterDiffers(h, r, a, b, consumed, a', b');
  }

  lemma LaterDiffers(h: HeadParser, r: Request, a: bytes, b: bytes, consumed: nat, a': bytes, b': bytes)
    requires TryParse(h, a) == TryParse(h, b) == Parsed(r, consumed) && 0 < consumed <= |a| && consumed <= |b|
    requires a' == a[consumed..] && b' == b[consumed..] && Differ(Drain(h, a').requests, Drain(h, b').requests)
    ensures Differ(Drain(h, a).requests, Drain(h, b).requests)
  {
    DrainMore(h, a, consumed, a');
    DrainMore(h, b, consumed, b');
    DifferBehind(r, Drain(h, a').requests, Drain(h, b').requests);
  }

  lemma {:induction false} UnsettledCut(h: HeadParser, s: bytes) returns (k: nat, x: bytes, a: bytes, b: bytes)
    requires !Settled(h, s) && |s| < TWO64
    ensures 4 <= k < |s| && x == s[..k - 1] && a == s[..k] && b == s[..k + 1] && Around(h, x, a, b)
    decreases |s|, 1
  {
    UnsettledHere(h, s);
    if Wraps(h, s) {
      var e := HeaderEnd(s, 0).value;
      k := e + 4;
      x, a, b := s[..k - 1], s[..k], s[..k + 1];
      CutHere(h, s, e, k, x, a, b);
    } else {
      k, x, a, b := LaterUnsettled(h, s, TryParse(h, s).consumed, s[TryParse(h, s).consumed..]);
    }
  }

  lemma {:induction false} LaterUnsettled(h: HeadParser, s: bytes, consumed: nat, rest: bytes)
    returns (k: nat, x: bytes, a: bytes, b: bytes)
    requires TryParse(h, s).Parsed? && !Wraps(h, s) && |s| < TWO64 && 4 <= consumed == TryParse(h, s).consumed <= |s|
    requires rest == s[consumed..] && !Settled(h, rest)
    ensures 4 <= k < |s| && x == s[..k - 1] && a == s[..k] && b == s[..k + 1] && Around(h, x, a, b)
    decreases |s|, 0
  {
    var i, x', a', b' := UnsettledCut(h, rest);
    k := consumed + i;
    x, a, b := s[..k - 1], s[..k], s[..k + 1];
    CutLater(h, s, consumed, rest, x', a', b', i, k, x, a, b);
  }

  lemma FirstRequest(h: HeadParser, s: bytes)
    requires TryParse(h, s).Parsed? && TryParse(h, s).consumed <= |s|
    ensures Drain(h, s).requests != [] && Drain(h, s).requests[0] == TryParse(h, s).request
  {
  }

  // ---------- cuttings ----------

  // Byte by byte.
  function Singles(s: bytes): (chunks: seq<bytes>)
    ensures |chunks| == |s|
  {
    seq(|s|, (i: nat) requires i < |s| => [s[i]])
  }

  lemma {:induction false} SinglesConcat(s: bytes)
    ensures Chunks(Singles(s)) && Concat(Singles(s)) == s
    decreases |s|
  {
    if s != [] {
      assert Singles(s)[1..] == Singles(s[1..]);
      SinglesConcat(s[1..]);
      assert s == [s[0]] + s[1..];
    }
  }

  lemma ChunksBoth(a: seq<bytes>, b: seq<bytes>)
    requires Chunks(a) && Chunks(b)
    ensures Chunks(a + b)
  {
  }

  lemma {:induction false} ConcatBoth(a: seq<bytes>, b: seq<bytes>)
    ensures Concat(a + b) == Concat(a) + Concat(b)
    decreases |a|
  {
    if a == [] {
      assert a + b == b;
    } else {
      var tail := a[1..];
      assert (a + b)[1..] == tail + b && (a + b)[0] == a[0];
      ConcatBoth(tail, b);
      Assoc(a[0], Concat(tail), Concat(b));
    }
  }

  // x are the first requests of y.
  ghost predicate First(x: seq<Request>, y: seq<Request>) {
    |x| <= |y| && y[..|x|] == x
  }

  lemma FirstBehind(rs: seq<Request>, x: seq<Request>, y: seq<Request>)
    requires First(x, y)
    ensures First(rs + x, rs + y)
  {
    assert (rs + y)[..|rs + x|] == rs + y[..|x|];
  }

  // What is dispatched of the first chunks stays dispatched.
  lemma {:induction false} ReceiveFirst(h: HeadParser, buffer: bytes, a: seq<bytes>, b: seq<bytes>)
    ensures First(Receive(h, buffer, a).requests, Receive(h, buffer, a + b).requests)
    decreases |a|
  {
    if a != [] {
      assert (a + b)[1..] == a[1..] + b;
      match Drain(h, buffer + a[0])
      case Diverged(_) =>
      case Waiting(rs, rest) =>
        ReceiveFirst(h, rest, a[1..], b);
        FirstBehind(rs, Receive(h, rest, a[1..]).requests, Receive(h, rest, a[1..] + b).requests);
    }
  }

  // One chunk more, behind chunks that leave bytes.
  lemma {:induction false} ReceiveMore(h: HeadParser, buffer: bytes, a: seq<bytes>, y: bytes, rs: seq<Request>,
                                       rest: bytes)
    requires Receive(h, buffer, a) == Waiting(rs, rest)
    ensures Receive(h, buffer, a + [y]).requests == rs + Drain(h, rest + y).requests
    decreases |a|
  {
    if a == [] {
      OneChunk(h, buffer, y);
      assert a + [y] == [y];
    } else {
      var tail := a[1..];
      assert (a + [y])[1..] == tail + [y] && (a + [y])[0] == a[0];
      var d := Drain(h, buffer + a[0]);
      var more := Receive(h, d.rest, tail);
      ReceiveMore(h, d.rest, tail, y, more.requests, more.rest);
      ChunkBefore(h, buffer, a + [y], tail + [y], d, more.requests, Drain(h, rest + y).requests);
    }
  }

  lemma ChunkBefore(h: HeadParser, buffer: bytes, chunks: seq<bytes>, tail: seq<bytes>, d: Outcome,
                    x: seq<Request>, y: seq<Request>)
    requires chunks != [] && tail == chunks[1..] && d == Drain(h, buffer + chunks[0]) && d.Waiting?
    requires Receive(h, d.rest, tail).requests == x + y
    ensures Receive(h, buffer, chunks).requests == d.requests + x + y
  {
    assert d.requests + (x + y) == d.requests + x + y;
  }

  lemma OneChunk(h: HeadParser, buffer: bytes, y: bytes)
    ensures Receive(h, buffer, [y]).requests == [] + Drain(h, buffer + y).requests
  {
    var d := Drain(h, buffer + y);
    assert [y][1..] == [];
    if d.Waiting? {
      assert d.requests + [] == d.requests;
    }
  }

  lemma DifferFirst(x: seq<Request>, y: seq<Request>, x': seq<Request>, y': seq<Request>)
    requires Differ(x, y) && First(x, x') && First(y, y')
    ensures x' != y'
  {
    var i :| 0 <= i < |x| && i < |y| && x[i] != y[i];
    assert x'[..|x|][i] == x'[i] && y'[..|y|][i] == y'[i];
  }

  // Byte by byte a settled stream is drained.
  lemma SinglesDrain(h: HeadParser, a: bytes)
    requires Settled(h, a) && |a| < TWO64
    ensures Receive(h, [], Singles(a)) == Drain(h, a)
  {
    SinglesConcat(a);
    assert [] + Concat(Singles(a)) == a;
    NothingDrained(h);
    ReceiveIsDrain(h, [], Singles(a));
  }

  // Two cuttings into small chunks: byte by byte, and with one chunk of two bytes around the end of a wrapping head.
  lemma SinglesTo(h: HeadParser, a: bytes, rest: seq<bytes>)
    requires Settled(h, a) && |a| < TWO64
    ensures First(Drain(h, a).requests, Receive(h, [], Singles(a) + rest).requests)
  {
    SinglesDrain(h, a);
    ReceiveFirst(h, [], Singles(a), rest);
  }

  lemma TwoAcross(h: HeadParser, x: bytes, y: bytes, b: bytes, rest: seq<bytes>)
    requires NoWrap(h, x) && x + y == b && |b| < TWO64
    ensures First(Drain(h, b).requests, Receive(h, [], (Singles(x) + [y]) + rest).requests)
  {
    NoWrapSettled(h, x);
    SinglesDrain(h, x);
    DrainOn(h, x, y);
    var d := Drain(h, x);
    ReceiveMore(h, [], Singles(x), y, d.requests, d.rest);
    ReceiveFirst(h, [], Singles(x) + [y], rest);
  }

  lemma SinglesCut(s: bytes, a: bytes, rest: bytes)
    requires a + rest == s
    ensures Chunks(Singles(a) + Singles(rest)) && Concat(Singles(a) + Singles(rest)) == s
  {
    SinglesConcat(a);
    SinglesConcat(rest);
    ChunksBoth(Singles(a), Singles(rest));
    ConcatBoth(Singles(a), Singles(rest));
  }

  lemma CutAround(s: bytes, x: bytes, y: bytes, rest: bytes)
    requires x + y + rest == s && |y| == 2
    ensures Chunks((Singles(x) + [y]) + Singles(rest)) && Concat((Singles(x) + [y]) + Singles(rest)) == s
  {
    SinglesConcat(x);
    SinglesConcat(rest);
    assert [y][1..] == [] && Concat([y]) == y + [] == y;
    ChunksBoth(Singles(x), [y]);
    ConcatBoth(Singles(x), [y]);
    ChunksBoth(Singles(x) + [y], Singles(rest));
    ConcatBoth(Singles(x) + [y], Singles(rest));
  }

  // Is the outcome the same for all cuttings of the stream?
  ghost predicate Independent(h: HeadParser, stream: bytes) {
    forall a, b :: Chunks(a) && Chunks(b) && Concat(a) == stream && Concat(b) == stream ==>
      Receive(h, [], a) == Receive(h, [], b)
  }

  // That of a settled stream is the one of draining it whole.
  lemma SettledDrains(h: HeadParser, stream: bytes, chunks: seq<bytes>)
    requires |stream| < TWO64 && Settled(h, stream) && Chunks(chunks) && Concat(chunks) == stream
    ensures Receive(h, [], chunks) == Drain(h, stream)
  {
    assert [] + Concat(chunks) == stream;
    NothingDrained(h);
    ReceiveIsDrain(h, [], chunks);
  }

  lemma SettledIndependent(h: HeadParser, stream: bytes)
    requires |stream| < TWO64 && Settled(h, stream)
    ensures Independent(h, stream)
  {
    forall a, b | Chunks(a) && Chunks(b) && Concat(a) == stream && Concat(b) == stream
      ensures Receive(h, [], a) == Receive(h, [], b)
    {
      SettledDrains(h, stream, a);
      SettledDrains(h, stream, b);
    }
  }

  lemma CutsDiffer(h: HeadParser, stream: bytes, a: seq<bytes>, b: seq<bytes>, x: seq<Request>, y: seq<Request>)
    requires Chunks(a) && Chunks(b) && Concat(a) == stream && Concat(b) == stream && Differ(x, y)
    requires First(x, Receive(h, [], a).requests) && First(y, Receive(h, [], b).requests)
    ensures !Independent(h, stream)
  {
    DifferFirst(x, y, Receive(h, [], a).requests, Receive(h, [], b).requests);
    assert Receive(h, [], a) != Receive(h, [], b);
  }

  lemma UnsettledDependent(h: HeadParser, stream: bytes)
    requires |stream| < TWO64 && !Settled(h, stream)
    ensures !Independent(h, stream)
  {
    var k, x, a, b := UnsettledCut(h, stream);
    var y, rest, end := stream[k - 1..k + 1], stream[k..], stream[k + 1..];
    assert a + rest == stream && x + y == b && x + y + end == stream;
    SinglesCut(stream, a, rest);
    CutAround(stream, x, y, end);
    SinglesTo(h, a, Singles(rest));
    TwoAcross(h, x, y, b, Singles(end));
    CutsDiffer(h, stream, Singles(a) + Singles(rest), (Singles(x) + [y]) + Singles(end), Drain(h, a).requests,
               Drain(h, b).requests);
  }

  // The requests dispatched and the bytes left are independent of the cutting exactly when the stream is
  // settled.
  lemma ChunkingIndependence(h: HeadParser, stream: bytes)
    requires |stream| < TWO64
    ensures Independent(h, stream) <==> Settled(h, stream)
  {
    if Settled(h, stream) {
      SettledIndependent(h, stream);
    } else {
      UnsettledDependent(h, stream);
    }
  }

  lemma NothingDrained(h: HeadParser)
    ensures Drained(h, [])
  {
    assert HeaderEnd([], 0).None?;
  }

  // ---------- streams that never end ----------

  // Along the heads the loop reaches, is there one with header_end + 4 + content_length exactly 2^64?
  predicate MeetsExactWrap(h: HeadParser, s: bytes)
    decreases |s|, 1
  {
    var e := HeaderEnd(s, 0);
    e.Some? &&
    match h(s[..e.value])
    case NoLines => false
    case BadStart => false
    case Head(_, length) => MeetsBehind(h, s, e.value + 4 + length)
  }

  // The sum of the first head, or one of the heads behind what it takes.
  predicate MeetsBehind(h: HeadParser, s: bytes, sum: nat)
    requires 0 < sum && sum < TWO64 + |s|
    decreases |s|, 0
  {
    if sum == TWO64 then true
    else if sum < TWO64 then sum <= |s| && MeetsExactWrap(h, s[sum..])
    else MeetsExactWrap(h, s[sum - TWO64..])
  }

  // What a head takes off the buffer.
  lemma HeadTakes(h: HeadParser, s: bytes, e: nat, r: Request, length: size, sum: nat)
    requires |s| < TWO64 && HeaderEnd(s, 0) == Some(e) && h(s[..e]) == Head(r, length) && sum == e + 4 + length
    ensures sum < TWO64 ==> if sum <= |s| then TryParse(h, s).Parsed? && TryParse(h, s).consumed == sum
                            else TryParse(h, s).Failed?
    ensures TWO64 <= sum ==> TryParse(h, s).Parsed? && TryParse(h, s).consumed == sum - TWO64 < |s|
  {
    TotalOf(e, length);
  }

  lemma MeetsHead(h: HeadParser, s: bytes, sum: nat, consumed: nat)
    requires 0 < sum < TWO64 + |s| && consumed == if sum < TWO64 then sum else sum - TWO64
    ensures consumed <= |s| && sum != TWO64 ==> (MeetsBehind(h, s, sum) <==> MeetsExactWrap(h, s[consumed..]))
    ensures consumed > |s| ==> !MeetsBehind(h, s, sum)
    ensures sum == TWO64 ==> MeetsBehind(h, s, sum)
  {
  }

  lemma DrainHead(h: HeadParser, s: bytes, consumed: nat)
    requires TryParse(h, s).Parsed? && TryParse(h, s).consumed == consumed <= |s|
    ensures consumed == 0 ==> Drain(h, s).Diverged?
    ensures consumed > 0 ==> (Drain(h, s).Diverged? <==> Drain(h, s[consumed..]).Diverged?)
  {
  }

  // One head, for the loop.
  lemma DrainStep(h: HeadParser, s: bytes, e: nat, r: Request, length: size, sum: nat, consumed: nat)
    requires |s| < TWO64 && HeaderEnd(s, 0) == Some(e) && h(s[..e]) == Head(r, length) && sum == e + 4 + length
    requires consumed == if sum < TWO64 then sum else sum - TWO64
    ensures consumed == 0 ==> Drain(h, s).Diverged?
    ensures consumed > |s| ==> !Drain(h, s).Diverged?
    ensures 0 < consumed <= |s| ==> (Drain(h, s).Diverged? <==> Drain(h, s[consumed..]).Diverged?)
  {
    HeadTakes(h, s, e, r, length, sum);
    if consumed <= |s| {
      DrainHead(h, s, consumed);
    }
  }

  // The same head, for the sums.
  lemma MeetsStep(h: HeadParser, s: bytes, e: nat, r: Request, length: size, sum: nat, consumed: nat)
    requires |s| < TWO64 && HeaderEnd(s, 0) == Some(e) && h(s[..e]) == Head(r, length) && sum == e + 4 + length
    requires consumed == if sum < TWO64 then sum else sum - TWO64
    ensures consumed == 0 ==> MeetsExactWrap(h, s)
    ensures consumed > |s| ==> !MeetsExactWrap(h, s)
    ensures 0 < consumed <= |s| ==> (MeetsExactWrap(h, s) <==> MeetsExactWrap(h, s[consumed..]))
  {
    MeetsForm(h, s, e, r, length, sum);
    MeetsHead(h, s, sum, consumed);
  }

  lemma MeetsForm(h: HeadParser, s: bytes, e: nat, r: Request, length: size, sum: nat)
    requires |s| < TWO64 && HeaderEnd(s, 0) == Some(e) && h(s[..e]) == Head(r, length) && sum == e + 4 + length
    ensures MeetsExactWrap(h, s) <==> MeetsBehind(h, s, sum)
  {
  }

  lemma NoHeadStep(h: HeadParser, s: bytes)
    requires HeaderEnd(s, 0).Some? ==> !h(s[..HeaderEnd(s, 0).value]).Head?
    ensures !Drain(h, s).Diverged? && !MeetsExactWrap(h, s)
  {
  }

  // The loop dispatches for ever exactly when it reaches such a head: that head takes no byte at all.
  lemma {:induction false} DivergesExactly(h: HeadParser, s: bytes)
    requires |s| < TWO64
    ensures Drain(h, s).Diverged? <==> MeetsExactWrap(h, s)
    decreases |s|
  {
    var e := HeaderEnd(s, 0);
    if e.Some? && h(s[..e.value]).Head? {
      var d := h(s[..e.value]);
      var sum := e.value + 4 + d.contentLength;
      var consumed := if sum < TWO64 then sum else sum - TWO64;
      DrainStep(h, s, e.value, d.request, d.contentLength, sum, consumed);
      MeetsStep(h, s, e.value, d.request, d.contentLength, sum, consumed);
      if 0 < consumed <= |s| {
        DivergesExactly(h, s[consumed..]);
      }
    } else {
      NoHeadStep(h, s);
    }
  }

  // ---------- heads that never parse ----------

  // A complete head with a malformed start line, or with no line at all, is never taken off the buffer:
  // whatever arrives, nothing is dispatched any more.
  lemma MalformedHeadBlocks(h: HeadParser, buffer: bytes, ext: bytes, e: nat)
    requires HeaderEnd(buffer, 0) == Some(e) && !h(buffer[..e]).Head?
    ensures Drain(h, buffer + ext) == Waiting([], buffer + ext)
  {
    HeaderEndStable(buffer, ext, 0);
    assert (buffer + ext)[..e] == buffer[..e];
  }
}
