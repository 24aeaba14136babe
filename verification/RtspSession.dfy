/**
 try_parse_request with its loop over header lines, and the receive loop of handle_client with the buffer
 it appends to and erases from, tied to RtspMessage and ReceiveLoop.
 */
module RtspSession {
  import opened Words
  import opened Wrappers
  import opened Slices
  import opened RtspMessage
  import opened ReceiveLoop

  // ---------- try_parse_request ----------

  // The loop over header lines.
  method ReadHeaders(lines: seq<bytes>, start: Request) returns (r: Request, length: size)
    requires lines != []
    ensures (r, length) == HeaderLines(lines[1..], start, 0)
  {
    r, length := start, 0;
    ghost var rest, goal := lines[1..], HeaderLines(lines[1..], start, 0);
    for i := 1 to |lines|
      invariant rest == lines[i..] && goal == HeaderLines(rest, r, length)
    {
      var line := lines[i];
      var colon := IndexOf(line, COLON);
      rest := rest[1..];
      if colon == |line| {
        continue;
      }
      var name, value := ToLower(Trim(line[..colon])), Trim(line[colon + 1..]);
      r := r.(headers := r.headers[name := value]);
      if name == CONTENT_LENGTH {
        length := FromChars(value, length);
      }
    }
  }

  method TryParseRequest(buffer: bytes) returns (ok: bool, request: Option<Request>, consumed: nat)
    ensures match TryParse(RtspHead(), buffer)
            case Failed(c) => !ok && request.None? && consumed == c
            case Parsed(r, c) => ok && request == Some(r) && consumed == c
  {
    ok, request, consumed := false, None, 0;
    var found := HeaderEnd(buffer, 0);
    if found.None? {
      return;
    }
    var headerEnd := found.value;
    var lines := Lines(buffer[..headerEnd]);
    if lines == [] {
      return;
    }
    var start := StartLine(lines[0]);
    if start.verb == [] || start.version == [] {
      consumed := headerEnd + 4;
      return;
    }
    var parsed, contentLength := ReadHeaders(lines, start);
    var total := (headerEnd + 4 + contentLength) % TWO64;
    if |buffer| < total {
      return;
    }
    var body := Substr(buffer, headerEnd + 4, contentLength);
    ok, request, consumed := true, Some(parsed.(body := body)), total;
  }

  // ---------- the session ----------

  const DACP_ID: bytes := [100, 97, 99, 112, 45, 105, 100]
  const ACTIVE_REMOTE: bytes := [97, 99, 116, 105, 118, 101, 45, 114, 101, 109, 111, 116, 101]

  // Request::header: the value, or nothing.
  function Header(r: Request, name: bytes): bytes {
    if name in r.headers then r.headers[name] else []
  }

  // The remote last named: a request without the header, or with an empty one, changes nothing.
  datatype Remote = Remote(dacpId: bytes, activeRemote: bytes)

  function Remember(remote: Remote, r: Request): Remote {
    Remote(if Header(r, DACP_ID) != [] then Header(r, DACP_ID) else remote.dacpId,
           if Header(r, ACTIVE_REMOTE) != [] then Header(r, ACTIVE_REMOTE) else remote.activeRemote)
  }

  function RememberAll(remote: Remote, rs: seq<Request>): Remote
    decreases |rs|
  {
    if rs == [] then remote else RememberAll(Remember(remote, rs[0]), rs[1..])
  }

  lemma {:induction false} RememberConcat(remote: Remote, a: seq<Request>, b: seq<Request>)
    ensures RememberAll(remote, a + b) == RememberAll(RememberAll(remote, a), b)
    decreases |a|
  {
    if a == [] {
      assert a + b == b;
    } else {
      assert (a + b)[1..] == a[1..] + b;
      RememberConcat(Remember(remote, a[0]), a[1..], b);
    }
  }

  // Does a request name a value of its own under a header?
  predicate Names(r: Request, header: string) {
    Ascii(header) in r.headers && r.headers[Ascii(header)] != []
  }

  // The last of the requests that does.
  ghost predicate LastNaming(rs: seq<Request>, header: string, i: nat) {
    i < |rs| && Names(rs[i], header) && forall j :: i < j < |rs| ==> !Names(rs[j], header)
  }

  lemma HeaderNames()
    ensures DACP_ID == Ascii("dacp-id") && ACTIVE_REMOTE == Ascii("active-remote")
  {
  }

  // The remote is what the last requests to name it say, header by header, and else what it was.
  lemma {:induction false} LastNamed(remote: Remote, rs: seq<Request>)
    ensures forall i: nat :: LastNaming(rs, "dacp-id", i) ==>
              RememberAll(remote, rs).dacpId == rs[i].headers[Ascii("dacp-id")]
    ensures forall i: nat :: LastNaming(rs, "active-remote", i) ==>
              RememberAll(remote, rs).activeRemote == rs[i].headers[Ascii("active-remote")]
    ensures (forall i :: 0 <= i < |rs| ==> !Names(rs[i], "dacp-id")) ==> RememberAll(remote, rs).dacpId == remote.dacpId
    ensures (forall i :: 0 <= i < |rs| ==> !Names(rs[i], "active-remote")) ==>
              RememberAll(remote, rs).activeRemote == remote.activeRemote
    decreases |rs|
  {
    HeaderNames();
    if rs != [] {
      var before, last := rs[..|rs| - 1], rs[|rs| - 1];
      assert rs == before + [last];
      RememberConcat(remote, before, [last]);
      assert [last][1..] == [];
      LastNamed(remote, before);
      forall i: nat | i < |before|
        ensures LastNaming(rs, "dacp-id", i) ==> LastNaming(before, "dacp-id", i)
        ensures LastNaming(rs, "active-remote", i) ==> LastNaming(before, "active-remote", i)
      {
      }
    }
  }

  class Connection {
    var buffer: bytes
    var dispatched: seq<Request>
    var remote: Remote
    const firstRemote: Remote

    // The remote is what the dispatched requests name.
    ghost predicate Valid()
      reads this
    {
      remote == RememberAll(firstRemote, dispatched)
    }

    constructor (remote: Remote)
      ensures Valid() && buffer == [] && dispatched == [] && firstRemote == remote
    {
      buffer, dispatched := [], [];
      this.remote, firstRemote := remote, remote;
    }

    // Updates the remote under the lock and hands the request on.
    method Dispatch(r: Request)
      requires Valid()
      modifies this`dispatched, this`remote
      ensures Valid() && dispatched == old(dispatched) + [r]
    {
      RememberConcat(firstRemote, dispatched, [r]);
      assert RememberAll(remote, [r]) == Remember(remote, r) by {
        assert [r][1..] == [];
      }
      dispatched := dispatched + [r];
      remote := Remember(remote, r);
    }

    // The inner loop. It is left, and reported, when a request takes no bytes and would be dispatched for
    // ever.
    method DrainBuffer() returns (diverged: bool, ghost done: seq<Request>)
      requires Valid()
      modifies this
      ensures Valid() && dispatched == old(dispatched) + done
      ensures Shows(Drain(RtspHead(), old(buffer)), diverged, done, buffer)
    {
      ghost var before, goal := dispatched, Drain(RtspHead(), buffer);
      done := [];
      AllBeforeNone(goal);
      while true
        invariant Valid() && dispatched == before + done && goal == AllBefore(done, Drain(RtspHead(), buffer))
        decreases |buffer|
      {
        var ok, request, consumed := TryParseRequest(buffer);
        if !ok {
          NothingMore(done, buffer);
          return false, done;
        }
        var r := request.value;
        ghost var more, rest := done + [r], buffer[consumed..];
        assert before + done + [r] == before + more;
        Dispatch(r);
        if consumed == 0 {
          SameForEver(done, buffer, r, more);
          return true, more;
        }
        DispatchStep(done, buffer, r, consumed, more, rest);
        done := more;
        buffer := buffer[consumed..];
      }
    }

    // One chunk: appended, and drained.
    method Arrive(chunk: bytes, ghost before: seq<Request>, ghost done: seq<Request>, ghost chunks: seq<bytes>,
                  ghost next: seq<bytes>, ghost goal: Outcome)
      returns (diverged: bool, ghost more: seq<Request>)
      requires Valid() && chunks != [] && chunk == chunks[0] && next == chunks[1..]
      requires dispatched == before + done && goal == AllBefore(done, Receive(RtspHead(), buffer, chunks))
      modifies this
      ensures Valid() && dispatched == before + more
      ensures goal == if diverged then Diverged(more) else AllBefore(more, Receive(RtspHead(), buffer, next))
    {
      ghost var was, joined, drained := buffer, buffer + chunk, [];
      buffer := buffer + chunk;
      diverged, drained := DrainBuffer();
      more := done + drained;
      Associate(before, done, drained);
      ghost var o := if diverged then Diverged(drained) else Waiting(drained, buffer);
      ReceiveStep(done, was, chunks, next, joined, o, more);
    }

    // The outer loop over the chunks that arrive.
    method HandleClient(chunks: seq<bytes>) returns (diverged: bool, ghost done: seq<Request>)
      requires Valid()
      modifies this
      ensures Valid() && dispatched == old(dispatched) + done
      ensures Shows(Receive(RtspHead(), old(buffer), chunks), diverged, done, buffer)
    {
      ghost var before, goal := dispatched, Receive(RtspHead(), buffer, chunks);
      ghost var rest := chunks;
      diverged, done := false, [];
      AllBeforeNone(goal);
      for i := 0 to |chunks|
        invariant Valid() && rest == chunks[i..] && dispatched == before + done
        invariant goal == AllBefore(done, Receive(RtspHead(), buffer, rest))
      {
        ghost var next := rest[1..];
        diverged, done := Arrive(chunks[i], before, done, rest, next, goal);
        if diverged {
          return;
        }
        rest := next;
      }
      NoMoreChunks(done, buffer);
    }
  }

  lemma Associate(a: seq<Request>, b: seq<Request>, c: seq<Request>)
    ensures a + b + c == a + (b + c)
  {
  }

  // An outcome as the loop leaves it: what it dispatched, and its buffer unless it does not end.
  ghost predicate Shows(o: Outcome, diverged: bool, done: seq<Request>, buffer: bytes) {
    o == if diverged then Diverged(done) else Waiting(done, buffer)
  }

  lemma NoMoreChunks(done: seq<Request>, buffer: bytes)
    ensures AllBefore(done, Receive(RtspHead(), buffer, [])) == Waiting(done, buffer)
  {
    assert done + [] == done;
  }

  lemma NothingMore(done: seq<Request>, buffer: bytes)
    requires TryParse(RtspHead(), buffer).Failed?
    ensures AllBefore(done, Drain(RtspHead(), buffer)) == Waiting(done, buffer)
  {
    assert done + [] == done;
  }

  lemma SameForEver(done: seq<Request>, buffer: bytes, r: Request, more: seq<Request>)
    requires TryParse(RtspHead(), buffer) == Parsed(r, 0) && more == done + [r]
    ensures AllBefore(done, Drain(RtspHead(), buffer)) == Diverged(more)
  {
  }

  lemma DispatchStep(done: seq<Request>, buffer: bytes, r: Request, consumed: nat, more: seq<Request>, rest: bytes)
    requires TryParse(RtspHead(), buffer) == Parsed(r, consumed) && 0 < consumed <= |buffer|
    requires more == done + [r] && rest == buffer[consumed..]
    ensures AllBefore(done, Drain(RtspHead(), buffer)) == AllBefore(more, Drain(RtspHead(), rest))
  {
    BehindOne(done, r, more, Drain(RtspHead(), rest));
  }

  lemma BehindOne(done: seq<Request>, r: Request, more: seq<Request>, o: Outcome)
    requires more == done + [r]
    ensures AllBefore(done, Before(r, o)) == AllBefore(more, o)
  {
    assert done + ([r] + o.requests) == done + [r] + o.requests;
  }

  lemma BehindAll(done: seq<Request>, rs: seq<Request>, more: seq<Request>, o: Outcome)
    requires more == done + rs
    ensures AllBefore(done, AllBefore(rs, o)) == AllBefore(more, o)
  {
    assert done + (rs + o.requests) == done + rs + o.requests;
  }

  // One chunk of the outer loop.
  lemma ReceiveStep(done: seq<Request>, buffer: bytes, chunks: seq<bytes>, next: seq<bytes>, joined: bytes, o: Outcome,
                    more: seq<Request>)
    requires chunks != [] && next == chunks[1..] && joined == buffer + chunks[0] && o == Drain(RtspHead(), joined)
    requires more == done + o.requests
    ensures o.Diverged? ==> AllBefore(done, Receive(RtspHead(), buffer, chunks)) == Diverged(more)
    ensures o.Waiting? ==>
              AllBefore(done, Receive(RtspHead(), buffer, chunks)) == AllBefore(more, Receive(RtspHead(), o.rest, next))
  {
    if o.Waiting? {
      BehindAll(done, o.requests, more, Receive(RtspHead(), o.rest, next));
    }
  }
}
