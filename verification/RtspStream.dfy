/**
 Streams of whole requests: however they are cut on their way, the receive loop dispatches each of them as it was
 written, in their order, and keeps what has arrived of the next.
 */
module RtspStream {
  import opened Words
  import opened Slices
  import opened RtspMessage
  import opened RtspFormat
  import opened ReceiveLoop

  // A request as it is written.
  datatype Message = Message(start: Start, fields: seq<Field>, body: bytes) {
    ghost predicate Valid() {
      start.Valid() && AllValid(fields) && Announces(fields, |body|)
    }

    function Bytes(): bytes {
      RequestBytes(start, fields, body)
    }
  }

  ghost predicate AllMessages(ms: seq<Message>) {
    forall i :: 0 <= i < |ms| ==> ms[i].Valid()
  }

  // r is what m says.
  ghost predicate Delivers(m: Message, r: Request) {
    && r.verb == m.start.verb && r.uri == m.start.uri && r.version == m.start.version && r.body == m.body
    && Holds(m.fields, r.headers)
  }

  ghost predicate AllDelivered(ms: seq<Message>, rs: seq<Request>) {
    |rs| == |ms| && forall i :: 0 <= i < |ms| ==> Delivers(ms[i], rs[i])
  }

  // Nothing, or the beginning of a request.
  ghost predicate Unfinished(part: bytes) {
    part == [] || exists m: Message, k: nat :: m.Valid() && k < |m.Bytes()| < TWO64 && part == m.Bytes()[..k]
  }

  lemma UnfinishedWaits(part: bytes)
    requires Unfinished(part)
    ensures TryParse(RtspHead(), part) == Failed(0) && !Wraps(RtspHead(), part)
  {
    if part != [] {
      var m: Message, k: nat :| m.Valid() && k < |m.Bytes()| < TWO64 && part == m.Bytes()[..k];
      RequestWaits(m.start, m.fields, m.body, k);
    } else {
      assert HeaderEnd(part, 0).None?;
    }
  }

  // What a request is parsed to, apart from what follows it.
  ghost function Seen(m: Message): (r: Request)
    requires m.Valid()
    ensures Delivers(m, r)
  {
    HeadSeen(m.start, m.fields);
    Request(m.start.verb, m.start.uri, m.start.version, ParseHead(HeadBytes(m.start, m.fields)).request.headers, m.body)
  }

  // The head parser takes r off the front of everything that begins with these bytes.
  ghost predicate Reads(h: HeadParser, piece: bytes, r: Request) {
    piece != [] && forall rest: bytes :: |piece + rest| < TWO64 ==>
      TryParse(h, piece + rest) == Parsed(r, |piece|) && !Wraps(h, piece + rest)
  }

  lemma MessageRead(m: Message)
    requires m.Valid()
    ensures Reads(RtspHead(), m.Bytes(), Seen(m))
  {
    forall rest: bytes | |m.Bytes() + rest| < TWO64
      ensures TryParse(RtspHead(), m.Bytes() + rest) == Parsed(Seen(m), |m.Bytes()|)
      ensures !Wraps(RtspHead(), m.Bytes() + rest)
    {
      HeadSeen(m.start, m.fields);
      RequestSeen(m.start, m.fields, m.body, rest, m.Bytes() + rest);
    }
  }

  ghost predicate AllRead(h: HeadParser, pieces: seq<bytes>, rs: seq<Request>) {
    |pieces| == |rs| && forall i :: 0 <= i < |rs| ==> Reads(h, pieces[i], rs[i])
  }

  // Pieces read one by one are drained in their order.
  lemma {:induction false} PiecesDrain(h: HeadParser, pieces: seq<bytes>, rs: seq<Request>, part: bytes, stream: bytes)
    requires AllRead(h, pieces, rs) && TryParse(h, part).Failed? && !Wraps(h, part)
    requires stream == Concat(pieces) + part && |stream| < TWO64
    ensures Drain(h, stream) == Waiting(rs, part) && Settled(h, stream)
    decreases |pieces|
  {
    if pieces == [] {
      NoneDrained(h, part, stream);
    } else {
      var rest := Concat(pieces[1..]) + part;
      FirstPiece(h, pieces, rs, part, stream, rest);
      PiecesDrain(h, pieces[1..], rs[1..], part, rest);
      PieceDrained(h, pieces[0], rs[0], rest, rs[1..], part, stream, rs);
    }
  }

  lemma NoneDrained(h: HeadParser, part: bytes, stream: bytes)
    requires TryParse(h, part).Failed? && !Wraps(h, part) && stream == [] + part
    ensures Drain(h, stream) == Waiting([], part) && Settled(h, stream)
  {
    assert stream == part;
  }

  lemma FirstPiece(h: HeadParser, pieces: seq<bytes>, rs: seq<Request>, part: bytes, stream: bytes, rest: bytes)
    requires AllRead(h, pieces, rs) && pieces != []
    requires stream == Concat(pieces) + part && rest == Concat(pieces[1..]) + part
    ensures Reads(h, pieces[0], rs[0]) && AllRead(h, pieces[1..], rs[1..])
    ensures stream == pieces[0] + rest && rs == [rs[0]] + rs[1..]
  {
    Assoc(pieces[0], Concat(pieces[1..]), part);
  }

  lemma PieceDrained(h: HeadParser, piece: bytes, r: Request, rest: bytes, rs: seq<Request>, part: bytes, stream: bytes,
                     all: seq<Request>)
    requires Reads(h, piece, r) && stream == piece + rest && |stream| < TWO64 && all == [r] + rs
    requires Drain(h, rest) == Waiting(rs, part) && Settled(h, rest)
    ensures Drain(h, stream) == Waiting(all, part) && Settled(h, stream)
  {
    assert stream[|piece|..] == rest;
    OneDrained(h, stream, r, |piece|, rest, rs, part);
  }

  lemma OneDrained(h: HeadParser, stream: bytes, r: Request, n: nat, rest: bytes, rs: seq<Request>, part: bytes)
    requires TryParse(h, stream) == Parsed(r, n) && 0 < n <= |stream| && stream[n..] == rest && !Wraps(h, stream)
    requires Drain(h, rest) == Waiting(rs, part) && Settled(h, rest)
    ensures Drain(h, stream) == Waiting([r] + rs, part) && Settled(h, stream)
  {
  }

  function Pieces(ms: seq<Message>): (pieces: seq<bytes>)
    ensures |pieces| == |ms|
  {
    seq(|ms|, (i: nat) requires i < |ms| => ms[i].Bytes())
  }

  // However the stream is cut.
  lemma StreamServed(ms: seq<Message>, part: bytes, chunks: seq<bytes>) returns (rs: seq<Request>)
    requires AllMessages(ms) && Unfinished(part) && Chunks(chunks)
    requires Concat(chunks) == Concat(Pieces(ms)) + part && |Concat(chunks)| < TWO64
    ensures Receive(RtspHead(), [], chunks) == Waiting(rs, part) && AllDelivered(ms, rs)
  {
    var stream := Concat(chunks);
    rs := seq(|ms|, (i: nat) requires i < |ms| && AllMessages(ms) => Seen(ms[i]));
    forall i | 0 <= i < |ms|
      ensures Reads(RtspHead(), Pieces(ms)[i], rs[i])
    {
      MessageRead(ms[i]);
    }
    UnfinishedWaits(part);
    PiecesDrain(RtspHead(), Pieces(ms), rs, part, stream);
    NothingDrained(RtspHead());
    assert [] + stream == stream;
    ReceiveIsDrain(RtspHead(), [], chunks);
  }
}
