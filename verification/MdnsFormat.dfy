/**
 Messages of any records and questions, byte by byte (section 4.1 of RFC 1035), and what a listener takes out of them:
 the DACP client's parser the pointers, services and addresses, any reader of character strings the items of a TXT
 record.
 */
module MdnsFormat {
  import opened Words
  import opened Slices
  import opened DnsNames
  import opened MdnsPackets

  // ---------- records ----------

  datatype Payload =
    | Pointer(target: bytes)
    | Service(priority: uint16, weight: uint16, port: uint16, target: bytes)
    | Host(ip: bytes)
    | Other(kind: uint16, data: bytes)

  datatype Resource = Resource(name: bytes, klass: uint16, ttl: nat, payload: Payload)

  function Type(p: Payload): uint16 {
    match p
    case Pointer(_) => 12
    case Service(_, _, _, _) => 33
    case Host(_) => 1
    case Other(kind, _) => kind
  }

  function PayloadBytes(p: Payload): bytes {
    match p
    case Pointer(target) => PutName(target)
    case Service(priority, weight, port, target) =>
      [priority / 256, priority % 256, weight / 256, weight % 256, port / 256, port % 256] + PutName(target)
    case Host(ip) => ip
    case Other(_, data) => data
  }

  // Names the parser can read, RDATA in range of its length; other records are those the parser has no use for.
  ghost predicate Valid(x: Resource) {
    && Readable(x.name) && |PayloadBytes(x.payload)| < 0x1_0000
    && match x.payload
       case Pointer(target) => Readable(target)
       case Service(_, _, _, target) => Readable(target)
       case Host(ip) => |ip| == 4
       case Other(kind, data) => kind != 12 && (kind == 33 ==> |data| < 6) && (kind == 1 ==> |data| != 4)
  }

  function ResourceBytes(x: Resource): bytes {
    var k, c, t, data := Type(x.payload), x.klass, x.ttl, PayloadBytes(x.payload);
    PutName(x.name) +
    ([k / 256, k % 256, c / 256, c % 256,
      t / 0x100_0000 % 256, t / 0x1_0000 % 256, t / 256 % 256, t % 256,
      |data| / 256 % 256, |data| % 256] + data)
  }

  function AllBytes(xs: seq<Resource>): bytes {
    if xs == [] then [] else ResourceBytes(xs[0]) + AllBytes(xs[1..])
  }

  // What a record teaches.
  function Taught(x: Resource, known: Records): Records {
    match x.payload
    case Pointer(target) => known.(ptrs := known.ptrs + [target])
    case Service(_, _, port, target) => known.(srv := known.srv[x.name := (target, port)])
    case Host(ip) => known.(hosts := known.hosts[x.name := ip])
    case Other(_, _) => known
  }

  function AllTaught(xs: seq<Resource>, known: Records): Records {
    if xs == [] then known else AllTaught(xs[1..], Taught(xs[0], known))
  }

  // ---------- messages ----------

  datatype Question = Question(name: bytes, kind: uint16, klass: uint16)

  function QuestionBytes(q: Question): bytes {
    PutName(q.name) + [q.kind / 256, q.kind % 256, q.klass / 256, q.klass % 256]
  }

  function AllQuestions(qs: seq<Question>): bytes {
    if qs == [] then [] else QuestionBytes(qs[0]) + AllQuestions(qs[1..])
  }

  // The header: identifier, flags, and the numbers of questions and of records in the three sections.
  function StartBytes(id: uint16, flags: uint16, n: uint16, an: uint16, ns: uint16, ar: uint16): (b: bytes)
    ensures |b| == 12
  {
    [id / 256, id % 256, flags / 256, flags % 256, n / 256, n % 256, an / 256, an % 256, ns / 256, ns % 256,
     ar / 256, ar % 256]
  }

  // Any identifier and flags, and the records over the three sections in any way.
  function MessageBytes(id: uint16, flags: uint16, qs: seq<Question>, xs: seq<Resource>, an: uint16, ns: uint16,
                        ar: uint16): bytes
    requires |qs| < 0x1_0000
  {
    StartBytes(id, flags, |qs|, an, ns, ar) + (AllQuestions(qs) + AllBytes(xs))
  }

  // ---------- the writer's bytes ----------

  // The record the advertiser means: shared pointers, and unique records that flush the cache.
  function ResourceOf(r: Record, ttl: nat): Resource {
    match r
    case Ptr(service, instance) => Resource(service, 1, ttl, Pointer(instance))
    case Srv(instance, host, port) => Resource(instance, 0x8001, ttl, Payload.Service(0, 0, port, host))
    case Txt(instance, items) => Resource(instance, 0x8001, ttl, Other(16, EncodeTxt(items)))
    case Address(host, ip) => Resource(host, 0x8001, ttl, Host(ip))
  }

  lemma FixedBytes(kind: uint16, klass: uint16, ttl: nat, rdata: bytes)
    ensures Be16(kind) + (Be16(klass) + Be32(ttl)) + (Be16(|rdata|) + rdata)
            == [kind / 256, kind % 256, klass / 256, klass % 256,
                ttl / 0x100_0000 % 256, ttl / 0x1_0000 % 256, ttl / 256 % 256, ttl % 256,
                |rdata| / 256 % 256, |rdata| % 256] + rdata
  {
  }

  lemma RecordIs(name: bytes, kind: uint16, klass: uint16, ttl: nat, rdata: bytes, p: Payload)
    requires kind == Type(p) && rdata == PayloadBytes(p)
    ensures RecordBytes(name, kind, klass, ttl, rdata) == ResourceBytes(Resource(name, klass, ttl, p))
  {
    RecordSplit(name, kind, klass, ttl, rdata, Be16(kind) + (Be16(klass) + Be32(ttl)), Be16(|rdata|) + rdata);
    FixedBytes(kind, klass, ttl, rdata);
  }

  // Every record is written as it is meant.
  lemma WrittenIs(r: Record, ttl: nat)
    ensures Written(r, ttl) == ResourceBytes(ResourceOf(r, ttl))
  {
    var x := ResourceOf(r, ttl);
    if r.Srv? {
      assert Be16(0) + Be16(0) + Be16(r.port) + PutName(r.host) == PayloadBytes(x.payload);
    }
    RecordIs(Owner(r), Kind(r), Class(r), ttl, Rdata(r), x.payload);
  }

  function ResourcesOf(rs: seq<Record>, ttl: nat): (xs: seq<Resource>)
    ensures |xs| == |rs|
  {
    seq(|rs|, (i: nat) requires i < |rs| => ResourceOf(rs[i], ttl))
  }

  lemma {:induction false} AllWrittenIs(rs: seq<Record>, ttl: nat)
    ensures AllWritten(rs, ttl) == AllBytes(ResourcesOf(rs, ttl))
    decreases |rs|
  {
    if rs != [] {
      WrittenIs(rs[0], ttl);
      AllWrittenIs(rs[1..], ttl);
      ResourcesSplit(rs, ttl);
      FirstBytes(ResourceOf(rs[0], ttl), ResourcesOf(rs[1..], ttl));
    }
  }

  lemma ResourcesSplit(rs: seq<Record>, ttl: nat)
    requires rs != []
    ensures ResourcesOf(rs, ttl) == [ResourceOf(rs[0], ttl)] + ResourcesOf(rs[1..], ttl)
  {
  }

  lemma FirstBytes(x: Resource, rest: seq<Resource>)
    ensures AllBytes([x] + rest) == ResourceBytes(x) + AllBytes(rest)
  {
    assert ([x] + rest)[1..] == rest;
  }

  // A response is an authoritative answer of these records.
  lemma ResponseIs(rs: seq<Record>, ttl: nat)
    requires |rs| < 0x1_0000
    ensures Response(rs, ttl) == MessageBytes(0, 0x8400, [], ResourcesOf(rs, ttl), |rs|, 0, 0)
  {
    AllWrittenIs(rs, ttl);
    HeaderIs(|rs|, 0x8400, 0);
    assert [] + AllWritten(rs, ttl) == AllWritten(rs, ttl);
  }

  lemma HeaderIs(n: uint16, flags: uint16, none: uint16)
    requires flags == 0x8400 && none == 0
    ensures HeaderBytes(n) == StartBytes(none, flags, none, n, none, none)
  {
  }

  lemma ServiceTypes()
    ensures RAOP_TYPE == Ascii("_raop._tcp.local") && AIRPLAY_TYPE == Ascii("_airplay._tcp.local")
  {
  }

  // ---------- any message parsed ----------

  lemma ShortRead(data: bytes, o: nat, high: byte, low: byte)
    requires At(data, o, [high, low])
    ensures U16At(data, o) == 256 * high + low
  {
    var b := data[o..o + 2];
    assert data[o] == b[0] && data[o + 1] == b[1];
  }

  lemma ServiceLearned(data: bytes, x: Resource, start: nat, known: Records)
    requires Valid(x) && x.payload.Service? && At(data, start, PayloadBytes(x.payload))
    ensures Learn(data, Head(x.name, 33, |PayloadBytes(x.payload)|, start), known) == Taught(x, known)
  {
    var p := x.payload;
    ServiceParts(data, start, p, PutName(p.target));
    NameRead(data, start + 6, p.target, start + 6 + |PutName(p.target)|);
    ServiceForm(data, x, start, start + 4, start + 6, |PayloadBytes(p)|, known);
  }

  lemma ServiceParts(data: bytes, start: nat, p: Payload, name: bytes)
    requires p.Service? && name == PutName(p.target) && At(data, start, PayloadBytes(p))
    ensures start + |PayloadBytes(p)| <= |data| && |PayloadBytes(p)| >= 6
    ensures U16At(data, start + 4) == p.port && At(data, start + 6, name)
  {
    var front: bytes := [p.priority / 256, p.priority % 256, p.weight / 256, p.weight % 256];
    var port: bytes := [p.port / 256, p.port % 256];
    assert PayloadBytes(p) == front + (port + name);
    AtParts(data, start, front, port + name, start + 4);
    AtParts(data, start + 4, port, name, start + 6);
    ShortRead(data, start + 4, p.port / 256, p.port % 256);
  }

  lemma ServiceForm(data: bytes, x: Resource, start: nat, p: nat, q: nat, n: nat, known: Records)
    requires x.payload.Service? && p == start + 4 && q == start + 6 && start + n <= |data| && n >= 6
    requires U16At(data, p) == x.payload.port && ReadNameAt(data, q, MAX_STEPS).Name?
    requires Join(ReadNameAt(data, q, MAX_STEPS).labels) == x.payload.target
    ensures Learn(data, Head(x.name, 33, n, start), known) == Taught(x, known)
  {
  }

  lemma ResourceLearned(data: bytes, x: Resource, start: nat, known: Records)
    requires Valid(x) && At(data, start, PayloadBytes(x.payload))
    ensures Learn(data, Head(x.name, Type(x.payload), |PayloadBytes(x.payload)|, start), known) == Taught(x, known)
  {
    match x.payload
    case Pointer(target) => NameRead(data, start, target, start + |PutName(target)|);
    case Service(_, _, _, _) => ServiceLearned(data, x, start, known);
    case Host(_) =>
    case Other(_, _) =>
  }

  // The head of a record of any kind, and where its RDATA stands.
  lemma ResourceHead(data: bytes, o: nat, x: Resource, start: nat)
    requires Valid(x) && At(data, o, ResourceBytes(x)) && start == o + |PutName(x.name)| + 10
    ensures ReadHead(data, o) == Head(x.name, Type(x.payload), |PayloadBytes(x.payload)|, start)
    ensures At(data, start, PayloadBytes(x.payload)) && |ResourceBytes(x)| == start - o + |PayloadBytes(x.payload)|
  {
    var kind, rdata := Type(x.payload), PayloadBytes(x.payload);
    RecordIs(x.name, kind, x.klass, x.ttl, rdata, x.payload);
    HeadRead(data, o, x.name, kind, x.klass, x.ttl, rdata, start);
  }

  // The message holds these records from o on.
  ghost predicate Carries(m: Message, o: nat, xs: seq<Resource>)
    decreases |xs|
  {
    xs == [] ||
    (var h := m.head(o);
     h.Head? && (forall known :: m.learn(h, known) == Taught(xs[0], known)) && Carries(m, h.start + h.rdlen, xs[1..]))
  }

  lemma {:induction false} BytesCarried(data: bytes, o: nat, xs: seq<Resource>, m: Message)
    requires (forall i :: 0 <= i < |xs| ==> Valid(xs[i])) && At(data, o, AllBytes(xs)) && m == MessageOf(data)
    ensures Carries(m, o, xs)
    decreases |xs|
  {
    if xs != [] {
      var x, rest := xs[0], xs[1..];
      var start := o + |PutName(x.name)| + 10;
      var next := start + |PayloadBytes(x.payload)|;
      FirstCarried(data, o, x, AllBytes(rest), start, next, m);
      assert forall i :: 0 <= i < |rest| ==> rest[i] == xs[i + 1];
      BytesCarried(data, next, rest, m);
      CarriedStep(m, o, xs, m.head(o), next, rest);
    }
  }

  lemma FirstCarried(data: bytes, o: nat, x: Resource, tail: bytes, start: nat, next: nat, m: Message)
    requires Valid(x) && At(data, o, ResourceBytes(x) + tail) && m == MessageOf(data)
    requires start == o + |PutName(x.name)| + 10 && next == start + |PayloadBytes(x.payload)|
    ensures m.head(o) == Head(x.name, Type(x.payload), |PayloadBytes(x.payload)|, start) && At(data, next, tail)
    ensures forall known :: m.learn(m.head(o), known) == Taught(x, known)
  {
    AtParts(data, o, ResourceBytes(x), tail, o + |ResourceBytes(x)|);
    ResourceHead(data, o, x, start);
    forall known
      ensures m.learn(m.head(o), known) == Taught(x, known)
    {
      ResourceLearned(data, x, start, known);
    }
  }

  lemma CarriedStep(m: Message, o: nat, xs: seq<Resource>, h: Head, next: nat, rest: seq<Resource>)
    requires xs != [] && m.head(o) == h && h.Head? && next == h.start + h.rdlen && rest == xs[1..]
    requires (forall known :: m.learn(h, known) == Taught(xs[0], known)) && Carries(m, next, rest)
    ensures Carries(m, o, xs)
  {
  }

  lemma {:induction false} CarriedParsed(m: Message, o: nat, xs: seq<Resource>, known: Records)
    requires Carries(m, o, xs)
    ensures ParseRecords(m, o, |xs|, known) == AllTaught(xs, known)
    decreases |xs|
  {
    if xs != [] {
      var h := m.head(o);
      assert m.learn(h, known) == Taught(xs[0], known);
      CarriedParsed(m, h.start + h.rdlen, xs[1..], Taught(xs[0], known));
    }
  }

  lemma {:induction false} QuestionsSkipped(data: bytes, o: nat, qs: seq<Question>, end: nat)
    requires (forall i :: 0 <= i < |qs| ==> Readable(qs[i].name)) && At(data, o, AllQuestions(qs))
    requires end == o + |AllQuestions(qs)|
    ensures SkipQuestions(data, o, |qs|) == Offset(end)
    decreases |qs|
  {
    if qs != [] {
      var q, rest := qs[0], qs[1..];
      var p := o + |PutName(q.name)|;
      QuestionRead(data, o, q, AllQuestions(rest), p);
      assert forall i :: 0 <= i < |rest| ==> rest[i] == qs[i + 1];
      QuestionsSkipped(data, p + 4, rest, end);
      QuestionStep(data, o, p, |qs|, |rest|, end);
    }
  }

  lemma QuestionRead(data: bytes, o: nat, q: Question, tail: bytes, p: nat)
    requires Readable(q.name) && At(data, o, QuestionBytes(q) + tail) && p == o + |PutName(q.name)|
    ensures ReadNameAt(data, o, MAX_STEPS).Name? && ReadNameAt(data, o, MAX_STEPS).next == p
    ensures p + 4 <= |data| && At(data, p + 4, tail) && o + |QuestionBytes(q)| == p + 4
  {
    var fixed: bytes := [q.kind / 256, q.kind % 256, q.klass / 256, q.klass % 256];
    AtParts(data, o, PutName(q.name) + fixed, tail, p + 4);
    AtParts(data, o, PutName(q.name), fixed, p);
    NameRead(data, o, q.name, p);
  }

  lemma QuestionStep(data: bytes, o: nat, p: nat, n: nat, m: nat, end: nat)
    requires n == m + 1 && ReadNameAt(data, o, MAX_STEPS).Name? && ReadNameAt(data, o, MAX_STEPS).next == p
    requires p + 4 <= |data| && SkipQuestions(data, p + 4, m) == Offset(end)
    ensures SkipQuestions(data, o, n) == Offset(end)
  {
  }

  lemma CountsRead(data: bytes, id: uint16, flags: uint16, n: uint16, an: uint16, ns: uint16, ar: uint16, rest: bytes)
    requires data == StartBytes(id, flags, n, an, ns, ar) + rest
    ensures U16At(data, 4) == n && U16At(data, 6) == an && U16At(data, 8) == ns && U16At(data, 10) == ar
    ensures |data| >= 12 && At(data, 12, rest)
  {
  }

  // Any message is parsed to what its records teach, in their order, over all sections and behind any questions; their
  // number is added in 16 bits.
  lemma MessageParsed(id: uint16, flags: uint16, qs: seq<Question>, xs: seq<Resource>, an: uint16, ns: uint16,
                      ar: uint16)
    requires |qs| < 0x1_0000 && (an + ns + ar) % 0x1_0000 == |xs|
    requires forall i :: 0 <= i < |qs| ==> Readable(qs[i].name)
    requires forall i :: 0 <= i < |xs| ==> Valid(xs[i])
    ensures ParsePacket(MessageBytes(id, flags, qs, xs, an, ns, ar)) == AllTaught(xs, Nothing())
  {
    var data := MessageBytes(id, flags, qs, xs, an, ns, ar);
    var end := 12 + |AllQuestions(qs)|;
    CountsRead(data, id, flags, |qs|, an, ns, ar, AllQuestions(qs) + AllBytes(xs));
    AtParts(data, 12, AllQuestions(qs), AllBytes(xs), end);
    QuestionsSkipped(data, 12, qs, end);
    BytesCarried(data, end, xs, MessageOf(data));
    CarriedParsed(MessageOf(data), end, xs, Nothing());
    MessageForm(data, 12, end, |qs|, an, ns, ar, |xs|, AllTaught(xs, Nothing()));
  }

  lemma MessageForm(data: bytes, o: nat, end: nat, n: nat, an: nat, ns: nat, ar: nat, total: nat, known: Records)
    requires |data| >= o == 12 && U16At(data, 4) == n && SkipQuestions(data, o, n) == Offset(end)
    requires U16At(data, 6) == an && U16At(data, 8) == ns && U16At(data, 10) == ar
    requires (an + ns + ar) % 0x1_0000 == total && ParseRecords(MessageOf(data), end, total, Nothing()) == known
    ensures ParsePacket(data) == known
  {
    CountedForm(data, o, end, n, total, known);
  }

  lemma CountedForm(data: bytes, o: nat, end: nat, n: nat, total: nat, known: Records)
    requires |data| >= o == 12 && U16At(data, 4) == n && SkipQuestions(data, o, n) == Offset(end)
    requires (U16At(data, 6) + U16At(data, 8) + U16At(data, 10)) % 0x1_0000 == total
    requires ParseRecords(MessageOf(data), end, total, Nothing()) == known
    ensures ParsePacket(data) == known
  {
  }

  // ---------- messages that break off ----------

  // A name that breaks off is not read.
  lemma {:induction false} LabelsBroken(data: bytes, o: nat, labels: seq<bytes>, k: nat, guard: nat)
    requires forall i :: 0 <= i < |labels| ==> 1 <= |labels[i]| <= 63
    requires |data| == o + k && k < |LabelBytes(labels) + [0]| && data[o..] == (LabelBytes(labels) + [0])[..k]
    ensures ReadNameAt(data, o, guard) == Fail
    decreases |labels|
  {
    if labels == [] {
      assert LabelBytes(labels) + [0] == [0];
    } else if k > 0 && guard > 0 {
      var word, rest := labels[0], labels[1..];
      var all, tail := LabelBytes(labels) + [0], LabelBytes(rest) + [0];
      assert all == [|word|] + word + tail;
      assert data[o] == data[o..][0] == all[0] == |word|;
      if k > |word| {
        var q, m := o + 1 + |word|, k - 1 - |word|;
        assert data[q..] == data[o..][1 + |word|..] == all[..k][1 + |word|..] == tail[..m];
        assert forall i :: 0 <= i < |rest| ==> rest[i] == labels[i + 1];
        LabelsBroken(data, q, rest, m, guard - 1);
      }
    }
  }

  lemma NameBroken(data: bytes, o: nat, name: bytes, k: nat, guard: nat)
    requires |data| == o + k && k < |PutName(name)| && data[o..] == PutName(name)[..k]
    ensures ReadNameAt(data, o, guard) == Fail
  {
    LabelsBroken(data, o, Kept(Split(name)), k, guard);
  }

  // Nor is a record that breaks off, in its name, its fixed part or its RDATA.
  lemma ResourceBroken(data: bytes, o: nat, x: Resource, k: nat)
    requires Valid(x) && |data| == o + k && k < |ResourceBytes(x)| && data[o..] == ResourceBytes(x)[..k]
    ensures ReadHead(data, o) == NoHead
  {
    var name, rdata := PutName(x.name), PayloadBytes(x.payload);
    var p := o + |name|;
    if k < |name| {
      assert ResourceBytes(x)[..k] == name[..k];
      NameBroken(data, o, x.name, k, MAX_STEPS);
    } else {
      assert data[o..p] == data[o..][..|name|] == ResourceBytes(x)[..k][..|name|] == name;
      NameRead(data, o, x.name, p);
      if k >= |name| + 10 {
        LengthSeen(data, o, x, k, p);
      }
    }
  }

  lemma LengthSeen(data: bytes, o: nat, x: Resource, k: nat, p: nat)
    requires Valid(x) && |data| == o + k && |PutName(x.name)| + 10 <= k < |ResourceBytes(x)|
    requires p == o + |PutName(x.name)|
    requires data[o..] == ResourceBytes(x)[..k]
    ensures U16At(data, p + 8) == |PayloadBytes(x.payload)|
    ensures |ResourceBytes(x)| == |PutName(x.name)| + 10 + |PayloadBytes(x.payload)|
  {
    var all, n := ResourceBytes(x), |PutName(x.name)|;
    LengthWritten(x, n, |PayloadBytes(x.payload)|);
    assert data[p + 8] == data[o..][n + 8] == all[n + 8];
    assert data[p + 9] == data[o..][n + 9] == all[n + 9];
  }

  lemma LengthWritten(x: Resource, n: nat, size: nat)
    requires n == |PutName(x.name)| && size == |PayloadBytes(x.payload)|
    ensures |ResourceBytes(x)| == n + 10 + size
    ensures ResourceBytes(x)[n + 8] == size / 256 % 256 && ResourceBytes(x)[n + 9] == size % 256
  {
  }

  // The message holds these records from o on, and none behind them.
  ghost predicate Breaks(m: Message, o: nat, xs: seq<Resource>)
    decreases |xs|
  {
    var h := m.head(o);
    if xs == [] then h.NoHead?
    else h.Head? && (forall known :: m.learn(h, known) == Taught(xs[0], known)) && Breaks(m, h.start + h.rdlen, xs[1..])
  }

  lemma {:induction false} BreaksParsed(m: Message, o: nat, xs: seq<Resource>, n: nat, known: Records)
    requires Breaks(m, o, xs) && |xs| < n
    ensures ParseRecords(m, o, n, known) == AllTaught(xs, known)
    decreases |xs|
  {
    if xs != [] {
      var h := m.head(o);
      assert m.learn(h, known) == Taught(xs[0], known);
      BreaksParsed(m, h.start + h.rdlen, xs[1..], n - 1, Taught(xs[0], known));
    }
  }

  lemma {:induction false} BytesBreak(data: bytes, o: nat, xs: seq<Resource>, y: Resource, part: bytes, m: Message)
    requires (forall i :: 0 <= i < |xs| ==> Valid(xs[i])) && Valid(y) && m == MessageOf(data)
    requires |part| < |ResourceBytes(y)| && part == ResourceBytes(y)[..|part|]
    requires o <= |data| && data[o..] == AllBytes(xs) + part
    ensures Breaks(m, o, xs)
    decreases |xs|
  {
    if xs == [] {
      assert data[o..] == part;
      ResourceBroken(data, o, y, |part|);
    } else {
      var x, rest := xs[0], xs[1..];
      var start := o + |PutName(x.name)| + 10;
      var next := start + |PayloadBytes(x.payload)|;
      FirstBroken(data, o, x, AllBytes(rest), part, start, next, m);
      assert forall i :: 0 <= i < |rest| ==> rest[i] == xs[i + 1];
      BytesBreak(data, next, rest, y, part, m);
      BreakStep(m, o, xs, m.head(o), next, rest);
    }
  }

  lemma BreakStep(m: Message, o: nat, xs: seq<Resource>, h: Head, next: nat, rest: seq<Resource>)
    requires xs != [] && m.head(o) == h && h.Head? && next == h.start + h.rdlen && rest == xs[1..]
    requires (forall known :: m.learn(h, known) == Taught(xs[0], known)) && Breaks(m, next, rest)
    ensures Breaks(m, o, xs)
  {
  }

  lemma FirstBroken(data: bytes, o: nat, x: Resource, tail: bytes, part: bytes, start: nat, next: nat, m: Message)
    requires Valid(x) && o <= |data| && data[o..] == ResourceBytes(x) + tail + part && m == MessageOf(data)
    requires start == o + |PutName(x.name)| + 10 && next == start + |PayloadBytes(x.payload)|
    ensures m.head(o) == Head(x.name, Type(x.payload), |PayloadBytes(x.payload)|, start)
    ensures forall known :: m.learn(m.head(o), known) == Taught(x, known)
    ensures next <= |data| && data[next..] == tail + part
  {
    var all := ResourceBytes(x) + (tail + part);
    assert data[o..] == all;
    assert data[o..o + |all|] == all;
    FirstCarried(data, o, x, tail + part, start, next, m);
    assert |data| == next + |tail + part|;
    assert data[next..next + |tail + part|] == data[next..];
  }

  // A message that breaks off within a record is parsed up to the record before it.
  lemma BrokenParsed(id: uint16, flags: uint16, qs: seq<Question>, xs: seq<Resource>, y: Resource, k: nat, an: uint16,
                     ns: uint16, ar: uint16, data: bytes)
    requires |qs| < 0x1_0000 && |xs| < (an + ns + ar) % 0x1_0000 && Valid(y) && k < |ResourceBytes(y)|
    requires forall i :: 0 <= i < |qs| ==> Readable(qs[i].name)
    requires forall i :: 0 <= i < |xs| ==> Valid(xs[i])
    requires data == MessageBytes(id, flags, qs, xs, an, ns, ar) + ResourceBytes(y)[..k]
    ensures ParsePacket(data) == AllTaught(xs, Nothing())
  {
    var end, n := 12 + |AllQuestions(qs)|, (an + ns + ar) % 0x1_0000;
    var part := ResourceBytes(y)[..k];
    var rest := AllQuestions(qs) + (AllBytes(xs) + part);
    MessageSplit(data, id, flags, qs, xs, an, ns, ar, part, rest);
    CountsRead(data, id, flags, |qs|, an, ns, ar, rest);
    BehindQuestions(data, qs, AllBytes(xs) + part, end);
    BytesBreak(data, end, xs, y, part, MessageOf(data));
    BreaksParsed(MessageOf(data), end, xs, n, Nothing());
    MessageForm(data, 12, end, |qs|, an, ns, ar, n, AllTaught(xs, Nothing()));
  }

  lemma BehindQuestions(data: bytes, qs: seq<Question>, rest: bytes, end: nat)
    requires (forall i :: 0 <= i < |qs| ==> Readable(qs[i].name)) && end == 12 + |AllQuestions(qs)|
    requires |data| == end + |rest| && At(data, 12, AllQuestions(qs) + rest)
    ensures SkipQuestions(data, 12, |qs|) == Offset(end) && data[end..] == rest
  {
    AtParts(data, 12, AllQuestions(qs), rest, end);
    QuestionsSkipped(data, 12, qs, end);
    assert data[end..end + |rest|] == data[end..];
  }

  lemma MessageSplit(data: bytes, id: uint16, flags: uint16, qs: seq<Question>, xs: seq<Resource>, an: uint16,
                     ns: uint16, ar: uint16, part: bytes, rest: bytes)
    requires |qs| < 0x1_0000 && data == MessageBytes(id, flags, qs, xs, an, ns, ar) + part
    requires rest == AllQuestions(qs) + (AllBytes(xs) + part)
    ensures data == StartBytes(id, flags, |qs|, an, ns, ar) + rest
  {
    Regroup(StartBytes(id, flags, |qs|, an, ns, ar), AllQuestions(qs), AllBytes(xs), part);
  }

  lemma Regroup(a: bytes, b: bytes, c: bytes, d: bytes)
    ensures (a + (b + c)) + d == a + (b + (c + d))
  {
  }

  // ---------- character strings ----------

  datatype Texts = Malformed | Texts(strings: seq<bytes>)

  function OneMore(s: bytes, t: Texts): Texts {
    if t.Malformed? then t else Texts([s] + t.strings)
  }

  // A length byte and as many bytes, to the end.
  function Strings(rdata: bytes): Texts
    decreases |rdata|
  {
    if rdata == [] then Texts([])
    else
      var n: int := rdata[0];
      var end := 1 + n;
      if end > |rdata| then Malformed else OneMore(rdata[1..end], Strings(rdata[end..]))
  }

  function Flat(parts: seq<seq<bytes>>): seq<bytes> {
    if parts == [] then [] else parts[0] + Flat(parts[1..])
  }

  function Together(strings: seq<bytes>): bytes {
    if strings == [] then [] else strings[0] + Together(strings[1..])
  }

  // An item cut into strings of 255 bytes and a last one, which is empty only if the item is.
  ghost predicate Cut(item: bytes, strings: seq<bytes>) {
    && strings != [] && Together(strings) == item
    && (forall i :: 0 <= i < |strings| - 1 ==> |strings[i]| == 255)
    && |strings[|strings| - 1]| <= 255 && (item != [] ==> strings[|strings| - 1] != [])
  }

  ghost predicate AllCut(items: seq<bytes>, parts: seq<seq<bytes>>) {
    |parts| == |items| && forall i :: 0 <= i < |items| ==> Cut(items[i], parts[i])
  }

  lemma FirstString(s: bytes, rest: bytes)
    requires |s| <= 255
    ensures Strings([|s|] + s + rest) == OneMore(s, Strings(rest))
  {
    var all := [|s|] + s + rest;
    assert all[1..1 + |s|] == s && all[1 + |s|..] == rest;
  }

  function MoreTexts(a: seq<bytes>, t: Texts): Texts {
    if t.Malformed? then t else Texts(a + t.strings)
  }

  lemma {:induction false} ItemRead(item: bytes, rest: bytes) returns (strings: seq<bytes>)
    ensures Cut(item, strings) && Strings(TxtItem(item) + rest) == MoreTexts(strings, Strings(rest))
    decreases |item|
  {
    if |item| <= 255 {
      strings := [item];
      WholeItem(item, rest);
    } else {
      var first, tail := item[..255], item[255..];
      var more := ItemRead(tail, rest);
      strings := [first] + more;
      FirstChunk(first, TxtItem(tail), rest, TxtItem(item), more);
      CutMore(item, first, tail, more);
    }
  }

  lemma WholeItem(item: bytes, rest: bytes)
    requires |item| <= 255
    ensures Cut(item, [item]) && Strings(TxtItem(item) + rest) == MoreTexts([item], Strings(rest))
  {
    FirstString(item, rest);
    assert [item][1..] == [] && item + [] == item;
    assert Together([item]) == item + Together([]);
  }

  lemma FirstChunk(first: bytes, tail: bytes, rest: bytes, all: bytes, more: seq<bytes>)
    requires |first| == 255 && all == [255] + first + tail && Strings(tail + rest) == MoreTexts(more, Strings(rest))
    ensures Strings(all + rest) == MoreTexts([first] + more, Strings(rest))
  {
    FirstString(first, tail + rest);
    Assoc([|first|] + first, tail, rest);
    MoreAgain(first, more, Strings(rest));
  }

  lemma MoreAgain(first: bytes, more: seq<bytes>, t: Texts)
    ensures OneMore(first, MoreTexts(more, t)) == MoreTexts([first] + more, t)
  {
    if t.Texts? {
      assert [first] + (more + t.strings) == [first] + more + t.strings;
    }
  }

  lemma CutMore(item: bytes, first: bytes, tail: bytes, more: seq<bytes>)
    requires item == first + tail && |first| == 255 && tail != [] && Cut(tail, more)
    ensures Cut(item, [first] + more)
  {
    var strings := [first] + more;
    assert strings[1..] == more;
    assert strings[|strings| - 1] == more[|more| - 1];
  }

  lemma {:induction false} ItemsRead(items: seq<bytes>) returns (parts: seq<seq<bytes>>)
    ensures AllCut(items, parts) && Strings(TxtItems(items)) == Texts(Flat(parts))
    decreases |items|
  {
    if items == [] {
      parts := [];
    } else {
      var more := ItemsRead(items[1..]);
      var strings := ItemRead(items[0], TxtItems(items[1..]));
      parts := [strings] + more;
      assert parts[1..] == more;
      assert forall i :: 1 <= i < |items| ==> items[i] == items[1..][i - 1] && parts[i] == more[i - 1];
    }
  }

  // The strings of a TXT record: every item whole, or one empty string for none.
  lemma TxtRead(items: seq<bytes>) returns (parts: seq<seq<bytes>>)
    ensures items == [] ==> Strings(EncodeTxt(items)) == Texts([[]])
    ensures items != [] ==> AllCut(items, parts) && Strings(EncodeTxt(items)) == Texts(Flat(parts))
  {
    parts := ItemsRead(items);
    if items == [] {
      FirstString([], []);
      assert [0] + [] + [] == [0];
    }
  }

  lemma {:induction false} OnePart(items: seq<bytes>, parts: seq<seq<bytes>>)
    requires AllCut(items, parts) && forall i :: 0 <= i < |items| ==> |items[i]| <= 255
    ensures Flat(parts) == items
    decreases |items|
  {
    if items != [] {
      ShortCut(items[0], parts[0]);
      assert forall i :: 0 <= i < |items| - 1 ==> items[1..][i] == items[i + 1] && parts[1..][i] == parts[i + 1];
      OnePart(items[1..], parts[1..]);
      assert items == [items[0]] + items[1..];
    }
  }

  lemma ShortCut(item: bytes, strings: seq<bytes>)
    requires Cut(item, strings) && |item| <= 255
    ensures strings == [item]
  {
    if |strings| > 1 {
      assert |strings[0]| == 255 && Together(strings) == strings[0] + Together(strings[1..]);
      NotEmpty(strings[1..]);
    } else {
      assert strings[1..] == [] && strings == [strings[0]];
      assert Together(strings) == strings[0] + Together([]) == strings[0];
    }
  }

  lemma {:induction false} NotEmpty(strings: seq<bytes>)
    requires strings != [] && strings[|strings| - 1] != []
    ensures Together(strings) != []
    decreases |strings|
  {
    if |strings| > 1 {
      NotEmpty(strings[1..]);
    }
  }

  // Items of at most 255 bytes come back as they are.
  lemma ShortItemsRead(items: seq<bytes>)
    requires items != [] && forall i :: 0 <= i < |items| ==> |items[i]| <= 255
    ensures Strings(EncodeTxt(items)) == Texts(items)
  {
    var parts := TxtRead(items);
    OnePart(items, parts);
  }
}
