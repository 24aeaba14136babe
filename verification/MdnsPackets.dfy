/**
 The responses of the advertiser and what the DACP client's parser recovers from them.
 */
module MdnsPackets {
  import opened Words
  import opened Slices
  import opened DnsNames

  const PTR: uint16 := 12
  const SRV: uint16 := 33
  const TXT: uint16 := 16
  const ADDRESS: uint16 := 1
  const CLASS_IN: uint16 := 0x0001
  const CLASS_FLUSH: uint16 := 0x8001

  // ---------- writing ----------

  function HeadBytes(name: bytes, kind: uint16, klass: uint16, ttl: nat): (b: bytes)
    ensures |b| == |PutName(name)| + 8
  {
    PutName(name) + (Be16(kind) + (Be16(klass) + Be32(ttl)))
  }

  // A resource record (section 3.2.1 of RFC 1035), its RDLENGTH that of its RDATA.
  function RecordBytes(name: bytes, kind: uint16, klass: uint16, ttl: nat, rdata: bytes): (b: bytes)
    ensures |b| == |PutName(name)| + 10 + |rdata|
  {
    HeadBytes(name, kind, klass, ttl) + (Be16(|rdata|) + rdata)
  }

  // Chunks of up to 255 bytes, at least one an item.
  function TxtItem(item: bytes): (b: bytes)
    decreases |item|
  {
    if |item| <= 255 then [|item|] + item else [255] + item[..255] + TxtItem(item[255..])
  }

  function TxtItems(items: seq<bytes>): bytes {
    if items == [] then [] else TxtItem(items[0]) + TxtItems(items[1..])
  }

  // encode_txt
  function EncodeTxt(items: seq<bytes>): bytes {
    if items == [] then [0] else TxtItems(items)
  }

  datatype Record =
    | Ptr(service: bytes, instance: bytes)
    | Srv(instance: bytes, host: bytes, port: uint16)
    | Txt(instance: bytes, items: seq<bytes>)
    | Address(host: bytes, ip: bytes)

  function Owner(r: Record): bytes {
    match r
    case Ptr(service, _) => service
    case Srv(instance, _, _) => instance
    case Txt(instance, _) => instance
    case Address(host, _) => host
  }

  function Kind(r: Record): uint16 {
    match r
    case Ptr(_, _) => PTR
    case Srv(_, _, _) => SRV
    case Txt(_, _) => TXT
    case Address(_, _) => ADDRESS
  }

  function Class(r: Record): uint16 {
    if r.Ptr? then CLASS_IN else CLASS_FLUSH
  }

  function Rdata(r: Record): bytes {
    match r
    case Ptr(_, instance) => PutName(instance)
    case Srv(_, host, port) => Be16(0) + Be16(0) + Be16(port) + PutName(host)
    case Txt(_, items) => EncodeTxt(items)
    case Address(_, ip) => ip
  }

  function Written(r: Record, ttl: nat): bytes {
    RecordBytes(Owner(r), Kind(r), Class(r), ttl, Rdata(r))
  }

  function AllWritten(rs: seq<Record>, ttl: nat): bytes {
    if rs == [] then [] else Written(rs[0], ttl) + AllWritten(rs[1..], ttl)
  }

  // The header of a response with the given number of answers.
  function HeaderBytes(answers: nat): (b: bytes)
    ensures |b| == 12
  {
    Be16(0) + Be16(0x8400) + Be16(0) + Be16(answers) + Be16(0) + Be16(0)
  }

  function Response(rs: seq<Record>, ttl: nat): bytes {
    HeaderBytes(|rs|) + AllWritten(rs, ttl)
  }

  // ---------- parsing ----------

  datatype Records = Records(ptrs: seq<bytes>, srv: map<bytes, (bytes, nat)>, hosts: map<bytes, bytes>)

  function U16At(data: bytes, o: nat): nat
    requires o + 2 <= |data|
  {
    var high: int, low: int := data[o], data[o + 1];
    256 * high + low
  }

  datatype Head = NoHead | Head(name: bytes, kind: nat, rdlen: nat, start: nat)

  // Owner, type and RDLENGTH of the record at o, and where its RDATA starts; class and TTL are read past.
  function ReadHead(data: bytes, o: nat): Head {
    var n := ReadNameAt(data, o, MAX_STEPS);
    if n.Fail? || n.next + 10 > |data| then NoHead
    else
      var rdlen := U16At(data, n.next + 8);
      if n.next + 10 + rdlen > |data| then NoHead
      else Head(Join(n.labels), U16At(data, n.next), rdlen, n.next + 10)
  }

  // What is known after a record whose head was read.
  function Learn(data: bytes, h: Head, known: Records): Records {
    if h.NoHead? || h.start + h.rdlen > |data| then known
    else if h.kind == PTR then
      var n := ReadNameAt(data, h.start, MAX_STEPS);
      if n.Name? then known.(ptrs := known.ptrs + [Join(n.labels)]) else known
    else if h.kind == SRV && h.rdlen >= 6 then
      var n := ReadNameAt(data, h.start + 6, MAX_STEPS);
      if n.Name? then known.(srv := known.srv[h.name := (Join(n.labels), U16At(data, h.start + 4))]) else known
    else if h.kind == ADDRESS && h.rdlen == 4 then
      known.(hosts := known.hosts[h.name := data[h.start..h.start + 4]])
    else known
  }

  // A message as its record heads and what each teaches, apart from the bytes.
  datatype Message = Message(head: nat -> Head, learn: (Head, Records) -> Records)

  function MessageOf(data: bytes): Message {
    Message((o: nat) => ReadHead(data, o), (h: Head, known: Records) => Learn(data, h, known))
  }

  // Up to `count` records from o on, stopping at the first that cannot be read.
  function ParseRecords(m: Message, o: nat, count: nat, known: Records): Records
    decreases count, o
  {
    if count == 0 then known
    else
      var h := m.head(o);
      if h.NoHead? then known else ParseRecords(m, h.start + h.rdlen, count - 1, m.learn(h, known))
  }

  datatype Offset = Nowhere | Offset(o: nat)

  // Past `count` questions.
  function SkipQuestions(data: bytes, o: nat, count: nat): Offset
    decreases count, o
  {
    if count == 0 then Offset(o)
    else
      var n := ReadNameAt(data, o, MAX_STEPS);
      if n.Fail? || n.next + 4 > |data| then Nowhere else SkipQuestions(data, n.next + 4, count - 1)
  }

  function Nothing(): Records {
    Records([], map[], map[])
  }

  // parse_mdns_packet; the three record counts are added in 16 bits.
  function ParsePacket(data: bytes): Records {
    if |data| < 12 then Nothing()
    else
      var count := (U16At(data, 6) + U16At(data, 8) + U16At(data, 10)) % 0x1_0000;
      match SkipQuestions(data, 12, U16At(data, 4))
      case Nowhere => Nothing()
      case Offset(o) => ParseRecords(MessageOf(data), o, count, Nothing())
  }

  // ---------- what is recovered ----------

  // A name both normal and short enough for the parser's steps.
  ghost predicate Readable(name: bytes) {
    Normal(name) && |Split(name)| < MAX_STEPS
  }

  // RDATA in range of RDLENGTH, names readable, addresses of four bytes.
  ghost predicate InRange(r: Record) {
    && |Rdata(r)| < 0x1_0000 && Readable(Owner(r))
    && match r
       case Ptr(_, instance) => Readable(instance)
       case Srv(_, host, _) => Readable(host)
       case Txt(_, _) => true
       case Address(_, ip) => |ip| == 4
  }

  // What a record adds to what is known.
  function Known(r: Record, known: Records): Records {
    match r
    case Ptr(_, instance) => known.(ptrs := known.ptrs + [instance])
    case Srv(instance, host, port) => known.(srv := known.srv[instance := (host, port)])
    case Txt(_, _) => known
    case Address(host, ip) => known.(hosts := known.hosts[host := ip])
  }

  function AllKnown(rs: seq<Record>, known: Records): Records {
    if rs == [] then known else AllKnown(rs[1..], Known(rs[0], known))
  }

  lemma U16Read(data: bytes, o: nat, v: int)
    requires 0 <= v < 0x1_0000 && At(data, o, Be16(v))
    ensures U16At(data, o) == v
  {
    var b := data[o..o + 2];
    assert data[o] == b[0] && data[o + 1] == b[1];
  }

  lemma NameRead(data: bytes, o: nat, name: bytes, q: nat)
    requires Readable(name) && At(data, o, PutName(name)) && q == o + |PutName(name)|
    ensures ReadNameAt(data, o, MAX_STEPS).Name? && ReadNameAt(data, o, MAX_STEPS).next == q
    ensures Join(ReadNameAt(data, o, MAX_STEPS).labels) == name
  {
    NameReadBack(data, o, name, 0, MAX_STEPS);
    KeptNormal(Split(name));
  }

  lemma FixedRead(data: bytes, o: nat, kind: uint16, klass: uint16, ttl: nat, rdata: bytes, p: nat, q: nat)
    requires |rdata| < 0x1_0000 && p == o + 8 && q == p + 2
    requires At(data, o, Be16(kind) + (Be16(klass) + Be32(ttl)) + (Be16(|rdata|) + rdata))
    ensures U16At(data, o) == kind && q <= |data| && U16At(data, p) == |rdata| && At(data, q, rdata)
  {
    AtParts(data, o, Be16(kind) + (Be16(klass) + Be32(ttl)), Be16(|rdata|) + rdata, p);
    AtParts(data, o, Be16(kind), Be16(klass) + Be32(ttl), o + 2);
    AtParts(data, p, Be16(|rdata|), rdata, q);
    U16Read(data, o, kind);
    U16Read(data, p, |rdata|);
  }

  lemma HeadForm(data: bytes, o: nat, name: bytes, p: nat, kind: nat, rdlen: nat, q: nat, start: nat)
    requires ReadNameAt(data, o, MAX_STEPS).Name? && ReadNameAt(data, o, MAX_STEPS).next == p
    requires Join(ReadNameAt(data, o, MAX_STEPS).labels) == name
    requires q == p + 8 && start == q + 2 && start + rdlen <= |data|
    requires U16At(data, p) == kind && U16At(data, q) == rdlen
    ensures ReadHead(data, o) == Head(name, kind, rdlen, start)
  {
  }

  lemma RecordSplit(name: bytes, kind: uint16, klass: uint16, ttl: nat, rdata: bytes, rest: bytes, tail: bytes)
    requires rest == Be16(kind) + (Be16(klass) + Be32(ttl)) && tail == Be16(|rdata|) + rdata
    ensures RecordBytes(name, kind, klass, ttl, rdata) == PutName(name) + (rest + tail)
  {
  }

  // The head of a written record, its RDLENGTH the size of its RDATA.
  lemma HeadRead(data: bytes, o: nat, name: bytes, kind: uint16, klass: uint16, ttl: nat, rdata: bytes, start: nat)
    requires Readable(name) && |rdata| < 0x1_0000 && At(data, o, RecordBytes(name, kind, klass, ttl, rdata))
    requires start == o + |PutName(name)| + 10
    ensures ReadHead(data, o) == Head(name, kind, |rdata|, start) && At(data, start, rdata)
  {
    var rest := Be16(kind) + (Be16(klass) + Be32(ttl));
    var tail := Be16(|rdata|) + rdata;
    var p, q := o + |PutName(name)|, o + |PutName(name)| + 8;
    RecordSplit(name, kind, klass, ttl, rdata, rest, tail);
    AtParts(data, o, PutName(name), rest + tail, p);
    NameRead(data, o, name, p);
    FixedRead(data, p, kind, klass, ttl, rdata, q, start);
    HeadForm(data, o, name, p, kind, |rdata|, q, start);
  }

  // Port and host of a service record.
  lemma ServiceRead(data: bytes, start: nat, host: bytes, port: uint16, p: nat, q: nat)
    requires Readable(host) && p == start + 4 && q == p + 2
    requires At(data, start, Be16(0) + Be16(0) + Be16(port) + PutName(host))
    ensures At(data, p, Be16(port)) && U16At(data, p) == port && q <= |data|
    ensures ReadNameAt(data, q, MAX_STEPS).Name? && Join(ReadNameAt(data, q, MAX_STEPS).labels) == host
  {
    AtParts(data, start, Be16(0) + Be16(0) + Be16(port), PutName(host), q);
    AtParts(data, start, Be16(0) + Be16(0), Be16(port), p);
    U16Read(data, p, port);
    NameRead(data, q, host, q + |PutName(host)|);
  }

  // A written record teaches the parser just what it says.
  lemma Learned(data: bytes, r: Record, start: nat, known: Records)
    requires InRange(r) && At(data, start, Rdata(r))
    ensures Learn(data, Head(Owner(r), Kind(r), |Rdata(r)|, start), known) == Known(r, known)
  {
    match r
    case Ptr(_, instance) => NameRead(data, start, instance, start + |PutName(instance)|);
    case Srv(_, host, port) => ServiceRead(data, start, host, port, start + 4, start + 6);
    case Txt(_, _) =>
    case Address(_, ip) =>
  }

  // The message holds these records from o on, each teaching what it says.
  ghost predicate Holds(m: Message, o: nat, rs: seq<Record>)
    decreases |rs|
  {
    rs == [] ||
    (var h := m.head(o);
     h.Head? && (forall known :: m.learn(h, known) == Known(rs[0], known)) && Holds(m, h.start + h.rdlen, rs[1..]))
  }

  lemma {:induction false} HeldParsed(m: Message, o: nat, rs: seq<Record>, known: Records)
    requires Holds(m, o, rs)
    ensures ParseRecords(m, o, |rs|, known) == AllKnown(rs, known)
    decreases |rs|
  {
    if rs != [] {
      var h := m.head(o);
      assert m.learn(h, known) == Known(rs[0], known);
      HeldParsed(m, h.start + h.rdlen, rs[1..], Known(rs[0], known));
    }
  }

  lemma {:induction false} WrittenHeld(data: bytes, o: nat, rs: seq<Record>, ttl: nat, m: Message)
    requires (forall i :: 0 <= i < |rs| ==> InRange(rs[i])) && At(data, o, AllWritten(rs, ttl)) && m == MessageOf(data)
    ensures Holds(m, o, rs)
    decreases |rs|
  {
    if rs != [] {
      var r, rest := rs[0], rs[1..];
      var start := o + |PutName(Owner(r))| + 10;
      var next := start + |Rdata(r)|;
      var h := Head(Owner(r), Kind(r), |Rdata(r)|, start);
      var tail := AllWritten(rest, ttl);
      RecordRead(data, o, r, ttl, tail, start, next, h);
      MessageFacts(data, m, o, h, r);
      assert forall i :: 0 <= i < |rest| ==> rest[i] == rs[i + 1];
      WrittenHeld(data, next, rest, ttl, m);
      HeldStep(m, o, rs, h, next, rest);
    }
  }

  lemma MessageFacts(data: bytes, m: Message, o: nat, h: Head, r: Record)
    requires m == MessageOf(data) && ReadHead(data, o) == h && forall known :: Learn(data, h, known) == Known(r, known)
    ensures m.head(o) == h && forall known :: m.learn(h, known) == Known(r, known)
  {
  }

  lemma HeldStep(m: Message, o: nat, rs: seq<Record>, h: Head, next: nat, rest: seq<Record>)
    requires rs != [] && m.head(o) == h && h.Head? && next == h.start + h.rdlen && rest == rs[1..]
    requires (forall known :: m.learn(h, known) == Known(rs[0], known)) && Holds(m, next, rest)
    ensures Holds(m, o, rs)
  {
  }

  lemma RecordRead(data: bytes, o: nat, r: Record, ttl: nat, tail: bytes, start: nat, next: nat, h: Head)
    requires InRange(r) && At(data, o, Written(r, ttl) + tail) && start == o + |PutName(Owner(r))| + 10
    requires next == start + |Rdata(r)| && h == Head(Owner(r), Kind(r), |Rdata(r)|, start)
    ensures ReadHead(data, o) == h && At(data, next, tail)
    ensures forall known :: Learn(data, h, known) == Known(r, known)
  {
    AtParts(data, o, Written(r, ttl), tail, next);
    HeadRead(data, o, Owner(r), Kind(r), Class(r), ttl, Rdata(r), start);
    forall known
      ensures Learn(data, h, known) == Known(r, known)
    {
      Learned(data, r, start, known);
    }
  }

  lemma HeaderRead(data: bytes, answers: nat, rest: bytes)
    requires answers < 0x1_0000 && data == HeaderBytes(answers) + rest
    ensures U16At(data, 4) == 0 && U16At(data, 6) == answers && U16At(data, 8) == 0 && U16At(data, 10) == 0
    ensures At(data, 12, rest)
  {
    var b := HeaderBytes(answers);
    assert forall i :: 0 <= i < 12 ==> data[i] == b[i];
    assert U16At(data, 6) == answers;
  }

  lemma PacketForm(data: bytes, answers: nat, known: Records)
    requires |data| >= 12 && answers < 0x1_0000
    requires U16At(data, 4) == 0 && U16At(data, 6) == answers && U16At(data, 8) == 0 && U16At(data, 10) == 0
    requires ParseRecords(MessageOf(data), 12, answers, Nothing()) == known
    ensures ParsePacket(data) == known
  {
    assert SkipQuestions(data, 12, 0) == Offset(12);
    assert (answers + 0 + 0) % 0x1_0000 == answers;
  }

  // A response of any records in range is recovered record by record.
  lemma ResponseParsed(rs: seq<Record>, ttl: nat)
    requires |rs| < 0x1_0000 && forall i :: 0 <= i < |rs| ==> InRange(rs[i])
    ensures ParsePacket(Response(rs, ttl)) == AllKnown(rs, Nothing())
  {
    var data := Response(rs, ttl);
    HeaderRead(data, |rs|, AllWritten(rs, ttl));
    WrittenHeld(data, 12, rs, ttl, MessageOf(data));
    HeldParsed(MessageOf(data), 12, rs, Nothing());
    PacketForm(data, |rs|, AllKnown(rs, Nothing()));
  }

  // ---------- the advertiser's response ----------

  const RAOP: bytes := [95, 114, 97, 111, 112]
  const AIRPLAY: bytes := [95, 97, 105, 114, 112, 108, 97, 121]
  const TCP: bytes := [95, 116, 99, 112]
  const LOCAL: bytes := [108, 111, 99, 97, 108]

  // "_raop._tcp.local" and "_airplay._tcp.local"
  const RAOP_TYPE: bytes := RAOP + [DOT] + (TCP + [DOT] + LOCAL)
  const AIRPLAY_TYPE: bytes := AIRPLAY + [DOT] + (TCP + [DOT] + LOCAL)

  // What build_response_packet advertises.
  datatype Service = Service(raop: bytes, airplay: bytes, host: bytes, port: uint16, raopTxt: seq<bytes>,
                             airplayTxt: seq<bytes>, ips: seq<bytes>)

  function Addresses(host: bytes, ips: seq<bytes>): (rs: seq<Record>)
    ensures |rs| == |ips|
  {
    seq(|ips|, (i: nat) requires i < |ips| => Address(host, ips[i]))
  }

  function Fixed(s: Service): (rs: seq<Record>)
    ensures |rs| == 6
  {
    [Ptr(RAOP_TYPE, s.raop), Ptr(AIRPLAY_TYPE, s.airplay), Srv(s.raop, s.host, s.port), Txt(s.raop, s.raopTxt),
     Srv(s.airplay, s.host, s.port), Txt(s.airplay, s.airplayTxt)]
  }

  function RecordsOf(s: Service): (rs: seq<Record>)
    ensures |rs| == 6 + |s.ips|
  {
    Fixed(s) + Addresses(s.host, s.ips)
  }

  ghost predicate Advertisable(s: Service) {
    && Readable(s.raop) && Readable(s.airplay) && Readable(s.host) && |s.ips| < 0x1_0000 - 6
    && |PutName(s.raop)| < 0x1_0000 && |PutName(s.airplay)| < 0x1_0000 && |PutName(s.host)| < 0x1_0000 - 6
    && |EncodeTxt(s.raopTxt)| < 0x1_0000 && |EncodeTxt(s.airplayTxt)| < 0x1_0000
    && forall i :: 0 <= i < |s.ips| ==> |s.ips[i]| == 4
  }

  lemma {:induction false} DotIs(name: bytes, d: nat)
    requires d <= |name| && DOT !in name[..d] && (d < |name| ==> name[d] == DOT)
    ensures Dot(name) == d
  {
    if d > 0 {
      assert name[0] == name[..d][0];
      assert name[1..][..d - 1] == name[..d][1..];
      DotIs(name[1..], d - 1);
    }
  }

  lemma SplitDot(a: bytes, rest: bytes)
    requires DOT !in a
    ensures Split(a + [DOT] + rest) == [a] + Split(rest)
  {
    var name := a + [DOT] + rest;
    assert name[..|a|] == a && name[|a| + 1..] == rest;
    DotIs(name, |a|);
  }

  lemma SplitLast(name: bytes)
    requires DOT !in name
    ensures Split(name) == [name]
  {
    assert name[..|name|] == name;
    DotIs(name, |name|);
  }

  lemma TypeLabels(rest: bytes)
    requires rest == TCP + [DOT] + LOCAL
    ensures Split(rest) == [TCP] + [LOCAL]
  {
    assert DOT !in TCP && DOT !in LOCAL;
    SplitDot(TCP, LOCAL);
    SplitLast(LOCAL);
  }

  lemma TypeReadable(first: bytes)
    requires DOT !in first && 1 <= |first| <= MAX_LABEL
    ensures Readable(first + [DOT] + (TCP + [DOT] + LOCAL))
  {
    var rest := TCP + [DOT] + LOCAL;
    TypeLabels(rest);
    SplitDot(first, rest);
    ThreeLabels(first + [DOT] + rest, first, TCP, LOCAL, Split(rest));
  }

  lemma ThreeLabels(name: bytes, a: bytes, b: bytes, c: bytes, tail: seq<bytes>)
    requires Split(name) == [a] + tail && tail == [b] + [c]
    requires 1 <= |a| <= MAX_LABEL && 1 <= |b| <= MAX_LABEL && 1 <= |c| <= MAX_LABEL
    ensures Readable(name)
  {
    assert Split(name) == [a, b, c];
  }

  lemma {:induction false} KnownConcat(a: seq<Record>, b: seq<Record>, known: Records)
    ensures AllKnown(a + b, known) == AllKnown(b, AllKnown(a, known))
    decreases |a|
  {
    if a == [] {
      assert a + b == b;
    } else {
      assert (a + b)[1..] == a[1..] + b;
      KnownConcat(a[1..], b, Known(a[0], known));
    }
  }

  lemma {:induction false} AddressesKnown(host: bytes, ips: seq<bytes>, known: Records)
    ensures AllKnown(Addresses(host, ips), known)
            == if ips == [] then known else known.(hosts := known.hosts[host := ips[|ips| - 1]])
    decreases |ips|
  {
    if ips != [] {
      assert Addresses(host, ips)[1..] == Addresses(host, ips[1..]);
      AddressesKnown(host, ips[1..], Known(Address(host, ips[0]), known));
    }
  }

  lemma FixedKnown(s: Service)
    ensures AllKnown(Fixed(s), Nothing())
            == Records([s.raop, s.airplay], map[s.raop := (s.host, s.port), s.airplay := (s.host, s.port)], map[])
  {
    var rs := Fixed(s);
    var k1 := Known(rs[0], Nothing());
    var k2 := Known(rs[1], k1);
    var k3 := Known(rs[2], k2);
    var k5 := Known(rs[4], k3);
    assert rs[5..][1..] == [];
    assert AllKnown(rs[5..], k5) == k5;
    assert rs[4..][1..] == rs[5..] && rs[3..][1..] == rs[4..] && rs[2..][1..] == rs[3..];
    assert AllKnown(rs[4..], k3) == k5;
    assert AllKnown(rs[3..], k3) == k5;
    assert AllKnown(rs[2..], k2) == k5;
    assert rs[1..][1..] == rs[2..];
    assert AllKnown(rs[1..], k1) == k5;
  }

  lemma PtrInRange(service: bytes, instance: bytes)
    requires Readable(service) && Readable(instance) && |PutName(instance)| < 0x1_0000
    ensures InRange(Ptr(service, instance))
  {
  }

  lemma SrvInRange(instance: bytes, host: bytes, port: uint16)
    requires Readable(instance) && Readable(host) && |PutName(host)| < 0x1_0000 - 6
    ensures InRange(Srv(instance, host, port))
  {
  }

  lemma TxtInRange(instance: bytes, items: seq<bytes>)
    requires Readable(instance) && |EncodeTxt(items)| < 0x1_0000
    ensures InRange(Txt(instance, items))
  {
  }

  lemma FixedInRange(s: Service)
    requires Advertisable(s)
    ensures forall i :: 0 <= i < 6 ==> InRange(Fixed(s)[i])
  {
    TypeReadable(RAOP);
    TypeReadable(AIRPLAY);
    PtrInRange(RAOP_TYPE, s.raop);
    PtrInRange(AIRPLAY_TYPE, s.airplay);
    SrvInRange(s.raop, s.host, s.port);
    SrvInRange(s.airplay, s.host, s.port);
    TxtInRange(s.raop, s.raopTxt);
    TxtInRange(s.airplay, s.airplayTxt);
  }

  lemma AddressInRange(host: bytes, ip: bytes)
    requires Readable(host) && |ip| == 4
    ensures InRange(Address(host, ip))
  {
  }

  lemma RecordsInRange(s: Service, rs: seq<Record>)
    requires Advertisable(s) && rs == RecordsOf(s)
    ensures forall i :: 0 <= i < |rs| ==> InRange(rs[i])
  {
    FixedInRange(s);
    forall i | 0 <= i < |rs|
      ensures InRange(rs[i])
    {
      if i >= 6 {
        AddressInRange(s.host, s.ips[i - 6]);
      } else {
        assert rs[i] == Fixed(s)[i];
      }
    }
  }

  // Both instances, both (host, port) pairs and the last address.
  function Recovered(s: Service): Records {
    Records([s.raop, s.airplay], map[s.raop := (s.host, s.port), s.airplay := (s.host, s.port)],
            if s.ips == [] then map[] else map[s.host := s.ips[|s.ips| - 1]])
  }

  // The response teaches its parser just that.
  lemma AdvertisementParsed(s: Service, ttl: nat)
    requires Advertisable(s)
    ensures ParsePacket(Response(RecordsOf(s), ttl)) == Recovered(s)
  {
    var rs := RecordsOf(s);
    RecordsInRange(s, rs);
    ResponseParsed(rs, ttl);
    RecordsKnown(s, rs);
  }

  lemma RecordsKnown(s: Service, rs: seq<Record>)
    requires rs == RecordsOf(s)
    ensures AllKnown(rs, Nothing()) == Recovered(s)
  {
    KnownConcat(Fixed(s), Addresses(s.host, s.ips), Nothing());
    FixedKnown(s);
    AddressesKnown(s.host, s.ips, AllKnown(Fixed(s), Nothing()));
  }
}
