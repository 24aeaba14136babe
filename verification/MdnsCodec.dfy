/**
 The name readers as the loops they are, the packet writer with its back-patched lengths, and the parser's
 loops, each tied to the functions of DnsNames and MdnsPackets.
 */
module MdnsCodec {
  import opened Words
  import opened Slices
  import opened DnsNames
  import opened MdnsPackets

  // ---------- read_name ----------

  // What is known of a name whose first labels are read.
  function Resumed(done: seq<bytes>, jumped: bool, next: nat, steps: nat, jumps: nat, r: Name): Name {
    match r
    case Fail => Fail
    case Name(labels, end, more, hops) => Name(done + labels, if jumped then next else end, steps + more, jumps + hops)
  }

  lemma JoinMore(done: seq<bytes>, word: bytes)
    ensures Join(done + [word]) == if done == [] then word else Join(done) + [DOT] + word
    decreases |done|
  {
    if done != [] {
      assert (done + [word])[1..] == done[1..] + [word];
      JoinMore(done[1..], word);
    }
  }

  // `if (!out.empty()) out.push_back('.')` and the label.
  method AppendLabel(before: bytes, word: bytes, ghost done: seq<bytes>) returns (out: bytes)
    requires before == Join(done) && word != [] && (done == [] <==> before == [])
    ensures out == Join(done + [word]) && out != []
  {
    JoinMore(done, word);
    out := if before != [] then before + [DOT] else before;
    out := out + word;
  }

  lemma ResumeLabel(done: seq<bytes>, jumped: bool, next: nat, steps: nat, jumps: nat, word: bytes, r: Name, m: nat)
    requires m == steps + 1
    ensures Resumed(done, jumped, next, steps, jumps, Labelled(word, r))
            == Resumed(done + [word], jumped, next, m, jumps, r)
  {
    if r.Name? {
      assert done + ([word] + r.labels) == done + [word] + r.labels;
    }
  }

  lemma ResumePointer(done: seq<bytes>, jumped: bool, next: nat, after: nat, steps: nat, jumps: nat, r: Name, m: nat,
                      j: nat)
    requires m == steps + 1 && j == jumps + 1
    ensures Resumed(done, jumped, next, steps, jumps, Pointed(after, r))
            == Resumed(done, true, if jumped then next else after, m, j, r)
  {
  }

  // `(len & 0x3f) << 8 | data[pos]`
  method TargetAt(data: bytes, pos: nat) returns (t: nat)
    requires pos + 1 < |data|
    ensures t == Target(data, pos)
  {
    var high: int, low: int := data[pos], data[pos + 1];
    t := high % 64 * 256 + low;
  }

  lemma FollowPointer(data: bytes, pos: nat, jumps: nat, ptr: nat, after: nat, j: nat, done: seq<bytes>, jumped: bool,
                      next: nat, steps: nat, m: nat)
    requires pos + 1 < |data| && data[pos] >= 0xc0 && jumps < MAX_JUMPS && ptr == Target(data, pos) < |data|
    requires after == pos + 2 && j == jumps + 1 && m == steps + 1
    ensures Resumed(done, jumped, next, steps, jumps, ReadName(data, pos, jumps))
            == Resumed(done, true, if jumped then next else after, m, j, ReadName(data, ptr, j))
  {
    ResumePointer(done, jumped, next, after, steps, jumps, ReadName(data, ptr, j), m, j);
  }

  lemma FollowLabel(data: bytes, pos: nat, jumps: nat, len: nat, end: nat, done: seq<bytes>, jumped: bool, next: nat,
                    steps: nat, m: nat, word: bytes)
    requires pos < |data| && len == data[pos] && 0 < len < 0x40 && end == pos + 1 + len <= |data|
    requires word == data[pos + 1..end] && m == steps + 1
    ensures Resumed(done, jumped, next, steps, jumps, ReadName(data, pos, jumps))
            == Resumed(done + [word], jumped, next, m, jumps, ReadName(data, end, jumps))
  {
    ResumeLabel(done, jumped, next, steps, jumps, word, ReadName(data, end, jumps), m);
  }

  method ReadNameLoop(data: bytes, offset: nat) returns (ok: bool, next: nat, out: bytes)
    ensures ok == ReadName(data, offset, 0).Name?
    ensures ok ==> next == ReadName(data, offset, 0).next && out == Join(ReadName(data, offset, 0).labels)
  {
    ghost var n := ReadName(data, offset, 0);
    out, next := [], offset;
    var pos: nat, jumped, jumps: nat := offset, false, 0;
    ghost var done: seq<bytes>, steps: nat := [], 0;
    if n.Name? {
      assert [] + n.labels == n.labels;
    }
    while pos < |data|
      invariant jumps <= MAX_JUMPS && out == Join(done) && (done == [] <==> out == [])
      invariant n == Resumed(done, jumped, next, steps, jumps, ReadName(data, pos, jumps))
      decreases MAX_JUMPS - jumps, |data| - pos
    {
      var len := data[pos];
      if len == 0 {
        assert done + [] == done;
        return true, if jumped then next else pos + 1, out;
      }
      ghost var m := steps + 1;
      if len >= 0xc0 {
        if pos + 1 >= |data| || jumps >= MAX_JUMPS {
          assert n.Fail?;
          return false, next, out;
        }
        var ptr := TargetAt(data, pos);
        if ptr >= |data| {
          assert n.Fail?;
          return false, next, out;
        }
        var after, j := pos + 2, jumps + 1;
        FollowPointer(data, pos, jumps, ptr, after, j, done, jumped, next, steps, m);
        if !jumped {
          next := after;
        }
        pos, jumped, jumps, steps := ptr, true, j, m;
      } else {
        if len >= 0x40 || pos + 1 + len > |data| {
          assert n.Fail?;
          return false, next, out;
        }
        var end := pos + 1 + len;
        var word := data[pos + 1..end];
        FollowLabel(data, pos, jumps, len, end, done, jumped, next, steps, m, word);
        out := AppendLabel(out, word, done);
        done, steps := done + [word], m;
        pos := end;
      }
    }
    ok := false;
  }

  // ---------- read_name_at ----------

  // Labels joined one by one.
  method JoinAll(labels: seq<bytes>) returns (name: bytes)
    ensures name == Join(labels)
  {
    name := [];
    for i := 0 to |labels|
      invariant name == Join(labels[..i])
    {
      JoinMore(labels[..i], labels[i]);
      assert labels[..i + 1] == labels[..i] + [labels[i]];
      if i != 0 {
        name := name + [DOT];
      }
      name := name + labels[i];
    }
    assert labels[..|labels|] == labels;
  }

  lemma FollowPointerAt(data: bytes, pos: nat, left: nat, rest: nat, ptr: nat, after: nat, done: seq<bytes>,
                        jumped: bool, next: nat, steps: nat, m: nat, jumps: nat, j: nat)
    requires pos + 1 < |data| && data[pos] >= 0xc0 && left == rest + 1 && ptr == Target(data, pos)
    requires after == pos + 2 && m == steps + 1 && j == jumps + 1
    ensures Resumed(done, jumped, next, steps, jumps, ReadNameAt(data, pos, left))
            == Resumed(done, true, if jumped then next else after, m, j, ReadNameAt(data, ptr, rest))
  {
    ResumePointer(done, jumped, next, after, steps, jumps, ReadNameAt(data, ptr, rest), m, j);
  }

  lemma FollowLabelAt(data: bytes, pos: nat, left: nat, rest: nat, len: nat, end: nat, done: seq<bytes>, jumped: bool,
                      next: nat, steps: nat, m: nat, jumps: nat, word: bytes)
    requires pos < |data| && len == data[pos] && 0 < len < 0xc0 && end == pos + 1 + len <= |data|
    requires word == data[pos + 1..end] && left == rest + 1 && m == steps + 1
    ensures Resumed(done, jumped, next, steps, jumps, ReadNameAt(data, pos, left))
            == Resumed(done + [word], jumped, next, m, jumps, ReadNameAt(data, end, rest))
  {
    ResumeLabel(done, jumped, next, steps, jumps, word, ReadNameAt(data, end, rest), m);
  }

  method ReadNameAtLoop(data: bytes, offset: nat) returns (ok: bool, next: nat, name: bytes)
    ensures ok == ReadNameAt(data, offset, MAX_STEPS).Name?
    ensures ok ==> next == ReadNameAt(data, offset, MAX_STEPS).next
    ensures ok ==> name == Join(ReadNameAt(data, offset, MAX_STEPS).labels)
  {
    ok, next, name := ReadNameWithin(data, offset, MAX_STEPS);
  }

  // The offset is moved at the first pointer, even when the name then fails.
  method ReadNameWithin(data: bytes, offset: nat, limit: nat) returns (ok: bool, next: nat, name: bytes)
    ensures ok == ReadNameAt(data, offset, limit).Name?
    ensures ok ==> next == ReadNameAt(data, offset, limit).next
    ensures ok ==> name == Join(ReadNameAt(data, offset, limit).labels)
  {
    ghost var n := ReadNameAt(data, offset, limit);
    var labels: seq<bytes>, pos: nat, jumped := [], offset, false;
    next, name := offset, [];
    ghost var steps: nat, jumps: nat, left: nat := 0, 0, limit;
    if n.Name? {
      assert [] + n.labels == n.labels;
    }
    for guard := 0 to limit
      invariant left + guard == limit
      invariant n == Resumed(labels, jumped, next, steps, jumps, ReadNameAt(data, pos, left))
    {
      if pos >= |data| {
        assert n.Fail?;
        return false, next, name;
      }
      var len := data[pos];
      ghost var m, rest := steps + 1, left - 1;
      if len == 0 {
        assert labels + [] == labels;
        if !jumped {
          next := pos + 1;
        }
        name := JoinAll(labels);
        return true, next, name;
      }
      if len >= 0xc0 {
        if pos + 1 >= |data| {
          assert n.Fail?;
          return false, next, name;
        }
        var ptr := TargetAt(data, pos);
        var after := pos + 2;
        ghost var j := jumps + 1;
        FollowPointerAt(data, pos, left, rest, ptr, after, labels, jumped, next, steps, m, jumps, j);
        if !jumped {
          next := after;
        }
        pos, jumped, jumps := ptr, true, j;
      } else {
        if pos + 1 + len > |data| {
          assert n.Fail?;
          return false, next, name;
        }
        var end := pos + 1 + len;
        var word := data[pos + 1..end];
        FollowLabelAt(data, pos, left, rest, len, end, labels, jumped, next, steps, m, jumps, word);
        labels := labels + [word];
        pos := end;
      }
      steps, left := m, rest;
    }
    ok := false;
  }

  // ---------- the writer ----------

  // Back-patching two bytes in front of what was appended since.
  lemma Patched(head: bytes, rdata: bytes, pos: nat, v: int, now: bytes)
    requires pos == |head| && now == head + Be16(0) + rdata
    ensures now[..pos] + Be16(v) + now[pos + 2..] == head + (Be16(v) + rdata)
  {
    assert now[..pos] == head && now[pos + 2..] == rdata;
  }

  class PacketWriter {
    var packet: bytes

    constructor ()
      ensures packet == []
    {
      packet := [];
    }

    // put_u16
    method PutU16(v: int)
      modifies this
      ensures packet == old(packet) + Be16(v)
    {
      packet := packet + [v / 256 % 256];
      packet := packet + [v % 256];
    }

    // put_u32
    method PutU32(v: int)
      modifies this
      ensures packet == old(packet) + Be32(v)
    {
      packet := packet + [v / 0x100_0000 % 256];
      packet := packet + [v / 0x1_0000 % 256];
      packet := packet + [v / 256 % 256];
      packet := packet + [v % 256];
    }

    // patch_u16
    method PatchU16(pos: nat, v: int)
      requires pos + 2 <= |packet|
      modifies this
      ensures packet == old(packet)[..pos] + Be16(v) + old(packet)[pos + 2..]
    {
      packet := packet[pos := v / 256 % 256];
      packet := packet[pos + 1 := v % 256];
    }

    // The label between two dots: empty ones are left out, long ones cut.
    method PutLabel(word: bytes, ghost rest: seq<bytes>, ghost next: seq<bytes>, ghost goal: bytes)
      requires rest != [] && word == rest[0] && next == rest[1..] && packet + LabelBytes(Kept(rest)) == goal
      modifies this
      ensures packet + LabelBytes(Kept(next)) == goal
    {
      var len := |word|;
      if len > 0 {
        if len > MAX_LABEL {
          len := MAX_LABEL;
        }
        KeptStep(packet, rest, next, word[..len]);
        packet := packet + [len];
        packet := packet + word[..len];
      }
    }

    // put_name: label by label, to the next dot or the end.
    method WriteName(name: bytes)
      modifies this
      ensures packet == old(packet) + PutName(name)
    {
      var start := 0;
      ghost var rest, before, goal := Split(name), packet, packet + LabelBytes(Kept(Split(name)));
      AllLeft(name);
      while start < |name|
        invariant Remaining(name, start, rest) && packet + LabelBytes(Kept(rest)) == goal
      {
        start, rest := WriteLabel(name, start, rest, goal);
      }
      NothingLeft(name, start, rest);
      PutEnd(name, before);
    }

    // One label, and where the next one starts.
    method WriteLabel(name: bytes, start: nat, ghost rest: seq<bytes>, ghost goal: bytes)
      returns (after: nat, ghost next: seq<bytes>)
      requires start < |name| && Remaining(name, start, rest) && packet + LabelBytes(Kept(rest)) == goal
      modifies this
      ensures start < after && Remaining(name, after, next) && packet + LabelBytes(Kept(next)) == goal
    {
      var dot := start + Dot(name[start..]);
      var word := name[start..dot];
      next := rest[1..];
      LabelsLeft(name, start, dot, rest, next, word);
      PutLabel(word, rest, next, goal);
      after := dot + 1;
    }

    // The root label.
    method PutEnd(name: bytes, ghost before: bytes)
      requires packet + [] == before + LabelBytes(Kept(Split(name)))
      modifies this
      ensures packet == before + PutName(name)
    {
      assert packet + [] == packet;
      Assoc(before, LabelBytes(Kept(Split(name))), [0]);
      packet := packet + [0];
    }

    // add_record_header, with a length to be patched.
    method AddRecordHeader(name: bytes, kind: uint16, klass: uint16, ttl: nat) returns (rdlenPos: nat)
      modifies this
      ensures rdlenPos == |old(packet) + HeadBytes(name, kind, klass, ttl)|
      ensures packet == old(packet) + HeadBytes(name, kind, klass, ttl) + Be16(0)
    {
      ghost var before := packet;
      WriteName(name);
      PutU16(kind);
      PutU16(klass);
      PutU32(ttl);
      assert packet == before + HeadBytes(name, kind, klass, ttl);
      rdlenPos := |packet|;
      PutU16(0);
    }

    // Patches the length of the record data appended since the header.
    method CloseRecord(rdlenPos: nat, ghost before: bytes, ghost head: bytes, ghost rdata: bytes)
      requires rdlenPos == |before + head| && packet == (before + head) + Be16(0) + rdata
      modifies this
      ensures packet == before + (head + (Be16(|rdata|) + rdata))
    {
      Patched(before + head, rdata, rdlenPos, |rdata|, packet);
      PatchU16(rdlenPos, |packet| - (rdlenPos + 2));
      Assoc(before, head, Be16(|rdata|) + rdata);
    }

    // add_ptr_record
    method AddPtr(service: bytes, instance: bytes, ttl: nat)
      modifies this
      ensures packet == old(packet) + Written(Ptr(service, instance), ttl)
    {
      ghost var before := packet;
      var pos := AddRecordHeader(service, PTR, CLASS_IN, ttl);
      WriteName(instance);
      CloseRecord(pos, before, HeadBytes(service, PTR, CLASS_IN, ttl), PutName(instance));
    }

    // add_srv_record
    method AddSrv(instance: bytes, host: bytes, port: uint16, ttl: nat)
      modifies this
      ensures packet == old(packet) + Written(Srv(instance, host, port), ttl)
    {
      ghost var before := packet;
      var pos := AddRecordHeader(instance, SRV, CLASS_FLUSH, ttl);
      ghost var head := packet;
      PutU16(0);
      PutU16(0);
      PutU16(port);
      WriteName(host);
      ghost var rdata := Be16(0) + Be16(0) + Be16(port) + PutName(host);
      assert packet == head + rdata;
      CloseRecord(pos, before, HeadBytes(instance, SRV, CLASS_FLUSH, ttl), rdata);
    }

    // add_txt_record
    method AddTxt(instance: bytes, items: seq<bytes>, ttl: nat)
      modifies this
      ensures packet == old(packet) + Written(Txt(instance, items), ttl)
    {
      ghost var before := packet;
      var pos := AddRecordHeader(instance, TXT, CLASS_FLUSH, ttl);
      var encoded := TxtBytes(items);
      packet := packet + encoded;
      CloseRecord(pos, before, HeadBytes(instance, TXT, CLASS_FLUSH, ttl), EncodeTxt(items));
    }

    // add_a_record
    method AddAddress(host: bytes, ip: bytes, ttl: nat)
      modifies this
      ensures packet == old(packet) + Written(Address(host, ip), ttl)
    {
      ghost var before := packet;
      var pos := AddRecordHeader(host, ADDRESS, CLASS_FLUSH, ttl);
      packet := packet + ip;
      CloseRecord(pos, before, HeadBytes(host, ADDRESS, CLASS_FLUSH, ttl), ip);
    }

    method PutHeader(answers: nat)
      requires packet == []
      modifies this
      ensures packet == HeaderBytes(answers)
    {
      PutU16(0);
      PutU16(0x8400);
      PutU16(0);
      PutU16(answers);
      PutU16(0);
      PutU16(0);
    }

    // The records of both instances.
    method AddInstances(s: Service, ttl: nat)
      modifies this
      ensures packet == old(packet) + AllWritten(Fixed(s), ttl)
    {
      ghost var rs, before := Fixed(s), packet;
      AddFirst(s, ttl, rs, before);
      AddSecond(s, ttl, rs, before);
      assert rs[..6] == rs;
    }

    method AddFirst(s: Service, ttl: nat, ghost rs: seq<Record>, ghost before: bytes)
      requires |rs| == 6 && packet == before
      requires rs[0] == Ptr(RAOP_TYPE, s.raop) && rs[1] == Ptr(AIRPLAY_TYPE, s.airplay)
      requires rs[2] == Srv(s.raop, s.host, s.port)
      modifies this
      ensures packet == before + AllWritten(rs[..3], ttl)
    {
      NoneWritten(rs, ttl, before);
      AddPtr(RAOP_TYPE, s.raop, ttl);
      WrittenUpTo(rs, 0, 1, ttl, before, packet, rs[0]);
      AddPtr(AIRPLAY_TYPE, s.airplay, ttl);
      WrittenUpTo(rs, 1, 2, ttl, before, packet, rs[1]);
      AddSrv(s.raop, s.host, s.port, ttl);
      WrittenUpTo(rs, 2, 3, ttl, before, packet, rs[2]);
    }

    method AddSecond(s: Service, ttl: nat, ghost rs: seq<Record>, ghost before: bytes)
      requires |rs| == 6 && packet == before + AllWritten(rs[..3], ttl)
      requires rs[3] == Txt(s.raop, s.raopTxt) && rs[4] == Srv(s.airplay, s.host, s.port)
      requires rs[5] == Txt(s.airplay, s.airplayTxt)
      modifies this
      ensures packet == before + AllWritten(rs[..6], ttl)
    {
      AddTxt(s.raop, s.raopTxt, ttl);
      WrittenUpTo(rs, 3, 4, ttl, before, packet, rs[3]);
      AddSrv(s.airplay, s.host, s.port, ttl);
      WrittenUpTo(rs, 4, 5, ttl, before, packet, rs[4]);
      AddTxt(s.airplay, s.airplayTxt, ttl);
      WrittenUpTo(rs, 5, 6, ttl, before, packet, rs[5]);
    }

    // build_response_packet
    method BuildResponse(s: Service, ttl: nat)
      requires packet == []
      modifies this
      ensures packet == Response(RecordsOf(s), ttl)
    {
      PutHeader(6 + |s.ips|);
      ghost var header := packet;
      AddInstances(s, ttl);
      AddAddresses(s.host, s.ips, ttl);
      WrittenConcat(Fixed(s), Addresses(s.host, s.ips), ttl);
      Assoc(header, AllWritten(Fixed(s), ttl), AllWritten(Addresses(s.host, s.ips), ttl));
    }

    method AddAddresses(host: bytes, ips: seq<bytes>, ttl: nat)
      modifies this
      ensures packet == old(packet) + AllWritten(Addresses(host, ips), ttl)
    {
      ghost var goal := packet + AllWritten(Addresses(host, ips), ttl);
      for i := 0 to |ips|
        invariant packet + AllWritten(Addresses(host, ips[i..]), ttl) == goal
      {
        ghost var rest := Addresses(host, ips[i..]);
        assert rest[0] == Address(host, ips[i]) && rest[1..] == Addresses(host, ips[i + 1..]);
        Assoc(packet, Written(rest[0], ttl), AllWritten(rest[1..], ttl));
        AddAddress(host, ips[i], ttl);
      }
    }
  }

  // ---------- the labels put_name has left ----------

  // The labels from start on.
  ghost predicate Remaining(name: bytes, start: nat, rest: seq<bytes>) {
    rest == if start <= |name| then Split(name[start..]) else []
  }

  lemma AllLeft(name: bytes)
    ensures Remaining(name, 0, Split(name))
  {
    assert name[0..] == name;
  }

  lemma LabelsLeft(name: bytes, start: nat, dot: nat, rest: seq<bytes>, next: seq<bytes>, word: bytes)
    requires start < |name| && Remaining(name, start, rest) && dot == start + Dot(name[start..]) && next == rest[1..]
    requires word == name[start..dot]
    ensures rest[0] == word && Remaining(name, dot + 1, next)
  {
    var s := name[start..];
    assert s[..Dot(s)] == name[start..dot];
    if dot < |name| {
      assert s[Dot(s) + 1..] == name[dot + 1..];
    } else {
      assert s == name[start..dot];
    }
  }

  lemma NothingLeft(name: bytes, start: nat, rest: seq<bytes>)
    requires start >= |name| && Remaining(name, start, rest)
    ensures Kept(rest) == [] && LabelBytes(Kept(rest)) == []
  {
    if start == |name| {
      assert name[start..] == [];
      assert rest == [[]];
      assert rest[1..] == [];
    }
  }

  lemma KeptStep(before: bytes, rest: seq<bytes>, next: seq<bytes>, word: bytes)
    requires rest != [] && rest[0] != [] && next == rest[1..]
    requires word == if |rest[0]| > MAX_LABEL then rest[0][..MAX_LABEL] else rest[0]
    ensures before + LabelBytes(Kept(rest)) == before + [|word|] + word + LabelBytes(Kept(next))
  {
    assert Kept(rest)[1..] == Kept(next);
    Assoc(before, [|word|], word);
    Assoc(before, [|word|] + word, LabelBytes(Kept(next)));
  }

  // ---------- text records ----------

  // The chunk loop of encode_txt over one item.
  method TxtItemBytes(before: bytes, item: bytes) returns (out: bytes)
    ensures out == before + TxtItem(item)
  {
    out := before;
    var offset := 0;
    ghost var goal := before + TxtItem(item);
    assert item[0..] == item;
    while true
      invariant 0 <= offset <= |item| && out + TxtItem(item[offset..]) == goal
      decreases |item| - offset
    {
      var len := if |item| - offset < 255 then |item| - offset else 255;
      ghost var rest := item[offset..];
      assert item[offset..offset + len] == rest[..len];
      if len < |rest| {
        assert rest[255..] == item[offset + len..];
        Assoc(out, [255] + rest[..255], TxtItem(rest[255..]));
      } else {
        assert rest[..len] == rest;
      }
      Assoc(out, [len], rest[..len]);
      out := out + [len];
      out := out + item[offset..offset + len];
      offset := offset + len;
      if offset >= |item| {
        break;
      }
    }
  }

  // encode_txt
  method TxtBytes(items: seq<bytes>) returns (out: bytes)
    ensures out == EncodeTxt(items)
  {
    out := [];
    for i := 0 to |items|
      invariant out + TxtItems(items[i..]) == TxtItems(items)
      invariant i > 0 ==> out != []
    {
      ghost var rest := items[i..];
      assert rest[0] == items[i] && rest[1..] == items[i + 1..];
      Assoc(out, TxtItem(items[i]), TxtItems(items[i + 1..]));
      out := TxtItemBytes(out, items[i]);
    }
    if out == [] {
      out := [0];
    }
  }

  // ---------- the records of a response ----------

  lemma {:induction false} WrittenConcat(a: seq<Record>, b: seq<Record>, ttl: nat)
    ensures AllWritten(a + b, ttl) == AllWritten(a, ttl) + AllWritten(b, ttl)
    decreases |a|
  {
    if a == [] {
      assert a + b == b;
    } else {
      assert (a + b)[1..] == a[1..] + b;
      WrittenConcat(a[1..], b, ttl);
    }
  }

  lemma NoneWritten(rs: seq<Record>, ttl: nat, before: bytes)
    ensures before == before + AllWritten(rs[..0], ttl)
  {
    assert rs[..0] == [];
    assert before + [] == before;
  }

  // One record more behind the first i.
  lemma WrittenUpTo(rs: seq<Record>, i: nat, j: nat, ttl: nat, before: bytes, now: bytes, r: Record)
    requires j == i + 1 && j <= |rs| && r == rs[i] && now == before + AllWritten(rs[..i], ttl) + Written(r, ttl)
    ensures now == before + AllWritten(rs[..j], ttl)
  {
    assert rs[..j] == rs[..i] + [r];
    WrittenConcat(rs[..i], [r], ttl);
    assert [r][1..] == [];
    assert AllWritten([r], ttl) == Written(r, ttl);
    Assoc(before, AllWritten(rs[..i], ttl), Written(r, ttl));
  }

  // ---------- the parser ----------

  // The loop over questions.
  method PassQuestions(data: bytes, from: nat, count: nat) returns (ok: bool, offset: nat)
    ensures SkipQuestions(data, from, count) == if ok then Offset(offset) else Nowhere
  {
    offset := from;
    ghost var left: nat, goal := count, SkipQuestions(data, from, count);
    for i := 0 to count
      invariant i + left == count && goal == SkipQuestions(data, offset, left)
    {
      var found, next, name;
      found, next, name := ReadNameAtLoop(data, offset);
      if !found || next + 4 > |data| {
        return false, offset;
      }
      offset := next + 4;
      left := left - 1;
    }
    ok := true;
  }

  // One record: its head, and what it teaches.
  method ReadRecord(data: bytes, offset: nat, known: Records) returns (ok: bool, next: nat, now: Records)
    ensures var h := ReadHead(data, offset);
            ok == h.Head? && (ok ==> next == h.start + h.rdlen && now == Learn(data, h, known))
  {
    var found, name, p;
    found, p, name := ReadNameAtLoop(data, offset);
    next, now := offset, known;
    if !found || p + 10 > |data| {
      return false, next, now;
    }
    var kind, rdlen := U16At(data, p), U16At(data, p + 8);
    var start := p + 10;
    if start + rdlen > |data| {
      return false, next, now;
    }
    now := LearnRecord(data, name, kind, rdlen, start, known);
    ok, next := true, start + rdlen;
  }

  method LearnRecord(data: bytes, name: bytes, kind: nat, rdlen: nat, start: nat, known: Records) returns (now: Records)
    requires start + rdlen <= |data|
    ensures now == Learn(data, Head(name, kind, rdlen, start), known)
  {
    now := known;
    var found, p, text;
    if kind == PTR {
      found, p, text := ReadNameAtLoop(data, start);
      if found {
        now := known.(ptrs := known.ptrs + [text]);
      }
    } else if kind == SRV && rdlen >= 6 {
      var port := U16At(data, start + 4);
      found, p, text := ReadNameAtLoop(data, start + 6);
      if found {
        now := known.(srv := known.srv[name := (text, port)]);
      }
    } else if kind == ADDRESS && rdlen == 4 {
      now := known.(hosts := known.hosts[name := data[start..start + 4]]);
    }
  }

  // The loop over records.
  method ParseLoop(data: bytes, from: nat, count: nat, ghost m: Message) returns (known: Records)
    requires m == MessageOf(data)
    ensures known == ParseRecords(m, from, count, Nothing())
  {
    known := Nothing();
    var offset := from;
    ghost var left: nat, goal := count, ParseRecords(m, from, count, Nothing());
    for i := 0 to count
      invariant i + left == count && goal == ParseRecords(m, offset, left, known)
    {
      var ok, next, now := ReadRecord(data, offset, known);
      ghost var h := ReadHead(data, offset);
      RecordTurn(data, m, offset, h, known);
      if !ok {
        ParseStops(m, offset, left, known);
        return;
      }
      ParseGoes(m, offset, left, known, h, next, left - 1, now);
      offset, known := next, now;
      left := left - 1;
    }
  }

  lemma RecordTurn(data: bytes, m: Message, offset: nat, h: Head, known: Records)
    requires m == MessageOf(data) && h == ReadHead(data, offset)
    ensures m.head(offset) == h && m.learn(h, known) == Learn(data, h, known)
  {
  }

  lemma ParseStops(m: Message, o: nat, n: nat, known: Records)
    requires n > 0 && m.head(o).NoHead?
    ensures ParseRecords(m, o, n, known) == known
  {
  }

  lemma ParseGoes(m: Message, o: nat, n: nat, known: Records, h: Head, next: nat, rest: nat, now: Records)
    requires n > 0 && rest == n - 1 && m.head(o) == h && h.Head? && next == h.start + h.rdlen
    requires now == m.learn(h, known)
    ensures ParseRecords(m, o, n, known) == ParseRecords(m, next, rest, now)
  {
  }

  // parse_mdns_packet
  method ParseMessage(data: bytes) returns (known: Records)
    ensures known == ParsePacket(data)
  {
    known := Nothing();
    if |data| < 12 {
      return;
    }
    var count := (U16At(data, 6) + U16At(data, 8) + U16At(data, 10)) % 0x1_0000;
    var ok, offset := PassQuestions(data, 12, U16At(data, 4));
    if ok {
      known := ParseLoop(data, offset, count, MessageOf(data));
    }
  }
}
