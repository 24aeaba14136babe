/**
 stream_setup_response_body and the appenders it uses, growing the reply in loops, tied to the layout that
 BplistTrees proves the parser reads back.
 */
module SetupReply {
  import opened Words
  import opened Slices
  import opened Plist
  import opened BplistWriter
  import opened BplistTrees

  // `(value >> shift) & 0xff` from the top byte down.
  method AppendU64(before: bytes, value: nat) returns (out: bytes)
    requires value < TWO64
    ensures out == before + Be(value, 8)
  {
    out := before;
    var shift: nat := 64;
    ghost var k: nat := 0;
    NoHighBits(value);
    while shift > 0
      invariant shift + 8 * k == 64
      invariant out == before + Be(HighPart(value, shift), k)
    {
      shift := shift - 8;
      ShrNat(value, shift);
      var b := Shr(value, shift) % 256;
      NextByte(value, shift);
      ByteAppended(before, out, HighPart(value, shift), k, b);
      out := out + [b];
      k := k + 1;
    }
  }

  lemma ByteAppended(before: bytes, out: bytes, x: nat, k: nat, b: byte)
    requires out == before + Be(x / 256, k) && b == x % 256
    ensures out + [b] == before + Be(x, k + 1)
  {
  }

  function HighPart(value: nat, shift: nat): nat {
    ShrNat(value, shift);
    Shr(value, shift)
  }

  lemma NoHighBits(value: nat)
    requires value < TWO64
    ensures Be(HighPart(value, 64), 0) == []
  {
  }

  lemma NextByte(value: nat, shift: nat)
    ensures HighPart(value, shift) / 256 == HighPart(value, shift + 8)
  {
    ShrShr(value, shift, 8);
    ShrByte(Shr(value, shift), 8);
  }

  lemma ShrByte(x: int, w: nat)
    requires w == 8
    ensures Shr(x, w) == x / 256
  {
    ShiftsAreArithmetic(x, w);
    assert Pow2(w) == 256;
  }

  // The offset table of given offsets.
  function TableBytes(offsets: seq<uint16>): bytes {
    if offsets == [] then [] else Be(offsets[0], 2) + TableBytes(offsets[1..])
  }

  lemma {:induction false} TableGrows(offsets: seq<uint16>, x: uint16)
    ensures TableBytes(offsets + [x]) == TableBytes(offsets) + Be(x, 2)
    decreases |offsets|
  {
    if offsets == [] {
      assert Be(x, 2) + [] == [] + Be(x, 2);
    } else {
      assert (offsets + [x])[1..] == offsets[1..] + [x];
      TableGrows(offsets[1..], x);
    }
  }

  lemma BodyStep(out: bytes, rest: seq<bytes>, next: seq<bytes>, body: bytes, tail: bytes)
    requires rest != [] && next == rest[1..] && body == rest[0] && tail == Bodies(next)
    ensures out + Bodies(rest) == (out + body) + tail
  {
    Assoc(out, body, tail);
  }

  lemma TableStep(offsets: seq<uint16>, rest: seq<bytes>, next: seq<bytes>, at: nat, q: nat, x: uint16, tail: bytes)
    requires rest != [] && next == rest[1..] && q == at + |rest[0]| && x == at % 0x1_0000
    requires tail == Table(next, q)
    ensures TableBytes(offsets) + Table(rest, at) == TableBytes(offsets + [x]) + tail
  {
    TableGrows(offsets, x);
    TableUnfold(rest, next, at, q, x);
    Assoc(TableBytes(offsets), Be(x, 2), tail);
  }

  lemma TableUnfold(rest: seq<bytes>, next: seq<bytes>, at: nat, q: nat, x: uint16)
    requires rest != [] && next == rest[1..] && q == at + |rest[0]| && x == at % 0x1_0000
    ensures Table(rest, at) == Be(x, 2) + Table(next, q)
  {
  }

  method WriteBody(before: bytes, starts: seq<uint16>, body: bytes, ghost rest: seq<bytes>, ghost next: seq<bytes>,
                   ghost all: bytes, ghost table: bytes) returns (out: bytes, offsets: seq<uint16>)
    requires rest != [] && next == rest[1..] && body == rest[0]
    requires before + Bodies(rest) == all && TableBytes(starts) + Table(rest, |before|) == table
    ensures out + Bodies(next) == all && TableBytes(offsets) + Table(next, |out|) == table
  {
    var x: uint16 := |before| % 0x1_0000;
    out, offsets := before + body, starts + [x];
    BodyStep(before, rest, next, body, Bodies(next));
    TableStep(starts, rest, next, |before|, |out|, x, Table(next, |out|));
  }

  // Objects one after the other, and where each starts.
  method WriteBodies(objects: seq<bytes>) returns (out: bytes, offsets: seq<uint16>)
    ensures out == MAGIC + Bodies(objects) && TableBytes(offsets) == Table(objects, 8)
  {
    out, offsets := MAGIC, [];
    ghost var all, table, rest := MAGIC + Bodies(objects), Table(objects, 8), objects;
    for i := 0 to |objects|
      invariant rest == objects[i..] && out + Bodies(rest) == all
      invariant TableBytes(offsets) + Table(rest, |out|) == table
    {
      out, offsets := WriteBody(out, offsets, objects[i], rest, rest[1..], all, table);
      rest := rest[1..];
    }
  }

  method WriteTable(before: bytes, offsets: seq<uint16>) returns (out: bytes)
    ensures out == before + TableBytes(offsets)
  {
    out := before;
    ghost var rest := offsets;
    for i := 0 to |offsets|
      invariant rest == offsets[i..] && out + TableBytes(rest) == before + TableBytes(offsets)
    {
      Assoc(out, Be(offsets[i], 2), TableBytes(rest[1..]));
      out := out + Be(offsets[i], 2);
      rest := rest[1..];
    }
  }

  lemma TrailerParts(before: bytes, a: bytes, b: bytes, c: bytes)
    ensures before + [0, 0, 0, 0, 0, 0] + [2] + [1] + a + b + c == before + ([0, 0, 0, 0, 0, 0, 2, 1] + a + b + c)
  {
  }

  method WriteTrailer(before: bytes, count: nat, offsetTable: nat) returns (out: bytes)
    requires count < TWO64 && offsetTable < TWO64
    ensures out == before + Trailer(count, offsetTable)
  {
    out := before + [0, 0, 0, 0, 0, 0];
    out := out + [2];
    out := out + [1];
    out := AppendU64(out, count);
    out := AppendU64(out, 0);
    out := AppendU64(out, offsetTable);
    TrailerParts(before, Be(count, 8), Be(0, 8), Be(offsetTable, 8));
  }

  // The whole document of a list of encoded objects.
  method WriteDocument(objects: seq<bytes>) returns (out: bytes)
    requires |objects| < TWO64 && 8 + |Bodies(objects)| < TWO64
    ensures out == File(objects)
  {
    var offsets;
    out, offsets := WriteBodies(objects);
    var offsetTable := |out|;
    out := WriteTable(out, offsets);
    out := WriteTrailer(out, |objects|, offsetTable);
  }

  // bplist_ascii and bplist_uint are Encode of a text and of a number.
  method StreamSetupResponseBody(dataPort: uint16, controlPort: uint16) returns (out: bytes)
    ensures out == Layout(SetupObjects(dataPort, controlPort))
  {
    ghost var objs := SetupObjects(dataPort, controlPort);
    var root: bytes, streams: bytes, stream: bytes := [0xd1, 1, 2], [0xa1, 3], [0xd3, 4, 5, 6, 7, 8, 9];
    RootBytes();
    StreamsBytes();
    StreamBytes();
    var objects := [root, Encode(Text(Ascii("streams"))), streams, stream,
                    Encode(Text(Ascii("dataPort"))), Encode(Text(Ascii("controlPort"))), Encode(Text(Ascii("type"))),
                    Encode(Number(dataPort)), Encode(Number(controlPort)), Encode(Number(96))];
    SetupSized(dataPort, controlPort);
    Matching(objects, dataPort, controlPort);
    assert objects == Encoded(objs);
    out := WriteDocument(objects);
  }

  lemma RootBytes()
    ensures Encode(Entries([1], [2])) == [0xd1, 1, 2]
  {
    assert RefBytes([1]) == [1] && RefBytes([2]) == [2];
  }

  lemma StreamsBytes()
    ensures Encode(Items([3])) == [0xa1, 3]
  {
    assert RefBytes([3]) == [3];
  }

  lemma ThreeRefs(a: byte, b: byte, c: byte)
    ensures RefBytes([a, b, c]) == [a, b, c]
  {
    assert [a, b, c][1..] == [b, c] && [b, c][1..] == [c] && [c][1..] == [];
    assert RefBytes([c]) == [c];
    assert RefBytes([b, c]) == [b, c];
  }

  lemma StreamBytes()
    ensures Encode(Entries([4, 5, 6], [7, 8, 9])) == [0xd3, 4, 5, 6, 7, 8, 9]
  {
    ThreeRefs(4, 5, 6);
    ThreeRefs(7, 8, 9);
  }

  lemma Matching(objects: seq<bytes>, dataPort: uint16, controlPort: uint16)
    requires objects == [Encode(Entries([1], [2])), Encode(Text(Ascii("streams"))), Encode(Items([3])),
                         Encode(Entries([4, 5, 6], [7, 8, 9])),
                         Encode(Text(Ascii("dataPort"))), Encode(Text(Ascii("controlPort"))),
                         Encode(Text(Ascii("type"))),
                         Encode(Number(dataPort)), Encode(Number(controlPort)), Encode(Number(96))]
    ensures forall i :: 0 <= i < 10 ==> objects[i] == Encode(SetupObjects(dataPort, controlPort)[i])
  {
  }
}
