/**
 A concrete property list that is accepted with a string shorter than its count.
 */
module PlistExample {
  import opened Words
  import opened Slices
  import opened Plist

  // An ASCII string whose count is 2^64 - 1, then the offset table and the trailer.
  const LONG_STRING: bytes := [0x5f, 0x13, 0xff, 0xff, 0xff, 0xff, 0xff, 0xff, 0xff, 0xff]
  const ZEROS: bytes := [0, 0, 0, 0, 0, 0, 0]
  const SIZES: bytes := [0, 0, 0, 0, 0, 0, 1, 1]
  const FILE: bytes := MAGIC + LONG_STRING + [8] + SIZES + (ZEROS + [1]) + (ZEROS + [0]) + (ZEROS + [18])

  lemma {:induction false} ZerosRead(data: bytes, o: nat, n: nat, end: nat)
    requires end == o + n <= |data| && forall k :: o <= k < end ==> data[k] == 0
    ensures ReadBe(data, o, n) == 0
    decreases n, o
  {
    if n > 0 {
      ZerosRead(data, o, n - 1, end - 1);
    }
  }

  lemma SmallWord(data: bytes, o: nat, b: byte)
    requires At(data, o, ZEROS + [b])
    ensures ReadBe(data, o, 8) == b
  {
    var word := data[o..o + 8];
    assert word == ZEROS + [b];
    forall k | o <= k < o + 7
      ensures data[k] == 0
    {
      assert data[k] == word[k - o];
    }
    ZerosRead(data, o, 7, o + 7);
    assert data[o + 7] == word[7] == b;
  }

  lemma OnesRead(data: bytes, o: nat, end: nat)
    requires end == o + 8 <= |data| && forall k :: o <= k < end ==> data[k] == 0xff
    ensures ReadBe(data, o, 8) == TWO64 - 1
  {
    assert ReadBe(data, o, 0) == 0;
    assert ReadBe(data, o, 1) == 0xff;
    assert ReadBe(data, o, 2) == 0xffff;
    assert ReadBe(data, o, 3) == 0xff_ffff;
    assert ReadBe(data, o, 4) == 0xffff_ffff;
    assert ReadBe(data, o, 5) == 0xff_ffff_ffff;
    assert ReadBe(data, o, 6) == 0xffff_ffff_ffff;
    assert ReadBe(data, o, 7) == 0xff_ffff_ffff_ffff;
  }

  lemma OneOffset(data: bytes)
    requires |data| > 18 && data[18] == 8
    ensures ReadOffsets(data, 18, 1, 1) == Ok([8])
  {
    assert ReadBe(data, 18, 0) == 0;
    assert ReadBe(data, 18, 1) == 8;
    assert ReadOffsets(data, 19, 1, 0) == Ok([]);
    var x := ReadBe(data, 18, 1);
    assert [x] + [] == [8];
  }

  lemma Opens(data: bytes)
    requires |data| == 51 && data[..8] == MAGIC && data[18] == 8 && data[25] == 1 && data[26] == 1
    requires At(data, 27, ZEROS + [1]) && At(data, 35, ZEROS + [0]) && At(data, 43, ZEROS + [18])
    ensures Open(data) == Ok(Document(data, 1, [8], 0))
  {
    SmallWord(data, 27, 1);
    SmallWord(data, 35, 0);
    SmallWord(data, 43, 18);
    OneOffset(data);
    OneForm(data, 19, 8, 18);
  }

  // A file of one object with its trailer at t.
  lemma OneForm(data: bytes, t: nat, width: nat, table: nat)
    requires |data| == t + 32 && 8 <= t && data[..8] == MAGIC && width == 8 && table < t
    requires data[t + 6] == 1 && data[t + 7] == 1
    requires ReadBe(data, t + 8, width) == 1 && ReadBe(data, t + 16, width) == 0 && ReadBe(data, t + 24, width) == table
    requires ReadOffsets(data, table, 1, 1) == Ok([8])
    ensures Open(data) == Ok(Document(data, 1, [8], 0))
  {
  }

  lemma CountForm(data: bytes, offset: nat, low: nat, first: nat, width: nat, end: nat, n: nat)
    requires offset < |data| && low == 15 && data[offset] / 16 == 1 && width == Pow2(data[offset] % 16)
    requires first == offset + 1 && end == first + width <= |data| && n == ReadBe(data, first, width)
    ensures ReadCount(data, offset, low) == Ok((n, end))
  {
  }

  lemma LongCount(data: bytes, count: nat, offset: nat, low: nat)
    requires |data| == 51 && data[9] == 0x13 && (forall k :: 10 <= k < 18 ==> data[k] == 0xff) && count == TWO64 - 1
    requires offset == 9 && low == 15
    ensures ReadCount(data, offset, low) == Ok((count, 18))
  {
    OnesRead(data, 10, 18);
    assert Pow2(3) == 8;
    CountForm(data, offset, low, 10, 8, 18, count);
  }

  lemma StringObject(data: bytes, start: nat, offset: nat, low: nat, refSize: nat)
    requires start < |data| && data[start] == 0x5f && offset == start + 1 && low == 15
    ensures NodeFrom(data, start, refSize) == AsciiNode(data, offset, low)
  {
  }

  lemma ParsesAtom(data: bytes, D: Document, v: Value)
    requires Open(data) == Ok(D) && NodeAt(D, D.top) == Atom(v)
    ensures Parse(data) == Ok(v)
  {
  }

  lemma FileParts()
    ensures |FILE| == 51 && FILE[..8] == MAGIC && FILE[18] == 8 && FILE[25] == 1 && FILE[26] == 1
    ensures FILE[8] == 0x5f && FILE[9] == 0x13 && forall k :: 10 <= k < 18 ==> FILE[k] == 0xff
    ensures At(FILE, 27, ZEROS + [1]) && At(FILE, 35, ZEROS + [0]) && At(FILE, 43, ZEROS + [18])
  {
    forall k | 10 <= k < 18
      ensures FILE[k] == 0xff
    {
      assert FILE[k] == LONG_STRING[k - 8];
    }
  }

  // The parser succeeds, with the offset table and the trailer for the text.
  lemma ShortStringAccepted()
    ensures Parse(FILE) == Ok(String(FILE[18..])) && |FILE[18..]| < TWO64 - 1
  {
    FileParts();
    Opens(FILE);
    var D := Document(FILE, 1, [8], 0);
    var count, offset, low := TWO64 - 1, 9, 15;
    LongCount(FILE, count, offset, low);
    StringLength(FILE, offset, low, count, 18);
    StringObject(FILE, 8, offset, low, 1);
    ParsesAtom(FILE, D, String(FILE[18..]));
  }
}
