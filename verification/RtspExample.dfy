/**
 Concrete streams: one whose framing depends on how it is cut, and one that is dispatched for ever.
 */
module RtspExample {
  import opened Words
  import opened Wrappers
  import opened Slices
  import opened RtspMessage
  import opened ReceiveLoop

  const START: bytes := [97, 32, 98, 32, 99]

  // "184467440737095", the first fifteen digits of the lengths.
  const LEADING: bytes := [49, 56, 52, 52, 54, 55, 52, 52, 48, 55, 51, 55, 48, 57, 53]

  predicate FiveDigitsLong(last: bytes) {
    |last| == 5 && forall i :: 0 <= i < 5 ==> IsDigit(last[i])
  }

  // The number 184467440737095 followed by the digits of `last`.
  function Value(last: bytes): nat
    requires FiveDigitsLong(last)
  {
    18446744073709500000 + 10000 * (last[0] as int - 48) + 1000 * (last[1] as int - 48) +
    100 * (last[2] as int - 48) + 10 * (last[3] as int - 48) + (last[4] as int - 48)
  }

  function LengthLine(last: bytes): bytes {
    CONTENT_LENGTH + [COLON] + (LEADING + last)
  }

  function Block(last: bytes): bytes {
    START + [CR, LF] + LengthLine(last)
  }

  // "a b c", "content-length:184467440737095...", an empty line, and one byte more.
  function Stream(last: bytes): bytes {
    Block(last) + [CR, LF, CR, LF] + [33]
  }

  // 2^64 - 1, and 2^64 less the 46 bytes of the head.
  const LARGEST: bytes := [53, 49, 54, 49, 53]
  const EXACT: bytes := [53, 49, 53, 55, 48]

  lemma {:induction false} DigitsConcat(a: bytes, b: bytes, acc: nat)
    requires forall i :: 0 <= i < |a| ==> IsDigit(a[i])
    ensures Digits(a + b, acc) == Digits(b, Digits(a, acc))
    decreases |a|
  {
    if a == [] {
      assert a + b == b;
    } else {
      assert (a + b)[1..] == a[1..] + b;
      DigitsConcat(a[1..], b, 10 * acc + (a[0] as int - 48));
    }
  }

  lemma FiveDigits(a: byte, b: byte, c: byte, d: byte, e: byte, acc: nat)
    requires IsDigit(a) && IsDigit(b) && IsDigit(c) && IsDigit(d) && IsDigit(e)
    ensures Digits([a, b, c, d, e], acc)
            == 100000 * acc + 10000 * (a as int - 48) + 1000 * (b as int - 48) + 100 * (c as int - 48) +
               10 * (d as int - 48) + (e as int - 48)
  {
    var s := [a, b, c, d, e];
    assert s[1..] == [b, c, d, e] && s[1..][1..] == [c, d, e];
    assert [c, d, e][1..] == [d, e] && [d, e][1..] == [e];
    var acc1 := 10 * acc + (a as int - 48);
    var acc2 := 10 * acc1 + (b as int - 48);
    var acc3 := 10 * acc2 + (c as int - 48);
    var acc4 := 10 * acc3 + (d as int - 48);
    assert Digits([e], acc4) == 10 * acc4 + (e as int - 48);
    assert Digits([d, e], acc3) == Digits([e], acc4);
    assert Digits([c, d, e], acc2) == Digits([d, e], acc3);
    assert Digits([b, c, d, e], acc1) == Digits([c, d, e], acc2);
  }

  lemma FiveMore(a: byte, b: byte, c: byte, d: byte, e: byte, rest: bytes, all: bytes, acc: nat, next: nat)
    requires IsDigit(a) && IsDigit(b) && IsDigit(c) && IsDigit(d) && IsDigit(e) && all == [a, b, c, d, e] + rest
    requires next == 100000 * acc + 10000 * (a as int - 48) + 1000 * (b as int - 48) + 100 * (c as int - 48) +
                     10 * (d as int - 48) + (e as int - 48)
    ensures Digits(all, acc) == Digits(rest, next)
  {
    DigitsConcat([a, b, c, d, e], rest, acc);
    FiveDigits(a, b, c, d, e, acc);
  }

  lemma DigitsValue(last: bytes)
    requires FiveDigitsLong(last)
    ensures Digits(LEADING + last, 0) == Value(last)
  {
    var rest: bytes := [51, 55, 48, 57, 53] + last;
    var more: bytes := [55, 52, 52, 48, 55] + rest;
    FiveMore(49, 56, 52, 52, 54, more, LEADING + last, 0, 18446);
    FiveMore(55, 52, 52, 48, 55, rest, more, 18446, 1844674407);
    FiveMore(51, 55, 48, 57, 53, last, rest, 1844674407, 184467440737095);
    assert last == [last[0], last[1], last[2], last[3], last[4]];
    FiveDigits(last[0], last[1], last[2], last[3], last[4], 184467440737095);
  }

  lemma LinesOfBlock(last: bytes)
    requires FiveDigitsLong(last)
    ensures Lines(Block(last)) == [START, LengthLine(last)]
  {
    var block, line := Block(last), LengthLine(last);
    assert block[..6] == START + [CR];
    assert LF !in block[..6];
    IndexIs(block, LF, 6);
    assert block[7..] == line;
    assert line[..|line|] == line;
    IndexIs(line, LF, |line|);
    assert DropCr(START + [CR]) == START;
    assert Lines(line) == [line];
  }

  lemma NoTrim(s: bytes)
    requires s != [] && !IsSpace(s[0]) && !IsSpace(s[|s| - 1])
    ensures Trim(s) == s
  {
  }

  lemma StartOfBlock()
    ensures StartLine(START).verb == [97] && StartLine(START).version == [99]
  {
    assert TrimLeft(START) == START;
    assert START[1..] == [32, 98, 32, 99];
    assert WordEnd(START) == 1;
    var b: bytes := [98, 32, 99];
    assert START[1..][1..] == b;
    assert TrimLeft(START[1..]) == b;
    assert b[1..] == [32, 99];
    assert WordEnd(b) == 1;
    var c: bytes := [99];
    assert b[1..][1..] == c;
    assert TrimLeft(b[1..]) == c;
    assert c[1..] == [];
    assert WordEnd(c) == 1;
  }

  lemma LengthValue(last: bytes)
    requires FiveDigitsLong(last) && Value(last) < TWO64
    ensures FromChars(LEADING + last, 0) == Value(last)
  {
    DigitsValue(last);
  }

  lemma LengthOfBlock(last: bytes, r: Request)
    requires FiveDigitsLong(last) && Value(last) < TWO64
    ensures HeaderLines([LengthLine(last)], r, 0).1 == Value(last)
  {
    var line := LengthLine(last);
    assert line[..14] == CONTENT_LENGTH;
    IndexIs(line, COLON, 14);
    assert line[15..] == LEADING + last;
    NoTrim(CONTENT_LENGTH);
    NoTrim(LEADING + last);
    assert ToLower(CONTENT_LENGTH) == CONTENT_LENGTH;
    LengthValue(last);
    assert [line][1..] == [];
  }

  lemma HeadOfBlock(last: bytes)
    requires FiveDigitsLong(last) && Value(last) < TWO64
    ensures ParseHead(Block(last)).Head? && ParseHead(Block(last)).contentLength == Value(last)
  {
    LinesOfBlock(last);
    StartOfBlock();
    var lines := [START, LengthLine(last)];
    assert lines[1..] == [LengthLine(last)];
    LengthOfBlock(last, StartLine(START));
  }

  lemma {:induction false} EndIs(s: bytes, i: nat, e: nat)
    requires i <= e && EndAt(s, e) && forall k: nat :: i <= k < e ==> !EndAt(s, k)
    ensures HeaderEnd(s, i) == Some(e)
    decreases e - i
  {
    if i < e {
      EndIs(s, i + 1, e);
    }
  }

  lemma EndOfBlock(last: bytes)
    requires FiveDigitsLong(last)
    ensures HeaderEnd(Stream(last), 0) == Some(42) && Stream(last)[..42] == Block(last) && |Stream(last)| == 47
  {
    var s, block := Stream(last), Block(last);
    forall k: nat | k < 42
      ensures !EndAt(s, k)
    {
      assert s[k] == block[k];
      if k == 5 {
        assert s[7] == block[7] == CONTENT_LENGTH[0];
      }
    }
    EndIs(s, 0, 42);
  }

  // A stream that is not settled, so its dispatch depends on how it is cut.
  lemma WrappedStreamDepends()
    ensures !Settled(RtspHead(), Stream(LARGEST)) && !Independent(RtspHead(), Stream(LARGEST))
  {
    EndOfBlock(LARGEST);
    HeadOfBlock(LARGEST);
    ChunkingIndependence(RtspHead(), Stream(LARGEST));
  }

  // A stream whose one request is dispatched for ever: 42 + 4 + its length is 2^64.
  lemma ExactStreamDiverges()
    ensures MeetsExactWrap(RtspHead(), Stream(EXACT)) && Drain(RtspHead(), Stream(EXACT)).Diverged?
  {
    EndOfBlock(EXACT);
    HeadOfBlock(EXACT);
    DivergesExactly(RtspHead(), Stream(EXACT));
  }
}
