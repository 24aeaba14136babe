/**
 Byte strings found inside longer ones.
 */
module Slices {
  import opened Words

  type bytes = seq<byte>

  // Does data hold b at o?
  ghost predicate At(data: bytes, o: nat, b: bytes) {
    o + |b| <= |data| && data[o..o + |b|] == b
  }

  lemma AtParts(data: bytes, o: nat, a: bytes, b: bytes, q: nat)
    requires At(data, o, a + b) && q == o + |a|
    ensures At(data, o, a) && At(data, q, b)
  {
    var s := data[o..o + |a + b|];
    assert s[..|a|] == a && s[|a|..] == b;
    assert data[o..q] == s[..|a|];
    assert data[q..q + |b|] == s[|a|..];
  }

  // What std::string::substr takes: n bytes from start on, or what there is of them.
  function Substr(s: bytes, start: nat, n: nat): bytes
    requires start <= |s|
  {
    if start + n <= |s| then s[start..start + n] else s[start..]
  }

  // The bytes of a text of ASCII characters.
  function Ascii(s: string): (b: bytes)
    ensures |b| == |s|
  {
    seq(|s|, (i: nat) requires i < |s| => s[i] as int % 256)
  }

  lemma Assoc(a: bytes, b: bytes, c: bytes)
    ensures a + (b + c) == (a + b) + c
  {
  }
}
