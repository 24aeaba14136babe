/**
 Strided output buffers: frames of equal width laid into a sequence at a fixed step.
 */
module Frames {
  import opened Words

  function Put<T>(s: seq<T>, p: nat, f: seq<T>): (r: seq<T>)
    ensures |r| == |s|
  {
    if p + |f| <= |s| then s[..p] + f + s[p + |f|..] else s
  }

  // The buffer s after frames f(0), ..., f(n - 1) went in at start, start + step, ...
  ghost function PutAll<T>(s: seq<T>, start: nat, step: nat, f: nat -> seq<T>, n: nat): (r: seq<T>)
    ensures |r| == |s|
  {
    if n == 0 then s else PutOne(PutAll(s, start, step, f, n - 1), start + Times(n - 1, step), f(n - 1))
  }

  ghost function PutOne<T>(s: seq<T>, p: int, f: seq<T>): (r: seq<T>)
    ensures |r| == |s|
  {
    if p < 0 then s else Put(s, p, f)
  }

  // n frames of the given width at the given step stay within a buffer of len slots.
  ghost predicate Room(start: nat, step: nat, width: nat, n: nat, len: nat) {
    n == 0 || start + Times(n - 1, step) + width <= len
  }

  lemma {:induction false} TimesSum(a: nat, b: nat, m: int)
    ensures Times(a + b, m) == Times(a, m) + Times(b, m)
  {
    if b > 0 {
      TimesSum(a, b - 1, m);
      assert a + b - 1 == a + (b - 1);
    }
  }

  lemma TimesMono(a: nat, b: nat, m: nat)
    requires a <= b
    ensures 0 <= Times(a, m) <= Times(b, m)
    ensures a < b ==> Times(a, m) + m <= Times(b, m)
  {
    TimesNat(a, m);
    TimesSum(a, b - a, m);
    TimesNat(b - a, m);
    if a < b {
      TimesNat(b - a - 1, m);
    }
  }

  // Room for all the frames is room for each.
  lemma RoomFor(start: nat, step: nat, width: nat, n: nat, len: nat, j: nat)
    requires Room(start, step, width, n, len) && j < n
    ensures Times(j, step) >= 0 && start + Times(j, step) + width <= len
  {
    TimesMono(j, n - 1, step);
  }

  lemma PutAt<T>(s: seq<T>, p: nat, f: seq<T>, q: nat)
    requires p + |f| <= |s| && q < |s|
    ensures Put(s, p, f)[q] == if p <= q < p + |f| then f[q - p] else s[q]
  {
  }

  // Slot i of frame j holds what frame j put there: later frames do not reach it.
  lemma {:induction false} FrameReadBack<T>(s: seq<T>, start: nat, step: nat, f: nat -> seq<T>, width: nat, n: nat,
                                            j: nat, i: nat, q: nat)
    requires width <= step && Room(start, step, width, n, |s|) && j < n && i < width
    requires forall a :: |f(a)| == width
    requires q == start + Times(j, step) + i
    ensures q < |s| && PutAll(s, start, step, f, n)[q] == f(j)[i]
    decreases n
  {
    RoomFor(start, step, width, n, |s|, n - 1);
    RoomFor(start, step, width, n, |s|, j);
    var before := PutAll(s, start, step, f, n - 1);
    PutAt(before, start + Times(n - 1, step), f(n - 1), q);
    if j < n - 1 {
      TimesMono(j, n - 1, step);
      RoomFor(start, step, width, n, |s|, n - 2);
      FrameReadBack(s, start, step, f, width, n - 1, j, i, q);
    }
  }

  // A slot outside every frame keeps its value.
  lemma {:induction false} OutsideKept<T>(s: seq<T>, start: nat, step: nat, f: nat -> seq<T>, width: nat, n: nat,
                                          q: nat)
    requires Room(start, step, width, n, |s|) && q < |s|
    requires forall a :: |f(a)| == width
    requires forall a: nat | a < n :: q < start + Times(a, step) || start + Times(a, step) + width <= q
    ensures PutAll(s, start, step, f, n)[q] == s[q]
    decreases n
  {
    if n > 0 {
      RoomFor(start, step, width, n, |s|, n - 1);
      PutAt(PutAll(s, start, step, f, n - 1), start + Times(n - 1, step), f(n - 1), q);
      if n > 1 {
        RoomFor(start, step, width, n, |s|, n - 2);
      }
      OutsideKept(s, start, step, f, width, n - 1, q);
    }
  }

  // Slots of the other channels of a frame, and those of frames past the last, keep their value.
  lemma OtherSlotsKept<T>(s: seq<T>, start: nat, step: nat, f: nat -> seq<T>, width: nat, n: nat, j: nat, c: nat,
                          q: nat)
    requires Room(start, step, width, n, |s|) && start + width <= step && c < step
    requires forall a :: |f(a)| == width
    requires q == Times(j, step) + c && q < |s|
    requires c < start || start + width <= c || n <= j
    ensures PutAll(s, start, step, f, n)[q] == s[q]
  {
    forall a: nat | a < n
      ensures q < start + Times(a, step) || start + Times(a, step) + width <= q
    {
      if a < j {
        TimesMono(a, j, step);
      } else if j < a {
        TimesMono(j, a, step);
      }
    }
    OutsideKept(s, start, step, f, width, n, q);
  }
}
