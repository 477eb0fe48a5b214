/**
 * The in-place forward Fisher-Yates shuffle the grid uses on its palette.
 * Position `i` (for every position but the last) is swapped with position
 * `i + d[i]`, where the random offset `d[i]` is below the number of
 * still-unshuffled elements; an offset of 0 is skipped. The random offsets
 * are supplied by the caller.
 */
module Shuffle {

  /** Offsets a collection of `n` elements consumes: one per position but the last, each in range. */
  ghost predicate ValidOffsets(n: nat, d: seq<nat>)
  {
    |d| == (if n > 1 then n - 1 else 0) &&
    forall i :: 0 <= i < |d| ==> d[i] < n - i
  }

  /** Exchanges positions `i` and `j`. */
  function Swap<T>(s: seq<T>, i: nat, j: nat): (r: seq<T>)
    requires i < |s| && j < |s|
    ensures |r| == |s| && r[i] == s[j] && r[j] == s[i]
    ensures forall k :: 0 <= k < |s| && k != i && k != j ==> r[k] == s[k]
  {
    s[i := s[j]][j := s[i]]
  }

  lemma SwapPermutes<T>(s: seq<T>, i: nat, j: nat)
    requires i < |s| && j < |s|
    ensures multiset(Swap(s, i, j)) == multiset(s)
  {
  }

  /** The shuffle from position `i` on. */
  function ShuffleFrom<T>(s: seq<T>, d: seq<nat>, i: nat): (r: seq<T>)
    requires ValidOffsets(|s|, d) && i <= |d|
    ensures |r| == |s|
    decreases |d| - i
  {
    if i == |d| then s
    else if d[i] == 0 then ShuffleFrom(s, d, i + 1)
    else ShuffleFrom(Swap(s, i, i + d[i]), d, i + 1)
  }

  /** The shuffle from any position on is a permutation. */
  lemma {:induction false} ShuffleFromPermutes<T>(s: seq<T>, d: seq<nat>, i: nat)
    requires ValidOffsets(|s|, d) && i <= |d|
    ensures multiset(ShuffleFrom(s, d, i)) == multiset(s)
    decreases |d| - i
  {
    if i < |d| {
      if d[i] == 0 {
        ShuffleFromPermutes(s, d, i + 1);
      } else {
        SwapPermutes(s, i, i + d[i]);
        ShuffleFromPermutes(Swap(s, i, i + d[i]), d, i + 1);
      }
    }
  }

  /** What the whole shuffle makes of `s` under the offsets `d`: a permutation of `s`. */
  function Shuffled<T>(s: seq<T>, d: seq<nat>): (r: seq<T>)
    requires ValidOffsets(|s|, d)
    ensures |r| == |s| && multiset(r) == multiset(s)
  {
    ShuffleFromPermutes(s, d, 0);
    ShuffleFrom(s, d, 0)
  }

  /** One step of the shuffle: position `i` is swapped with `i + d[i]` unless the offset is 0. */
  lemma ShuffleStep<T>(s: seq<T>, d: seq<nat>, i: nat)
    requires ValidOffsets(|s|, d) && i < |d|
    ensures i + d[i] < |s|
    ensures ShuffleFrom(s, d, i) == ShuffleFrom(if d[i] == 0 then s else Swap(s, i, i + d[i]), d, i + 1)
  {
  }

  /** A collection of at most one element is left as it is. */
  lemma ShortUnchanged<T>(s: seq<T>, d: seq<nat>)
    requires ValidOffsets(|s|, d) && |s| <= 1
    ensures Shuffled(s, d) == s
  {
  }

  /** Offsets that are all 0 perform no swap, so the collection is left as it is. */
  lemma {:induction false} ZeroOffsetsUnchanged<T>(s: seq<T>, d: seq<nat>, i: nat)
    requires ValidOffsets(|s|, d) && i <= |d|
    requires forall k :: i <= k < |d| ==> d[k] == 0
    ensures ShuffleFrom(s, d, i) == s
    decreases |d| - i
  {
    if i < |d| {
      ZeroOffsetsUnchanged(s, d, i + 1);
    }
  }

  /** Positions before `i` are no longer touched by the shuffle from `i` on. */
  lemma {:induction false} ShuffledPrefixFixed<T>(s: seq<T>, d: seq<nat>, i: nat, k: nat)
    requires ValidOffsets(|s|, d) && i <= |d| && k < i
    ensures ShuffleFrom(s, d, i)[k] == s[k]
    decreases |d| - i
  {
    if i < |d| {
      ShuffleStep(s, d, i);
      var t := if d[i] == 0 then s else Swap(s, i, i + d[i]);
      assert t[k] == s[k];
      ShuffledPrefixFixed(t, d, i + 1, k);
    }
  }

  /** Shuffles `a` in place; the result is a permutation of the old contents. */
  method ShuffleInPlace<T>(a: array<T>, d: seq<nat>)
    requires ValidOffsets(a.Length, d)
    modifies a
    ensures a[..] == Shuffled(old(a[..]), d)
    ensures multiset(a[..]) == multiset(old(a[..]))
  {
    var c := a.Length;
    if c <= 1 {
      return;
    }
    var firstUnshuffled := 0;
    while firstUnshuffled < c - 1
      invariant 0 <= firstUnshuffled <= c - 1
      invariant Shuffled(old(a[..]), d) == ShuffleFrom(a[..], d, firstUnshuffled)
    {
      ghost var before := a[..];
      ShuffleStep(before, d, firstUnshuffled);
      var offset := d[firstUnshuffled];
      if offset != 0 {
        var i := firstUnshuffled + offset;
        a[firstUnshuffled], a[i] := a[i], a[firstUnshuffled];
        assert a[..] == Swap(before, firstUnshuffled, i);
      }
      firstUnshuffled := firstUnshuffled + 1;
    }
  }

  /** A shuffled copy of `s`; `s` itself, a value, is not affected. */
  method ShuffledCopy<T>(s: seq<T>, d: seq<nat>) returns (r: seq<T>)
    requires ValidOffsets(|s|, d)
    ensures r == Shuffled(s, d)
    ensures |r| == |s| && multiset(r) == multiset(s)
  {
    if |s| == 0 {
      return [];
    }
    var result := new T[|s|](i requires 0 <= i < |s| => s[i]);
    assert result[..] == s;
    ShuffleInPlace(result, d);
    r := result[..];
  }
}
