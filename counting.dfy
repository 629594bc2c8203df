/**
 * A model of Python's `collections.Counter` as the pipeline uses it:
 * `Counter(xs).most_common(1)[0][0]`.
 *
 * A Counter keeps its keys in order of first insertion, and `most_common`
 * orders them by count with a stable sort, so the element chosen is the one
 * of largest count whose first occurrence in `xs` is earliest. On an empty
 * list `most_common(1)` is empty and indexing it fails; `MostCommon` then
 * returns `None`.
 */
module Counting {
  import opened Wrappers

  /** How many times `x` occurs in `s`: what `Counter(s)[x]` holds. */
  function Count<T(==)>(s: seq<T>, x: T): nat
  {
    if s == [] then 0
    else Count(s[..|s| - 1], x) + (if s[|s| - 1] == x then 1 else 0)
  }

  /** Position of the first occurrence of `x` in `s`. */
  function FirstIndex<T(==)>(s: seq<T>, x: T): (i: nat)
    requires x in s
    ensures i < |s| && s[i] == x && x !in s[..i]
  {
    if s[0] == x then 0
    else
      var j := FirstIndex(s[1..], x);
      assert s[..j + 1] == [s[0]] + s[1..][..j];
      1 + j
  }

  /** Any position holding `x` with no earlier `x` is the first one. */
  lemma FirstIndexUnique<T>(s: seq<T>, x: T, i: nat)
    requires i < |s| && s[i] == x && x !in s[..i]
    ensures FirstIndex(s, x) == i
  {
    var j := FirstIndex(s, x);
  }

  /**
   * `x` is what `Counter(s).most_common(1)[0][0]` returns: it occurs in `s`,
   * no element occurs more often, and every element seen before the first
   * `x` occurs strictly less often (ties go to the first-seen element).
   */
  ghost predicate IsPlurality<T>(s: seq<T>, x: T)
  {
    x in s
    && (forall y :: y in s ==> Count(s, y) <= Count(s, x))
    && (forall k :: 0 <= k < FirstIndex(s, x) ==> Count(s, s[k]) < Count(s, x))
  }

  /**
   * Position of the leader among the first `n` elements of `s`, counts taken
   * over all of `s`: a scan that moves to a later element only when its count
   * is strictly larger, so the earlier of two equal counts is kept.
   */
  function LeaderIndex<T(==)>(s: seq<T>, n: nat): (i: nat)
    requires 0 < n <= |s|
    ensures i < n
  {
    if n == 1 then 0
    else
      var best := LeaderIndex(s, n - 1);
      if Count(s, s[n - 1]) > Count(s, s[best]) then n - 1 else best
  }

  /**
   * The leader of a prefix lies in it, no element of the prefix has a larger
   * count, and every element before it has a strictly smaller count.
   */
  lemma {:induction false} LeaderOfPrefix<T>(s: seq<T>, n: nat)
    requires 0 < n <= |s|
    ensures forall k :: 0 <= k < n ==> Count(s, s[k]) <= Count(s, s[LeaderIndex(s, n)])
    ensures forall k :: 0 <= k < LeaderIndex(s, n) ==> Count(s, s[k]) < Count(s, s[LeaderIndex(s, n)])
  {
    if n > 1 {
      LeaderOfPrefix(s, n - 1);
    }
  }

  /** `Counter(s).most_common(1)[0][0]`, or `None` where that raises. */
  function MostCommon<T(==)>(s: seq<T>): Option<T>
  {
    if s == [] then None else Some(s[LeaderIndex(s, |s|)])
  }

  /**
   * `MostCommon` fails exactly on the empty list, and otherwise returns the
   * plurality of `s`, ties going to the first-seen element.
   */
  lemma MostCommonIsPlurality<T>(s: seq<T>)
    ensures MostCommon(s).None? <==> s == []
    ensures MostCommon(s).Some? ==> IsPlurality(s, MostCommon(s).value)
  {
    if s != [] {
      LeaderIsPlurality(s);
    }
  }

  lemma LeaderIsPlurality<T>(s: seq<T>)
    requires s != []
    ensures IsPlurality(s, s[LeaderIndex(s, |s|)])
  {
    var i := LeaderIndex(s, |s|);
    LeaderOfPrefix(s, |s|);
    var x := s[i];
    forall y | y in s
      ensures Count(s, y) <= Count(s, x)
    {
      var k :| 0 <= k < |s| && s[k] == y;
    }
    forall k | 0 <= k < i
      ensures s[k] != x
    {
      assert Count(s, s[k]) < Count(s, x);
    }
    FirstIndexUnique(s, x, i);
  }

  /** The plurality is unique: the predicate determines the element. */
  lemma PluralityUnique<T>(s: seq<T>, x: T, y: T)
    requires IsPlurality(s, x) && IsPlurality(s, y)
    ensures x == y
  {
    var i, j := FirstIndex(s, x), FirstIndex(s, y);
  }

  /**
   * Among elements of equal, maximal count, `MostCommon` picks the one that
   * occurs first; every other element of that count first occurs later.
   */
  lemma MostCommonTieBreak<T>(s: seq<T>, y: T)
    requires MostCommon(s).Some?
    requires y in s && y != MostCommon(s).value
    requires Count(s, y) == Count(s, MostCommon(s).value)
    ensures FirstIndex(s, MostCommon(s).value) < FirstIndex(s, y)
  {
    MostCommonIsPlurality(s);
    var x := MostCommon(s).value;
    var i, j := FirstIndex(s, x), FirstIndex(s, y);
  }
}
