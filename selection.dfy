/**
 * The two table operations the pipeline relies on besides counting: keeping
 * the rows that satisfy a condition (a boolean-mask selection of a data
 * frame) and listing the distinct values of a column in order of first
 * appearance (`Series.unique()`).
 */
module Selection {
  import Counting

  /** The elements of `s` that satisfy `keep`, in their original order. */
  function Filter<T>(keep: T -> bool, s: seq<T>): (r: seq<T>)
    ensures |r| <= |s|
    ensures forall k :: 0 <= k < |r| ==> keep(r[k]) && r[k] in s
  {
    if s == [] then []
    else Filter(keep, s[..|s| - 1]) + (if keep(s[|s| - 1]) then [s[|s| - 1]] else [])
  }

  ghost predicate Increasing(idx: seq<nat>)
  {
    forall i, j :: 0 <= i < j < |idx| ==> idx[i] < idx[j]
  }

  /** The positions of `s` whose element satisfies `keep`, in increasing order. */
  function KeptPositions<T>(keep: T -> bool, s: seq<T>): seq<nat>
  {
    if s == [] then []
    else KeptPositions(keep, s[..|s| - 1]) + (if keep(s[|s| - 1]) then [|s| - 1] else [])
  }

  /** The kept positions are positions of `s`, listed in increasing order. */
  lemma {:induction false} KeptPositionsIncreasing<T>(keep: T -> bool, s: seq<T>)
    ensures forall k :: 0 <= k < |KeptPositions(keep, s)| ==> KeptPositions(keep, s)[k] < |s|
    ensures Increasing(KeptPositions(keep, s))
  {
    if s != [] {
      var n := |s| - 1;
      KeptPositionsIncreasing(keep, s[..n]);
      var front := KeptPositions(keep, s[..n]);
      var idx := KeptPositions(keep, s);
      forall a, b | 0 <= a < b < |idx|
        ensures idx[a] < idx[b]
      {
        assert idx[a] == front[a];
      }
    }
  }

  /** Reading `s` at the kept positions gives the selection. */
  lemma {:induction false} KeptPositionsRead<T>(keep: T -> bool, s: seq<T>)
    ensures |KeptPositions(keep, s)| == |Filter(keep, s)|
    ensures forall k :: 0 <= k < |Filter(keep, s)| ==>
      KeptPositions(keep, s)[k] < |s| && Filter(keep, s)[k] == s[KeptPositions(keep, s)[k]]
  {
    KeptPositionsIncreasing(keep, s);
    if s != [] {
      var n := |s| - 1;
      KeptPositionsRead(keep, s[..n]);
      var front := KeptPositions(keep, s[..n]);
      var kept := Filter(keep, s[..n]);
      forall k | 0 <= k < |kept|
        ensures Filter(keep, s)[k] == s[front[k]]
      {
        assert Filter(keep, s)[k] == kept[k] == s[..n][front[k]];
      }
    }
  }

  /** A position is kept exactly when its element satisfies `keep`. */
  lemma {:induction false} KeptPositionsComplete<T>(keep: T -> bool, s: seq<T>)
    ensures forall i :: 0 <= i < |s| ==> (keep(s[i]) <==> i in KeptPositions(keep, s))
  {
    if s != [] {
      var n := |s| - 1;
      KeptPositionsComplete(keep, s[..n]);
      KeptPositionsIncreasing(keep, s[..n]);
      var front := KeptPositions(keep, s[..n]);
      assert n !in front;
      forall i | 0 <= i < n
        ensures keep(s[i]) <==> i in KeptPositions(keep, s)
      {
        assert s[..n][i] == s[i];
      }
    }
  }

  /**
   * `Filter` keeps exactly the satisfying positions and keeps them in order:
   * the result is `s` read at an increasing sequence of positions, and those
   * positions are all the positions whose element satisfies `keep`.
   */
  lemma FilterPositions<T>(keep: T -> bool, s: seq<T>) returns (idx: seq<nat>)
    ensures |idx| == |Filter(keep, s)| && Increasing(idx)
    ensures forall k :: 0 <= k < |idx| ==> idx[k] < |s| && Filter(keep, s)[k] == s[idx[k]]
    ensures forall i :: 0 <= i < |s| ==> (keep(s[i]) <==> i in idx)
  {
    idx := KeptPositions(keep, s);
    KeptPositionsIncreasing(keep, s);
    KeptPositionsRead(keep, s);
    KeptPositionsComplete(keep, s);
  }

  /** Nothing is selected when no element satisfies `keep`. */
  lemma {:induction false} FilterNone<T>(keep: T -> bool, s: seq<T>)
    requires forall i :: 0 <= i < |s| ==> !keep(s[i])
    ensures Filter(keep, s) == []
  {
    if s != [] {
      FilterNone(keep, s[..|s| - 1]);
    }
  }

  /** The number of elements of `s` that satisfy `keep`. */
  function Matching<T>(keep: T -> bool, s: seq<T>): nat
  {
    if s == [] then 0
    else Matching(keep, s[..|s| - 1]) + (if keep(s[|s| - 1]) then 1 else 0)
  }

  /** The length of a selection is the number of elements it selects. */
  lemma {:induction false} FilterLength<T>(keep: T -> bool, s: seq<T>)
    ensures |Filter(keep, s)| == Matching(keep, s)
  {
    if s != [] {
      FilterLength(keep, s[..|s| - 1]);
    }
  }

  /** The distinct elements of `s` in order of first appearance. */
  function Unique<T(==)>(s: seq<T>): seq<T>
  {
    if s == [] then []
    else
      var front := Unique(s[..|s| - 1]);
      if s[|s| - 1] in front then front else front + [s[|s| - 1]]
  }

  /** `Unique` lists every element of `s` exactly once and nothing else. */
  lemma {:induction false} UniqueContents<T>(s: seq<T>)
    ensures forall i, j :: 0 <= i < j < |Unique(s)| ==> Unique(s)[i] != Unique(s)[j]
    ensures forall k :: 0 <= k < |Unique(s)| ==> Unique(s)[k] in s
    ensures forall k :: 0 <= k < |s| ==> s[k] in Unique(s)
  {
    if s != [] {
      var n := |s| - 1;
      UniqueContents(s[..n]);
      var front := Unique(s[..n]);
      var r := Unique(s);
      assert s == s[..n] + [s[n]];
      forall k | 0 <= k < |r|
        ensures r[k] in s
      {
        if k < |front| {
          assert r[k] == front[k];
        }
      }
      forall k | 0 <= k < |s|
        ensures s[k] in r
      {
        if k < n {
          assert s[..n][k] == s[k];
        }
      }
    }
  }

  /** `Unique` lists values in the order in which they first occur in `s`. */
  lemma {:induction false} UniqueInFirstAppearanceOrder<T>(s: seq<T>, i: nat, j: nat)
    requires i < j < |Unique(s)|
    ensures Unique(s)[i] in s && Unique(s)[j] in s
    ensures Counting.FirstIndex(s, Unique(s)[i]) < Counting.FirstIndex(s, Unique(s)[j])
  {
    var n := |s| - 1;
    var front := Unique(s[..n]);
    UniqueContents(s);
    UniqueContents(s[..n]);
    assert s == s[..n] + [s[n]];
    assert Unique(s)[i] == front[i];
    PrefixFirstIndex(s, n, Unique(s)[i]);
    if j < |front| {
      UniqueInFirstAppearanceOrder(s[..n], i, j);
      PrefixFirstIndex(s, n, Unique(s)[j]);
    } else {
      assert Unique(s)[j] == s[n] && s[n] !in s[..n];
      Counting.FirstIndexUnique(s, s[n], n);
    }
  }

  /** A value occurring in a prefix has the same first position in the whole. */
  lemma PrefixFirstIndex<T>(s: seq<T>, n: nat, x: T)
    requires n <= |s| && x in s[..n]
    ensures Counting.FirstIndex(s, x) == Counting.FirstIndex(s[..n], x) < n
  {
    var i := Counting.FirstIndex(s[..n], x);
    assert s[..n][..i] == s[..i];
    Counting.FirstIndexUnique(s, x, i);
  }
}
