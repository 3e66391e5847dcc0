/** Ascending lists of heights. */
module Heights {
  import opened Wrappers
  import opened QueryData

  ghost predicate Increasing(s: seq<nat>) { forall i, j :: 0 <= i < j < |s| ==> s[i] < s[j] }

  lemma IncreasingSnoc(s: seq<nat>, n: nat)
    requires Increasing(s) && forall h :: h in s ==> h < n
    ensures Increasing(s + [n])
  {
    assert forall i :: 0 <= i < |s| ==> s[i] in s;
  }

  ghost predicate SameHeights(a: seq<nat>, b: seq<nat>) { forall h :: h in a <==> h in b }

  lemma SameLast(a: seq<nat>, b: seq<nat>)
    requires Increasing(a) && Increasing(b) && SameHeights(a, b) && a != []
    ensures b != [] && a[|a| - 1] == b[|b| - 1]
  {
    assert a[|a| - 1] in b;
    assert b[|b| - 1] in a;
  }

  lemma InFront(a: seq<nat>, b: seq<nat>, last: nat)
    requires forall i :: 0 <= i < |a| ==> a[i] < last
    requires forall h :: h in a + [last] ==> h in b + [last]
    ensures forall h :: h in a ==> h in b
  {
    forall h | h in a ensures h in b {
      var i :| 0 <= i < |a| && a[i] == h;
      assert (a + [last])[i] == h;
      assert h in b + [last];
    }
  }

  /** Two ascending lists of the same heights are the same list. */
  lemma {:induction false} AscendingUnique(a: seq<nat>, b: seq<nat>)
    requires Increasing(a) && Increasing(b) && SameHeights(a, b)
    ensures a == b
    decreases |a|
  {
    if a == [] {
      assert b == [] by { if b != [] { SameLast(b, a); } }
    } else {
      SameLast(a, b);
      var x := a[|a| - 1];
      var a', b' := a[..|a| - 1], b[..|b| - 1];
      assert a == a' + [x] && b == b' + [x];
      InFront(a', b', x);
      InFront(b', a', x);
      assert SameHeights(a', b');
      AscendingUnique(a', b');
    }
  }

  /** The heights from `lo` to `hi`, exclusive. */
  function Interval(lo: nat, hi: nat): (r: seq<nat>)
    ensures |r| == if lo <= hi then hi - lo else 0
    ensures forall i :: 0 <= i < |r| ==> r[i] == lo + i
    ensures Increasing(r)
  {
    seq(if lo <= hi then hi - lo else 0, i requires 0 <= i => lo + i)
  }

  lemma InInterval(lo: nat, hi: nat, h: nat)
    ensures h in Interval(lo, hi) <==> lo <= h < hi
  {
    if lo <= h < hi { assert Interval(lo, hi)[h - lo] == h; }
  }

  /** What a range query on a plain sequence yields: the items in the range, missing ones as errors. */
  function RowsOf<T>(view: seq<Option<T>>, start: Bound, end: Bound): (r: seq<QueryResult<T>>)
    ensures var rows := Interval(FirstOf(start), LimitOf(end, |view|));
            |r| == |rows| && forall k :: 0 <= k < |r| ==> r[k] == AsResult(view[rows[k]])
  {
    var rows := Interval(FirstOf(start), LimitOf(end, |view|));
    seq(|rows|, k requires 0 <= k < |rows| => AsResult(view[rows[k]]))
  }

  /** These are exactly the items whose position is in the range, in order. */
  lemma RowsOfIsRange<T>(view: seq<Option<T>>, start: Bound, end: Bound)
    ensures var r := RowsOf(view, start, end);
            && (forall i: nat :: i < |view| ==> (InRange(i, start, end) <==> FirstOf(start) <= i < FirstOf(start) + |r|))
            && (forall k :: 0 <= k < |r| ==> FirstOf(start) + k < |view| && r[k] == AsResult(view[FirstOf(start) + k]))
  {
  }

  function Missings<T>(n: nat): (r: seq<QueryResult<T>>)
    ensures |r| == n && forall i :: 0 <= i < n ==> r[i] == Missing
  {
    seq(n, i => Missing)
  }

  /** How many positions of a range lie between `m` and `n`. */
  function MissedBy(start: Bound, end: Bound, m: nat, n: nat): nat {
    SaturatingSub(LimitOf(end, n), Max(FirstOf(start), m))
  }

  /** Placeholders at the end of the sequence come out as missing items at the end. */
  lemma RowsOfPadded<T>(view: seq<Option<T>>, all: seq<Option<T>>, start: Bound, end: Bound)
    requires |view| <= |all|
    requires forall i :: 0 <= i < |all| ==> all[i] == if i < |view| then view[i] else None
    ensures RowsOf(all, start, end) == RowsOf(view, start, end) + Missings(MissedBy(start, end, |view|, |all|))
  {
  }
}
