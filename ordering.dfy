/** Sorting by a total preorder. SQL's ORDER BY leaves the relative order of
    rows with equal sort keys unspecified; a result is acceptable when it is a
    permutation of the rows in which every row may come before every later
    one. Sort below produces one such result (the stable one). */
module Ordering {

  /** `before(a, b)`: `a` may be listed ahead of `b`. */
  ghost predicate TotalPreorder<T(!new)>(before: (T, T) -> bool) {
    && (forall a, b :: before(a, b) || before(b, a))
    && (forall a, b, c :: before(a, b) && before(b, c) ==> before(a, c))
  }

  predicate Ordered<T>(s: seq<T>, before: (T, T) -> bool) {
    forall i, j :: 0 <= i < j < |s| ==> before(s[i], s[j])
  }

  /** An element that may precede every element of an ordered sequence
      keeps it ordered when put in front. */
  lemma ConsOrdered<T>(y: T, t: seq<T>, before: (T, T) -> bool)
    requires Ordered(t, before) && forall k :: 0 <= k < |t| ==> before(y, t[k])
    ensures Ordered([y] + t, before)
  {
    var r := [y] + t;
    forall i, j | 0 <= i < j < |r| ensures before(r[i], r[j]) {
      assert r[j] == t[j - 1];
      if 0 < i {
        assert r[i] == t[i - 1];
      }
    }
  }

  function Insert<T(==,!new)>(x: T, s: seq<T>, before: (T, T) -> bool): (r: seq<T>)
    requires TotalPreorder(before) && Ordered(s, before)
    ensures |r| == |s| + 1
    ensures multiset(r) == multiset(s) + multiset{x}
    ensures Ordered(r, before)
  {
    if s == [] then [x]
    else if before(x, s[0]) then [x] + s
    else
      var tail := Insert(x, s[1..], before);
      assert s == [s[0]] + s[1..];
      assert forall k :: 0 <= k < |tail| ==> before(s[0], tail[k]) by {
        forall k | 0 <= k < |tail| ensures before(s[0], tail[k]) {
          assert tail[k] in multiset(s[1..]) + multiset{x};
          if tail[k] != x {
            assert tail[k] in s[1..];
          }
        }
      }
      ConsOrdered(s[0], tail, before);
      [s[0]] + tail
  }

  /** A permitted ORDER BY result: ordered, and a permutation of the input. */
  function Sort<T(==,!new)>(s: seq<T>, before: (T, T) -> bool): (r: seq<T>)
    requires TotalPreorder(before)
    ensures |r| == |s|
    ensures multiset(r) == multiset(s)
    ensures Ordered(r, before)
  {
    if s == [] then []
    else
      assert s == [s[0]] + s[1..];
      Insert(s[0], Sort(s[1..], before), before)
  }
}
