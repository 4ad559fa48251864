/** `SELECT col, COUNT(*) ... GROUP BY col [ORDER BY count DESC] [LIMIT n]`
    over a column of non-NULL values, read into a Python dict (so an ordered
    list of key/count pairs). */
module GroupBy {
  import opened Ordering

  datatype Group = Group(key: string, count: nat)

  predicate HasKey(g: seq<Group>, k: string) {
    exists i :: 0 <= i < |g| && g[i].key == k
  }

  predicate DistinctKeys(g: seq<Group>) {
    forall i, j :: 0 <= i < j < |g| ==> g[i].key != g[j].key
  }

  /** The sum of the counts. */
  function Total(g: seq<Group>): nat {
    if g == [] then 0 else Total(g[..|g| - 1]) + g[|g| - 1].count
  }

  /** Every listed group is a value of the column, listed once, with the
      number of rows holding it. */
  ghost predicate CountsOf(g: seq<Group>, vals: seq<string>) {
    && DistinctKeys(g)
    && forall i :: 0 <= i < |g| ==> g[i].key in vals && g[i].count == multiset(vals)[g[i].key]
  }

  /** Every value of the column has a group. */
  ghost predicate Covers(g: seq<Group>, vals: seq<string>) {
    forall v :: v in vals ==> HasKey(g, v)
  }

  lemma {:induction false} TotalCons(x: Group, s: seq<Group>)
    ensures Total([x] + s) == x.count + Total(s)
    decreases |s|
  {
    if s != [] {
      assert ([x] + s)[..|s|] == [x] + s[..|s| - 1];
      TotalCons(x, s[..|s| - 1]);
    }
  }

  lemma {:induction false} TotalUpdate(g: seq<Group>, j: nat, x: Group)
    requires j < |g|
    ensures Total(g[j := x]) + g[j].count == Total(g) + x.count
    decreases |g|
  {
    if j < |g| - 1 {
      assert g[j := x][..|g| - 1] == g[..|g| - 1][j := x];
      TotalUpdate(g[..|g| - 1], j, x);
    } else {
      assert g[j := x][..|g| - 1] == g[..|g| - 1];
    }
  }

  /** One more row with value `v`: its group's count goes up by one, or a
      new group with count one is added at the end. */
  function Bump(g: seq<Group>, v: string): seq<Group> {
    if HasKey(g, v) then
      seq(|g|, i requires 0 <= i < |g| => if g[i].key == v then Group(v, g[i].count + 1) else g[i])
    else
      g + [Group(v, 1)]
  }

  lemma BumpExisting(g: seq<Group>, vals: seq<string>, v: string, j: nat)
    requires CountsOf(g, vals) && Covers(g, vals) && Total(g) == |vals|
    requires j < |g| && g[j].key == v
    ensures Bump(g, v) == g[j := Group(v, g[j].count + 1)]
    ensures CountsOf(Bump(g, v), vals + [v])
    ensures Covers(Bump(g, v), vals + [v])
    ensures Total(Bump(g, v)) == |vals| + 1
  {
    assert HasKey(g, v);
    var r := g[j := Group(v, g[j].count + 1)];
    assert Bump(g, v) == r;
    var vals' := vals + [v];
    TotalUpdate(g, j, Group(v, g[j].count + 1));
    forall i | 0 <= i < |r| ensures r[i].key in vals' && r[i].count == multiset(vals')[r[i].key] {
      assert r[i].key == g[i].key;
    }
    forall u | u in vals' ensures HasKey(r, u) {
      if u != v {
        assert u in vals;
        var i :| 0 <= i < |g| && g[i].key == u;
        assert r[i].key == u;
      } else {
        assert r[j].key == u;
      }
    }
  }

  lemma BumpNew(g: seq<Group>, vals: seq<string>, v: string)
    requires CountsOf(g, vals) && Covers(g, vals) && Total(g) == |vals|
    requires !HasKey(g, v)
    ensures CountsOf(Bump(g, v), vals + [v])
    ensures Covers(Bump(g, v), vals + [v])
    ensures Total(Bump(g, v)) == |vals| + 1
  {
    var r := g + [Group(v, 1)];
    assert Bump(g, v) == r;
    var vals' := vals + [v];
    assert v !in vals;
    assert r[..|r| - 1] == g;
    forall i | 0 <= i < |r| ensures r[i].key in vals' && r[i].count == multiset(vals')[r[i].key] {
      if i < |g| {
        assert r[i] == g[i];
        assert g[i].key != v;
      }
    }
    forall u | u in vals' ensures HasKey(r, u) {
      if u != v {
        assert u in vals;
        var i :| 0 <= i < |g| && g[i].key == u;
        assert r[i].key == u;
      } else {
        assert r[|g|].key == u;
      }
    }
  }

  lemma BumpTallies(g: seq<Group>, vals: seq<string>, v: string)
    requires CountsOf(g, vals) && Covers(g, vals) && Total(g) == |vals|
    ensures CountsOf(Bump(g, v), vals + [v])
    ensures Covers(Bump(g, v), vals + [v])
    ensures Total(Bump(g, v)) == |vals| + 1
  {
    if HasKey(g, v) {
      var j :| 0 <= j < |g| && g[j].key == v;
      BumpExisting(g, vals, v, j);
    } else {
      BumpNew(g, vals, v);
    }
  }

  /** GROUP BY: one group per distinct value, in order of first appearance. */
  function Tally(vals: seq<string>): (g: seq<Group>)
    ensures CountsOf(g, vals) && Covers(g, vals)
    ensures Total(g) == |vals|
  {
    if vals == [] then []
    else
      var init := vals[..|vals| - 1];
      var v := vals[|vals| - 1];
      assert vals == init + [v];
      var g := Tally(init);
      BumpTallies(g, init, v);
      Bump(g, v)
  }

  /** ORDER BY count DESC. */
  function MostFirst(a: Group, b: Group): bool {
    a.count >= b.count
  }

  lemma MostFirstIsPreorder()
    ensures TotalPreorder(MostFirst)
  {
  }

  lemma {:induction false} InsertKeepsDistinct(x: Group, s: seq<Group>)
    requires TotalPreorder(MostFirst) && Ordered(s, MostFirst)
    requires DistinctKeys(s) && !HasKey(s, x.key)
    ensures DistinctKeys(Insert(x, s, MostFirst))
    decreases |s|
  {
    if s != [] && !MostFirst(x, s[0]) {
      assert !HasKey(s[1..], x.key) by {
        forall i | 0 <= i < |s[1..]| ensures s[1..][i].key != x.key {
          assert s[1..][i] == s[i + 1];
        }
      }
      InsertKeepsDistinct(x, s[1..]);
      var tail := Insert(x, s[1..], MostFirst);
      assert Insert(x, s, MostFirst) == [s[0]] + tail;
      forall k | 0 <= k < |tail| ensures tail[k].key != s[0].key {
        assert tail[k] in multiset(s[1..]) + multiset{x};
        if tail[k] != x {
          assert tail[k] in s[1..];
        }
      }
    }
  }

  lemma {:induction false} InsertKeepsTotal(x: Group, s: seq<Group>)
    requires TotalPreorder(MostFirst) && Ordered(s, MostFirst)
    ensures Total(Insert(x, s, MostFirst)) == x.count + Total(s)
    decreases |s|
  {
    if s == [] || MostFirst(x, s[0]) {
      TotalCons(x, s);
    } else {
      var tail := Insert(x, s[1..], MostFirst);
      calc {
        Total(Insert(x, s, MostFirst));
        Total([s[0]] + tail);
        { TotalCons(s[0], tail); }
        s[0].count + Total(tail);
        { InsertKeepsTotal(x, s[1..]); }
        s[0].count + x.count + Total(s[1..]);
        { TotalCons(s[0], s[1..]); }
        x.count + Total([s[0]] + s[1..]);
        { assert s == [s[0]] + s[1..]; }
        x.count + Total(s);
      }
    }
  }

  lemma {:induction false} SortKeepsGroups(t: seq<Group>)
    requires TotalPreorder(MostFirst)
    requires DistinctKeys(t)
    ensures DistinctKeys(Sort(t, MostFirst))
    ensures Total(Sort(t, MostFirst)) == Total(t)
  {
    if t != [] {
      assert t == [t[0]] + t[1..];
      SortKeepsGroups(t[1..]);
      var rest := Sort(t[1..], MostFirst);
      assert Sort(t, MostFirst) == Insert(t[0], rest, MostFirst);
      forall k | 0 <= k < |rest| ensures rest[k].key != t[0].key {
        assert rest[k] in multiset(t[1..]);
        assert rest[k] in t[1..];
      }
      InsertKeepsDistinct(t[0], rest);
      InsertKeepsTotal(t[0], rest);
      TotalCons(t[0], t[1..]);
    }
  }

  /** A permutation of a tally is a tally of the same column. */
  lemma PermutedTally(t: seq<Group>, r: seq<Group>, vals: seq<string>)
    requires CountsOf(t, vals) && Covers(t, vals)
    requires multiset(r) == multiset(t) && DistinctKeys(r)
    ensures CountsOf(r, vals) && Covers(r, vals)
  {
    forall i | 0 <= i < |r| ensures r[i].key in vals && r[i].count == multiset(vals)[r[i].key] {
      assert r[i] in multiset(t);
      var j :| 0 <= j < |t| && t[j] == r[i];
    }
    forall v | v in vals ensures HasKey(r, v) {
      var j :| 0 <= j < |t| && t[j].key == v;
      assert t[j] in multiset(r);
      var i :| 0 <= i < |r| && r[i] == t[j];
    }
  }

  /** GROUP BY ... ORDER BY count DESC: the groups, most rows first. */
  function Ranked(vals: seq<string>): (g: seq<Group>)
    ensures CountsOf(g, vals) && Covers(g, vals)
    ensures Total(g) == |vals|
    ensures Ordered(g, MostFirst)
  {
    MostFirstIsPreorder();
    var t := Tally(vals);
    SortKeepsGroups(t);
    var r := Sort(t, MostFirst);
    PermutedTally(t, r, vals);
    r
  }

  /** Cutting an ordered, covering tally after n groups leaves out only
      values with no more rows than any group kept. */
  lemma PrefixOmitsFewest(r: seq<Group>, vals: seq<string>, n: nat)
    requires CountsOf(r, vals) && Covers(r, vals) && Ordered(r, MostFirst) && n <= |r|
    ensures CountsOf(r[..n], vals) && Ordered(r[..n], MostFirst)
    ensures forall i, v :: 0 <= i < n && v in vals && !HasKey(r[..n], v) ==> multiset(vals)[v] <= r[..n][i].count
  {
    var g := r[..n];
    assert forall k :: 0 <= k < n ==> g[k] == r[k];
    forall i, v | 0 <= i < n && v in vals && !HasKey(r[..n], v)
      ensures multiset(vals)[v] <= g[i].count
    {
      var j :| 0 <= j < |r| && r[j].key == v;
      assert forall k :: 0 <= k < n ==> g[k].key != v;
      assert n <= j;
      assert MostFirst(r[i], r[j]);
    }
  }

  /** ... LIMIT n: at most n groups, most rows first; a value left out has no
      more rows than any group kept, and nothing is left out unless the
      limit was reached. */
  function TopRanked(vals: seq<string>, n: nat): (g: seq<Group>)
    ensures |g| <= n
    ensures CountsOf(g, vals) && Ordered(g, MostFirst)
    ensures |g| < n ==> Covers(g, vals)
    ensures forall i, v :: 0 <= i < |g| && v in vals && !HasKey(g, v) ==> multiset(vals)[v] <= g[i].count
  {
    var r := Ranked(vals);
    if |r| <= n then r
    else
      PrefixOmitsFewest(r, vals, n);
      r[..n]
  }
}
