/** Ranking of recalled memories: an in-place insertion sort by descending score, and the
    merge of per-scope results that were already trimmed to the limit. */
module Ranking {

  datatype Memory = Memory(id: string, score: real)

  predicate Descending(s: seq<Memory>) {
    forall i, j | 0 <= i < j < |s| :: s[i].score >= s[j].score
  }

  /** Put `x` behind everything that scores at least as much. */
  function Insert(s: seq<Memory>, x: Memory): seq<Memory> {
    if s == [] || x.score <= s[|s| - 1].score then s + [x]
    else Insert(s[..|s| - 1], x) + [s[|s| - 1]]
  }

  function Sorted(s: seq<Memory>): seq<Memory> {
    if s == [] then [] else Insert(Sorted(s[..|s| - 1]), s[|s| - 1])
  }

  // ----- The sort -----

  lemma {:induction false} InsertLength(s: seq<Memory>, x: Memory)
    ensures |Insert(s, x)| == |s| + 1
  {
    if s != [] && x.score > s[|s| - 1].score {
      InsertLength(s[..|s| - 1], x);
    }
  }

  lemma {:induction false} SortedLength(s: seq<Memory>)
    ensures |Sorted(s)| == |s|
  {
    if s != [] {
      SortedLength(s[..|s| - 1]);
      InsertLength(Sorted(s[..|s| - 1]), s[|s| - 1]);
    }
  }

  /** `x` has moved down to position `j` of the sorted prefix `p`, which is what inserting
      it into the part above still has to do. */
  ghost predicate Sinking(row: seq<Memory>, p: seq<Memory>, x: Memory, j: nat) {
    && j <= |p| && row == p[..j] + [x] + p[j..]
    && Insert(p, x) == Insert(p[..j], x) + p[j..]
  }

  lemma SinkOne(row: seq<Memory>, p: seq<Memory>, x: Memory, j: nat)
    requires Sinking(row, p, x, j) && 0 < j && x.score > p[j - 1].score
    ensures row[j] == x && row[j - 1] == p[j - 1]
    ensures Sinking(row[j := row[j - 1]][j - 1 := x], p, x, j - 1)
  {
    var front := p[..j];
    assert front[..j - 1] == p[..j - 1] && front[j - 1] == p[j - 1];
    assert Insert(front, x) == Insert(p[..j - 1], x) + [p[j - 1]];
    assert p[j - 1..] == [p[j - 1]] + p[j..];
    assert Insert(p, x) == Insert(p[..j - 1], x) + p[j - 1..];
    assert row[j := row[j - 1]][j - 1 := x] == p[..j - 1] + [x] + p[j - 1..];
  }

  /** The inner loop: sink element `i` into the sorted prefix above it. */
  method SinkInto(a: array<Memory>, i: nat)
    requires i < a.Length
    modifies a
    ensures a[..i + 1] == Insert(old(a[..i]), old(a[i])) && a[i + 1..] == old(a[i + 1..])
  {
    ghost var p, x, rest := a[..i], a[i], a[i + 1..];
    var j := i;
    assert p[..i] == p && p[i..] == [] && a[..i + 1] == p + [x] + [];
    while 0 < j && a[j].score > a[j - 1].score
      invariant 0 <= j <= i
      invariant Sinking(a[..i + 1], p, x, j)
      invariant a[i + 1..] == rest
    {
      ghost var row := a[..i + 1];
      assert row[j] == a[j] && row[j - 1] == a[j - 1];
      SinkOne(row, p, x, j);
      a[j], a[j - 1] := a[j - 1], a[j];
      assert a[..i + 1] == row[j := row[j - 1]][j - 1 := x];
      j := j - 1;
    }
    assert j > 0 ==> a[..i + 1][j] == a[j] && a[..i + 1][j - 1] == a[j - 1];
    SinkDone(a[..i + 1], p, x, j);
  }

  lemma SortedMore(s: seq<Memory>, i: nat)
    requires i < |s|
    ensures Sorted(s[..i + 1]) == Insert(Sorted(s[..i]), s[i])
  {
    assert s[..i + 1][..i] == s[..i];
  }

  method SortScoredMemories(a: array<Memory>)
    modifies a
    ensures a[..] == Sorted(old(a[..]))
  {
    ghost var was := a[..];
    if a.Length == 0 {
      return;
    }
    var i := 1;
    assert was[..1][..0] == [] && Sorted(was[..1]) == was[..1];
    while i < a.Length
      invariant 1 <= i <= a.Length
      invariant a[..i] == Sorted(was[..i])
      invariant a[i..] == was[i..]
    {
      SortedMore(was, i);
      assert a[i] == a[i..][0] && was[i] == was[i..][0];
      assert a[i + 1..] == a[i..][1..] && was[i + 1..] == was[i..][1..];
      SinkInto(a, i);
      i := i + 1;
    }
    assert was[..a.Length] == was && a[..a.Length] == a[..];
  }

  lemma SinkDone(row: seq<Memory>, p: seq<Memory>, x: Memory, j: nat)
    requires Sinking(row, p, x, j) && (j == 0 || x.score <= p[j - 1].score)
    ensures row == Insert(p, x)
  {
    assert Insert(p[..j], x) == p[..j] + [x];
  }

  // ----- It is a stable descending permutation, and nothing else is -----

  predicate AllAtLeast(s: seq<Memory>, v: real) {
    forall i | 0 <= i < |s| :: s[i].score >= v
  }

  lemma {:induction false} InsertAllAtLeast(s: seq<Memory>, x: Memory, v: real)
    requires AllAtLeast(s, v) && x.score >= v
    ensures AllAtLeast(Insert(s, x), v)
  {
    if s != [] && x.score > s[|s| - 1].score {
      InsertAllAtLeast(s[..|s| - 1], x, v);
    }
  }

  lemma {:induction false} InsertDescends(s: seq<Memory>, x: Memory)
    requires Descending(s)
    ensures Descending(Insert(s, x))
  {
    if s != [] && x.score > s[|s| - 1].score {
      InsertDescends(s[..|s| - 1], x);
      InsertAllAtLeast(s[..|s| - 1], x, s[|s| - 1].score);
    }
  }

  lemma {:induction false} SortedDescends(s: seq<Memory>)
    ensures Descending(Sorted(s))
  {
    if s != [] {
      SortedDescends(s[..|s| - 1]);
      InsertDescends(Sorted(s[..|s| - 1]), s[|s| - 1]);
    }
  }

  /** The memories that score exactly `v`, in order. */
  function WithScore(s: seq<Memory>, v: real): seq<Memory> {
    if s == [] then []
    else WithScore(s[..|s| - 1], v) + One(s[|s| - 1], v)
  }

  function One(x: Memory, v: real): seq<Memory> {
    if x.score == v then [x] else []
  }

  lemma {:induction false} InsertIsStable(s: seq<Memory>, x: Memory, v: real)
    ensures WithScore(Insert(s, x), v) == WithScore(s, v) + One(x, v)
  {
    var n := |s| - 1;
    if s == [] || x.score <= s[n].score {
      assert (s + [x])[..|s|] == s;
    } else {
      var front := s[..n];
      InsertIsStable(front, x, v);
      calc {
        WithScore(Insert(s, x), v);
        { assert (Insert(front, x) + [s[n]])[..|Insert(front, x)|] == Insert(front, x); }
        WithScore(Insert(front, x), v) + One(s[n], v);
        (WithScore(front, v) + One(x, v)) + One(s[n], v);
        { assert One(x, v) == [] || One(s[n], v) == []; }
        (WithScore(front, v) + One(s[n], v)) + One(x, v);
        WithScore(s, v) + One(x, v);
      }
    }
  }

  lemma {:induction false} InsertPermutes(s: seq<Memory>, x: Memory)
    ensures multiset(Insert(s, x)) == multiset(s) + multiset{x}
  {
    var n := |s| - 1;
    if s != [] && x.score > s[n].score {
      InsertPermutes(s[..n], x);
      LastCounts(s, n);
    }
  }

  /** The sort permutes, and memories of equal score keep their order. */
  lemma {:induction false} SortedIsStable(s: seq<Memory>, v: real)
    ensures WithScore(Sorted(s), v) == WithScore(s, v)
  {
    if s != [] {
      SortedIsStable(s[..|s| - 1], v);
      InsertIsStable(Sorted(s[..|s| - 1]), s[|s| - 1], v);
    }
  }

  lemma {:induction false} SortedPermutes(s: seq<Memory>)
    ensures multiset(Sorted(s)) == multiset(s)
  {
    if s != [] {
      var n := |s| - 1;
      SortedPermutes(s[..n]);
      InsertPermutes(Sorted(s[..n]), s[n]);
      LastCounts(s, n);
    }
  }

  lemma {:induction false} WithScoreHasLast(s: seq<Memory>, v: real)
    ensures WithScore(s, v) != [] ==> exists i :: 0 <= i < |s| && s[i].score == v
  {
    if s != [] {
      WithScoreHasLast(s[..|s| - 1], v);
      if WithScore(s[..|s| - 1], v) != [] {
        var i :| 0 <= i < |s| - 1 && s[..|s| - 1][i].score == v;
        assert s[i].score == v;
      } else if WithScore(s, v) != [] {
        assert s[|s| - 1].score == v;
      }
    }
  }

  ghost predicate SameClasses(a: seq<Memory>, b: seq<Memory>) {
    forall v: real :: WithScore(a, v) == WithScore(b, v)
  }

  lemma LastHasItsScore(s: seq<Memory>)
    requires s != []
    ensures WithScore(s, s[|s| - 1].score) != []
  {
    assert One(s[|s| - 1], s[|s| - 1].score) != [];
  }

  lemma EmptyIsAlone(a: seq<Memory>, b: seq<Memory>)
    requires a == [] && SameClasses(a, b)
    ensures b == []
  {
    if b != [] {
      LastHasItsScore(b);
    }
  }

  lemma LastScoresAgree(a: seq<Memory>, b: seq<Memory>)
    requires Descending(a) && Descending(b) && SameClasses(a, b) && a != []
    ensures b != [] && b[|b| - 1].score <= a[|a| - 1].score
  {
    var v := a[|a| - 1].score;
    assert WithScore(a, v) != [];
    assert WithScore(b, v) != [];
    WithScoreHasLast(b, v);
  }

  lemma LastsAgree(a: seq<Memory>, b: seq<Memory>)
    requires Descending(a) && Descending(b) && SameClasses(a, b) && a != []
    ensures b != [] && a[|a| - 1] == b[|b| - 1]
  {
    LastScoresAgree(a, b);
    LastScoresAgree(b, a);
    var v := a[|a| - 1].score;
    assert WithScore(a, v) == WithScore(b, v);
    assert WithScore(a, v)[|WithScore(a, v)| - 1] == a[|a| - 1];
    assert WithScore(b, v)[|WithScore(b, v)| - 1] == b[|b| - 1];
  }

  /** Descending order and stability determine the result. */
  lemma {:induction false} StableSortIsUnique(a: seq<Memory>, b: seq<Memory>)
    requires Descending(a) && Descending(b) && SameClasses(a, b)
    ensures a == b
  {
    if a == [] {
      EmptyIsAlone(a, b);
    } else {
      LastsAgree(a, b);
      var m, n := |a| - 1, |b| - 1;
      forall w: real
        ensures WithScore(a[..m], w) == WithScore(b[..n], w)
      {
        assert WithScore(a, w) == WithScore(b, w);
        SameWithoutLast(a, b, w);
      }
      StableSortIsUnique(a[..m], b[..n]);
      assert a == a[..m] + [a[m]] && b == b[..n] + [b[n]];
    }
  }

  lemma SameWithoutLast(a: seq<Memory>, b: seq<Memory>, w: real)
    requires a != [] && b != [] && a[|a| - 1] == b[|b| - 1] && WithScore(a, w) == WithScore(b, w)
    ensures WithScore(a[..|a| - 1], w) == WithScore(b[..|b| - 1], w)
  {
    CancelSuffix(WithScore(a[..|a| - 1], w), WithScore(b[..|b| - 1], w), One(a[|a| - 1], w));
  }

  lemma CancelSuffix(p: seq<Memory>, q: seq<Memory>, r: seq<Memory>)
    requires p + r == q + r
    ensures p == q
  {
    assert |p + r| == |q + r|;
    assert p == (p + r)[..|p|] && q == (q + r)[..|q|];
  }

  // ----- Counting scores -----

  /** How many memories score at least `v`. */
  function AtLeast(s: seq<Memory>, v: real): nat {
    if s == [] then 0 else AtLeast(s[..|s| - 1], v) + (if s[|s| - 1].score >= v then 1 else 0)
  }

  lemma {:induction false} AtLeastJoin(s: seq<Memory>, t: seq<Memory>, v: real)
    ensures AtLeast(s + t, v) == AtLeast(s, v) + AtLeast(t, v)
  {
    if t == [] {
      assert s + t == s;
    } else {
      AtLeastJoin(s, t[..|t| - 1], v);
      assert (s + t)[..|s + t| - 1] == s + t[..|t| - 1];
    }
  }

  lemma {:induction false} AtLeastPermutes(s: seq<Memory>, t: seq<Memory>, v: real)
    requires multiset(s) == multiset(t)
    ensures AtLeast(s, v) == AtLeast(t, v) && |s| == |t|
    decreases |s|
  {
    assert |s| == |multiset(s)| == |t|;
    if s != [] {
      var n := |s| - 1;
      assert s[n] in multiset(t);
      var k :| 0 <= k < |t| && t[k] == s[n];
      DropEqual(s, t, k);
      AtLeastPermutes(s[..n], t[..k] + t[k + 1..], v);
      assert t == t[..k] + ([t[k]] + t[k + 1..]);
      AtLeastJoin(t[..k], [t[k]] + t[k + 1..], v);
      AtLeastJoin([t[k]], t[k + 1..], v);
      AtLeastJoin(t[..k], t[k + 1..], v);
      assert AtLeast([t[k]], v) == if t[k].score >= v then 1 else 0;
    }
  }

  lemma LastCounts(s: seq<Memory>, n: nat)
    requires |s| == n + 1
    ensures multiset(s) == multiset(s[..n]) + multiset{s[n]}
  {
    assert s == s[..n] + [s[n]];
  }

  lemma MiddleCounts(t: seq<Memory>, k: nat)
    requires k < |t|
    ensures multiset(t) == multiset(t[..k] + t[k + 1..]) + multiset{t[k]}
  {
    assert t == t[..k] + ([t[k]] + t[k + 1..]);
  }

  lemma CancelOne(a: multiset<Memory>, b: multiset<Memory>, x: Memory)
    requires a + multiset{x} == b + multiset{x}
    ensures a == b
  {
    assert a == (a + multiset{x}) - multiset{x};
    assert b == (b + multiset{x}) - multiset{x};
  }

  lemma DropEqual(s: seq<Memory>, t: seq<Memory>, k: nat)
    requires s != [] && multiset(s) == multiset(t) && k < |t| && t[k] == s[|s| - 1]
    ensures multiset(s[..|s| - 1]) == multiset(t[..k] + t[k + 1..])
  {
    LastCounts(s, |s| - 1);
    MiddleCounts(t, k);
    CancelOne(multiset(s[..|s| - 1]), multiset(t[..k] + t[k + 1..]), t[k]);
  }

  /** In descending order, the memories that score at least `v` come first. */
  lemma {:induction false} AtLeastIsAPrefix(s: seq<Memory>, v: real)
    requires Descending(s)
    ensures AtLeast(s, v) <= |s| && forall i | 0 <= i < |s| :: s[i].score >= v <==> i < AtLeast(s, v)
  {
    if s != [] {
      AtLeastIsAPrefix(s[..|s| - 1], v);
      assert forall i | 0 <= i < |s| - 1 :: s[..|s| - 1][i] == s[i];
    }
  }

  function Trim(s: seq<Memory>, limit: nat): seq<Memory> {
    if |s| > limit then s[..limit] else s
  }

  function Min(m: nat, n: nat): nat {
    if m <= n then m else n
  }

  lemma AtLeastOfTrim(s: seq<Memory>, limit: nat, v: real)
    requires Descending(s)
    ensures Descending(Trim(s, limit)) && AtLeast(Trim(s, limit), v) == Min(limit, AtLeast(s, v))
  {
    var t := Trim(s, limit);
    AtLeastIsAPrefix(s, v);
    AtLeastIsAPrefix(t, v);
    var c, d := AtLeast(s, v), AtLeast(t, v);
    assert d < |t| ==> t[d].score < v && s[d] == t[d];
    assert 0 < d ==> t[d - 1].score >= v && s[d - 1] == t[d - 1];
  }

  function Scores(s: seq<Memory>): seq<real> {
    seq(|s|, i requires 0 <= i < |s| => s[i].score)
  }

  lemma SameCountsSameScores(a: seq<Memory>, b: seq<Memory>)
    requires Descending(a) && Descending(b) && forall v: real :: AtLeast(a, v) == AtLeast(b, v)
    ensures Scores(a) == Scores(b)
  {
    if a != [] {
      AtLeastIsAPrefix(a, a[|a| - 1].score);
      AtLeastIsAPrefix(b, a[|a| - 1].score);
    }
    if b != [] {
      AtLeastIsAPrefix(a, b[|b| - 1].score);
      AtLeastIsAPrefix(b, b[|b| - 1].score);
    }
    assert |a| == |b|;
    forall i | 0 <= i < |a|
      ensures a[i].score == b[i].score
    {
      AtLeastIsAPrefix(a, a[i].score);
      AtLeastIsAPrefix(b, a[i].score);
      AtLeastIsAPrefix(a, b[i].score);
      AtLeastIsAPrefix(b, b[i].score);
    }
  }

  // ----- Merging trimmed results -----

  /** `r` is the first `limit` of some descending arrangement of `s`: which of several
      memories with equal scores it holds is left open. */
  ghost predicate TopOf(r: seq<Memory>, s: seq<Memory>, limit: nat) {
    exists p :: multiset(p) == multiset(s) && Descending(p) && r == Trim(p, limit)
  }

  function Concat(lists: seq<seq<Memory>>): seq<Memory> {
    if lists == [] then [] else Concat(lists[..|lists| - 1]) + lists[|lists| - 1]
  }

  /** The union holds every list, in order, and nothing else. */
  lemma {:induction false} ConcatIs(a: seq<seq<Memory>>, b: seq<seq<Memory>>, one: seq<Memory>)
    ensures Concat([]) == [] && Concat([one]) == one && Concat(a + b) == Concat(a) + Concat(b)
  {
    assert [one][..0] == [] && [] + one == one;
    if b == [] {
      assert a + b == a && Concat(a) + [] == Concat(a);
    } else {
      ConcatIs(a, b[..|b| - 1], one);
      assert (a + b)[..|a + b| - 1] == a + b[..|b| - 1];
    }
  }

  lemma TopCounts(r: seq<Memory>, s: seq<Memory>, limit: nat, v: real)
    requires TopOf(r, s, limit)
    ensures Descending(r) && AtLeast(r, v) == Min(limit, AtLeast(s, v))
  {
    var p :| multiset(p) == multiset(s) && Descending(p) && r == Trim(p, limit);
    AtLeastPermutes(p, s, v);
    AtLeastOfTrim(p, limit, v);
  }

  lemma {:induction false} TrimmedCounts(tops: seq<seq<Memory>>, lists: seq<seq<Memory>>, limit: nat, v: real)
    requires |tops| == |lists| && forall i | 0 <= i < |lists| :: TopOf(tops[i], lists[i], limit)
    ensures Min(limit, AtLeast(Concat(tops), v)) == Min(limit, AtLeast(Concat(lists), v))
  {
    if lists != [] {
      var n := |lists| - 1;
      TrimmedCounts(tops[..n], lists[..n], limit, v);
      TopCounts(tops[n], lists[n], limit, v);
      AtLeastJoin(Concat(tops[..n]), tops[n], v);
      AtLeastJoin(Concat(lists[..n]), lists[n], v);
    }
  }

  /** Merging the tops of each scope and taking the top of that gives the same scores as
      taking the top of everything. */
  lemma TopOfTops(tops: seq<seq<Memory>>, lists: seq<seq<Memory>>, limit: nat, r: seq<Memory>, best: seq<Memory>)
    requires |tops| == |lists| && forall i | 0 <= i < |lists| :: TopOf(tops[i], lists[i], limit)
    requires TopOf(r, Concat(tops), limit) && TopOf(best, Concat(lists), limit)
    ensures Scores(r) == Scores(best)
  {
    TopCounts(r, Concat(tops), limit, 0.0);
    TopCounts(best, Concat(lists), limit, 0.0);
    forall v: real
      ensures AtLeast(r, v) == AtLeast(best, v)
    {
      TopCounts(r, Concat(tops), limit, v);
      TopCounts(best, Concat(lists), limit, v);
      TrimmedCounts(tops, lists, limit, v);
    }
    SameCountsSameScores(r, best);
  }

  /** The merge in MemorySlice.Recall; each scope's results come from UnifiedMemory.Recall,
      which trimmed them to the same limit. */
  method MergeScopes(results: seq<seq<Memory>>, optLimit: int) returns (r: seq<Memory>)
    ensures TopOf(r, Concat(results), if optLimit > 0 then optLimit else 10)
    ensures r == Trim(Sorted(Concat(results)), if optLimit > 0 then optLimit else 10)
  {
    var all: seq<Memory> := [];
    for i := 0 to |results|
      invariant all == Concat(results[..i])
    {
      all := all + results[i];
      assert results[..i + 1][..i] == results[..i];
    }
    assert results[..|results|] == results;
    var a := new Memory[|all|](i requires 0 <= i < |all| => all[i]);
    assert a[..] == all;
    SortScoredMemories(a);
    SortedPermutes(all);
    SortedDescends(all);
    var limit: nat := if optLimit > 0 then optLimit else 10;
    r := if a.Length > limit then a[..limit] else a[..];
    SortedLength(all);
  }
}
