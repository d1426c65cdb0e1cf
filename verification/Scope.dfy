/** Hierarchical memory scopes: paths of slash-separated segments, and the store that
    forgets a scope together with everything below it. */
module Scope {

  function NormalizeScope(s: string): string {
    if s == "" then "/"
    else
      var t := if s[0] == '/' then s else "/" + s;
      if |t| > 1 && t[|t| - 1] == '/' then t[..|t| - 1] else t
  }

  predicate HasPrefix(s: string, p: string) {
    |p| <= |s| && s[..|p|] == p
  }

  predicate InScope(recordScope: string, filter: string) {
    var rec := NormalizeScope(recordScope);
    var f := NormalizeScope(filter);
    f == "/" || rec == f || HasPrefix(rec, f + "/")
  }

  // ----- Paths as lists of segments -----

  function SlashAt(s: string): (n: nat)
    ensures n <= |s|
  {
    if s == "" || s[0] == '/' then 0 else 1 + SlashAt(s[1..])
  }

  lemma {:induction false} SlashAtIs(s: string)
    ensures (forall i | 0 <= i < SlashAt(s) :: s[i] != '/') && (SlashAt(s) < |s| ==> s[SlashAt(s)] == '/')
  {
    if s != "" && s[0] != '/' {
      SlashAtIs(s[1..]);
    }
  }

  /** The pieces between the slashes, one more than there are slashes. */
  function Split(s: string): (r: seq<string>)
    ensures r != []
    decreases |s|
  {
    var n := SlashAt(s);
    if n == |s| then [s] else [s[..n]] + Split(s[n + 1..])
  }

  /** The segments below the root that a scope names. */
  function Segments(scope: string): seq<string> {
    var t := NormalizeScope(scope);
    if t == "/" || t == "" then [] else Split(t[1..])
  }

  /** `p` is where `q` is or above it. */
  predicate Above(p: seq<string>, q: seq<string>) {
    |p| <= |q| && q[..|p|] == p
  }

  lemma NormalizedForm(s: string)
    ensures var t := NormalizeScope(s); t != "" && t[0] == '/'
  {
  }

  lemma SplitStep(s: string, n: nat, head: string, tail: string)
    requires SlashAt(s) == n < |s| && s[..n] == head && s[n + 1..] == tail
    ensures Split(s) == [head] + Split(tail)
  {
  }

  lemma SlashOf(p: string, rest: string)
    ensures SlashAt(p) < |p| ==> SlashAt(p + rest) == SlashAt(p)
    ensures SlashAt(p) == |p| && rest != "" && rest[0] == '/' ==> SlashAt(p + rest) == |p|
  {
    var s := p + rest;
    assert forall i | 0 <= i < |p| :: s[i] == p[i];
    assert rest != "" ==> s[|p|] == rest[0];
    SlashAtIs(p);
    SlashAtIs(s);
  }

  lemma CutAt(p: string, rest: string, n: nat)
    requires n < |p|
    ensures (p + "/" + rest)[..n] == p[..n]
    ensures (p + "/" + rest)[n + 1..] == p[n + 1..] + "/" + rest
  {
  }

  lemma CutAtEnd(p: string, rest: string)
    ensures (p + "/" + rest)[..|p|] == p
    ensures (p + "/" + rest)[|p| + 1..] == rest
  {
  }

  lemma SlashInside(p: string, rest: string)
    ensures SlashAt(p + "/" + rest) == SlashAt(p)
  {
    assert p + "/" + rest == p + ("/" + rest);
    SlashOf(p, "/" + rest);
  }

  lemma Grouped(a: seq<string>, b: seq<string>, c: seq<string>)
    ensures a + (b + c) == (a + b) + c
  {
  }

  /** The segments of `p/rest` are those of `p` followed by those of `rest`. */
  lemma {:induction false} SplitAppend(p: string, rest: string)
    ensures Split(p + "/" + rest) == Split(p) + Split(rest)
    decreases |p|
  {
    var n := SlashAt(p);
    SlashInside(p, rest);
    if n == |p| {
      CutAtEnd(p, rest);
      SplitStep(p + "/" + rest, n, p, rest);
    } else {
      var q := p[n + 1..];
      CutAt(p, rest, n);
      SplitStep(p + "/" + rest, n, p[..n], q + "/" + rest);
      SplitAppend(q, rest);
      SplitStep(p, n, p[..n], q);
      Grouped([p[..n]], Split(q), Split(rest));
    }
  }

  /** Segments put back behind slashes. */
  function Path(segments: seq<string>): string {
    if |segments| == 0 then ""
    else if |segments| == 1 then segments[0]
    else segments[0] + "/" + Path(segments[1..])
  }

  lemma {:induction false} PathOfSplit(s: string)
    ensures Path(Split(s)) == s
    decreases |s|
  {
    var n := SlashAt(s);
    if n < |s| {
      SlashAtIs(s);
      PathOfSplit(s[n + 1..]);
      var r := Split(s);
      assert r[1..] == Split(s[n + 1..]);
      assert s == s[..n] + "/" + s[n + 1..];
    }
  }

  lemma {:induction false} PathAppend(p: seq<string>, q: seq<string>)
    requires p != [] && q != []
    ensures Path(p + q) == Path(p) + "/" + Path(q)
  {
    if |p| == 1 {
      assert (p + q)[1..] == q;
    } else {
      PathAppend(p[1..], q);
      assert (p + q)[1..] == p[1..] + q;
    }
  }

  lemma PrefixGoesAbove(p: string, s: string)
    requires s == p || HasPrefix(s, p + "/")
    ensures Above(Split(p), Split(s))
  {
    if s != p {
      var rest := s[|p| + 1..];
      assert s == p + "/" + rest;
      SplitAppend(p, rest);
    }
  }

  lemma PathOfMore(p: string, s: string, more: seq<string>)
    requires Split(s) == Split(p) + more
    ensures s == if more == [] then p else p + "/" + Path(more)
  {
    PathOfSplit(p);
    PathOfSplit(s);
    if more == [] {
      assert Split(s) == Split(p);
    } else {
      PathAppend(Split(p), more);
    }
  }

  lemma AboveIsPrefix(p: string, s: string)
    requires Above(Split(p), Split(s))
    ensures s == p || HasPrefix(s, p + "/")
  {
    var more := Split(s)[|Split(p)|..];
    assert Split(s) == Split(p) + more;
    PathOfMore(p, s, more);
    if more != [] {
      assert (p + "/" + Path(more))[..|p| + 1] == p + "/";
    }
  }

  /** On normalized text below the root, string prefixes that end at a slash are exactly
      the prefixes of the list of segments. */
  lemma PrefixIsAbove(p: string, s: string)
    ensures (s == p || HasPrefix(s, p + "/")) <==> Above(Split(p), Split(s))
  {
    if s == p || HasPrefix(s, p + "/") {
      PrefixGoesAbove(p, s);
    } else if Above(Split(p), Split(s)) {
      AboveIsPrefix(p, s);
    }
  }

  lemma PrefixBelowSlash(p: string, s: string)
    requires p != "" && s != "" && p[0] == s[0] == '/'
    ensures (s == p || HasPrefix(s, p + "/")) <==> (s[1..] == p[1..] || HasPrefix(s[1..], p[1..] + "/"))
  {
    assert s == [s[0]] + s[1..] && p == [p[0]] + p[1..];
    var q := p + "/";
    var q1 := p[1..] + "/";
    assert q == [p[0]] + q1;
    if |q| <= |s| {
      assert s[..|q|] == [s[0]] + s[1..][..|q1|];
    }
  }

  /** A record is in a scope exactly when the scope's segments begin the record's. */
  lemma InScopeIsAbove(recordScope: string, filter: string)
    ensures InScope(recordScope, filter) <==> Above(Segments(filter), Segments(recordScope))
  {
    var rec, f := NormalizeScope(recordScope), NormalizeScope(filter);
    NormalizedForm(recordScope);
    NormalizedForm(filter);
    if f != "/" {
      PrefixBelowSlash(f, rec);
      if rec == "/" {
        assert Split(f[1..]) != [];
      } else {
        PrefixIsAbove(f[1..], rec[1..]);
      }
    }
  }

  lemma AboveChains(p: seq<string>, q: seq<string>, r: seq<string>)
    ensures Above(p, q) && Above(q, r) ==> Above(p, r)
    ensures Above(p, r) && Above(q, r) ==> Above(p, q) || Above(q, p)
  {
    if Above(p, q) && Above(q, r) {
      assert r[..|p|] == r[..|q|][..|p|];
    }
    if Above(p, r) && Above(q, r) {
      if |p| <= |q| {
        assert q[..|p|] == r[..|q|][..|p|] == r[..|p|];
      } else {
        assert p[..|q|] == r[..|p|][..|q|] == r[..|q|];
      }
    }
  }

  /** Scopes nest: being in scope is transitive, and two scopes that share a record are
      one inside the other. */
  lemma ScopesNest(a: string, b: string, c: string)
    ensures InScope(c, b) && InScope(b, a) ==> InScope(c, a)
    ensures InScope(c, a) && InScope(c, b) ==> InScope(b, a) || InScope(a, b)
  {
    InScopeIsAbove(c, b);
    InScopeIsAbove(b, a);
    InScopeIsAbove(c, a);
    InScopeIsAbove(a, b);
    AboveChains(Segments(a), Segments(b), Segments(c));
  }

  /** Two scopes contain each other exactly when they normalize to the same text. */
  lemma MutualScopesAreEqual(a: string, b: string)
    ensures InScope(a, b) && InScope(b, a) <==> NormalizeScope(a) == NormalizeScope(b)
  {
    NormalizedForm(a);
    NormalizedForm(b);
  }

  // ----- Spellings of a path -----

  predicate IsSegment(s: string) {
    s != "" && '/' !in s
  }

  lemma {:induction false} NoSlash(s: string)
    requires '/' !in s
    ensures SlashAt(s) == |s|
  {
    if s != "" {
      NoSlash(s[1..]);
    }
  }

  lemma {:induction false} SplitOfPath(segments: seq<string>)
    requires segments != [] && forall s | s in segments :: IsSegment(s)
    ensures Split(Path(segments)) == segments
  {
    assert IsSegment(segments[0]);
    NoSlash(segments[0]);
    if |segments| > 1 {
      SplitOfPath(segments[1..]);
      SplitAppend(segments[0], Path(segments[1..]));
    }
    assert segments == [segments[0]] + segments[1..];
  }

  lemma {:induction false} PathEnds(segments: seq<string>)
    requires segments != [] && forall s | s in segments :: IsSegment(s)
    ensures var p := Path(segments); p != "" && p[0] != '/' && p[|p| - 1] != '/'
  {
    assert IsSegment(segments[0]);
    if |segments| > 1 {
      PathEnds(segments[1..]);
    }
  }

  lemma NormalizedSpellings(p: string)
    requires p != "" && p[0] != '/' && p[|p| - 1] != '/'
    ensures NormalizeScope(p) == NormalizeScope("/" + p) == "/" + p
    ensures NormalizeScope(p + "/") == NormalizeScope("/" + p + "/") == "/" + p
  {
    assert ("/" + p)[|p|] == p[|p| - 1];
    assert "/" + (p + "/") == "/" + p + "/";
    assert ("/" + p + "/")[..|p| + 1] == "/" + p;
    assert ("/" + p + "/")[0] == '/' && (p + "/")[0] == p[0];
  }

  /** A path may be written with or without a slash at either end. */
  lemma SpellingsAgree(segments: seq<string>)
    requires segments != [] && forall s | s in segments :: IsSegment(s)
    ensures var p := Path(segments);
            && Segments(p) == Segments("/" + p) == segments
            && Segments(p + "/") == Segments("/" + p + "/") == segments
    ensures Segments("") == Segments("/") == []
  {
    var p := Path(segments);
    PathEnds(segments);
    SplitOfPath(segments);
    NormalizedSpellings(p);
    assert ("/" + p)[1..] == p;
  }

  // ----- The store -----

  /** The metadata of an item names its scope as text, or it does not. */
  datatype ScopeLabel = Unlabelled | Labelled(scope: string)
  datatype Item = Item(id: string, scopeLabel: ScopeLabel)

  function RecordScope(item: Item): string {
    if item.scopeLabel.Labelled? then item.scopeLabel.scope else ""
  }

  function OutOfScope(items: seq<Item>, scope: string): seq<Item> {
    if items == [] then []
    else
      var last := items[|items| - 1];
      var kept := OutOfScope(items[..|items| - 1], scope);
      if InScope(RecordScope(last), scope) then kept else kept + [last]
  }

  class InMemCosineStore {
    var items: seq<Item>

    constructor ()
      ensures items == []
    {
      items := [];
    }

    method Add(item: Item)
      modifies this
      ensures items == old(items) + [item]
    {
      items := items + [item];
    }

    /** Keeps the items outside the scope, in their order, and counts the others. */
    method DeleteScope(scope: string) returns (deleted: nat)
      modifies this
      ensures items == OutOfScope(old(items), scope)
      ensures deleted == |old(items)| - |items|
    {
      var kept: seq<Item> := [];
      deleted := 0;
      var i := 0;
      while i < |items|
        invariant 0 <= i <= |items| && items == old(items)
        invariant kept == OutOfScope(items[..i], scope) && deleted == i - |kept|
      {
        assert items[..i + 1][..i] == items[..i];
        if InScope(RecordScope(items[i]), scope) {
          deleted := deleted + 1;
        } else {
          kept := kept + [items[i]];
        }
        i := i + 1;
      }
      assert items[..i] == items;
      items := kept;
    }
  }

  lemma CountOfLast(items: seq<Item>, item: Item)
    requires items != []
    ensures var n := |items| - 1;
            multiset(items)[item] == multiset(items[..n])[item] + if items[n] == item then 1 else 0
  {
    assert items == items[..|items| - 1] + [items[|items| - 1]];
  }

  lemma {:induction false} CountsOutOfScope(items: seq<Item>, scope: string, item: Item)
    ensures multiset(OutOfScope(items, scope))[item]
            == if InScope(RecordScope(item), scope) then 0 else multiset(items)[item]
  {
    if items != [] {
      CountOfLast(items, item);
      CountsOutOfScope(items[..|items| - 1], scope, item);
    }
  }

  /** An item is where its label says, and without a label at the root. */
  lemma ItemIsWhereItSays(id: string, text: string, filter: string)
    ensures InScope(RecordScope(Item(id, Labelled(text))), filter) <==> Above(Segments(filter), Segments(text))
    ensures InScope(RecordScope(Item(id, Unlabelled)), filter) <==> Segments(filter) == []
  {
    InScopeIsAbove(text, filter);
    InScopeIsAbove("", filter);
    assert Segments("") == [];
  }

  /** Deleting a scope leaves nothing at or below it, and loses no other item. */
  lemma ScopeIsGone(items: seq<Item>, scope: string, item: Item)
    ensures multiset(OutOfScope(items, scope))[item]
            == if Above(Segments(scope), Segments(RecordScope(item))) then 0 else multiset(items)[item]
  {
    InScopeIsAbove(RecordScope(item), scope);
    CountsOutOfScope(items, scope, item);
  }

  /** Deleting a scope and one below it is deleting the upper one, in either order. */
  lemma {:induction false} DeletingBelowAddsNothing(items: seq<Item>, upper: string, lower: string)
    requires InScope(lower, upper)
    ensures OutOfScope(OutOfScope(items, lower), upper) == OutOfScope(items, upper)
    ensures OutOfScope(OutOfScope(items, upper), lower) == OutOfScope(items, upper)
  {
    if items != [] {
      var front, last := items[..|items| - 1], items[|items| - 1];
      DeletingBelowAddsNothing(front, upper, lower);
      ScopesNest(upper, lower, RecordScope(last));
      if !InScope(RecordScope(last), upper) {
        OutOfScopeLast(OutOfScope(front, lower), last, upper);
        OutOfScopeLast(OutOfScope(front, upper), last, lower);
      } else if !InScope(RecordScope(last), lower) {
        OutOfScopeInside(OutOfScope(front, lower), last, upper);
      }
    }
  }

  lemma OutOfScopeInside(items: seq<Item>, last: Item, scope: string)
    requires InScope(RecordScope(last), scope)
    ensures OutOfScope(items + [last], scope) == OutOfScope(items, scope)
  {
    assert (items + [last])[..|items|] == items;
  }

  lemma OutOfScopeLast(items: seq<Item>, last: Item, scope: string)
    requires !InScope(RecordScope(last), scope)
    ensures OutOfScope(items + [last], scope) == OutOfScope(items, scope) + [last]
  {
    assert (items + [last])[..|items|] == items;
  }
}
