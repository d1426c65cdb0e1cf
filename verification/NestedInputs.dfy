/** When the rescan of placeholders comes to an end although input values hold placeholders
    themselves: exactly when no chain of names that starts in the template and follows the
    placeholders of the values comes back to a name. */
module NestedInputs {
  import opened Text
  import opened Iteration
  import opened Interpolation

  /** It does not break off, and nothing that follows it can complete a pair of braces. */
  predicate Whole(t: Template) {
    match t
    case Text(lit) => lit == "" || lit[|lit| - 1] != '{'
    case Hole(_, _, rest) => Whole(rest)
    case _ => false
  }

  /** Every value is a whole template itself and short enough. */
  predicate Complete(inputs: Inputs) {
    forall name | name in inputs :: Whole(Parse(inputs[name])) && ByteLength(inputs[name]) <= MAX_INPUT_VALUE_BYTES
  }

  // ----- Paths through names that use names -----

  type Users = string -> seq<string>

  predicate UsedBy(uses: Users, name: string, user: string) {
    name in uses(user)
  }

  /** Every name is used by the one before it. */
  ghost predicate Path(uses: Users, p: seq<string>) {
    forall i | 0 < i < |p| :: UsedBy(uses, p[i], p[i - 1])
  }

  predicate Repeats(p: seq<string>) {
    exists i, j :: 0 <= i < j < |p| && p[i] == p[j]
  }

  ghost predicate RepeatingPath(uses: Users, names: seq<string>, p: seq<string>) {
    p != [] && p[0] in names && Path(uses, p) && Repeats(p)
  }

  /** A path from one of the names comes back to a name on it. */
  ghost predicate Circular(uses: Users, names: seq<string>) {
    exists p :: RepeatingPath(uses, names, p)
  }

  /** No path from `name` has more than `n` names. */
  predicate Flat(uses: Users, name: string, n: nat)
    decreases n
  {
    n > 0 && forall m | m in uses(name) :: Flat(uses, m, n - 1)
  }

  ghost predicate AllFlat(uses: Users, names: seq<string>, n: nat) {
    forall name | name in names :: Flat(uses, name, n)
  }

  lemma FlatStep(uses: Users, name: string, n: nat)
    ensures Flat(uses, name, n) <==> n > 0 && AllFlat(uses, uses(name), n - 1)
  {
  }

  lemma {:induction false} FlatMore(uses: Users, name: string, n: nat)
    requires Flat(uses, name, n)
    ensures Flat(uses, name, n + 1)
    decreases n
  {
    forall m | m in uses(name)
      ensures Flat(uses, m, n)
    {
      FlatMore(uses, m, n - 1);
    }
  }

  lemma {:induction false} FlatAlong(uses: Users, p: seq<string>, i: nat, j: nat, n: nat)
    requires Path(uses, p) && i <= j < |p| && Flat(uses, p[i], n)
    ensures j - i < n && Flat(uses, p[j], n - (j - i))
    decreases j - i
  {
    if i < j {
      assert UsedBy(uses, p[i + 1], p[i]);
      FlatAlong(uses, p, i + 1, j, n - 1);
    }
  }

  lemma {:induction false} LoopIsNotFlat(uses: Users, p: seq<string>, i: nat, j: nat, n: nat)
    requires Path(uses, p) && i < j < |p| && p[i] == p[j]
    ensures !Flat(uses, p[i], n)
    decreases n
  {
    if Flat(uses, p[i], n) {
      FlatAlong(uses, p, i, j, n);
      LoopIsNotFlat(uses, p, i, j, n - (j - i));
    }
  }

  lemma CircularIsNotFlat(uses: Users, names: seq<string>, n: nat)
    requires Circular(uses, names)
    ensures !AllFlat(uses, names, n)
  {
    var p :| RepeatingPath(uses, names, p);
    var i, j :| 0 <= i < j < |p| && p[i] == p[j];
    if Flat(uses, p[0], n) {
      FlatAlong(uses, p, 0, i, n);
      LoopIsNotFlat(uses, p, i, j, n - i);
    }
  }

  lemma {:induction false} LongPath(uses: Users, name: string, n: nat) returns (p: seq<string>)
    requires !Flat(uses, name, n)
    ensures Path(uses, p) && |p| == n + 1 && p[0] == name
    decreases n
  {
    p := [name];
    if n > 0 {
      var m :| m in uses(name) && !Flat(uses, m, n - 1);
      var rest := LongPath(uses, m, n - 1);
      assert UsedBy(uses, rest[0], name);
      PathMore(uses, name, rest);
      p := [name] + rest;
    }
  }

  lemma PathMore(uses: Users, name: string, p: seq<string>)
    requires Path(uses, p) && p != [] && UsedBy(uses, p[0], name)
    ensures Path(uses, [name] + p)
  {
    var all := [name] + p;
    forall i | 0 < i < |all|
      ensures UsedBy(uses, all[i], all[i - 1])
    {
      assert all[i] == p[i - 1];
      if i > 1 {
        assert UsedBy(uses, p[i - 1], p[i - 2]);
      }
    }
  }

  lemma {:induction false} Pigeonhole(p: seq<string>, keys: set<string>)
    requires (forall x | x in p :: x in keys) && |p| > |keys|
    ensures Repeats(p)
  {
    var rest := p[1..];
    if p[0] in rest {
      var j :| 0 <= j < |rest| && rest[j] == p[0];
      assert p[0] == p[j + 1];
    } else {
      Pigeonhole(rest, keys - {p[0]});
      var i, j :| 0 <= i < j < |rest| && rest[i] == rest[j];
      assert p[i + 1] == p[j + 1];
    }
  }

  lemma PathHitsKeys(uses: Users, keys: set<string>, p: seq<string>)
    requires (forall x | x !in keys :: uses(x) == []) && Path(uses, p) && |p| == |keys| + 2
    ensures Repeats(p)
  {
    var users := p[..|p| - 1];
    forall x | x in users
      ensures x in keys
    {
      var i :| 0 <= i < |users| && users[i] == x;
      assert UsedBy(uses, p[i + 1], p[i]);
    }
    Pigeonhole(users, keys);
    var i, j :| 0 <= i < j < |users| && users[i] == users[j];
    assert p[i] == p[j];
  }

  /** Where only finitely many names use others, a path without repetition is short. */
  lemma NotCircularIsFlat(uses: Users, names: seq<string>, keys: set<string>)
    requires !Circular(uses, names) && forall x | x !in keys :: uses(x) == []
    ensures AllFlat(uses, names, |keys| + 1)
  {
    if name :| name in names && !Flat(uses, name, |keys| + 1) {
      var p := LongPath(uses, name, |keys| + 1);
      PathHitsKeys(uses, keys, p);
      assert RepeatingPath(uses, names, p);
    }
  }

  // ----- Values that use names -----

  /** The names that the value of a name uses. */
  function Uses(inputs: Inputs): Users {
    name => Names(Parse(Value(inputs, name)))
  }

  lemma UsesAre(inputs: Inputs, name: string)
    ensures Uses(inputs)(name) == Names(Parse(Value(inputs, name)))
  {
  }

  lemma CompleteValue(inputs: Inputs, name: string)
    requires Complete(inputs)
    ensures Whole(Parse(Value(inputs, name))) && ByteLength(Value(inputs, name)) <= MAX_INPUT_VALUE_BYTES
  {
  }

  lemma NoInputNoUse(inputs: Inputs)
    ensures forall name | name !in inputs.Keys :: Uses(inputs)(name) == []
  {
  }

  /** The value of a flat name uses flatter names. */
  lemma FlatValue(inputs: Inputs, names: seq<string>, name: string, n: nat)
    requires AllFlat(Uses(inputs), names, n) && name in names
    ensures n > 0 && AllFlat(Uses(inputs), Names(Parse(Value(inputs, name))), n - 1)
  {
    FlatStep(Uses(inputs), name, n);
    UsesAre(inputs, name);
  }

  // ----- Reading a value that stands in a text -----

  lemma FindInFront(s: string, rest: string, c: char)
    requires FindPair(s, c) >= 0
    ensures FindPair(s + rest, c) == FindPair(s, c)
  {
    var all, r, a := s + rest, FindPair(s, c), FindPair(s + rest, c);
    FindPairIs(s, c);
    FindPairIs(all, c);
    assert Pair(all, r, c);
    assert 0 <= a < r ==> Pair(s, a, c);
  }

  lemma CutFront(s: string, rest: string, i: nat)
    requires i <= |s|
    ensures (s + rest)[..i] == s[..i] && (s + rest)[i..] == s[i..] + rest
  {
  }

  /** What follows a placeholder does not change it. */
  lemma FirstInFront(s: string, rest: string)
    requires First(s).Place?
    ensures First(s + rest) == First(s).(after := First(s).after + rest)
  {
    var start := FindPair(s, '{');
    FindInFront(s, rest, '{');
    CutFront(s, rest, start);
    CutFront(s, rest, start + 2);
    var tail := s[start + 2..];
    var end := FindPair(tail, '}');
    FindInFront(tail, rest, '}');
    CutFront(tail, rest, end);
    CutFront(tail, rest, end + 2);
  }

  lemma FrontIsSettled(s: string)
    requires First(s).Place?
    ensures Settled(First(s).lit)
  {
    SettledGrows("", s, "");
    var lit := s[..FindPair(s, '{')];
    assert "" + lit + "" == lit;
  }

  lemma WholeTextIsSettled(s: string)
    requires First(s).Nothing? && Whole(Parse(s))
    ensures Settled(s)
  {
    FindPairIs(s, '{');
  }

  lemma SettledJoin(a: string, b: string)
    requires Settled(a) && Settled(b)
    ensures Settled(a + b)
  {
    forall i
      ensures !Pair(a + b, i, '{')
    {
      assert i < |a| - 1 ==> (Pair(a + b, i, '{') <==> Pair(a, i, '{'));
      assert i >= |a| ==> (Pair(a + b, i, '{') <==> Pair(b, i - |a|, '{'));
    }
  }

  lemma NamesBehind(done: string, s: string)
    requires Settled(done)
    ensures Names(Parse(done + s)) == Names(Parse(s))
  {
    FirstBehind(done, s);
  }

  /** A whole value followed by text uses its own names and then those of the text. */
  lemma {:induction false} NamesJoin(v: string, rest: string)
    requires Whole(Parse(v))
    ensures Names(Parse(v + rest)) == Names(Parse(v)) + Names(Parse(rest))
    decreases |v|
  {
    if First(v).Nothing? {
      WholeTextIsSettled(v);
      NamesBehind(v, rest);
    } else {
      FirstInFront(v, rest);
      NamesJoin(First(v).after, rest);
    }
  }

  lemma NamesAfterTurn(s: string, v: string)
    requires First(s).Place? && Whole(Parse(v))
    ensures Names(Parse(First(s).lit + v + First(s).after)) == Names(Parse(v)) + Names(Parse(First(s).after))
  {
    var f := First(s);
    FrontIsSettled(s);
    Regroup(f.lit, v, f.after);
    NamesBehind(f.lit, v + f.after);
    NamesJoin(v, f.after);
  }

  // ----- A scan that ends has followed every path -----

  lemma NamesOfPlace(s: string)
    requires First(s).Place?
    ensures Names(Parse(s)) == [First(s).name] + Names(Parse(First(s).after))
  {
  }

  lemma FlatJoin(uses: Users, name: string, others: seq<string>, n: nat)
    requires AllFlat(uses, uses(name) + others, n)
    ensures AllFlat(uses, [name] + others, n + 1)
  {
    assert forall m | m in uses(name) :: m in uses(name) + others;
    FlatStep(uses, name, n + 1);
    forall m | m in others
      ensures Flat(uses, m, n + 1)
    {
      assert m in uses(name) + others;
      FlatMore(uses, m, n);
    }
  }

  lemma FlatTurn(inputs: Inputs, s: string, n: nat)
    requires Complete(inputs) && First(s).Place?
    requires AllFlat(Uses(inputs), Names(Parse(NextText(inputs, s))), n)
    ensures AllFlat(Uses(inputs), Names(Parse(s)), n + 1)
  {
    var f := First(s);
    CompleteValue(inputs, f.name);
    NamesAfterTurn(s, Value(inputs, f.name));
    NamesOfPlace(s);
    UsesAre(inputs, f.name);
    FlatJoin(Uses(inputs), f.name, Names(Parse(f.after)), n);
  }

  function NextText(inputs: Inputs, s: string): string
    requires First(s).Place?
  {
    First(s).lit + Value(inputs, First(s).name) + First(s).after
  }

  lemma FlatBefore(inputs: Inputs, sc: Scan, k: nat)
    requires Complete(inputs)
    requires OneTurn(sc, inputs).Go? ==> AllFlat(Uses(inputs), Names(Parse(OneTurn(sc, inputs).next.result)), k)
    ensures AllFlat(Uses(inputs), Names(Parse(sc.result)), k + 1)
  {
    var f := First(sc.result);
    if f.Place? {
      CompleteValue(inputs, f.name);
      HandleGo(f, sc, inputs);
      FlatTurn(inputs, sc.result, k);
    } else {
      NoNames(sc.result);
    }
  }

  ghost function FlatScan(inputs: Inputs): (Scan, nat) -> bool {
    (sc: Scan, n: nat) => AllFlat(Uses(inputs), Names(Parse(sc.result)), n)
  }

  lemma FlatCarriesAt(inputs: Inputs, sc: Scan, n: nat)
    requires Complete(inputs)
    ensures CarriesAt(Rescan(inputs), FlatScan(inputs), sc, n)
  {
    var turn, holds := Rescan(inputs), FlatScan(inputs);
    if n > 0 && (turn(sc).Go? ==> holds(turn(sc).next, n - 1)) {
      FlatBefore(inputs, sc, n - 1);
    }
  }

  lemma FlatCarriesBack(inputs: Inputs)
    requires Complete(inputs)
    ensures CarriesBack(Rescan(inputs), FlatScan(inputs))
  {
    forall sc: Scan, n: nat
      ensures CarriesAt(Rescan(inputs), FlatScan(inputs), sc, n)
    {
      FlatCarriesAt(inputs, sc, n);
    }
  }

  lemma HaltedIsFlat(inputs: Inputs, sc: Scan, n: nat)
    requires Complete(inputs) && Iterate(Rescan(inputs), sc, n).Finished?
    ensures FlatScan(inputs)(sc, n)
  {
    FlatCarriesBack(inputs);
    BackwardsFromTheEnd(Rescan(inputs), FlatScan(inputs), sc, n);
  }

  lemma NoNames(s: string)
    requires !First(s).Place?
    ensures Names(Parse(s)) == []
  {
  }

  // ----- A scan without a circular path ends -----

  ghost predicate HaltsAt(inputs: Inputs, done: string, s: string, seen: set<string>, missing: seq<string>) {
    Halts(Rescan(inputs), Scan(done + s, seen, missing))
  }

  /** The scan ends on `s` behind any settled text. */
  ghost predicate HaltsOn(inputs: Inputs, s: string) {
    forall done, seen, missing | Settled(done) :: HaltsAt(inputs, done, s, seen, missing)
  }

  lemma TurnHalts(inputs: Inputs, s: string)
    requires First(s).Place? && ByteLength(Value(inputs, First(s).name)) <= MAX_INPUT_VALUE_BYTES
    requires HaltsOn(inputs, Value(inputs, First(s).name) + First(s).after)
    ensures HaltsOn(inputs, s)
  {
    var f := First(s);
    var v := Value(inputs, f.name);
    FrontIsSettled(s);
    forall done, seen, missing | Settled(done)
      ensures HaltsAt(inputs, done, s, seen, missing)
    {
      var sc := Scan(done + s, seen, missing);
      var seen', noted := seen + {f.name}, Noted(sc, f.name, inputs);
      TurnBehind(done, s, f, sc, inputs);
      SettledJoin(done, f.lit);
      assert HaltsAt(inputs, done + f.lit, v + f.after, seen', noted);
      Regroup(done, f.lit, v);
      Regroup(done + f.lit, v, f.after);
      OutcomeOfGo(Rescan(inputs), sc, Scan(done + (f.lit + v) + f.after, seen', noted));
    }
  }

  lemma TextHalts(inputs: Inputs, v: string, rest: string)
    requires Settled(v) && HaltsOn(inputs, rest)
    ensures HaltsOn(inputs, v + rest)
  {
    forall done, seen, missing | Settled(done)
      ensures HaltsAt(inputs, done, v + rest, seen, missing)
    {
      SettledJoin(done, v);
      Regroup(done, v, rest);
      assert HaltsAt(inputs, done + v, rest, seen, missing);
    }
  }

  /** Substituting a value whose paths end leaves a text on which the scan ends. */
  lemma {:induction false} ValueHalts(inputs: Inputs, v: string, rest: string, n: nat)
    requires Complete(inputs) && Whole(Parse(v)) && AllFlat(Uses(inputs), Names(Parse(v)), n) && HaltsOn(inputs, rest)
    ensures HaltsOn(inputs, v + rest)
    decreases n, |v|
  {
    var f := First(v);
    if f.Nothing? {
      WholeTextIsSettled(v);
      TextHalts(inputs, v, rest);
    } else {
      NamesOfHole(v);
      ValueHalts(inputs, f.after, rest, n);
      CompleteValue(inputs, f.name);
      FlatValue(inputs, Names(Parse(v)), f.name, n);
      ValueHalts(inputs, Value(inputs, f.name), f.after + rest, n - 1);
      FirstInFront(v, rest);
      TurnHalts(inputs, v + rest);
    }
  }

  lemma NamesOfHole(s: string)
    requires First(s).Place?
    ensures First(s).name in Names(Parse(s))
    ensures forall name | name in Names(Parse(First(s).after)) :: name in Names(Parse(s))
  {
  }

  lemma StopHalts(inputs: Inputs, s: string)
    requires First(s).Place? ==> ByteLength(Value(inputs, First(s).name)) > MAX_INPUT_VALUE_BYTES
    ensures HaltsOn(inputs, s)
  {
    forall done, seen, missing | Settled(done)
      ensures HaltsAt(inputs, done, s, seen, missing)
    {
      FirstBehind(done, s);
      var sc := Scan(done + s, seen, missing);
      OutcomeOfStop(Rescan(inputs), sc, OneTurn(sc, inputs).r);
    }
  }

  lemma {:induction false} TemplateHalts(inputs: Inputs, s: string, n: nat)
    requires Complete(inputs) && AllFlat(Uses(inputs), Names(Parse(s)), n)
    ensures HaltsOn(inputs, s)
    decreases |s|
  {
    var f := First(s);
    if f.Place? {
      NamesOfHole(s);
      TemplateHalts(inputs, f.after, n);
      CompleteValue(inputs, f.name);
      FlatValue(inputs, Names(Parse(s)), f.name, n);
      ValueHalts(inputs, Value(inputs, f.name), f.after, n - 1);
      TurnHalts(inputs, s);
    } else {
      StopHalts(inputs, s);
    }
  }

  lemma HaltsFromBeginning(inputs: Inputs, template: string)
    requires HaltsOn(inputs, template)
    ensures Halts(Rescan(inputs), Beginning(template))
  {
    assert HaltsAt(inputs, "", template, {}, []);
    assert "" + template == template;
  }

  lemma NotCircularHalts(template: string, inputs: Inputs, names: seq<string>)
    requires Complete(inputs) && names == Names(Parse(template)) && !Circular(Uses(inputs), names)
    ensures Halts(Rescan(inputs), Beginning(template))
  {
    NoInputNoUse(inputs);
    NotCircularIsFlat(Uses(inputs), names, inputs.Keys);
    TemplateHalts(inputs, template, |inputs.Keys| + 1);
    HaltsFromBeginning(inputs, template);
  }

  /** When every value is a whole template and short enough, the rescan of any template,
      well formed or not, ends exactly when no path from its placeholders is circular. */
  lemma HaltsIffNotCircular(template: string, inputs: Inputs)
    requires Complete(inputs)
    ensures Halts(Rescan(inputs), Beginning(template)) <==> !Circular(Uses(inputs), Names(Parse(template)))
  {
    if Circular(Uses(inputs), Names(Parse(template))) {
      if n: nat :| Iterate(Rescan(inputs), Beginning(template), n).Finished? {
        HaltedIsFlat(inputs, Beginning(template), n);
        CircularIsNotFlat(Uses(inputs), Names(Parse(template)), n);
      }
    } else {
      NotCircularHalts(template, inputs, Names(Parse(template)));
    }
  }

  lemma TwoCycle(uses: Users, a: string, b: string, names: seq<string>)
    requires UsedBy(uses, b, a) && UsedBy(uses, a, b) && a in names
    ensures Circular(uses, names)
  {
    var p := [a, b, a];
    assert p[0] == p[2];
    assert RepeatingPath(uses, names, p);
  }

  /** Two values that use each other are as endless as one that uses itself. */
  lemma MutualReferenceNeverStops(a: string, b: string, inputs: Inputs, template: string)
    requires Complete(inputs) && UsedBy(Uses(inputs), b, a) && UsedBy(Uses(inputs), a, b) && a in Names(Parse(template))
    ensures !Halts(Rescan(inputs), Beginning(template))
  {
    TwoCycle(Uses(inputs), a, b, Names(Parse(template)));
    HaltsIffNotCircular(template, inputs);
  }
}
