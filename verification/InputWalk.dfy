/** When the rescan of placeholders comes to an end, for values of any length. A value that
    is too long stops the scan where it is met, even if endless ones would follow, so the
    order in which placeholders are met matters: the scan walks through the names of the
    template depth first. */
module InputWalk {
  import opened Text
  import opened Iteration
  import opened Interpolation
  import opened NestedInputs

  type Stoppers = string -> bool

  /** The walk ends, it stops at a name that is too long, or it goes deeper than allowed. */
  datatype Fate = Ends | Stops | Deep

  /** A depth-first walk from left to right, at most `n` names deep. */
  function Walk(uses: Users, long: Stoppers, names: seq<string>, n: nat): Fate
    decreases n, |names|
  {
    if names == [] then Ends
    else if n == 0 then Deep
    else if long(names[0]) then Stops
    else
      match Walk(uses, long, uses(names[0]), n - 1)
      case Ends => Walk(uses, long, names[1..], n)
      case Stops => Stops
      case Deep => Deep
  }

  // ----- Walks -----

  lemma {:induction false} WalkMore(uses: Users, long: Stoppers, names: seq<string>, n: nat)
    requires Walk(uses, long, names, n) != Deep
    ensures Walk(uses, long, names, n + 1) == Walk(uses, long, names, n)
    decreases n, |names|
  {
    if names != [] && !long(names[0]) {
      WalkMore(uses, long, uses(names[0]), n - 1);
      if Walk(uses, long, uses(names[0]), n - 1) == Ends {
        WalkMore(uses, long, names[1..], n);
      }
    }
  }

  lemma {:induction false} WalkUpTo(uses: Users, long: Stoppers, names: seq<string>, m: nat, n: nat)
    requires m <= n && Walk(uses, long, names, m) != Deep
    ensures Walk(uses, long, names, n) == Walk(uses, long, names, m)
    decreases n
  {
    if m < n {
      WalkUpTo(uses, long, names, m, n - 1);
      WalkMore(uses, long, names, n - 1);
    }
  }

  lemma {:induction false} WalkJoin(uses: Users, long: Stoppers, a: seq<string>, b: seq<string>, n: nat)
    ensures Walk(uses, long, a + b, n)
         == if Walk(uses, long, a, n) == Ends then Walk(uses, long, b, n) else Walk(uses, long, a, n)
    decreases |a|
  {
    if a == [] {
      assert a + b == b;
    } else {
      assert (a + b)[0] == a[0] && (a + b)[1..] == a[1..] + b;
      WalkJoin(uses, long, a[1..], b, n);
    }
  }

  /** A name before others: first what it uses, then the others. */
  lemma WalkName(uses: Users, long: Stoppers, name: string, others: seq<string>, n: nat)
    requires n > 0
    ensures Walk(uses, long, [name] + others, n)
         == if long(name) then Stops
            else if Walk(uses, long, uses(name), n - 1) == Ends then Walk(uses, long, others, n)
            else Walk(uses, long, uses(name), n - 1)
  {
    assert ([name] + others)[1..] == others;
  }

  // ----- A walk deeper than there are inputs is endless -----

  /** The walk through `names` gets to `x` and goes on with what it uses. */
  ghost predicate Reached(uses: Users, long: Stoppers, names: seq<string>, x: string) {
    exists i: nat, m: nat :: ReachedAt(uses, long, names, x, i, m)
  }

  predicate ReachedAt(uses: Users, long: Stoppers, names: seq<string>, x: string, i: nat, m: nat) {
    i < |names| && names[i] == x && !long(x) && Walk(uses, long, names[..i], m) == Ends
  }

  lemma {:induction false} DeepGoesDown(uses: Users, long: Stoppers, names: seq<string>, n: nat)
    returns (x: string, i: nat, m: nat)
    requires n > 0 && Walk(uses, long, names, n) == Deep
    ensures ReachedAt(uses, long, names, x, i, m) && Walk(uses, long, uses(x), n - 1) == Deep
    decreases |names|
  {
    var y := names[0];
    if Walk(uses, long, uses(y), n - 1) == Deep {
      x, i, m := y, 0, 0;
      assert names[..0] == [];
    } else {
      var k, l;
      x, k, l := DeepGoesDown(uses, long, names[1..], n);
      i, m := k + 1, if l < n then n else l;
      var before := names[1..][..k];
      assert names[..i] == [y] + before;
      WalkUpTo(uses, long, uses(y), n - 1, m - 1);
      WalkUpTo(uses, long, before, l, m);
      WalkName(uses, long, y, before, m);
    }
  }

  lemma ReachedIsDeep(uses: Users, long: Stoppers, names: seq<string>, x: string, m: nat)
    requires Reached(uses, long, names, x) && m > 0 && Walk(uses, long, uses(x), m - 1) == Deep
    ensures Walk(uses, long, names, m) == Deep
  {
    var i: nat, k: nat :| ReachedAt(uses, long, names, x, i, k);
    var front, back := names[..i], names[i + 1..];
    if Walk(uses, long, front, m) != Deep {
      WalkUpTo(uses, long, front, if m < k then m else k, if m < k then k else m);
    }
    assert names == front + ([x] + back);
    WalkName(uses, long, x, back, m);
    WalkJoin(uses, long, front, [x] + back, m);
  }

  /** Every name is reached from the one before it, and all of them use names. */
  ghost predicate Descent(uses: Users, long: Stoppers, p: seq<string>) {
    && (forall i | 0 < i < |p| :: Reached(uses, long, uses(p[i - 1]), p[i]))
    && (forall i | 0 <= i < |p| :: uses(p[i]) != [])
  }

  lemma DescentMore(uses: Users, long: Stoppers, x: string, p: seq<string>)
    requires Descent(uses, long, p) && uses(x) != [] && (p != [] ==> Reached(uses, long, uses(x), p[0]))
    ensures Descent(uses, long, [x] + p)
  {
    var all := [x] + p;
    forall i | 0 < i < |all|
      ensures Reached(uses, long, uses(all[i - 1]), all[i])
    {
      assert all[i] == p[i - 1];
      assert i > 1 ==> all[i - 1] == p[i - 2];
    }
  }

  lemma {:induction false} DeepDescent(uses: Users, long: Stoppers, names: seq<string>, n: nat) returns (p: seq<string>)
    requires n > 0 && Walk(uses, long, names, n) == Deep
    ensures |p| == n && Reached(uses, long, names, p[0]) && Descent(uses, long, p)
    decreases n
  {
    var x, i, m := DeepGoesDown(uses, long, names, n);
    var rest := [];
    if n > 1 {
      rest := DeepDescent(uses, long, uses(x), n - 1);
    }
    DescentMore(uses, long, x, rest);
    p := [x] + rest;
  }

  lemma {:induction false} LoopIsDeep(uses: Users, long: Stoppers, p: seq<string>, i: nat, j: nat, k: nat, m: nat)
    requires Descent(uses, long, p) && i < j < |p| && p[i] == p[j] && k < j
    ensures Walk(uses, long, uses(p[k]), m) == Deep
    decreases m
  {
    if m > 0 {
      var next := if k + 1 == j then i else k + 1;
      LoopIsDeep(uses, long, p, i, j, next, m - 1);
      assert Reached(uses, long, uses(p[k]), p[k + 1]);
      ReachedIsDeep(uses, long, uses(p[k]), p[next], m);
    }
  }

  /** Where only the names in `keys` use others, a walk that goes deeper than their number
      goes as deep as one likes. */
  lemma DeepIsEndless(uses: Users, long: Stoppers, names: seq<string>, keys: set<string>, m: nat)
    requires (forall x | x !in keys :: uses(x) == []) && Walk(uses, long, names, |keys| + 1) == Deep
    ensures Walk(uses, long, names, m) == Deep
  {
    if m > 0 {
      var p := DeepDescent(uses, long, names, |keys| + 1);
      assert forall x | x in p :: x in keys;
      Pigeonhole(p, keys);
      var i, j :| 0 <= i < j < |p| && p[i] == p[j];
      LoopIsDeep(uses, long, p, i, j, 0, m - 1);
      ReachedIsDeep(uses, long, names, p[0], m);
    }
  }

  // ----- The scan walks through the names -----

  /** Every value is a whole template itself, of any length. */
  predicate WholeValues(inputs: Inputs) {
    forall name | name in inputs :: Whole(Parse(inputs[name]))
  }

  lemma WholeValue(inputs: Inputs, name: string)
    requires WholeValues(inputs)
    ensures Whole(Parse(Value(inputs, name)))
  {
  }

  predicate IsTooLong(inputs: Inputs, name: string) {
    ByteLength(Value(inputs, name)) > MAX_INPUT_VALUE_BYTES
  }

  function Long(inputs: Inputs): Stoppers {
    name => IsTooLong(inputs, name)
  }

  type TextFate = (string, nat) -> Fate

  function TextWalk(uses: Users, long: Stoppers): TextFate {
    (s: string, n: nat) => Walk(uses, long, Names(Parse(s)), n)
  }

  /** Where the walk through the names of a text leads. */
  function WalkText(inputs: Inputs): TextFate {
    TextWalk(Uses(inputs), Long(inputs))
  }

  /** The fate of a text by its first placeholder. */
  ghost predicate FollowsAt(inputs: Inputs, fate: TextFate, s: string, n: nat) {
    var f := First(s);
    if !f.Place? then fate(s, n) == Ends
    else if n == 0 then fate(s, n) == Deep
    else if IsTooLong(inputs, f.name) then fate(s, n) == Stops
    else if fate(Value(inputs, f.name), n - 1) == Ends then fate(s, n) == fate(f.after, n)
    else fate(s, n) == fate(Value(inputs, f.name), n - 1)
  }

  /** The fate of a text in which a value has replaced the first placeholder. */
  ghost predicate JoinsAt(inputs: Inputs, fate: TextFate, s: string, n: nat) {
    First(s).Place? ==>
      var v, after := Value(inputs, First(s).name), First(s).after;
      fate(NextText(inputs, s), n) == if fate(v, n) == Ends then fate(after, n) else fate(v, n)
  }

  ghost predicate GrowsAt(fate: TextFate, s: string, n: nat) {
    fate(s, n) != Deep ==> fate(s, n + 1) == fate(s, n)
  }

  ghost predicate Follows(inputs: Inputs, fate: TextFate) {
    forall s, n: nat :: FollowsAt(inputs, fate, s, n)
  }

  ghost predicate Joins(inputs: Inputs, fate: TextFate) {
    forall s, n: nat :: JoinsAt(inputs, fate, s, n)
  }

  ghost predicate Grows(fate: TextFate) {
    forall s, n: nat :: GrowsAt(fate, s, n)
  }

  /** What a name uses, and whether it is too long, is what its value says. */
  ghost predicate Describes(inputs: Inputs, uses: Users, long: Stoppers, name: string) {
    uses(name) == Names(Parse(Value(inputs, name))) && long(name) == IsTooLong(inputs, name)
  }

  lemma InputsDescribe(inputs: Inputs, name: string)
    ensures Describes(inputs, Uses(inputs), Long(inputs), name)
  {
  }

  lemma WalkFollowsAt(inputs: Inputs, uses: Users, long: Stoppers, s: string, n: nat)
    requires First(s).Place? ==> Describes(inputs, uses, long, First(s).name)
    ensures FollowsAt(inputs, TextWalk(uses, long), s, n)
  {
    if First(s).Place? {
      NamesOfPlace(s);
      if n > 0 {
        WalkName(uses, long, First(s).name, Names(Parse(First(s).after)), n);
      }
    } else {
      NoNames(s);
    }
  }

  lemma WalkFollows(inputs: Inputs)
    ensures Follows(inputs, WalkText(inputs))
  {
    forall s, n: nat
      ensures FollowsAt(inputs, WalkText(inputs), s, n)
    {
      if First(s).Place? {
        InputsDescribe(inputs, First(s).name);
      }
      WalkFollowsAt(inputs, Uses(inputs), Long(inputs), s, n);
    }
  }

  lemma WalkJoinsAt(inputs: Inputs, uses: Users, long: Stoppers, s: string, n: nat)
    requires WholeValues(inputs)
    ensures JoinsAt(inputs, TextWalk(uses, long), s, n)
  {
    if First(s).Place? {
      var v := Value(inputs, First(s).name);
      WholeValue(inputs, First(s).name);
      NamesAfterTurn(s, v);
      WalkJoin(uses, long, Names(Parse(v)), Names(Parse(First(s).after)), n);
    }
  }

  lemma WalkGrowsAt(uses: Users, long: Stoppers, s: string, n: nat)
    ensures GrowsAt(TextWalk(uses, long), s, n)
  {
    if TextWalk(uses, long)(s, n) != Deep {
      WalkMore(uses, long, Names(Parse(s)), n);
    }
  }

  lemma WalkJoins(inputs: Inputs)
    requires WholeValues(inputs)
    ensures Joins(inputs, WalkText(inputs))
  {
    forall s, n: nat
      ensures JoinsAt(inputs, WalkText(inputs), s, n)
    {
      WalkJoinsAt(inputs, Uses(inputs), Long(inputs), s, n);
    }
  }

  lemma WalkGrows(inputs: Inputs)
    ensures Grows(WalkText(inputs))
  {
    forall s, n: nat
      ensures GrowsAt(WalkText(inputs), s, n)
    {
      WalkGrowsAt(Uses(inputs), Long(inputs), s, n);
    }
  }

  // ----- A scan that ends has walked everywhere -----

  lemma FateBefore(inputs: Inputs, fate: TextFate, s: string, n: nat)
    requires n > 0 && FollowsAt(inputs, fate, s, n) && JoinsAt(inputs, fate, s, n - 1)
    requires First(s).Place? ==> GrowsAt(fate, First(s).after, n - 1)
    requires First(s).Place? && !IsTooLong(inputs, First(s).name) ==> fate(NextText(inputs, s), n - 1) != Deep
    ensures fate(s, n) != Deep
  {
  }

  ghost function ShallowScan(fate: TextFate): (Scan, nat) -> bool {
    (sc: Scan, n: nat) => fate(sc.result, n) != Deep
  }

  lemma ShallowCarriesAt(inputs: Inputs, fate: TextFate, sc: Scan, n: nat)
    requires Follows(inputs, fate) && Joins(inputs, fate) && Grows(fate)
    ensures CarriesAt(Rescan(inputs), ShallowScan(fate), sc, n)
  {
    var turn, holds, f := Rescan(inputs), ShallowScan(fate), First(sc.result);
    if n > 0 && (turn(sc).Go? ==> holds(turn(sc).next, n - 1)) {
      if f.Place? && !IsTooLong(inputs, f.name) {
        HandleGo(f, sc, inputs);
      }
      assert FollowsAt(inputs, fate, sc.result, n) && JoinsAt(inputs, fate, sc.result, n - 1);
      assert f.Place? ==> GrowsAt(fate, f.after, n - 1);
      FateBefore(inputs, fate, sc.result, n);
    }
  }

  lemma HaltedIsShallow(inputs: Inputs, fate: TextFate, sc: Scan, n: nat)
    requires Follows(inputs, fate) && Joins(inputs, fate) && Grows(fate) && Iterate(Rescan(inputs), sc, n).Finished?
    ensures fate(sc.result, n) != Deep
  {
    ShallowCarriesBack(inputs, fate);
    BackwardsFromTheEnd(Rescan(inputs), ShallowScan(fate), sc, n);
  }

  lemma ShallowCarriesBack(inputs: Inputs, fate: TextFate)
    requires Follows(inputs, fate) && Joins(inputs, fate) && Grows(fate)
    ensures CarriesBack(Rescan(inputs), ShallowScan(fate))
  {
    forall sc: Scan, n: nat
      ensures CarriesAt(Rescan(inputs), ShallowScan(fate), sc, n)
    {
      ShallowCarriesAt(inputs, fate, sc, n);
    }
  }

  // ----- A scan that walks not too deep ends -----

  lemma FrontStops(inputs: Inputs, v: string, rest: string)
    requires First(v).Place? && IsTooLong(inputs, First(v).name)
    ensures HaltsOn(inputs, v + rest)
  {
    FirstInFront(v, rest);
    StopHalts(inputs, v + rest);
  }

  lemma FrontHalts(inputs: Inputs, v: string, rest: string)
    requires First(v).Place? && !IsTooLong(inputs, First(v).name)
    requires HaltsOn(inputs, Value(inputs, First(v).name) + (First(v).after + rest))
    ensures HaltsOn(inputs, v + rest)
  {
    FirstInFront(v, rest);
    TurnHalts(inputs, v + rest);
  }

  lemma FrontTextHalts(inputs: Inputs, v: string, rest: string)
    requires First(v).Nothing? && Whole(Parse(v)) && HaltsOn(inputs, rest)
    ensures HaltsOn(inputs, v + rest)
  {
    WholeTextIsSettled(v);
    TextHalts(inputs, v, rest);
  }

  lemma WholeAfter(v: string)
    requires Whole(Parse(v)) && !First(v).Nothing?
    ensures First(v).Place? && Whole(Parse(First(v).after))
  {
  }

  lemma {:induction false} ShallowValueHalts(inputs: Inputs, fate: TextFate, v: string, rest: string, n: nat)
    requires WholeValues(inputs) && Follows(inputs, fate) && Whole(Parse(v)) && fate(v, n) != Deep
    requires fate(v, n) == Ends ==> HaltsOn(inputs, rest)
    ensures HaltsOn(inputs, v + rest)
    decreases n, |v|
  {
    var f := First(v);
    assert FollowsAt(inputs, fate, v, n);
    if f.Nothing? {
      FrontTextHalts(inputs, v, rest);
    } else {
      WholeAfter(v);
      if IsTooLong(inputs, f.name) {
        FrontStops(inputs, v, rest);
      } else {
        if fate(Value(inputs, f.name), n - 1) == Ends {
          ShallowValueHalts(inputs, fate, f.after, rest, n);
        }
        WholeValue(inputs, f.name);
        ShallowValueHalts(inputs, fate, Value(inputs, f.name), f.after + rest, n - 1);
        FrontHalts(inputs, v, rest);
      }
    }
  }

  lemma {:induction false} ShallowTemplateHalts(inputs: Inputs, fate: TextFate, s: string, n: nat)
    requires WholeValues(inputs) && Follows(inputs, fate) && fate(s, n) != Deep
    ensures HaltsOn(inputs, s)
    decreases |s|
  {
    var f := First(s);
    assert FollowsAt(inputs, fate, s, n);
    if !f.Place? || IsTooLong(inputs, f.name) {
      StopHalts(inputs, s);
    } else {
      if fate(Value(inputs, f.name), n - 1) == Ends {
        ShallowTemplateHalts(inputs, fate, f.after, n);
      }
      WholeValue(inputs, f.name);
      ShallowValueHalts(inputs, fate, Value(inputs, f.name), f.after, n - 1);
      TurnHalts(inputs, s);
    }
  }

  // ----- Exactly when the scan ends -----

  lemma ShallowHalts(template: string, inputs: Inputs, n: nat)
    requires WholeValues(inputs) && WalkText(inputs)(template, n) != Deep
    ensures Halts(Rescan(inputs), Beginning(template))
  {
    WalkFollows(inputs);
    ShallowTemplateHalts(inputs, WalkText(inputs), template, n);
    HaltsFromBeginning(inputs, template);
  }

  lemma HaltedWalk(template: string, inputs: Inputs, n: nat)
    requires WholeValues(inputs) && Iterate(Rescan(inputs), Beginning(template), n).Finished?
    ensures WalkText(inputs)(template, n) != Deep
  {
    WalkFollows(inputs);
    WalkJoins(inputs);
    WalkGrows(inputs);
    HaltedIsShallow(inputs, WalkText(inputs), Beginning(template), n);
  }

  lemma DeepTextIsEndless(template: string, inputs: Inputs, n: nat)
    requires WalkText(inputs)(template, |inputs.Keys| + 1) == Deep
    ensures WalkText(inputs)(template, n) == Deep
  {
    NoInputNoUse(inputs);
    DeepIsEndless(Uses(inputs), Long(inputs), Names(Parse(template)), inputs.Keys, n);
  }

  /** When every value is a whole template, of any length, the rescan of any template ends
      exactly when the depth-first walk through its names gets no deeper than there are
      inputs before it ends or meets a value that is too long. */
  lemma HaltsIffShallow(template: string, inputs: Inputs)
    requires WholeValues(inputs)
    ensures Halts(Rescan(inputs), Beginning(template)) <==> WalkText(inputs)(template, |inputs.Keys| + 1) != Deep
  {
    if WalkText(inputs)(template, |inputs.Keys| + 1) != Deep {
      ShallowHalts(template, inputs, |inputs.Keys| + 1);
    } else if n: nat :| Iterate(Rescan(inputs), Beginning(template), n).Finished? {
      HaltedWalk(template, inputs, n);
      DeepTextIsEndless(template, inputs, n);
    }
  }
}
