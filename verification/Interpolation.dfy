/** Rendering {{name}} placeholders. The program substitutes the first placeholder and
    scans its own output again from the beginning; the reference reads the template once,
    from left to right. */
module Interpolation {
  import opened Text
  import opened Iteration

  const MAX_INPUT_VALUE_BYTES := 20000

  type Inputs = map<string, string>

  datatype Error = Unterminated | EmptyName | TooLong(name: string) | Missing(names: seq<string>)
  datatype Result = Ok(text: string) | Err(error: Error)

  /** A name without an entry reads as the empty text. */
  function Value(inputs: Inputs, name: string): string {
    if name in inputs then inputs[name] else ""
  }

  // ----- Finding "{{" and "}}" -----

  predicate Pair(s: string, i: int, c: char) {
    0 <= i < |s| - 1 && s[i] == c && s[i + 1] == c
  }

  /** Where `c` first stands twice in a row, or -1. */
  function FindPair(s: string, c: char): (r: int)
    ensures -1 <= r && (r >= 0 ==> r + 2 <= |s|)
  {
    if |s| < 2 then -1
    else if s[0] == c && s[1] == c then 0
    else
      var r := FindPair(s[1..], c);
      if r < 0 then -1 else r + 1
  }

  lemma {:induction false} FindPairIs(s: string, c: char)
    ensures var r := FindPair(s, c);
            && (r < 0 ==> forall i :: !Pair(s, i, c))
            && (r >= 0 ==> Pair(s, r, c) && forall i | i < r :: !Pair(s, i, c))
  {
    if |s| >= 2 && !(s[0] == c && s[1] == c) {
      FindPairIs(s[1..], c);
      assert forall i | 0 < i :: Pair(s, i, c) <==> Pair(s[1..], i - 1, c);
    }
  }

  /** The first placeholder of a text, with what stands before and after it. */
  datatype Found = Nothing | NoEnd(lit: string) | NoName(lit: string)
                 | Place(lit: string, name: string, after: string)

  /** What an opening pair behind `lit` and before `tail` begins. */
  function Opened(lit: string, tail: string): (f: Found)
    ensures f.Place? ==> |f.after| <= |tail|
  {
    var end := FindPair(tail, '}');
    if end < 0 then NoEnd(lit)
    else
      var name := TrimSpace(tail[..end]);
      if name == "" then NoName(lit) else Place(lit, name, tail[end + 2..])
  }

  function First(s: string): (f: Found)
    ensures f.Place? ==> |f.after| < |s|
  {
    var start := FindPair(s, '{');
    if start < 0 then Nothing else Opened(s[..start], s[start + 2..])
  }

  // ----- The program: substitute, then scan again -----

  datatype Scan = Scan(result: string, seen: set<string>, missing: seq<string>)

  function Noted(sc: Scan, name: string, inputs: Inputs): seq<string> {
    if name !in sc.seen && Value(inputs, name) == "" then sc.missing + [name] else sc.missing
  }

  function Closing(text: string, missing: seq<string>): Result {
    if missing == [] then Ok(text) else Err(Missing(missing))
  }

  /** What a turn does with the first placeholder of the text so far. */
  function Handle(f: Found, sc: Scan, inputs: Inputs): Turn<Scan, Result> {
    match f
    case Nothing => Stop(Closing(sc.result, sc.missing))
    case NoEnd(_) => Stop(Err(Unterminated))
    case NoName(_) => Stop(Err(EmptyName))
    case Place(lit, name, after) =>
      var val := Value(inputs, name);
      if ByteLength(val) > MAX_INPUT_VALUE_BYTES then Stop(Err(TooLong(name)))
      else Go(Scan(lit + val + after, sc.seen + {name}, Noted(sc, name, inputs)))
  }

  function OneTurn(sc: Scan, inputs: Inputs): Turn<Scan, Result> {
    Handle(First(sc.result), sc, inputs)
  }

  function Rescan(inputs: Inputs): Scan -> Turn<Scan, Result> {
    sc => OneTurn(sc, inputs)
  }

  function Beginning(template: string): Scan {
    Scan(template, {}, [])
  }

  // ----- The reference: one pass from left to right -----

  /** A template read once: text, then a placeholder, and so on. It may break off in a
      placeholder that is not closed or has no name. */
  datatype Template = Text(lit: string) | Hole(lit: string, name: string, rest: Template)
                    | Unclosed(lit: string) | Nameless(lit: string)

  function Parse(s: string): Template
    decreases |s|
  {
    match First(s)
    case Nothing => Text(s)
    case NoEnd(lit) => Unclosed(lit)
    case NoName(lit) => Nameless(lit)
    case Place(lit, name, after) => Hole(lit, name, Parse(after))
  }

  predicate WellFormed(t: Template) {
    match t
    case Text(_) => true
    case Hole(_, _, rest) => WellFormed(rest)
    case _ => false
  }

  function Names(t: Template): seq<string> {
    if t.Hole? then [t.name] + Names(t.rest) else []
  }

  /** Every placeholder replaced by its value. */
  function Render(t: Template, inputs: Inputs): string {
    match t
    case Text(lit) => lit
    case Hole(lit, name, rest) => lit + Value(inputs, name) + Render(rest, inputs)
    case Unclosed(lit) => lit
    case Nameless(lit) => lit
  }

  predicate Bounded(names: seq<string>, inputs: Inputs) {
    forall name | name in names :: ByteLength(Value(inputs, name)) <= MAX_INPUT_VALUE_BYTES
  }

  /** The names without a value, each once, in the order of their first use. */
  function Lacking(names: seq<string>, inputs: Inputs, seen: set<string>): seq<string> {
    if names == [] then []
    else
      (if names[0] !in seen && Value(inputs, names[0]) == "" then [names[0]] else [])
      + Lacking(names[1..], inputs, seen + {names[0]})
  }

  /** The first thing wrong with the template itself or with a value that is too long. */
  function FirstFault(t: Template, inputs: Inputs): Error
    requires !(WellFormed(t) && Bounded(Names(t), inputs))
  {
    match t
    case Hole(_, name, rest) =>
      if ByteLength(Value(inputs, name)) > MAX_INPUT_VALUE_BYTES then TooLong(name)
      else assert forall other | other in Names(t) :: other == name || other in Names(rest); FirstFault(rest, inputs)
    case Unclosed(_) => Unterminated
    case Nameless(_) => EmptyName
  }

  function Evaluate(t: Template, inputs: Inputs, lacking: seq<string>): Result {
    if WellFormed(t) && Bounded(Names(t), inputs) then Closing(Render(t, inputs), lacking)
    else Err(FirstFault(t, inputs))
  }

  /** Read once, substitute once. */
  function OnePass(s: string, inputs: Inputs): Result {
    Evaluate(Parse(s), inputs, Lacking(Names(Parse(s)), inputs, {}))
  }

  // ----- Both agree when no value holds an opening brace -----

  predicate BraceFree(inputs: Inputs) {
    forall name | name in inputs :: '{' !in inputs[name]
  }

  /** Text that the scan will never look at again: nothing in it, and nothing that starts
      in it, is an opening pair. */
  ghost predicate Settled(done: string) {
    && (forall i :: !Pair(done, i, '{'))
    && (done != "" ==> done[|done| - 1] != '{')
  }

  lemma SettledGrows(done: string, s: string, val: string)
    requires Settled(done) && FindPair(s, '{') >= 0 && '{' !in val
    ensures Settled(done + s[..FindPair(s, '{')] + val)
  {
    FindPairIs(s, '{');
    var lit := s[..FindPair(s, '{')];
    var all := done + lit + val;
    forall i
      ensures !Pair(all, i, '{')
    {
      if Pair(all, i, '{') {
        if i + 1 < |done| {
          assert Pair(done, i, '{');
        } else if i + 1 < |done| + |lit| {
          assert s[i + 1 - |done|] == '{';
          assert i >= |done| ==> Pair(s, i - |done|, '{');
        }
      }
    }
    assert lit != "" ==> !Pair(s, |lit| - 1, '{');
  }

  lemma FindBehind(done: string, s: string)
    requires Settled(done)
    ensures FindPair(done + s, '{') == if FindPair(s, '{') < 0 then -1 else |done| + FindPair(s, '{')
  {
    var all := done + s;
    var r, a := FindPair(s, '{'), FindPair(all, '{');
    FindPairIs(s, '{');
    FindPairIs(all, '{');
    assert r >= 0 ==> Pair(all, |done| + r, '{');
    assert !Pair(all, |done| - 1, '{');
    assert 0 <= a < |done| - 1 ==> Pair(done, a, '{');
    assert a >= |done| ==> Pair(s, a - |done|, '{');
  }

  function Behind(done: string, r: Result): Result {
    if r.Ok? then Ok(done + r.text) else r
  }

  lemma CutBehind(done: string, s: string, i: nat)
    requires i <= |s|
    ensures (done + s)[..|done| + i] == done + s[..i]
    ensures (done + s)[|done| + i..] == s[i..]
  {
  }

  function Moved(done: string, f: Found): Found {
    if f.Nothing? then f else f.(lit := done + f.lit)
  }

  /** In settled text followed by `s` the first placeholder is the first one of `s`. */
  lemma FirstBehind(done: string, s: string)
    requires Settled(done)
    ensures First(done + s) == Moved(done, First(s))
  {
    FindBehind(done, s);
    var start := FindPair(s, '{');
    if start >= 0 {
      CutBehind(done, s, start);
      CutBehind(done, s, start + 2);
      assert First(done + s) == Opened(done + s[..start], s[start + 2..]);
      OpenedMoves(done, s[..start], s[start + 2..]);
    }
  }

  lemma OpenedMoves(done: string, lit: string, tail: string)
    ensures Opened(done + lit, tail) == Moved(done, Opened(lit, tail))
  {
  }

  lemma EvaluateHole(t: Template, inputs: Inputs, lacking: seq<string>)
    requires t.Hole?
    ensures Evaluate(t, inputs, lacking)
            == if ByteLength(Value(inputs, t.name)) > MAX_INPUT_VALUE_BYTES then Err(TooLong(t.name))
               else Behind(t.lit + Value(inputs, t.name), Evaluate(t.rest, inputs, lacking))
  {
    assert forall other | other in Names(t) :: other == t.name || other in Names(t.rest);
    assert forall other | other in Names(t.rest) :: other in Names(t);
    assert t.name in Names(t);
  }

  lemma LackingStep(t: Template, inputs: Inputs, sc: Scan)
    requires t.Hole?
    ensures sc.missing + Lacking(Names(t), inputs, sc.seen)
            == Noted(sc, t.name, inputs) + Lacking(Names(t.rest), inputs, sc.seen + {t.name})
  {
    assert Names(t)[0] == t.name && Names(t)[1..] == Names(t.rest);
  }

  lemma Regroup(a: string, b: string, c: string)
    ensures a + (b + c) == a + b + c
  {
  }

  lemma HandleGo(f: Found, sc: Scan, inputs: Inputs)
    requires f.Place? && ByteLength(Value(inputs, f.name)) <= MAX_INPUT_VALUE_BYTES
    ensures Handle(f, sc, inputs)
            == Go(Scan(f.lit + Value(inputs, f.name) + f.after, sc.seen + {f.name}, Noted(sc, f.name, inputs)))
  {
  }

  /** A turn on settled text followed by `s` does what reading `s` says. */
  lemma TurnBehind(done: string, s: string, f: Found, sc: Scan, inputs: Inputs)
    requires Settled(done) && First(s) == f && f.Place? && sc.result == done + s
    requires ByteLength(Value(inputs, f.name)) <= MAX_INPUT_VALUE_BYTES
    ensures OneTurn(sc, inputs) == Go(Scan(done + (f.lit + Value(inputs, f.name)) + f.after,
                                           sc.seen + {f.name}, Noted(sc, f.name, inputs)))
  {
    FirstBehind(done, s);
    HandleGo(Moved(done, f), sc, inputs);
    Regroup(done, f.lit, Value(inputs, f.name));
  }

  lemma LastTurnBehind(done: string, s: string, seen: set<string>, missing: seq<string>, inputs: Inputs)
    requires Settled(done)
    requires var t := Parse(s); t.Hole? ==> ByteLength(Value(inputs, t.name)) > MAX_INPUT_VALUE_BYTES
    ensures var t := Parse(s);
            OneTurn(Scan(done + s, seen, missing), inputs)
            == Stop(Behind(done, Evaluate(t, inputs, missing + Lacking(Names(t), inputs, seen))))
  {
    FirstBehind(done, s);
    var t := Parse(s);
    if t.Hole? {
      EvaluateHole(t, inputs, missing + Lacking(Names(t), inputs, seen));
    } else {
      assert missing + Lacking(Names(t), inputs, seen) == missing;
    }
  }

  lemma SettledBehind(done: string, s: string, inputs: Inputs)
    requires Settled(done) && BraceFree(inputs) && Parse(s).Hole?
    ensures Settled(done + (Parse(s).lit + Value(inputs, Parse(s).name)))
  {
    var t := Parse(s);
    ValueIsBraceFree(inputs, t.name);
    SettledGrows(done, s, Value(inputs, t.name));
    assert done + (t.lit + Value(inputs, t.name)) == done + t.lit + Value(inputs, t.name);
  }

  lemma {:induction false} RescanBehind(done: string, s: string, seen: set<string>, missing: seq<string>,
                                        inputs: Inputs)
    requires Settled(done) && BraceFree(inputs)
    ensures var sc := Scan(done + s, seen, missing);
            && Halts(Rescan(inputs), sc)
            && Outcome(Rescan(inputs), sc)
               == Behind(done, Evaluate(Parse(s), inputs, missing + Lacking(Names(Parse(s)), inputs, seen)))
    decreases |s|
  {
    var t := Parse(s);
    var sc := Scan(done + s, seen, missing);
    var lacking := missing + Lacking(Names(t), inputs, seen);
    if !t.Hole? || ByteLength(Value(inputs, t.name)) > MAX_INPUT_VALUE_BYTES {
      LastTurnBehind(done, s, seen, missing, inputs);
      OutcomeOfStop(Rescan(inputs), sc, Behind(done, Evaluate(t, inputs, lacking)));
    } else {
      var placed, after := t.lit + Value(inputs, t.name), First(s).after;
      var seen', noted := seen + {t.name}, Noted(sc, t.name, inputs);
      TurnBehind(done, s, First(s), sc, inputs);
      OutcomeOfGo(Rescan(inputs), sc, Scan(done + placed + after, seen', noted));
      SettledBehind(done, s, inputs);
      RescanBehind(done + placed, after, seen', noted, inputs);
      LackingStep(t, inputs, sc);
      EvaluateHole(t, inputs, lacking);
      BehindTwice(done, placed, Evaluate(t.rest, inputs, lacking));
    }
  }

  lemma ValueIsBraceFree(inputs: Inputs, name: string)
    requires BraceFree(inputs)
    ensures '{' !in Value(inputs, name)
  {
  }

  lemma BehindTwice(a: string, b: string, r: Result)
    ensures Behind(a, Behind(b, r)) == Behind(a + b, r)
  {
    if r.Ok? {
      assert a + (b + r.text) == (a + b) + r.text;
    }
  }

  /** When no input value holds an opening brace the scan comes to an end, and its outcome,
      text or failure, is that of one pass from left to right. */
  lemma RescanIsOnePass(template: string, inputs: Inputs)
    requires BraceFree(inputs)
    ensures Halts(Rescan(inputs), Beginning(template))
    ensures Outcome(Rescan(inputs), Beginning(template)) == OnePass(template, inputs)
  {
    RescanBehind("", template, {}, [], inputs);
    assert "" + template == template;
    var lacking := Lacking(Names(Parse(template)), inputs, {});
    assert [] + lacking == lacking;
    var r := Evaluate(Parse(template), inputs, lacking);
    assert r.Ok? ==> "" + r.text == r.text;
  }

  // ----- What the one pass promises -----

  lemma {:induction false} LackingIs(names: seq<string>, inputs: Inputs, seen: set<string>)
    ensures var r := Lacking(names, inputs, seen);
            && (forall i, j | 0 <= i < j < |r| :: r[i] != r[j])
            && (forall name :: name in r <==> name in names && name !in seen && Value(inputs, name) == "")
  {
    if names != [] {
      LackingIs(names[1..], inputs, seen + {names[0]});
    }
  }

  /** Where a name is used first. */
  function FirstUse(names: seq<string>, name: string): nat {
    if names == [] || names[0] == name then 0 else 1 + FirstUse(names[1..], name)
  }

  /** Missing names come in the order of their first use. */
  lemma {:induction false} LackingInOrder(names: seq<string>, inputs: Inputs, seen: set<string>)
    ensures var r := Lacking(names, inputs, seen);
            forall i, j | 0 <= i < j < |r| :: FirstUse(names, r[i]) < FirstUse(names, r[j])
  {
    if names != [] {
      var rest := Lacking(names[1..], inputs, seen + {names[0]});
      LackingInOrder(names[1..], inputs, seen + {names[0]});
      LackingIs(names[1..], inputs, seen + {names[0]});
      forall k | 0 <= k < |rest|
        ensures FirstUse(names, rest[k]) == 1 + FirstUse(names[1..], rest[k])
      {
        assert rest[k] in rest;
      }
    }
  }

  /** It succeeds exactly when the template is well formed and every placeholder has a
      value that is neither empty nor too long; the text is then the rendered template. */
  lemma OnePassSucceedsIff(s: string, inputs: Inputs)
    ensures var t := Parse(s);
            && (OnePass(s, inputs).Ok? <==>
                  && WellFormed(t)
                  && forall name | name in Names(t) ::
                       && name in inputs && inputs[name] != ""
                       && ByteLength(inputs[name]) <= MAX_INPUT_VALUE_BYTES)
            && (OnePass(s, inputs).Ok? ==> OnePass(s, inputs).text == Render(t, inputs))
  {
    var names := Names(Parse(s));
    var lacking := Lacking(names, inputs, {});
    LackingIs(names, inputs, {});
    assert lacking != [] ==> lacking[0] in names;
    assert forall name | name in names :: name in inputs ==> inputs[name] == Value(inputs, name);
  }

  /** It reports missing names exactly when names without a value are all that is wrong,
      and then lists each of them once. */
  lemma OnePassReportsMissing(s: string, inputs: Inputs)
    ensures var t := Parse(s);
            var r := OnePass(s, inputs);
            && (r.Err? && r.error.Missing? <==>
                  && WellFormed(t) && Bounded(Names(t), inputs)
                  && exists name :: name in Names(t) && Value(inputs, name) == "")
            && (r.Err? && r.error.Missing? ==>
                  && (forall i, j | 0 <= i < j < |r.error.names| :: r.error.names[i] != r.error.names[j])
                  && (forall name :: name in r.error.names <==> name in Names(t) && Value(inputs, name) == ""))
  {
    var t := Parse(s);
    var lacking := Lacking(Names(t), inputs, {});
    LackingIs(Names(t), inputs, {});
    assert lacking != [] ==> lacking[0] in lacking;
    if !(WellFormed(t) && Bounded(Names(t), inputs)) {
      FaultIsNotMissing(t, inputs);
    }
  }

  lemma {:induction false} FaultIsNotMissing(t: Template, inputs: Inputs)
    requires !(WellFormed(t) && Bounded(Names(t), inputs))
    ensures !FirstFault(t, inputs).Missing?
  {
    if t.Hole? && ByteLength(Value(inputs, t.name)) <= MAX_INPUT_VALUE_BYTES {
      assert forall other | other in Names(t) :: other == t.name || other in Names(t.rest);
      FaultIsNotMissing(t.rest, inputs);
    }
  }

  // ----- Reading is the inverse of writing -----

  function Write(t: Template): string {
    match t
    case Text(lit) => lit
    case Hole(lit, name, rest) => lit + ("{{" + name + "}}" + Write(rest))
    case Unclosed(lit) => lit + "{{"
    case Nameless(lit) => lit + "{{}}"
  }

  /** A name that survives being written between braces. */
  ghost predicate PlainName(name: string) {
    && name != "" && TrimSpace(name) == name && name[|name| - 1] != '}'
    && forall i :: !Pair(name, i, '}')
  }

  ghost predicate Plain(t: Template) {
    match t
    case Text(lit) => forall i :: !Pair(lit, i, '{')
    case Hole(lit, name, rest) => Settled(lit) && PlainName(name) && Plain(rest)
    case _ => false
  }

  lemma FindClosing(name: string, rest: string)
    requires PlainName(name)
    ensures FindPair(name + "}}" + rest, '}') == |name|
  {
    var all := name + "}}" + rest;
    FindPairIs(all, '}');
    assert Pair(all, |name|, '}');
    assert forall i | i < |name| - 1 :: Pair(all, i, '}') <==> Pair(name, i, '}');
    assert !Pair(all, |name| - 1, '}');
  }

  lemma FirstWritten(lit: string, name: string, rest: string)
    requires Settled(lit) && PlainName(name)
    ensures First(lit + ("{{" + name + "}}" + rest)) == Place(lit, name, rest)
  {
    assert "{{" + name + "}}" + rest == "{{" + (name + "}}" + rest);
    FirstOpening(lit, name + "}}" + rest);
    FindClosing(name, rest);
    OpenedPadded(lit, name, rest);
  }

  /** Reading a template that was written from pieces gives back the pieces. */
  lemma {:induction false} ParseOfWrite(t: Template)
    requires Plain(t)
    ensures Parse(Write(t)) == t
  {
    if t.Text? {
      FindPairIs(t.lit, '{');
    } else {
      ParseOfWrite(t.rest);
      FirstWritten(t.lit, t.name, Write(t.rest));
    }
  }

  // ----- Spaces around a name do not count -----

  lemma {:induction false} TrimLeftSkips(a: string, x: string)
    requires AllSpace(a)
    ensures TrimLeft(a + x) == TrimLeft(x)
  {
    if a == "" {
      assert a + x == x;
    } else {
      assert IsSpace(a[0]) && (a + x)[1..] == a[1..] + x;
      TrimLeftSkips(a[1..], x);
    }
  }

  lemma {:induction false} TrimRightSkips(x: string, b: string)
    requires AllSpace(b)
    ensures TrimRight(x + b) == TrimRight(x)
  {
    if b == "" {
      assert x + b == x;
    } else {
      var n := |b| - 1;
      assert IsSpace(b[n]) && (x + b)[|x + b| - 1] == b[n] && (x + b)[..|x + b| - 1] == x + b[..n];
      TrimRightSkips(x, b[..n]);
    }
  }

  /** A name does not begin or end with a space if trimming leaves it as it is. */
  lemma TrimmedEnds(name: string)
    requires name != "" && TrimSpace(name) == name
    ensures !IsSpace(name[0]) && !IsSpace(name[|name| - 1])
  {
    var i, j := TrimSpaceIs(name);
    assert |name[i..j]| == |name|;
  }

  lemma TrimPadded(a: string, name: string, b: string)
    requires AllSpace(a) && AllSpace(b) && name != "" && TrimSpace(name) == name
    ensures TrimSpace(a + name + b) == name
  {
    TrimmedEnds(name);
    assert a + name + b == a + (name + b);
    TrimLeftSkips(a, name + b);
    assert (name + b)[0] == name[0];
    TrimRightSkips(name, b);
  }

  lemma TrimBlank(a: string)
    requires AllSpace(a)
    ensures TrimSpace(a) == ""
  {
    TrimLeftSkips(a, "");
    assert a + "" == a;
  }

  /** What stands between the braces of a padded placeholder. */
  lemma FindClosingPadded(a: string, name: string, b: string, rest: string)
    requires AllSpace(a) && AllSpace(b) && (name == "" || PlainName(name))
    ensures FindPair(a + name + b + "}}" + rest, '}') == |a + name + b|
  {
    var inner := a + name + b;
    var all := inner + "}}" + rest;
    FindPairIs(all, '}');
    assert Pair(all, |inner|, '}');
    forall i | i < |inner|
      ensures !Pair(all, i, '}')
    {
      if Pair(all, i, '}') {
        NoBraceInPads(a, name, b, i);
        assert all[i] == inner[i];
        if i < |a| + |name| - 1 {
          assert Pair(name, i - |a|, '}');
        }
      }
    }
  }

  lemma NoBraceInPads(a: string, name: string, b: string, i: nat)
    requires AllSpace(a) && AllSpace(b) && i < |a + name + b| && (a + name + b)[i] == '}'
    ensures |a| <= i < |a| + |name| && name[i - |a|] == '}'
  {
    assert forall k | 0 <= k < |a| :: a[k] != '}';
    assert forall k | 0 <= k < |b| :: b[k] != '}';
  }

  lemma OpenedPadded(lit: string, inner: string, rest: string)
    requires FindPair(inner + "}}" + rest, '}') == |inner|
    ensures Opened(lit, inner + "}}" + rest)
         == if TrimSpace(inner) == "" then NoName(lit) else Place(lit, TrimSpace(inner), rest)
  {
    var tail := inner + "}}" + rest;
    assert tail[..|inner|] == inner && tail[|inner| + 2..] == rest;
  }

  /** An opening pair behind settled text is the first one. */
  lemma FirstOpening(lit: string, tail: string)
    requires Settled(lit)
    ensures First(lit + ("{{" + tail)) == Opened(lit, tail)
  {
    var back := "{{" + tail;
    assert Pair(back, 0, '{');
    FindPairIs(back, '{');
    FindBehind(lit, back);
    CutBehind(lit, back, 0);
    CutBehind(lit, back, 2);
    assert back[2..] == tail && back[..0] == "" && lit + "" == lit;
  }

  /** Spaces on either side of a name are not part of it. */
  lemma PaddedPlaceholder(lit: string, a: string, name: string, b: string, rest: string)
    requires Settled(lit) && PlainName(name) && AllSpace(a) && AllSpace(b)
    ensures Parse(lit + ("{{" + (a + name + b + "}}" + rest))) == Hole(lit, name, Parse(rest))
  {
    FirstOpening(lit, a + name + b + "}}" + rest);
    FindClosingPadded(a, name, b, rest);
    OpenedPadded(lit, a + name + b, rest);
    TrimPadded(a, name, b);
  }

  /** A value of more than 20000 bytes is reported under its name. */
  lemma LongValueIsReported(lit: string, name: string, rest: string, inputs: Inputs)
    requires Settled(lit) && PlainName(name) && name in inputs && ByteLength(inputs[name]) > 20000
    ensures OnePass(lit + ("{{" + (name + "}}" + rest)), inputs) == Err(TooLong(name))
  {
    PaddedPlaceholder(lit, "", name, "", rest);
    assert "" + name + "" == name;
    EvaluateHole(Hole(lit, name, Parse(rest)), inputs, Lacking(Names(Hole(lit, name, Parse(rest))), inputs, {}));
  }

  /** A placeholder of nothing but spaces has no name. */
  lemma BlankPlaceholder(lit: string, a: string, rest: string)
    requires Settled(lit) && AllSpace(a)
    ensures Parse(lit + ("{{" + (a + "}}" + rest))) == Nameless(lit)
    ensures forall inputs :: OnePass(lit + ("{{" + (a + "}}" + rest)), inputs) == Err(EmptyName)
  {
    FirstOpening(lit, a + "}}" + rest);
    FindClosingPadded(a, "", "", rest);
    assert a + "" + "" == a;
    OpenedPadded(lit, a, rest);
    TrimBlank(a);
  }

  /** A placeholder that is not closed is reported, whatever follows its opening. */
  lemma UnclosedPlaceholder(lit: string, tail: string)
    requires Settled(lit) && forall i :: !Pair(tail, i, '}')
    ensures Parse(lit + ("{{" + tail)) == Unclosed(lit)
    ensures forall inputs :: OnePass(lit + ("{{" + tail), inputs) == Err(Unterminated)
  {
    FirstOpening(lit, tail);
    FindPairIs(tail, '}');
  }

  datatype Pad = Pad(before: string, after: string)

  /** A template written with spaces around its names, for as many as there are pads. */
  function WritePadded(t: Template, pads: seq<Pad>): string {
    match t
    case Text(lit) => lit
    case Hole(lit, name, rest) =>
      var pad := if pads == [] then Pad("", "") else pads[0];
      lit + ("{{" + (pad.before + name + pad.after + "}}" + WritePadded(rest, if pads == [] then [] else pads[1..])))
    case Unclosed(lit) => lit + "{{"
    case Nameless(lit) => lit + "{{}}"
  }

  /** Reading gives back the pieces however the names were padded. */
  lemma {:induction false} ParseOfPadded(t: Template, pads: seq<Pad>)
    requires Plain(t) && forall p | p in pads :: AllSpace(p.before) && AllSpace(p.after)
    ensures Parse(WritePadded(t, pads)) == t
  {
    if t.Text? {
      FindPairIs(t.lit, '{');
    } else {
      var pad := if pads == [] then Pad("", "") else pads[0];
      var more := if pads == [] then [] else pads[1..];
      ParseOfPadded(t.rest, more);
      assert pads != [] ==> pad in pads;
      PaddedPlaceholder(t.lit, pad.before, t.name, pad.after, WritePadded(t.rest, more));
    }
  }

  // ----- A value that names itself -----

  lemma SelfTurn(pre: string, name: string, post: string, sc: Scan, inputs: Inputs)
    requires Settled(pre) && PlainName(name)
    requires name in inputs && inputs[name] == "{{" + name + "}}" && ByteLength(inputs[name]) <= MAX_INPUT_VALUE_BYTES
    requires sc.result == pre + (inputs[name] + post)
    ensures OneTurn(sc, inputs).Go? && OneTurn(sc, inputs).next.result == sc.result
  {
    FirstWritten(pre, name, post);
    HandleGo(Place(pre, name, post), sc, inputs);
    Regroup(pre, inputs[name], post);
  }

  /** An input whose value is its own placeholder keeps the scan going for ever. */
  lemma SelfReferenceNeverStops(pre: string, name: string, post: string, inputs: Inputs)
    requires Settled(pre) && PlainName(name)
    requires name in inputs && inputs[name] == "{{" + name + "}}" && ByteLength(inputs[name]) <= MAX_INPUT_VALUE_BYTES
    ensures !Halts(Rescan(inputs), Beginning(pre + (inputs[name] + post)))
  {
    var template := pre + (inputs[name] + post);
    forall sc: Scan | sc.result == template
      ensures Rescan(inputs)(sc).Go? && Rescan(inputs)(sc).next.result == template
    {
      SelfTurn(pre, name, post, sc, inputs);
    }
    forall n: nat
      ensures Iterate(Rescan(inputs), Beginning(template), n) == Unfinished
    {
      StaysForever(Rescan(inputs), (sc: Scan) => sc.result == template, Beginning(template), n);
    }
  }

  // ----- The loop -----

  lemma StopsHere(inputs: Inputs, sc: Scan, f: Found, r: Result)
    requires First(sc.result) == f && Handle(f, sc, inputs) == Stop(r)
    ensures Halts(Rescan(inputs), sc) && Outcome(Rescan(inputs), sc) == r
  {
    OutcomeOfStop(Rescan(inputs), sc, r);
  }

  lemma GoesOn(inputs: Inputs, sc: Scan, f: Found, next: Scan)
    requires First(sc.result) == f && Handle(f, sc, inputs) == Go(next) && Halts(Rescan(inputs), sc)
    ensures Halts(Rescan(inputs), next) && Outcome(Rescan(inputs), next) == Outcome(Rescan(inputs), sc)
    ensures TurnsLeft(Rescan(inputs), next) < TurnsLeft(Rescan(inputs), sc)
  {
    OutcomeOfGo(Rescan(inputs), sc, next);
    TurnsLeftShrink(Rescan(inputs), sc, next);
  }

  method InterpolateInputs(template: string, inputs: Inputs) returns (r: Result)
    requires Halts(Rescan(inputs), Beginning(template))
    ensures r == Outcome(Rescan(inputs), Beginning(template))
    ensures r.Ok? ==> forall i :: !Pair(r.text, i, '{')
    ensures BraceFree(inputs) ==> r == OnePass(template, inputs)
  {
    var missing: seq<string> := [];
    var result := template;
    var seen: set<string> := {};
    ghost var turn := Rescan(inputs);
    if BraceFree(inputs) {
      RescanIsOnePass(template, inputs);
    }
    while true
      invariant Halts(turn, Scan(result, seen, missing))
      invariant Outcome(turn, Scan(result, seen, missing)) == Outcome(turn, Beginning(template))
      decreases TurnsLeft(turn, Scan(result, seen, missing))
    {
      ghost var sc := Scan(result, seen, missing);
      var start := FindPair(result, '{');
      if start < 0 {
        StopsHere(inputs, sc, Nothing, Closing(result, missing));
        break;
      }
      var end := FindPair(result[start + 2..], '}');
      if end < 0 {
        StopsHere(inputs, sc, NoEnd(result[..start]), Err(Unterminated));
        return Err(Unterminated);
      }
      var name := TrimSpace(result[start + 2..][..end]);
      if name == "" {
        StopsHere(inputs, sc, NoName(result[..start]), Err(EmptyName));
        return Err(EmptyName);
      }
      ghost var place := Place(result[..start], name, result[start + 2..][end + 2..]);
      assert First(result) == place;
      if name !in seen {
        seen := seen + {name};
        if name !in inputs || inputs[name] == "" {
          missing := missing + [name];
        }
      }
      var val := Value(inputs, name);
      if ByteLength(val) > MAX_INPUT_VALUE_BYTES {
        StopsHere(inputs, sc, place, Err(TooLong(name)));
        return Err(TooLong(name));
      }
      result := result[..start] + val + result[start + 2..][end + 2..];
      assert seen == sc.seen + {name};
      GoesOn(inputs, sc, place, Scan(result, seen, missing));
    }
    FindPairIs(result, '{');
    if |missing| > 0 {
      return Err(Missing(missing));
    }
    return Ok(result);
  }
}
