/** The flow engine: a recursive interpreter of step, router, parallel, map and reduce
    nodes over a state that is a map of named values.

    Actions, routers and merges are functions of the state.  A schedule says, for
    every invocation of a parallel node, in which order its branches complete; an
    invocation is named by its path from the root of the execution. */
module Flows {
  import opened Options

  datatype Value = Null | Text(text: string) | List(items: seq<Value>)

  type Data = map<string, Value>

  datatype Outcome = Ok(state: Data) | Err

  type Merge = seq<Data> -> Data

  datatype Node =
    | StepNode(action: Data -> Outcome, next: seq<string>)
    | RouterNode(router: Data -> string, next: seq<string>)
    | ParallelNode(branches: seq<string>, next: seq<string>)
    | MapNode(action: Data -> Outcome, source: string, result: string, next: seq<string>)
    | ReduceNode(merge: Option<Merge>, next: seq<string>)

  type Nodes = map<string, Node>

  /** For each invocation of a parallel node, which of the pending branches completes
      next, as indices into the branches that are still pending. */
  type Schedule = seq<nat> -> seq<nat>

  const MAX_FLOW_DEPTH: nat := 256

  // ----- The node types that hand one state on -----

  function ItemResult(action: Data -> Outcome, s: Data, item: Value): Option<Value> {
    match action(s["item" := item])
    case Ok(t) => Some(if "result" in t then t["result"] else Null)
    case Err => None
  }

  function Slot(action: Data -> Outcome, s: Data, item: Value): Value {
    match ItemResult(action, s, item)
    case Some(v) => v
    case None => Null
  }

  /** Items whose action failed leave a null in their slot. */
  function MapResults(action: Data -> Outcome, s: Data, items: seq<Value>): seq<Value> {
    seq(|items|, i requires 0 <= i < |items| => Slot(action, s, items[i]))
  }

  predicate AllItemsFail(action: Data -> Outcome, s: Data, items: seq<Value>) {
    items != [] && forall i | 0 <= i < |items| :: ItemResult(action, s, items[i]).None?
  }

  function FirstOf(next: seq<string>): string {
    if next == [] then "" else next[0]
  }

  /** What a node that is not parallel makes of the state. */
  function Effect(node: Node, s: Data): Outcome
    requires !node.ParallelNode?
  {
    match node
    case StepNode(action, _) => action(s)
    case MapNode(action, source, result, _) =>
      if source in s && s[source].List? then
        if AllItemsFail(action, s, s[source].items) then Err
        else Ok(s[result := List(MapResults(action, s, s[source].items))])
      else Ok(s)
    case _ => Ok(s)
  }

  /** The node that follows; a router decides on the state it was given. */
  function Successor(node: Node, s: Data): string {
    if node.RouterNode? then node.router(s) else FirstOf(node.next)
  }

  // ----- Branches -----

  function Without<T>(xs: seq<T>, k: nat): seq<T>
    requires k < |xs|
  {
    xs[..k] + xs[k + 1..]
  }

  /** The next branch to complete; a schedule that names none means the first. */
  function Pick(picks: seq<nat>, n: nat): (k: nat)
    requires 0 < n
    ensures k < n
  {
    if picks == [] || n <= picks[0] then 0 else picks[0]
  }

  /** The outcomes in the order in which the branches complete. */
  function Completions(picks: seq<nat>, pending: seq<Outcome>): seq<Outcome>
    decreases |pending|
  {
    if pending == [] then []
    else
      var k := Pick(picks, |pending|);
      [pending[k]] + Completions(if picks == [] then [] else picks[1..], Without(pending, k))
  }

  function StateOf(o: Outcome): seq<Data> {
    if o.Ok? then [o.state] else []
  }

  /** The states of the branches that succeeded. */
  function States(outcomes: seq<Outcome>): seq<Data> {
    if outcomes == [] then [] else StateOf(outcomes[0]) + States(outcomes[1..])
  }

  /** The state that a parallel node hands on, from the successful branch states. */
  function Joined(nodes: Nodes, node: Node, s: Data, states: seq<Data>): Data
    requires node.ParallelNode?
  {
    if node.next == [] then s
    else if node.next[0] in nodes && nodes[node.next[0]].ReduceNode? && nodes[node.next[0]].merge.Some? then
      nodes[node.next[0]].merge.value(states)
    else if states != [] then states[0]
    else s
  }

  /** A parallel node once its branches have completed, in this order; it fails only
      when it has branches and all of them failed. */
  function Fan(nodes: Nodes, node: Node, s: Data, completed: seq<Outcome>): Outcome
    requires node.ParallelNode?
  {
    var states := States(completed);
    if states == [] && node.branches != [] then Err else Ok(Joined(nodes, node, s, states))
  }

  // ----- The interpreter -----

  /** Defined on every flow, cyclic ones included, because the depth guard stops it. */
  function Exec(nodes: Nodes, sched: Schedule, path: seq<nat>, id: string, s: Data, depth: nat): Outcome
    decreases MAX_FLOW_DEPTH + 1 - depth, 0
  {
    if depth > MAX_FLOW_DEPTH then Err
    else if id == "" then Ok(s)
    else if id !in nodes then Err
    else if nodes[id].ParallelNode? then
      var node := nodes[id];
      match AfterBranches(nodes, sched, path, id, s, depth)
      case Err => Err
      case Ok(t) => Exec(nodes, sched, path + [0], FirstOf(node.next), t, depth + 1)
    else
      match Effect(nodes[id], s)
      case Err => Err
      case Ok(t) => Exec(nodes, sched, path + [0], Successor(nodes[id], s), t, depth + 1)
  }

  /** Parallel node `id` when all its branches have completed. */
  function AfterBranches(nodes: Nodes, sched: Schedule, path: seq<nat>, id: string, s: Data, depth: nat): Outcome
    requires id in nodes && nodes[id].ParallelNode? && depth <= MAX_FLOW_DEPTH
    decreases MAX_FLOW_DEPTH - depth, 2
  {
    var outcomes := Branches(nodes, sched, path, nodes[id].branches, s, depth + 1);
    Fan(nodes, nodes[id], s, Completions(sched(path), outcomes))
  }

  /** Every branch starts from its own copy of the state. */
  function Branches(nodes: Nodes, sched: Schedule, path: seq<nat>, ids: seq<string>, s: Data, depth: nat): seq<Outcome>
    decreases MAX_FLOW_DEPTH + 1 - depth, 1
  {
    seq(|ids|, i requires 0 <= i < |ids| => Exec(nodes, sched, path + [i + 1], ids[i], s, depth))
  }

  // ----- Joining branches: the schedule permutes, and nothing is lost -----

  lemma Grouped<T>(a: seq<T>, b: seq<T>, c: seq<T>)
    ensures a + (b + c) == (a + b) + c
  {
  }

  lemma StatesOfOneMore(o: Outcome, rest: seq<Outcome>)
    ensures States([o] + rest) == StateOf(o) + States(rest)
  {
    assert ([o] + rest)[1..] == rest;
  }

  lemma {:induction false} StatesJoin(a: seq<Outcome>, b: seq<Outcome>)
    ensures States(a + b) == States(a) + States(b)
  {
    if a == [] {
      assert a + b == b;
    } else {
      var rest := a[1..];
      assert a == [a[0]] + rest && a + b == [a[0]] + (rest + b);
      StatesOfOneMore(a[0], rest);
      StatesOfOneMore(a[0], rest + b);
      StatesJoin(rest, b);
      Grouped(StateOf(a[0]), States(rest), States(b));
    }
  }

  lemma CutOut<T>(xs: seq<T>, k: nat)
    requires k < |xs|
    ensures xs == xs[..k] + ([xs[k]] + xs[k + 1..])
  {
  }

  lemma WithoutCounts<T>(xs: seq<T>, k: nat)
    requires k < |xs|
    ensures multiset(xs) == multiset{xs[k]} + multiset(Without(xs, k))
    ensures multiset(Without(xs, k)) == multiset(xs) - multiset{xs[k]}
  {
    assert xs == xs[..k] + ([xs[k]] + xs[k + 1..]);
  }

  lemma MiddleCounts<T>(a: seq<T>, m: seq<T>, b: seq<T>)
    ensures multiset(a + (m + b)) == multiset(m) + multiset(a + b)
  {
  }

  lemma StatesAround(a: seq<Outcome>, o: Outcome, b: seq<Outcome>)
    ensures multiset(States(a + ([o] + b))) == multiset(StateOf(o)) + multiset(States(a + b))
  {
    StatesJoin(a, [o] + b);
    StatesOfOneMore(o, b);
    StatesJoin(a, b);
    MiddleCounts(States(a), StateOf(o), States(b));
  }

  lemma StatesWithout(xs: seq<Outcome>, k: nat)
    requires k < |xs|
    ensures multiset(States(xs)) == multiset(StateOf(xs[k])) + multiset(States(Without(xs, k)))
  {
    CutOut(xs, k);
    StatesAround(xs[..k], xs[k], xs[k + 1..]);
  }

  /** For every schedule, Merge receives a permutation of the successful branch states. */
  lemma {:induction false} MergeGetsAPermutation(picks: seq<nat>, outcomes: seq<Outcome>)
    ensures multiset(States(Completions(picks, outcomes))) == multiset(States(outcomes))
    ensures multiset(Completions(picks, outcomes)) == multiset(outcomes)
    decreases |outcomes|
  {
    if outcomes != [] {
      var k := Pick(picks, |outcomes|);
      var rest := Completions(if picks == [] then [] else picks[1..], Without(outcomes, k));
      MergeGetsAPermutation(if picks == [] then [] else picks[1..], Without(outcomes, k));
      WithoutCounts(outcomes, k);
      StatesWithout(outcomes, k);
      assert Completions(picks, outcomes) == [outcomes[k]] + rest;
      StatesJoin([outcomes[k]], rest);
      assert States([outcomes[k]]) == StateOf(outcomes[k]);
    }
  }

  lemma SameWithout(order: seq<Outcome>, outcomes: seq<Outcome>, k: nat)
    requires multiset(order) == multiset(outcomes) && order != [] && k < |outcomes| && outcomes[k] == order[0]
    ensures multiset(order[1..]) == multiset(Without(outcomes, k))
  {
    WithoutCounts(outcomes, k);
    WithoutCounts(order, 0);
    assert Without(order, 0) == order[1..];
  }

  lemma PickFirst(k: nat, more: seq<nat>, outcomes: seq<Outcome>)
    requires k < |outcomes|
    ensures Completions([k] + more, outcomes) == [outcomes[k]] + Completions(more, Without(outcomes, k))
  {
    var picks := [k] + more;
    assert picks[1..] == more && Pick(picks, |outcomes|) == k;
  }

  /** And every order of completion is the work of some schedule. */
  lemma {:induction false} EveryOrderHappens(outcomes: seq<Outcome>, order: seq<Outcome>) returns (picks: seq<nat>)
    requires multiset(order) == multiset(outcomes)
    ensures Completions(picks, outcomes) == order
    decreases |outcomes|
  {
    assert |order| == |multiset(order)| == |outcomes|;
    picks := [];
    if order != [] {
      assert order[0] in multiset(outcomes);
      var k: nat :| k < |outcomes| && outcomes[k] == order[0];
      SameWithout(order, outcomes, k);
      var more := EveryOrderHappens(Without(outcomes, k), order[1..]);
      picks := [k] + more;
      PickFirst(k, more, outcomes);
    }
  }

  // ----- Schedule independence -----

  ghost predicate OrderInsensitive(merge: Merge) {
    forall xs, ys | multiset(xs) == multiset(ys) :: merge(xs) == merge(ys)
  }

  /** Every parallel node either drops its branch states or hands them to a merge that
      does not look at their order. */
  ghost predicate OrderFree(nodes: Nodes) {
    forall id | id in nodes && nodes[id].ParallelNode? && nodes[id].next != [] ::
      var next := nodes[id].next[0];
      next in nodes && nodes[next].ReduceNode? && nodes[next].merge.Some? && OrderInsensitive(nodes[next].merge.value)
  }

  lemma SameEmptiness(xs: seq<Data>, ys: seq<Data>)
    requires multiset(xs) == multiset(ys)
    ensures xs == [] <==> ys == []
  {
    assert |xs| == |multiset(xs)| == |ys|;
  }

  lemma SameFan(nodes: Nodes, id: string, s: Data, picks: seq<nat>, picks': seq<nat>, outcomes: seq<Outcome>)
    requires OrderFree(nodes) && id in nodes && nodes[id].ParallelNode?
    ensures Fan(nodes, nodes[id], s, Completions(picks, outcomes))
            == Fan(nodes, nodes[id], s, Completions(picks', outcomes))
  {
    MergeGetsAPermutation(picks, outcomes);
    MergeGetsAPermutation(picks', outcomes);
    SameEmptiness(States(Completions(picks, outcomes)), States(Completions(picks', outcomes)));
  }

  /** The outcome of a flow does not depend on how its branches are scheduled. */
  lemma {:induction false} ScheduleIndependent(nodes: Nodes, sched: Schedule, path: seq<nat>, sched': Schedule,
                                               path': seq<nat>, id: string, s: Data, depth: nat)
    requires OrderFree(nodes)
    ensures Exec(nodes, sched, path, id, s, depth) == Exec(nodes, sched', path', id, s, depth)
    decreases MAX_FLOW_DEPTH + 1 - depth, 0
  {
    if depth <= MAX_FLOW_DEPTH && id != "" && id in nodes {
      var node := nodes[id];
      if node.ParallelNode? {
        SameAfterBranches(nodes, sched, path, sched', path', id, s, depth);
        var fan := AfterBranches(nodes, sched, path, id, s, depth);
        if fan.Ok? {
          ScheduleIndependent(nodes, sched, path + [0], sched', path' + [0], FirstOf(node.next), fan.state, depth + 1);
        }
      } else if Effect(node, s).Ok? {
        ScheduleIndependent(nodes, sched, path + [0], sched', path' + [0], Successor(node, s), Effect(node, s).state,
                            depth + 1);
      }
    }
  }

  lemma {:induction false} SameAfterBranches(nodes: Nodes, sched: Schedule, path: seq<nat>, sched': Schedule,
                                             path': seq<nat>, id: string, s: Data, depth: nat)
    requires OrderFree(nodes) && id in nodes && nodes[id].ParallelNode? && depth <= MAX_FLOW_DEPTH
    ensures AfterBranches(nodes, sched, path, id, s, depth) == AfterBranches(nodes, sched', path', id, s, depth)
    decreases MAX_FLOW_DEPTH - depth, 2
  {
    SameBranches(nodes, sched, path, sched', path', nodes[id].branches, s, depth + 1);
    SameFan(nodes, id, s, sched(path), sched'(path'), Branches(nodes, sched, path, nodes[id].branches, s, depth + 1));
  }

  lemma {:induction false} SameBranches(nodes: Nodes, sched: Schedule, path: seq<nat>, sched': Schedule,
                                        path': seq<nat>, ids: seq<string>, s: Data, depth: nat)
    requires OrderFree(nodes)
    ensures Branches(nodes, sched, path, ids, s, depth) == Branches(nodes, sched', path', ids, s, depth)
    decreases MAX_FLOW_DEPTH + 1 - depth, 1
  {
    forall i | 0 <= i < |ids|
      ensures Branches(nodes, sched, path, ids, s, depth)[i] == Branches(nodes, sched', path', ids, s, depth)[i]
    {
      ScheduleIndependent(nodes, sched, path + [i + 1], sched', path' + [i + 1], ids[i], s, depth);
    }
  }

  // ----- The loops of a parallel and of a map node -----

  /** Some branches are done and the others pending. */
  ghost predicate Split(done: seq<Outcome>, pending: seq<Outcome>, outcomes: seq<Outcome>) {
    multiset(done) + multiset(pending) == multiset(outcomes)
  }

  lemma SplitStep(done: seq<Outcome>, pending: seq<Outcome>, outcomes: seq<Outcome>, k: nat)
    requires Split(done, pending, outcomes) && k < |pending|
    ensures Split(done + [pending[k]], Without(pending, k), outcomes)
    ensures States(done + [pending[k]]) == States(done) + StateOf(pending[k])
  {
    WithoutCounts(pending, k);
    StatesJoin(done, [pending[k]]);
    assert States([pending[k]]) == StateOf(pending[k]);
  }

  lemma SplitEnds(done: seq<Outcome>, outcomes: seq<Outcome>)
    requires Split(done, [], outcomes)
    ensures multiset(States(done)) == multiset(States(outcomes)) && |done| == |outcomes|
    ensures exists picks :: States(done) == States(Completions(picks, outcomes))
  {
    assert multiset(done) == multiset(outcomes);
    assert |done| == |multiset(done)| == |outcomes|;
    var picks := EveryOrderHappens(outcomes, done);
    MergeGetsAPermutation(picks, outcomes);
  }

  /** Branches append to the results as they complete, in any order. */
  method JoinBranches(outcomes: seq<Outcome>) returns (branchStates: seq<Data>, failed: nat)
    ensures multiset(branchStates) == multiset(States(outcomes))
    ensures failed + |branchStates| == |outcomes|
    ensures exists picks :: branchStates == States(Completions(picks, outcomes))
  {
    branchStates, failed := [], 0;
    var pending := outcomes;
    ghost var done: seq<Outcome> := [];
    while pending != []
      invariant Split(done, pending, outcomes)
      invariant branchStates == States(done) && failed + |branchStates| == |done|
      decreases |pending|
    {
      var k: nat :| k < |pending|;
      SplitStep(done, pending, outcomes, k);
      if pending[k].Err? {
        failed := failed + 1;
      } else {
        branchStates := branchStates + [pending[k].state];
      }
      done, pending := done + [pending[k]], Without(pending, k);
    }
    SplitEnds(done, outcomes);
  }

  function Indices(n: nat): (r: set<nat>)
    ensures |r| == n && forall i: nat :: i in r <==> i < n
  {
    if n == 0 then {} else Indices(n - 1) + {n - 1}
  }

  /** No item outside `pending` had a result. */
  ghost predicate NoneDone(action: Data -> Outcome, s: Data, items: seq<Value>, pending: set<nat>) {
    forall i | 0 <= i < |items| && i !in pending :: ItemResult(action, s, items[i]).None?
  }

  lemma OneMoreDone(action: Data -> Outcome, s: Data, items: seq<Value>, pending: set<nat>, i: nat)
    requires i < |items| && i in pending
    ensures NoneDone(action, s, items, pending - {i})
       <==> NoneDone(action, s, items, pending) && ItemResult(action, s, items[i]).None?
  {
  }

  /** A slot of the results while the items of `pending` have not completed. */
  ghost function SlotSoFar(action: Data -> Outcome, s: Data, items: seq<Value>, pending: set<nat>, i: nat): Value
    requires i < |items|
  {
    if i in pending then Null else Slot(action, s, items[i])
  }

  /** Each item writes its own slot of the results, in any order of completion. */
  method RunItems(action: Data -> Outcome, s: Data, items: seq<Value>) returns (results: array<Value>, failed: nat)
    ensures fresh(results) && results[..] == MapResults(action, s, items)
    ensures failed == |items| <==> forall i | 0 <= i < |items| :: ItemResult(action, s, items[i]).None?
  {
    results := new Value[|items|](_ => Null);
    var pending := Indices(|items|);
    failed := 0;
    ghost var succeeded := 0;
    while pending != {}
      invariant pending <= Indices(|items|)
      invariant failed + succeeded == |items| - |pending| && 0 <= succeeded
      invariant succeeded == 0 <==> NoneDone(action, s, items, pending)
      invariant forall i | 0 <= i < |items| :: results[i] == SlotSoFar(action, s, items, pending, i)
      decreases pending
    {
      var i :| i in pending;
      assert i in Indices(|items|);
      OneMoreDone(action, s, items, pending, i);
      pending := pending - {i};
      match ItemResult(action, s, items[i])
      case None => failed := failed + 1;
      case Some(v) =>
        results[i] := v;
        succeeded := succeeded + 1;
    }
  }

  /** What one call of the action leaves for its item. */
  predicate LeftBehind(call: Outcome, slot: Value) {
    match call
    case Ok(t) => slot == if "result" in t then t["result"] else Null
    case Err => slot == Null
  }

  /** A map node calls its action once for every item, each time on its own copy of the
      state with the item added, and stores what the calls left, in the order of the items. */
  ghost predicate MapLaw(node: Node, s: Data, out: Outcome)
    requires node.MapNode?
  {
    if node.source !in s || !s[node.source].List? then out == Ok(s)
    else
      var items := s[node.source].items;
      if items != [] && forall i | 0 <= i < |items| :: node.action(s["item" := items[i]]).Err? then out.Err?
      else
        && out.Ok? && out.state.Keys == s.Keys + {node.result}
        && (forall k | k in s && k != node.result :: out.state[k] == s[k])
        && out.state[node.result].List? && |out.state[node.result].items| == |items|
        && forall i | 0 <= i < |items| ::
             LeftBehind(node.action(s["item" := items[i]]), out.state[node.result].items[i])
  }

  lemma MapNodeLaw(node: Node, s: Data)
    requires node.MapNode?
    ensures MapLaw(node, s, Effect(node, s))
  {
    if node.source in s && s[node.source].List? {
      var items := s[node.source].items;
      forall i | 0 <= i < |items|
        ensures ItemResult(node.action, s, items[i]).None? <==> node.action(s["item" := items[i]]).Err?
        ensures LeftBehind(node.action(s["item" := items[i]]), MapResults(node.action, s, items)[i])
      {
      }
    }
  }

  method RunMapNode(node: Node, s: Data) returns (out: Outcome)
    requires node.MapNode?
    ensures MapLaw(node, s, out)
    ensures out == Effect(node, s)
  {
    MapNodeLaw(node, s);
    if node.source !in s || !s[node.source].List? {
      return Ok(s);
    }
    var items := s[node.source].items;
    var results, failed := RunItems(node.action, s, items);
    if failed == |items| && |items| > 0 {
      return Err;
    }
    return Ok(s[node.result := List(results[..])]);
  }

  // ----- What a parallel node hands on -----

  /** The state of the branch that succeeded first, if any did. */
  function FirstSuccess(completed: seq<Outcome>): Option<Data> {
    if completed == [] then None
    else if completed[0].Ok? then Some(completed[0].state)
    else FirstSuccess(completed[1..])
  }

  lemma {:induction false} FirstSuccessIs(completed: seq<Outcome>)
    ensures FirstSuccess(completed).None? <==> forall o | o in completed :: o.Err?
    ensures FirstSuccess(completed).None? <==> States(completed) == []
    ensures FirstSuccess(completed).Some? ==> States(completed)[0] == FirstSuccess(completed).value
  {
    if completed != [] {
      FirstSuccessIs(completed[1..]);
      assert forall o | o in completed :: o == completed[0] || o in completed[1..];
      assert forall o | o in completed[1..] :: o in completed;
      assert completed[0] in completed;
    }
  }

  /** A parallel node fails exactly when it has branches and none of them succeeds. It hands
      on what the Merge of a reduce node after it makes of the branch states, or, before any
      other node, the state of the branch that succeeded first, or, without a node after it,
      the state it was given. */
  lemma ParallelHandsOn(nodes: Nodes, branches: seq<string>, next: seq<string>, s: Data, completed: seq<Outcome>)
    requires |completed| == |branches|
    ensures var out := Fan(nodes, ParallelNode(branches, next), s, completed);
            if branches != [] && forall o | o in completed :: o.Err? then out == Err
            else if next == [] then out == Ok(s)
            else
              if next[0] in nodes && nodes[next[0]].ReduceNode? && nodes[next[0]].merge.Some? then
                out == Ok(nodes[next[0]].merge.value(States(completed)))
              else if branches == [] then out == Ok(s)
              else FirstSuccess(completed).Some? && out == Ok(FirstSuccess(completed).value)
  {
    FirstSuccessIs(completed);
  }

  // ----- The depth guard -----

  function LineID(k: nat): string {
    if k == 0 then "n" else LineID(k - 1) + "n"
  }

  lemma {:induction false} LineIDLength(k: nat)
    ensures |LineID(k)| == k + 1
  {
    if k > 0 {
      LineIDLength(k - 1);
    }
  }

  /** Every one of these nodes does nothing and goes on to the next, the last to none. */
  ghost predicate IsLine(nodes: Nodes, n: nat) {
    forall k: nat | k < n :: OnLine(nodes, n, k)
  }

  ghost predicate OnLine(nodes: Nodes, n: nat, k: nat) {
    && LineID(k) in nodes && nodes[LineID(k)].StepNode?
    && nodes[LineID(k)].next == (if k == n - 1 then [] else [LineID(k + 1)])
    && forall s :: nodes[LineID(k)].action(s) == Ok(s)
  }

  lemma {:induction false} LineFrom(nodes: Nodes, n: nat, sched: Schedule, path: seq<nat>, k: nat, s: Data, depth: nat)
    requires IsLine(nodes, n) && k < n
    ensures Exec(nodes, sched, path, LineID(k), s, depth) == if depth + (n - k) <= 256 then Ok(s) else Err
    decreases n - k
  {
    LineIDLength(k);
    assert OnLine(nodes, n, k);
    if depth <= MAX_FLOW_DEPTH {
      assert Effect(nodes[LineID(k)], s) == Ok(s);
      if k < n - 1 {
        LineFrom(nodes, n, sched, path + [0], k + 1, s, depth + 1);
      } else if depth < MAX_FLOW_DEPTH {
        assert Exec(nodes, sched, path + [0], "", s, depth + 1) == Ok(s);
      }
    }
  }

  /** A line of steps that cannot fail succeeds exactly when it has at most 256 of them. */
  lemma LineSucceedsIff(nodes: Nodes, n: nat, sched: Schedule, s: Data)
    requires IsLine(nodes, n) && n > 0
    ensures Exec(nodes, sched, [], LineID(0), s, 0) == if n <= 256 then Ok(s) else Err
  {
    LineFrom(nodes, n, sched, [], 0, s, 0);
  }
}
