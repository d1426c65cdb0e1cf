/** Parallel delegation: the manager builds a flow with one branch per task and a
    reduce node that collects what the branches wrote. */
module Delegation {
  import opened Options
  import opened Flows

  /** What became of the branch with an index: no agent took its task, or one answered. */
  type Delegate = (nat, string) -> Option<Value>

  function Digit(d: nat): char
    requires d < 10
  {
    "0123456789"[d]
  }

  function Decimal(n: nat): string {
    if n < 10 then [Digit(n)] else Decimal(n / 10) + [Digit(n % 10)]
  }

  lemma {:induction false} DecimalInjective(m: nat, n: nat)
    requires Decimal(m) == Decimal(n)
    ensures m == n
  {
    var a, b := Decimal(m), Decimal(n);
    assert a[|a| - 1] == Digit(m % 10) && b[|b| - 1] == Digit(n % 10);
    if m < 10 || n < 10 {
      DecimalLength(m);
      DecimalLength(n);
    } else {
      assert Decimal(m / 10) == a[..|a| - 1] && Decimal(n / 10) == b[..|b| - 1];
      DecimalInjective(m / 10, n / 10);
    }
  }

  lemma DecimalLength(n: nat)
    ensures 0 < |Decimal(n)| && (|Decimal(n)| == 1 <==> n < 10)
  {
  }

  function BranchID(i: nat): string {
    "task-" + Decimal(i)
  }

  lemma BranchIDsDiffer(i: nat, j: nat)
    requires BranchID(i) == BranchID(j)
    ensures i == j
  {
    assert BranchID(i)[5..] == Decimal(i) && BranchID(j)[5..] == Decimal(j);
    DecimalInjective(i, j);
  }

  /** A branch writes its answer under its own id; it fails when no agent took it. */
  function BranchAction(branchID: string, answer: Option<Value>): Data -> Outcome {
    (s: Data) => if answer.None? then Err else Ok(s[branchID := answer.value])
  }

  /** Later states overwrite earlier ones. */
  function MergeAll(states: seq<Data>): Data {
    if states == [] then map[] else MergeAll(states[..|states| - 1]) + states[|states| - 1]
  }

  const ROOT := "parallel-root"
  const REDUCE := "reduce-node"

  function BranchIDs(n: nat): seq<string> {
    seq(n, (i: nat) => BranchID(i))
  }

  function BranchNodes(tasks: seq<string>, delegate: Delegate): Nodes {
    if tasks == [] then map[]
    else
      var n := |tasks| - 1;
      BranchNodes(tasks[..n], delegate)[BranchID(n) := StepNode(BranchAction(BranchID(n), delegate(n, tasks[n])), [])]
  }

  function DelegationFlow(tasks: seq<string>, delegate: Delegate): Nodes {
    BranchNodes(tasks, delegate)[ROOT := ParallelNode(BranchIDs(|tasks|), [REDUCE])]
      [REDUCE := ReduceNode(Some(MergeAll), [])]
  }

  /** The answers, each under the id of its task. */
  function Answers(tasks: seq<string>, delegate: Delegate): Data {
    if tasks == [] then map[]
    else
      var n := |tasks| - 1;
      var rest := Answers(tasks[..n], delegate);
      match delegate(n, tasks[n]) case None => rest case Some(v) => rest[BranchID(n) := v]
  }

  /** Exactly the tasks that an agent took have an answer, what that agent returned, under
      the word "task", a dash and its number. */
  lemma {:induction false} AnswersAre(tasks: seq<string>, delegate: Delegate, k: string)
    ensures var answers := Answers(tasks, delegate);
            && (k in answers <==> exists i: nat :: AnsweredAs(tasks, delegate, i, k))
            && forall i: nat | AnsweredAs(tasks, delegate, i, k) :: answers[k] == delegate(i, tasks[i]).value
  {
    if tasks != [] {
      var n := |tasks| - 1;
      AnswersAre(tasks[..n], delegate, k);
      if AnsweredAs(tasks, delegate, n, k) {
        forall i: nat | AnsweredAs(tasks, delegate, i, k)
          ensures i == n
        {
          BranchIDsDiffer(i, n);
        }
      } else {
        assert k in Answers(tasks, delegate) <==> k in Answers(tasks[..n], delegate);
        forall i: nat
          ensures AnsweredAs(tasks, delegate, i, k) <==> AnsweredAs(tasks[..n], delegate, i, k)
        {
        }
      }
    }
  }

  predicate AnsweredAs(tasks: seq<string>, delegate: Delegate, i: nat, k: string) {
    i < |tasks| && delegate(i, tasks[i]).Some? && k == "task-" + Decimal(i)
  }

  /** What digits amount to. */
  function ValueOf(s: string): int {
    if s == "" then 0 else 10 * ValueOf(s[..|s| - 1]) + (s[|s| - 1] as int - '0' as int)
  }

  /** Numbers are written in decimal, without leading zeros. */
  lemma {:induction false} DecimalIs(n: nat)
    ensures ValueOf(Decimal(n)) == n && forall c | c in Decimal(n) :: '0' <= c <= '9'
    ensures Decimal(n)[0] == '0' ==> n == 0
  {
    if n < 10 {
      assert Decimal(n) == [Digit(n)] && [Digit(n)][..0] == "";
    } else {
      DecimalIs(n / 10);
      assert Decimal(n)[..|Decimal(n)| - 1] == Decimal(n / 10);
    }
  }

  // ----- Merging states that write distinct keys -----

  /** Two states never disagree on a key. */
  ghost predicate Agree(states: seq<Data>) {
    forall x, y, k | x in states && y in states && k in x && k in y :: x[k] == y[k]
  }

  lemma {:induction false} MergeAllIsUnion(states: seq<Data>)
    requires Agree(states)
    ensures forall k :: k in MergeAll(states) <==> exists x :: x in states && k in x
    ensures forall x, k | x in states && k in x :: k in MergeAll(states) && MergeAll(states)[k] == x[k]
  {
    if states != [] {
      var n := |states| - 1;
      MergeAllIsUnion(states[..n]);
      assert states == states[..n] + [states[n]];
    }
  }

  /** Merging does not depend on the order of states that agree. */
  lemma MergeAllInAnyOrder(xs: seq<Data>, ys: seq<Data>)
    requires multiset(xs) == multiset(ys) && Agree(xs)
    ensures MergeAll(xs) == MergeAll(ys)
  {
    assert forall x :: x in xs <==> x in multiset(xs);
    assert forall y :: y in ys <==> y in multiset(ys);
    assert Agree(ys);
    MergeAllIsUnion(xs);
    MergeAllIsUnion(ys);
  }

  // ----- Running the delegation flow -----

  function BranchOutcome(i: nat, answer: Option<Value>): Outcome {
    if answer.None? then Err else Ok(map[BranchID(i) := answer.value])
  }

  function BranchOutcomes(tasks: seq<string>, delegate: Delegate): seq<Outcome> {
    if tasks == [] then []
    else
      var n := |tasks| - 1;
      BranchOutcomes(tasks[..n], delegate) + [BranchOutcome(n, delegate(n, tasks[n]))]
  }

  lemma {:induction false} BranchOutcomeAt(tasks: seq<string>, delegate: Delegate, i: nat)
    requires i < |tasks|
    ensures |BranchOutcomes(tasks, delegate)| == |tasks|
    ensures BranchOutcomes(tasks, delegate)[i] == BranchOutcome(i, delegate(i, tasks[i]))
  {
    var n := |tasks| - 1;
    if n > 0 {
      BranchOutcomeAt(tasks[..n], delegate, if i < n then i else 0);
    }
  }

  lemma {:induction false} BranchNodeAt(tasks: seq<string>, delegate: Delegate, i: nat)
    requires i < |tasks|
    ensures var nodes := BranchNodes(tasks, delegate);
            BranchID(i) in nodes && nodes[BranchID(i)] == StepNode(BranchAction(BranchID(i), delegate(i, tasks[i])), [])
  {
    var n := |tasks| - 1;
    if i < n {
      BranchNodeAt(tasks[..n], delegate, i);
      if BranchID(i) == BranchID(n) {
        BranchIDsDiffer(i, n);
      }
    }
  }

  /** The nodes of a delegation flow. */
  ghost predicate IsDelegation(nodes: Nodes, tasks: seq<string>, delegate: Delegate) {
    && ROOT in nodes && nodes[ROOT] == ParallelNode(BranchIDs(|tasks|), [REDUCE])
    && REDUCE in nodes && nodes[REDUCE] == ReduceNode(Some(MergeAll), [])
    && forall i: nat | i < |tasks| :: BranchID(i) in nodes
         && nodes[BranchID(i)] == StepNode(BranchAction(BranchID(i), delegate(i, tasks[i])), [])
  }

  lemma DelegationFlowIs(tasks: seq<string>, delegate: Delegate)
    ensures IsDelegation(DelegationFlow(tasks, delegate), tasks, delegate)
  {
    forall i: nat | i < |tasks|
      ensures var nodes := DelegationFlow(tasks, delegate);
              && BranchID(i) in nodes
              && nodes[BranchID(i)] == StepNode(BranchAction(BranchID(i), delegate(i, tasks[i])), [])
    {
      BranchNodeAt(tasks, delegate, i);
      assert BranchID(i)[0] == 't' && ROOT[0] == 'p' && REDUCE[0] == 'r';
    }
  }

  lemma BranchRuns(nodes: Nodes, tasks: seq<string>, delegate: Delegate, sched: Schedule, path: seq<nat>, i: nat)
    requires IsDelegation(nodes, tasks, delegate) && i < |tasks|
    ensures Exec(nodes, sched, path, BranchID(i), map[], 1) == BranchOutcome(i, delegate(i, tasks[i]))
  {
    var id := BranchID(i);
    var out := Effect(nodes[id], map[]);
    assert out == BranchOutcome(i, delegate(i, tasks[i]));
    if out.Ok? {
      assert Exec(nodes, sched, path + [0], "", out.state, 2) == out;
    }
  }

  lemma BranchAt(nodes: Nodes, tasks: seq<string>, delegate: Delegate, sched: Schedule, i: nat)
    requires IsDelegation(nodes, tasks, delegate) && i < |tasks|
    ensures |BranchOutcomes(tasks, delegate)| == |tasks|
    ensures Exec(nodes, sched, [] + [i + 1], BranchIDs(|tasks|)[i], map[], 1) == BranchOutcomes(tasks, delegate)[i]
  {
    BranchOutcomeAt(tasks, delegate, i);
    BranchRuns(nodes, tasks, delegate, sched, [] + [i + 1], i);
  }

  lemma BranchesRun(nodes: Nodes, tasks: seq<string>, delegate: Delegate, sched: Schedule)
    requires IsDelegation(nodes, tasks, delegate)
    ensures Branches(nodes, sched, [], BranchIDs(|tasks|), map[], 1) == BranchOutcomes(tasks, delegate)
  {
    var outs := Branches(nodes, sched, [], BranchIDs(|tasks|), map[], 1);
    if tasks != [] {
      BranchAt(nodes, tasks, delegate, sched, 0);
    }
    forall i | 0 <= i < |tasks|
      ensures outs[i] == BranchOutcomes(tasks, delegate)[i]
    {
      BranchAt(nodes, tasks, delegate, sched, i);
    }
  }

  lemma LastBranch(tasks: seq<string>, delegate: Delegate)
    requires tasks != []
    ensures var n := |tasks| - 1;
            States(BranchOutcomes(tasks, delegate))
            == States(BranchOutcomes(tasks[..n], delegate)) + StateOf(BranchOutcome(n, delegate(n, tasks[n])))
  {
    var n := |tasks| - 1;
    var last := BranchOutcome(n, delegate(n, tasks[n]));
    StatesJoin(BranchOutcomes(tasks[..n], delegate), [last]);
    assert States([last]) == StateOf(last);
  }

  lemma {:induction false} BranchStatesMerge(tasks: seq<string>, delegate: Delegate)
    ensures MergeAll(States(BranchOutcomes(tasks, delegate))) == Answers(tasks, delegate)
  {
    if tasks != [] {
      var n := |tasks| - 1;
      LastBranch(tasks, delegate);
      BranchStatesMerge(tasks[..n], delegate);
      var states, front := States(BranchOutcomes(tasks, delegate)), States(BranchOutcomes(tasks[..n], delegate));
      if delegate(n, tasks[n]).Some? {
        assert states[..|states| - 1] == front;
        assert MergeAll(states) == MergeAll(front) + map[BranchID(n) := delegate(n, tasks[n]).value];
      } else {
        assert states == front;
      }
    }
  }

  lemma {:induction false} NoBranchStates(tasks: seq<string>, delegate: Delegate)
    ensures States(BranchOutcomes(tasks, delegate)) == []
       <==> forall i | 0 <= i < |tasks| :: delegate(i, tasks[i]).None?
  {
    if tasks != [] {
      LastBranch(tasks, delegate);
      NoBranchStates(tasks[..|tasks| - 1], delegate);
    }
  }

  ghost predicate FromBranch(tasks: seq<string>, delegate: Delegate, x: Data) {
    exists i :: 0 <= i < |tasks| && BranchOutcome(i, delegate(i, tasks[i])) == Ok(x)
  }

  lemma {:induction false} BranchStatesComeFrom(tasks: seq<string>, delegate: Delegate, x: Data)
    requires x in States(BranchOutcomes(tasks, delegate))
    ensures FromBranch(tasks, delegate, x)
  {
    var n := |tasks| - 1;
    LastBranch(tasks, delegate);
    if x in States(BranchOutcomes(tasks[..n], delegate)) {
      BranchStatesComeFrom(tasks[..n], delegate, x);
      var i :| 0 <= i < n && BranchOutcome(i, delegate(i, tasks[..n][i])) == Ok(x);
      assert BranchOutcome(i, delegate(i, tasks[i])) == Ok(x);
    } else {
      assert BranchOutcome(n, delegate(n, tasks[n])) == Ok(x);
    }
  }

  lemma BranchStatesAgree(tasks: seq<string>, delegate: Delegate)
    ensures Agree(States(BranchOutcomes(tasks, delegate)))
  {
    var states := States(BranchOutcomes(tasks, delegate));
    forall x, y, k | x in states && y in states && k in x && k in y
      ensures x[k] == y[k]
    {
      BranchStatesComeFrom(tasks, delegate, x);
      BranchStatesComeFrom(tasks, delegate, y);
      var i :| 0 <= i < |tasks| && BranchOutcome(i, delegate(i, tasks[i])) == Ok(x);
      var j :| 0 <= j < |tasks| && BranchOutcome(j, delegate(j, tasks[j])) == Ok(y);
      BranchIDsDiffer(i, j);
    }
  }

  predicate NobodyTookAny(tasks: seq<string>, delegate: Delegate) {
    tasks != [] && forall i | 0 <= i < |tasks| :: delegate(i, tasks[i]).None?
  }

  /** The parallel node hands on all the answers, in whatever order its branches complete. */
  lemma RootCollects(nodes: Nodes, tasks: seq<string>, delegate: Delegate, picks: seq<nat>)
    requires IsDelegation(nodes, tasks, delegate)
    ensures Fan(nodes, nodes[ROOT], map[], Completions(picks, BranchOutcomes(tasks, delegate)))
         == if NobodyTookAny(tasks, delegate) then Err else Ok(Answers(tasks, delegate))
  {
    var outs := BranchOutcomes(tasks, delegate);
    var states := States(Completions(picks, outs));
    MergeGetsAPermutation(picks, outs);
    NoBranchStates(tasks, delegate);
    BranchStatesMerge(tasks, delegate);
    BranchStatesAgree(tasks, delegate);
    SameEmptiness(states, States(outs));
    MergeAllInAnyOrder(States(outs), states);
  }

  lemma ReduceRuns(nodes: Nodes, sched: Schedule, path: seq<nat>, s: Data)
    requires REDUCE in nodes && nodes[REDUCE] == ReduceNode(Some(MergeAll), [])
    ensures Exec(nodes, sched, path, REDUCE, s, 1) == Ok(s)
  {
    assert Exec(nodes, sched, path + [0], "", s, 2) == Ok(s);
  }

  /** Whatever the schedule, delegation returns every answer under the id of its task; it
      fails exactly when there are tasks and no agent took any of them. */
  lemma DelegationReturnsAnswers(nodes: Nodes, tasks: seq<string>, delegate: Delegate, sched: Schedule)
    requires IsDelegation(nodes, tasks, delegate)
    ensures Exec(nodes, sched, [], ROOT, map[], 0)
         == if NobodyTookAny(tasks, delegate) then Err else Ok(Answers(tasks, delegate))
  {
    BranchesRun(nodes, tasks, delegate, sched);
    RootCollects(nodes, tasks, delegate, sched([]));
    ReduceRuns(nodes, sched, [] + [0], Answers(tasks, delegate));
    assert AfterBranches(nodes, sched, [], ROOT, map[], 0)
        == if NobodyTookAny(tasks, delegate) then Err else Ok(Answers(tasks, delegate));
  }

  /** Build the flow node by node and run it. */
  method DelegateParallelTasks(tasks: seq<string>, delegate: Delegate, sched: Schedule) returns (out: Outcome)
    ensures out == if NobodyTookAny(tasks, delegate) then Err else Ok(Answers(tasks, delegate))
  {
    var nodes: Nodes := map[];
    var branches: seq<string> := [];
    for i := 0 to |tasks|
      invariant branches == BranchIDs(i) && nodes == BranchNodes(tasks[..i], delegate)
    {
      var branchID := BranchID(i);
      branches := branches + [branchID];
      nodes := nodes[branchID := StepNode(BranchAction(branchID, delegate(i, tasks[i])), [])];
      assert tasks[..i + 1][..i] == tasks[..i];
    }
    assert tasks[..|tasks|] == tasks;
    nodes := nodes[ROOT := ParallelNode(branches, [REDUCE])];
    nodes := nodes[REDUCE := ReduceNode(Some(MergeAll), [])];
    DelegationFlowIs(tasks, delegate);
    DelegationReturnsAnswers(nodes, tasks, delegate, sched);
    out := Exec(nodes, sched, [], ROOT, map[], 0);
  }
}
