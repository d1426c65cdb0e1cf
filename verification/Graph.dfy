/** The graph scheduler: rounds of ready tasks that run in parallel, with feedback
    edges that un-process a task while the round is still launching others.

    A task is a number; `Executing` a task is an arbitrary outcome fixed per task
    and round. */
module Graph {

  type Task = nat

  ghost predicate Distinct(ts: seq<Task>) {
    forall i, j | 0 <= i < j < |ts| :: ts[i] != ts[j]
  }

  /** `tasks` are the crew's tasks in order; `deps` may name tasks outside the crew. */
  datatype Graph = Graph(tasks: seq<Task>, deps: map<Task, seq<Task>>) {

    function Deps(t: Task): seq<Task> {
      if t in deps then deps[t] else []
    }

    ghost predicate Valid() {
      Distinct(tasks)
    }
  }

  /** What executing a task led to: an error, or a result whose OutputCondition
      selected no successor or `next`. */
  datatype Outcome = Failed | Plain | Path(next: Task)

  /** The outcome is a feedback edge, which un-processes its target. */
  predicate Resets(g: Graph, t: Task, o: Outcome) {
    o.Path? && (o.next == t || o.next in g.Deps(t))
  }

  predicate Ready(g: Graph, processed: set<Task>, t: Task) {
    t !in processed && forall d | d in g.Deps(t) :: d in processed
  }

  function ReadyTasks(g: Graph, ts: seq<Task>, processed: set<Task>): seq<Task> {
    if ts == [] then []
    else
      ReadyTasks(g, ts[..|ts| - 1], processed)
      + (if Ready(g, processed, ts[|ts| - 1]) then [ts[|ts| - 1]] else [])
  }

  function Members(ts: seq<Task>): set<Task> {
    set t | t in ts
  }

  /** The tasks that the outcomes of `ts` un-process. */
  function Targets(g: Graph, ts: set<Task>, outcome: Task -> Outcome): set<Task> {
    set t | t in ts && Resets(g, t, outcome(t)) :: outcome(t).next
  }

  // ----- Scanning for ready tasks -----

  lemma {:induction false} ReadyTasksAre(g: Graph, ts: seq<Task>, processed: set<Task>)
    ensures forall t :: t in ReadyTasks(g, ts, processed) <==> t in ts && Ready(g, processed, t)
    ensures |ReadyTasks(g, ts, processed)| <= |ts|
  {
    if ts != [] {
      var n := |ts| - 1;
      ReadyTasksAre(g, ts[..n], processed);
      assert ts == ts[..n] + [ts[n]];
    }
  }

  lemma {:induction false} ReadyTasksDistinct(g: Graph, ts: seq<Task>, processed: set<Task>)
    requires Distinct(ts)
    ensures Distinct(ReadyTasks(g, ts, processed))
  {
    if ts != [] {
      var n := |ts| - 1;
      ReadyTasksDistinct(g, ts[..n], processed);
      ReadyTasksAre(g, ts[..n], processed);
      assert ts[n] !in ts[..n];
    }
  }

  /** The scan at the head of a round. */
  method ScanReady(g: Graph, processed: set<Task>) returns (ready: seq<Task>, allDone: bool)
    ensures ready == ReadyTasks(g, g.tasks, processed)
    ensures allDone <==> Members(g.tasks) <= processed
  {
    ready, allDone := [], true;
    for i := 0 to |g.tasks|
      invariant ready == ReadyTasks(g, g.tasks[..i], processed)
      invariant allDone <==> forall k | 0 <= k < i :: g.tasks[k] in processed
    {
      var t := g.tasks[i];
      if t !in processed {
        allDone := false;
        var depsMet := true;
        var deps := g.Deps(t);
        for j := 0 to |deps|
          invariant depsMet <==> forall k | 0 <= k < j :: deps[k] in processed
        {
          if deps[j] !in processed {
            depsMet := false;
            break;
          }
        }
        assert depsMet <==> Ready(g, processed, t);
        if depsMet {
          ready := ready + [t];
        }
      }
      assert g.tasks[..i + 1][..i] == g.tasks[..i];
    }
    assert g.tasks[..|g.tasks|] == g.tasks;
  }

  // ----- One round, as its launch loop and goroutines interleave -----

  /** A spawned goroutine waits for a slot, executes, settles (its error or its reset)
      and, exiting, gives the slot back. */
  datatype Phase = Waiting | Executing | Exiting | Gone

  /** `todo` is what the launch loop has still to mark and spawn, `phase` the spawned
      goroutines, `busy` those that hold a slot, `settled` those past their result. */
  datatype Round = Round(todo: seq<Task>, processed: set<Task>, phase: map<Task, Phase>, busy: set<Task>,
                         settled: set<Task>, errors: set<Task>)
  {
    predicate Finished() {
      todo == [] && forall t | t in phase :: phase[t] == Gone
    }
  }

  datatype Move = Launch | Start(t: Task) | Settle(t: Task) | Exit(t: Task)

  predicate CanMove(slots: nat, r: Round, m: Move) {
    match m
    case Launch => r.todo != []
    case Start(t) => t in r.phase && r.phase[t] == Waiting && |r.busy| < slots
    case Settle(t) => t in r.phase && r.phase[t] == Executing
    case Exit(t) => t in r.phase && r.phase[t] == Exiting
  }

  function Moved(g: Graph, slots: nat, outcome: Task -> Outcome, r: Round, m: Move): Round
    requires CanMove(slots, r, m)
  {
    match m
    case Launch =>
      var t := r.todo[0];
      r.(todo := r.todo[1..], processed := r.processed + {t}, phase := r.phase[t := Waiting])
    case Start(t) => r.(phase := r.phase[t := Executing], busy := r.busy + {t})
    case Settle(t) =>
      var o := outcome(t);
      r.(phase := r.phase[t := Exiting], settled := r.settled + {t},
         errors := if o.Failed? then r.errors + {t} else r.errors,
         processed := if Resets(g, t, o) then r.processed - {o.next} else r.processed)
    case Exit(t) => r.(phase := r.phase[t := Gone], busy := r.busy - {t})
  }

  ghost predicate RoundReaches(g: Graph, slots: nat, outcome: Task -> Outcome, r: Round, moves: seq<Move>, end: Round)
    decreases |moves|
  {
    if moves == [] then r == end
    else
      CanMove(slots, r, moves[0])
      && RoundReaches(g, slots, outcome, Moved(g, slots, outcome, r, moves[0]), moves[1..], end)
  }

  function FirstRound(g: Graph, processed: set<Task>): Round {
    Round(ReadyTasks(g, g.tasks, processed), processed, map[], {}, {}, {})
  }

  /** The processed set a round with these outcomes must end with. */
  function AfterRound(g: Graph, processed: set<Task>, outcome: Task -> Outcome): set<Task> {
    var ready := Members(ReadyTasks(g, g.tasks, processed));
    (processed + ready) - Targets(g, ready, outcome)
  }

  /** The bookkeeping of goroutines is consistent. */
  ghost predicate PhaseInv(r: Round) {
    && Distinct(r.todo)
    && (forall t | t in r.todo :: t !in r.phase)
    && (forall t :: t in r.busy <==> t in r.phase && (r.phase[t] == Executing || r.phase[t] == Exiting))
    && (forall t :: t in r.settled <==> t in r.phase && (r.phase[t] == Exiting || r.phase[t] == Gone))
  }

  ghost predicate RoundInv(g: Graph, processed: set<Task>, outcome: Task -> Outcome, r: Round) {
    && PhaseInv(r)
    && (forall t :: t in r.todo || t in r.phase <==> t in g.tasks && Ready(g, processed, t))
    && r.processed == (processed + r.phase.Keys) - Targets(g, r.settled, outcome)
    && r.errors == (set t | t in r.settled && outcome(t).Failed?)
  }

  lemma PhaseInvKept(g: Graph, slots: nat, outcome: Task -> Outcome, r: Round, m: Move)
    requires PhaseInv(r) && CanMove(slots, r, m)
    ensures PhaseInv(Moved(g, slots, outcome, r, m))
  {
    if m.Launch? {
      assert r.todo[0] !in r.todo[1..];
    }
  }

  lemma TargetsGrow(g: Graph, ts: set<Task>, t: Task, outcome: Task -> Outcome)
    ensures Targets(g, ts + {t}, outcome)
         == Targets(g, ts, outcome) + (if Resets(g, t, outcome(t)) then {outcome(t).next} else {})
  {
  }

  /** A reset target is its own source or an already processed dependency, so a later
      launch never marks it again. */
  lemma NotATarget(g: Graph, processed: set<Task>, outcome: Task -> Outcome, ts: set<Task>, t: Task)
    requires t !in ts && t !in processed && forall u | u in ts :: Ready(g, processed, u)
    ensures t !in Targets(g, ts, outcome)
  {
  }

  lemma LaunchKept(g: Graph, processed: set<Task>, slots: nat, outcome: Task -> Outcome, r: Round)
    requires RoundInv(g, processed, outcome, r) && CanMove(slots, r, Launch)
    ensures RoundInv(g, processed, outcome, Moved(g, slots, outcome, r, Launch))
  {
    var n, t := Moved(g, slots, outcome, r, Launch), r.todo[0];
    PhaseInvKept(g, slots, outcome, r, Launch);
    assert t in r.todo && t !in r.settled;
    NotATarget(g, processed, outcome, r.settled, t);
    assert n.phase.Keys == r.phase.Keys + {t};
    forall u
      ensures u in n.todo || u in n.phase <==> u in r.todo || u in r.phase
    {
      assert u in r.todo <==> u == t || u in r.todo[1..];
    }
  }

  lemma SettleKept(g: Graph, processed: set<Task>, slots: nat, outcome: Task -> Outcome, r: Round, t: Task)
    requires RoundInv(g, processed, outcome, r) && CanMove(slots, r, Settle(t))
    ensures RoundInv(g, processed, outcome, Moved(g, slots, outcome, r, Settle(t)))
  {
    var n := Moved(g, slots, outcome, r, Settle(t));
    PhaseInvKept(g, slots, outcome, r, Settle(t));
    TargetsGrow(g, r.settled, t, outcome);
    assert n.phase.Keys == r.phase.Keys;
  }

  lemma QuietKept(g: Graph, processed: set<Task>, slots: nat, outcome: Task -> Outcome, r: Round, m: Move)
    requires RoundInv(g, processed, outcome, r) && CanMove(slots, r, m) && (m.Start? || m.Exit?)
    ensures RoundInv(g, processed, outcome, Moved(g, slots, outcome, r, m))
  {
    PhaseInvKept(g, slots, outcome, r, m);
    assert Moved(g, slots, outcome, r, m).phase.Keys == r.phase.Keys;
  }

  lemma RoundInvKept(g: Graph, processed: set<Task>, slots: nat, outcome: Task -> Outcome, r: Round, m: Move)
    requires RoundInv(g, processed, outcome, r) && CanMove(slots, r, m)
    ensures RoundInv(g, processed, outcome, Moved(g, slots, outcome, r, m))
  {
    match m
    case Launch => LaunchKept(g, processed, slots, outcome, r);
    case Settle(t) => SettleKept(g, processed, slots, outcome, r, t);
    case Start(_) => QuietKept(g, processed, slots, outcome, r, m);
    case Exit(_) => QuietKept(g, processed, slots, outcome, r, m);
  }

  lemma {:induction false} RoundInvHolds(g: Graph, processed: set<Task>, slots: nat, outcome: Task -> Outcome,
                                         r: Round, moves: seq<Move>, end: Round)
    requires RoundInv(g, processed, outcome, r) && RoundReaches(g, slots, outcome, r, moves, end)
    ensures RoundInv(g, processed, outcome, end)
    decreases |moves|
  {
    if moves != [] {
      RoundInvKept(g, processed, slots, outcome, r, moves[0]);
      RoundInvHolds(g, processed, slots, outcome, Moved(g, slots, outcome, r, moves[0]), moves[1..], end);
    }
  }

  /** No more tasks execute at the same time than there are slots. */
  lemma {:induction false} SlotsAreEnough(g: Graph, slots: nat, outcome: Task -> Outcome, r: Round, moves: seq<Move>,
                                          end: Round)
    requires PhaseInv(r) && |r.busy| <= slots && RoundReaches(g, slots, outcome, r, moves, end)
    ensures |end.busy| <= slots && forall t | t in end.phase && end.phase[t] == Executing :: t in end.busy
    decreases |moves|
  {
    if moves != [] {
      PhaseInvKept(g, slots, outcome, r, moves[0]);
      SlotsAreEnough(g, slots, outcome, Moved(g, slots, outcome, r, moves[0]), moves[1..], end);
    }
  }

  lemma RoundInvFirst(g: Graph, processed: set<Task>, outcome: Task -> Outcome)
    requires g.Valid()
    ensures RoundInv(g, processed, outcome, FirstRound(g, processed))
  {
    ReadyTasksAre(g, g.tasks, processed);
    ReadyTasksDistinct(g, g.tasks, processed);
    assert Targets(g, {}, outcome) == {};
  }

  lemma FinishedRound(g: Graph, processed: set<Task>, outcome: Task -> Outcome, end: Round)
    requires RoundInv(g, processed, outcome, end) && end.Finished()
    ensures end.processed == AfterRound(g, processed, outcome)
    ensures end.errors == Failures(ReadyTasks(g, g.tasks, processed), outcome)
  {
    ReadyTasksAre(g, g.tasks, processed);
    assert end.settled == end.phase.Keys == Members(ReadyTasks(g, g.tasks, processed));
  }

  /** Every interleaving of a round that runs to its end leaves the same processed set
      and reports an error for the same tasks. */
  lemma RoundIsConfluent(g: Graph, processed: set<Task>, slots: nat, outcome: Task -> Outcome, moves: seq<Move>,
                         end: Round)
    requires g.Valid() && RoundReaches(g, slots, outcome, FirstRound(g, processed), moves, end) && end.Finished()
    ensures end.processed == AfterRound(g, processed, outcome)
    ensures end.errors == Failures(ReadyTasks(g, g.tasks, processed), outcome)
  {
    RoundInvFirst(g, processed, outcome);
    RoundInvHolds(g, processed, slots, outcome, FirstRound(g, processed), moves, end);
    FinishedRound(g, processed, outcome, end);
  }

  // ----- A round always comes to its end -----

  /** The moves that task `t` of the round still has to make. */
  function MovesLeft(r: Round, t: Task): nat {
    if t !in r.phase then 4
    else match r.phase[t] case Waiting => 3 case Executing => 2 case Exiting => 1 case Gone => 0
  }

  function AllMovesLeft(r: Round, ts: seq<Task>): nat {
    if ts == [] then 0 else MovesLeft(r, ts[0]) + AllMovesLeft(r, ts[1..])
  }

  lemma {:induction false} MoveCosts(r: Round, n: Round, t: Task, ts: seq<Task>)
    requires Distinct(ts) && MovesLeft(n, t) == MovesLeft(r, t) - 1
    requires forall u | u != t :: MovesLeft(n, u) == MovesLeft(r, u)
    ensures AllMovesLeft(n, ts) == AllMovesLeft(r, ts) - (if t in ts then 1 else 0)
  {
    if ts != [] {
      assert ts[0] !in ts[1..];
      MoveCosts(r, n, t, ts[1..]);
    }
  }

  function Mover(r: Round, m: Move): Task
    requires m.Launch? ==> r.todo != []
  {
    if m.Launch? then r.todo[0] else m.t
  }

  lemma RoundProgresses(slots: nat, r: Round)
    requires PhaseInv(r) && 0 < slots && !r.Finished()
    ensures exists m :: CanMove(slots, r, m)
  {
    if r.todo != [] {
      assert CanMove(slots, r, Launch);
    } else if r.busy != {} {
      var t :| t in r.busy;
      assert CanMove(slots, r, if r.phase[t] == Executing then Settle(t) else Exit(t));
    } else {
      var t :| t in r.phase && r.phase[t] != Gone;
      assert t !in r.busy;
      assert CanMove(slots, r, Start(t));
    }
  }

  lemma MoverCosts(g: Graph, slots: nat, outcome: Task -> Outcome, r: Round, m: Move)
    requires PhaseInv(r) && CanMove(slots, r, m)
    ensures var n := Moved(g, slots, outcome, r, m);
            && MovesLeft(n, Mover(r, m)) == MovesLeft(r, Mover(r, m)) - 1
            && forall u | u != Mover(r, m) :: MovesLeft(n, u) == MovesLeft(r, u)
    ensures Mover(r, m) in r.todo || Mover(r, m) in r.phase
  {
  }

  lemma MoverIsReady(g: Graph, processed: set<Task>, outcome: Task -> Outcome, r: Round, t: Task)
    requires RoundInv(g, processed, outcome, r) && (t in r.todo || t in r.phase)
    ensures t in ReadyTasks(g, g.tasks, processed)
  {
    ReadyTasksAre(g, g.tasks, processed);
  }

  lemma OneMoveLess(g: Graph, processed: set<Task>, slots: nat, outcome: Task -> Outcome, r: Round, m: Move)
    requires g.Valid() && RoundInv(g, processed, outcome, r) && CanMove(slots, r, m)
    ensures var ready := ReadyTasks(g, g.tasks, processed);
            AllMovesLeft(Moved(g, slots, outcome, r, m), ready) == AllMovesLeft(r, ready) - 1
  {
    MoverCosts(g, slots, outcome, r, m);
    MoverIsReady(g, processed, outcome, r, Mover(r, m));
    ReadyTasksDistinct(g, g.tasks, processed);
    MoveCosts(r, Moved(g, slots, outcome, r, m), Mover(r, m), ReadyTasks(g, g.tasks, processed));
  }

  /** However its moves interleave, a round never blocks before its end, and every move
      uses up one of the moves that were left to make. */
  lemma {:induction false} RoundEnds(g: Graph, processed: set<Task>, slots: nat, outcome: Task -> Outcome,
                                     r: Round, moves: seq<Move>, end: Round)
    requires g.Valid() && 0 < slots && RoundInv(g, processed, outcome, r)
    requires RoundReaches(g, slots, outcome, r, moves, end)
    ensures !end.Finished() ==> exists m :: CanMove(slots, end, m)
    ensures var ready := ReadyTasks(g, g.tasks, processed);
            AllMovesLeft(end, ready) == AllMovesLeft(r, ready) - |moves|
    decreases |moves|
  {
    if moves == [] {
      if !end.Finished() {
        RoundProgresses(slots, end);
      }
    } else {
      RoundInvKept(g, processed, slots, outcome, r, moves[0]);
      OneMoveLess(g, processed, slots, outcome, r, moves[0]);
      RoundEnds(g, processed, slots, outcome, Moved(g, slots, outcome, r, moves[0]), moves[1..], end);
    }
  }

  lemma RoundGoesOn(g: Graph, processed: set<Task>, slots: nat, outcome: Task -> Outcome, r: Round, m: Move,
                    ready: seq<Task>)
    requires g.Valid() && RoundInv(g, processed, outcome, r) && CanMove(slots, r, m)
    requires ready == ReadyTasks(g, g.tasks, processed)
    ensures RoundInv(g, processed, outcome, Moved(g, slots, outcome, r, m))
    ensures AllMovesLeft(Moved(g, slots, outcome, r, m), ready) == AllMovesLeft(r, ready) - 1
  {
    RoundInvKept(g, processed, slots, outcome, r, m);
    OneMoveLess(g, processed, slots, outcome, r, m);
  }

  /** The launch loop and its goroutines, with the scheduler free at every move. */
  method RunRound(g: Graph, processed: set<Task>, slots: nat, outcome: Task -> Outcome)
    returns (after: set<Task>, errors: set<Task>)
    requires g.Valid() && 0 < slots
    ensures after == AfterRound(g, processed, outcome)
    ensures errors == Failures(ReadyTasks(g, g.tasks, processed), outcome)
  {
    var ready, _ := ScanReady(g, processed);
    var r := Round(ready, processed, map[], {}, {}, {});
    RoundInvFirst(g, processed, outcome);
    ghost var left: nat := AllMovesLeft(r, ready);
    while !r.Finished()
      invariant RoundInv(g, processed, outcome, r) && left == AllMovesLeft(r, ready)
      decreases left
    {
      RoundProgresses(slots, r);
      var m: Move;
      if {
        case r.todo != [] => m := Launch;
        case t: Task :| t in r.phase && r.phase[t] == Waiting && |r.busy| < slots => m := Start(t);
        case t: Task :| t in r.phase && r.phase[t] == Executing => m := Settle(t);
        case t: Task :| t in r.phase && r.phase[t] == Exiting => m := Exit(t);
      }
      RoundGoesOn(g, processed, slots, outcome, r, m, ready);
      r := Moved(g, slots, outcome, r, m);
      left := left - 1;
    }
    FinishedRound(g, processed, outcome, r);
    after, errors := r.processed, r.errors;
  }

  // ----- The whole execution -----

  /** What a task does in each round. */
  type Outcomes = (nat, Task) -> Outcome

  datatype GraphResult = Returned | Deadlock | TaskError

  /** `log` lists the tasks of each round that was run. */
  datatype GraphRun = GraphRun(result: GraphResult, log: seq<seq<Task>>, processed: set<Task>)

  function Failures(ts: seq<Task>, outcome: Task -> Outcome): set<Task> {
    set t | t in ts && outcome(t).Failed?
  }

  function InRound(outcomes: Outcomes, k: nat): Task -> Outcome {
    (t: Task) => outcomes(k, t)
  }

  function RunFrom(g: Graph, outcomes: Outcomes, processed: set<Task>, k: nat, bound: nat): GraphRun
    decreases bound - k
  {
    if bound <= k || Members(g.tasks) <= processed then GraphRun(Returned, [], processed)
    else
      var ready := ReadyTasks(g, g.tasks, processed);
      if ready == [] then GraphRun(Deadlock, [], processed)
      else
        var after := AfterRound(g, processed, InRound(outcomes, k));
        if Failures(ready, InRound(outcomes, k)) != {} then GraphRun(TaskError, [ready], after)
        else
          var rest := RunFrom(g, outcomes, after, k + 1, bound);
          rest.(log := [ready] + rest.log)
  }

  function Bound(maxCycles: int): nat {
    if maxCycles <= 0 then 100 else maxCycles
  }

  method ExecuteGraph(g: Graph, outcomes: Outcomes, maxConcurrency: int, maxCycles: int)
    returns (result: GraphResult, log: seq<seq<Task>>)
    requires g.Valid()
    ensures var bound := if maxCycles <= 0 then 100 else maxCycles;
            var run := RunFrom(g, outcomes, {}, 0, bound);
            result == run.result && log == run.log
  {
    if |g.tasks| == 0 {
      return Returned, [];
    }
    var slots: nat := if maxConcurrency <= 0 then 5 else maxConcurrency;
    var bound := Bound(maxCycles);
    var processed: set<Task> := {};
    log := [];
    var k := 0;
    while k < bound
      invariant k <= bound
      invariant Extends(RunFrom(g, outcomes, {}, 0, bound), log, RunFrom(g, outcomes, processed, k, bound))
    {
      var ready, allDone := ScanReady(g, processed);
      if allDone {
        break;
      }
      if |ready| == 0 {
        return Deadlock, log;
      }
      var after, errors := RunRound(g, processed, slots, InRound(outcomes, k));
      if errors != {} {
        return TaskError, log + [ready];
      }
      LogRound(RunFrom(g, outcomes, {}, 0, bound), log, RunFrom(g, outcomes, processed, k, bound), ready,
               RunFrom(g, outcomes, after, k + 1, bound));
      log := log + [ready];
      processed, k := after, k + 1;
    }
    return Returned, log;
  }

  /** `run` is what was logged so far followed by `rest`. */
  ghost predicate Extends(run: GraphRun, log: seq<seq<Task>>, rest: GraphRun) {
    run.result == rest.result && run.log == log + rest.log
  }

  lemma LogRound(run: GraphRun, log: seq<seq<Task>>, rest: GraphRun, ready: seq<Task>, rest': GraphRun)
    requires Extends(run, log, rest) && Extends(rest, [ready], rest')
    ensures Extends(run, log + [ready], rest')
  {
  }

  // ----- What a run is, told from its log -----

  /** `u` is ready when the tasks of `processed` are done. */
  predicate CanRun(g: Graph, processed: set<Task>, u: Task) {
    u in g.tasks && u !in processed && forall d | d in g.Deps(u) :: d in processed
  }

  /** Task `t`, executed in round `k`, sends the crew back to `u`: itself or a dependency. */
  predicate SendsBack(g: Graph, outcomes: Outcomes, k: nat, t: Task, u: Task) {
    outcomes(k, t) == Path(u) && (u == t || u in g.Deps(t))
  }

  /** Round `k` ran exactly the tasks that could run, in the order of the crew, and left
      processed what was processed or ran, except what some task sent the crew back to. */
  ghost predicate RoundExplained(g: Graph, outcomes: Outcomes, before: set<Task>, ran: seq<Task>, after: set<Task>,
                                 k: nat) {
    && (forall u :: u in ran <==> CanRun(g, before, u))
    && InOrder(g.tasks, ran)
    && (forall u :: u in after <==>
          && (u in before || u in ran)
          && !exists t :: t in ran && SendsBack(g, outcomes, k, t, u))
  }

  /** The members of `ran`, each as often and in the same order as in `ts`. */
  predicate InOrder(ts: seq<Task>, ran: seq<Task>) {
    if ts == [] then ran == []
    else
      var last := ts[|ts| - 1];
      if last in ran then ran != [] && ran[|ran| - 1] == last && InOrder(ts[..|ts| - 1], ran[..|ran| - 1])
      else InOrder(ts[..|ts| - 1], ran)
  }

  lemma {:induction false} ReadyInOrder(g: Graph, ts: seq<Task>, processed: set<Task>)
    requires Distinct(ts)
    ensures InOrder(ts, ReadyTasks(g, ts, processed))
  {
    if ts != [] {
      var front, last := ts[..|ts| - 1], ts[|ts| - 1];
      var ready := ReadyTasks(g, front, processed);
      ReadyInOrder(g, front, processed);
      ReadyTasksAre(g, front, processed);
      assert last !in front;
      if Ready(g, processed, last) {
        assert (ready + [last])[..|ready|] == ready;
      } else {
        assert ready + [] == ready;
      }
    }
  }

  lemma RoundIsExplained(g: Graph, outcomes: Outcomes, processed: set<Task>, k: nat)
    requires g.Valid()
    ensures var ready := ReadyTasks(g, g.tasks, processed);
            RoundExplained(g, outcomes, processed, ready, AfterRound(g, processed, InRound(outcomes, k)), k)
  {
    var ready, outcome := ReadyTasks(g, g.tasks, processed), InRound(outcomes, k);
    ReadyTasksAre(g, g.tasks, processed);
    ReadyInOrder(g, g.tasks, processed);
    forall u
      ensures u in Targets(g, Members(ready), outcome) <==> exists t :: t in ready && SendsBack(g, outcomes, k, t, u)
    {
      TargetsAre(g, ready, outcomes, k, u);
    }
  }

  lemma TargetsAre(g: Graph, ready: seq<Task>, outcomes: Outcomes, k: nat, u: Task)
    ensures u in Targets(g, Members(ready), InRound(outcomes, k))
       <==> exists t :: t in ready && SendsBack(g, outcomes, k, t, u)
  {
    var outcome := InRound(outcomes, k);
    if t :| t in ready && SendsBack(g, outcomes, k, t, u) {
      assert t in Members(ready) && Resets(g, t, outcome(t)) && outcome(t).next == u;
    }
    if u in Targets(g, Members(ready), outcome) {
      var t :| t in Members(ready) && Resets(g, t, outcome(t)) && outcome(t).next == u;
      assert t in ready && SendsBack(g, outcomes, k, t, u);
    }
  }

  /** `sets` are the processed sets before, between and after the rounds of the log. */
  ghost predicate LogExplained(g: Graph, outcomes: Outcomes, log: seq<seq<Task>>, sets: seq<set<Task>>, k: nat) {
    && |sets| == |log| + 1
    && forall i | 0 <= i < |log| :: RoundExplained(g, outcomes, sets[i], log[i], sets[i + 1], k + i)
  }

  lemma ExplainOneMore(g: Graph, outcomes: Outcomes, first: set<Task>, ran: seq<Task>, log: seq<seq<Task>>,
                       sets: seq<set<Task>>, k: nat)
    requires LogExplained(g, outcomes, log, sets, k + 1) && RoundExplained(g, outcomes, first, ran, sets[0], k)
    ensures LogExplained(g, outcomes, [ran] + log, [first] + sets, k)
  {
    var all, more := [ran] + log, [first] + sets;
    forall i | 0 <= i < |all|
      ensures RoundExplained(g, outcomes, more[i], all[i], more[i + 1], k + i)
    {
      if i > 0 {
        assert all[i] == log[i - 1] && more[i] == sets[i - 1] && more[i + 1] == sets[i];
        assert RoundExplained(g, outcomes, sets[i - 1], log[i - 1], sets[i], k + 1 + (i - 1));
      }
    }
  }

  /** A run, from its log and the outcomes alone: every round ran what could run after the
      rounds before it. */
  lemma {:induction false} RunIsExplained(g: Graph, outcomes: Outcomes, processed: set<Task>, k: nat, bound: nat)
    returns (sets: seq<set<Task>>)
    requires g.Valid()
    ensures var run := RunFrom(g, outcomes, processed, k, bound);
            && LogExplained(g, outcomes, run.log, sets, k)
            && sets[0] == processed && sets[|run.log|] == run.processed
    decreases bound - k
  {
    var ready, after := ReadyTasks(g, g.tasks, processed), AfterRound(g, processed, InRound(outcomes, k));
    sets := [processed];
    if k < bound && !(Members(g.tasks) <= processed) && ready != [] {
      RoundIsExplained(g, outcomes, processed, k);
      if Failures(ready, InRound(outcomes, k)) != {} {
        ExplainOneMore(g, outcomes, processed, ready, [], [after], k);
        sets := [processed, after];
        assert [processed] + [after] == sets && [ready] + [] == [ready];
      } else {
        var rest := RunIsExplained(g, outcomes, after, k + 1, bound);
        ExplainOneMore(g, outcomes, processed, ready, RunFrom(g, outcomes, after, k + 1, bound).log, rest, k);
        sets := [processed] + rest;
      }
    }
  }

  // ----- What the result says -----

  /** Some task of round `i` of the log failed. */
  ghost predicate FailedIn(outcomes: Outcomes, log: seq<seq<Task>>, k: nat, i: int) {
    0 <= i < |log| && exists t :: t in log[i] && outcomes(k + i, t).Failed?
  }

  /** An error is returned exactly when a task of the last round failed, after rounds in
      which none did; any other result means that no task that ran has failed. */
  lemma {:induction false} TaskErrorIff(g: Graph, outcomes: Outcomes, processed: set<Task>, k: nat, bound: nat)
    ensures var run := RunFrom(g, outcomes, processed, k, bound);
            && (run.result == TaskError <==> FailedIn(outcomes, run.log, k, |run.log| - 1))
            && (forall i | 0 <= i < |run.log| - 1 :: !FailedIn(outcomes, run.log, k, i))
            && (run.result != TaskError ==> forall i | 0 <= i < |run.log| :: !FailedIn(outcomes, run.log, k, i))
    decreases bound - k
  {
    var ready, after := ReadyTasks(g, g.tasks, processed), AfterRound(g, processed, InRound(outcomes, k));
    if k < bound && !(Members(g.tasks) <= processed) && ready != [] {
      var log := RunFrom(g, outcomes, processed, k, bound).log;
      assert log[0] == ready;
      assert Failures(ready, InRound(outcomes, k)) == {} <==> !FailedIn(outcomes, log, k, 0) by {
        FailuresAre(ready, outcomes, k);
      }
      if Failures(ready, InRound(outcomes, k)) == {} {
        var rest := RunFrom(g, outcomes, after, k + 1, bound);
        TaskErrorIff(g, outcomes, after, k + 1, bound);
        forall i | 0 < i < |log|
          ensures FailedIn(outcomes, log, k, i) <==> FailedIn(outcomes, rest.log, k + 1, i - 1)
        {
          assert log[i] == rest.log[i - 1];
        }
      }
    }
  }

  lemma FailuresAre(ready: seq<Task>, outcomes: Outcomes, k: nat)
    ensures Failures(ready, InRound(outcomes, k)) == {} <==> !exists t :: t in ready && outcomes(k, t).Failed?
  {
    if t :| t in ready && outcomes(k, t).Failed? {
      assert t in Failures(ready, InRound(outcomes, k));
    }
    if t :| t in Failures(ready, InRound(outcomes, k)) {
      assert t in ready && outcomes(k, t).Failed?;
    }
  }

  /** A run ends for one of four reasons, and says which: a task failed, everything is
      processed, the bound is used up, or nothing can run. */
  lemma {:induction false} ResultsMean(g: Graph, outcomes: Outcomes, processed: set<Task>, k: nat, bound: nat)
    requires k <= bound
    ensures var run := RunFrom(g, outcomes, processed, k, bound);
            && |run.log| <= bound - k
            && (run.result == Returned ==> |run.log| == bound - k || forall t | t in g.tasks :: t in run.processed)
            && (run.result == Deadlock ==>
                  && |run.log| < bound - k
                  && (exists t :: t in g.tasks && t !in run.processed)
                  && forall t :: !CanRun(g, run.processed, t))
    decreases bound - k
  {
    var ready := ReadyTasks(g, g.tasks, processed);
    ReadyTasksAre(g, g.tasks, processed);
    if k < bound && !(Members(g.tasks) <= processed) {
      if ready == [] {
        var t :| t in Members(g.tasks) && t !in processed;
        forall u
          ensures !CanRun(g, processed, u)
        {
          assert u !in ready;
        }
      } else {
        ResultsMean(g, outcomes, AfterRound(g, processed, InRound(outcomes, k)), k + 1, bound);
      }
    }
  }

  // ----- Deadlock exactly when some tasks wait on each other or on the outside -----

  /** Task `t` depends on one of `stuck` or on a task outside the crew. */
  ghost predicate Blocked(g: Graph, stuck: set<Task>, t: Task) {
    exists d :: d in g.Deps(t) && (d in stuck || d !in g.tasks)
  }

  /** Tasks of the crew that all wait on one another or on the outside. */
  ghost predicate StuckSet(g: Graph, stuck: set<Task>) {
    && stuck != {} && stuck <= Members(g.tasks)
    && forall t {:trigger Blocked(g, stuck, t)} | t in stuck :: Blocked(g, stuck, t)
  }

  lemma NoReadyMeansStuck(g: Graph, processed: set<Task>)
    requires processed <= Members(g.tasks) && !(Members(g.tasks) <= processed)
    requires ReadyTasks(g, g.tasks, processed) == []
    ensures StuckSet(g, Members(g.tasks) - processed)
  {
    var left :| left in Members(g.tasks) && left !in processed;
    assert left in Members(g.tasks) - processed;
    ReadyTasksAre(g, g.tasks, processed);
    forall t | t in Members(g.tasks) - processed
      ensures Blocked(g, Members(g.tasks) - processed, t)
    {
      assert t !in ReadyTasks(g, g.tasks, processed);
      assert !Ready(g, processed, t);
    }
  }

  lemma AfterRoundInCrew(g: Graph, processed: set<Task>, outcome: Task -> Outcome)
    requires processed <= Members(g.tasks)
    ensures AfterRound(g, processed, outcome) <= Members(g.tasks)
  {
    ReadyTasksAre(g, g.tasks, processed);
  }

  lemma {:induction false} NoDeadlock(g: Graph, outcomes: Outcomes, processed: set<Task>, k: nat, bound: nat)
    requires processed <= Members(g.tasks) && !exists stuck :: StuckSet(g, stuck)
    ensures RunFrom(g, outcomes, processed, k, bound).result != Deadlock
    decreases bound - k
  {
    if k < bound && !(Members(g.tasks) <= processed) {
      if ReadyTasks(g, g.tasks, processed) == [] {
        NoReadyMeansStuck(g, processed);
        assert false;
      }
      AfterRoundInCrew(g, processed, InRound(outcomes, k));
      NoDeadlock(g, outcomes, AfterRound(g, processed, InRound(outcomes, k)), k + 1, bound);
    }
  }

  /** A deadlock is impossible, whatever the outcomes, when a rank of the tasks goes
      down along every dependency and no dependency leaves the crew. */
  lemma AcyclicIsNotStuck(g: Graph, rank: Task -> nat, stuck: set<Task>)
    requires forall t, d | t in g.tasks && d in g.Deps(t) :: d in g.tasks && rank(d) < rank(t)
    ensures !StuckSet(g, stuck)
  {
    if StuckSet(g, stuck) {
      var t :| t in stuck;
      DescendsForever(g, rank, stuck, t);
    }
  }

  lemma {:induction false} DescendsForever(g: Graph, rank: Task -> nat, stuck: set<Task>, t: Task)
    requires forall t, d | t in g.tasks && d in g.Deps(t) :: d in g.tasks && rank(d) < rank(t)
    requires StuckSet(g, stuck) && t in stuck
    ensures false
    decreases rank(t)
  {
    assert Blocked(g, stuck, t);
    var d :| d in g.Deps(t) && (d in stuck || d !in g.tasks);
    DescendsForever(g, rank, stuck, d);
  }

  /** No error and no feedback edge, in any round. */
  ghost predicate Calm(g: Graph, outcomes: Outcomes) {
    forall k, t :: !outcomes(k, t).Failed? && !Resets(g, t, outcomes(k, t))
  }

  lemma CalmRound(g: Graph, outcomes: Outcomes, processed: set<Task>, k: nat)
    requires Calm(g, outcomes)
    ensures var ready := ReadyTasks(g, g.tasks, processed);
            && AfterRound(g, processed, InRound(outcomes, k)) == processed + Members(ready)
            && Failures(ready, InRound(outcomes, k)) == {}
  {
    assert Targets(g, Members(ReadyTasks(g, g.tasks, processed)), InRound(outcomes, k)) == {};
  }

  /** A round with a ready task leaves fewer tasks of the crew unprocessed. */
  lemma ReadyShrinks(g: Graph, processed: set<Task>)
    requires ReadyTasks(g, g.tasks, processed) != []
    ensures var ready := Members(ReadyTasks(g, g.tasks, processed));
            |Members(g.tasks) - (processed + ready)| < |Members(g.tasks) - processed|
  {
    ReadyTasksAre(g, g.tasks, processed);
    var ready := Members(ReadyTasks(g, g.tasks, processed));
    var t := ReadyTasks(g, g.tasks, processed)[0];
    var left := Members(g.tasks) - processed;
    assert t in left && t in ready;
    assert Members(g.tasks) - (processed + ready) < left;
    Smaller(Members(g.tasks) - (processed + ready), left);
  }

  lemma {:induction false} Smaller(a: set<Task>, b: set<Task>)
    requires a < b
    ensures |a| < |b|
  {
    if a != {} {
      var x :| x in a;
      Smaller(a - {x}, b - {x});
    }
  }

  lemma StuckStaysOut(g: Graph, stuck: set<Task>, processed: set<Task>)
    requires StuckSet(g, stuck) && processed <= Members(g.tasks) && stuck !! processed
    ensures stuck !! Members(ReadyTasks(g, g.tasks, processed))
  {
    ReadyTasksAre(g, g.tasks, processed);
    forall t | t in stuck
      ensures !Ready(g, processed, t)
    {
      assert Blocked(g, stuck, t);
    }
  }

  lemma SomeStuckLeft(g: Graph, stuck: set<Task>, processed: set<Task>)
    requires StuckSet(g, stuck) && stuck !! processed
    ensures !(Members(g.tasks) <= processed) && |Members(g.tasks) - processed| > 0
  {
    var t :| t in stuck;
    assert t in Members(g.tasks) - processed;
  }

  lemma {:induction false} StuckSetDeadlocks(g: Graph, outcomes: Outcomes, stuck: set<Task>, processed: set<Task>,
                                             k: nat, bound: nat)
    requires StuckSet(g, stuck) && Calm(g, outcomes) && processed <= Members(g.tasks) && stuck !! processed
    requires k + |Members(g.tasks) - processed| <= bound
    ensures RunFrom(g, outcomes, processed, k, bound).result == Deadlock
    decreases bound - k
  {
    SomeStuckLeft(g, stuck, processed);
    var ready := ReadyTasks(g, g.tasks, processed);
    if ready != [] {
      StuckStaysOut(g, stuck, processed);
      ReadyShrinks(g, processed);
      ReadyInCrew(g, processed);
      CalmStep(g, outcomes, processed, k, bound);
      StuckSetDeadlocks(g, outcomes, stuck, processed + Members(ready), k + 1, bound);
    }
  }

  lemma ReadyInCrew(g: Graph, processed: set<Task>)
    ensures Members(ReadyTasks(g, g.tasks, processed)) <= Members(g.tasks)
  {
    ReadyTasksAre(g, g.tasks, processed);
  }

  /** executeGraph can report a deadlock exactly when some tasks of the crew all wait on
      one another or on tasks outside it. */
  lemma DeadlockIffStuck(g: Graph)
    ensures (exists outcomes: Outcomes, bound: nat :: RunFrom(g, outcomes, {}, 0, bound).result == Deadlock)
       <==> (exists stuck :: StuckSet(g, stuck))
  {
    if stuck :| StuckSet(g, stuck) {
      var outcomes: Outcomes := (k, t) => Plain;
      StuckSetDeadlocks(g, outcomes, stuck, {}, 0, |Members(g.tasks) - {}|);
    } else {
      forall outcomes: Outcomes, bound: nat
        ensures RunFrom(g, outcomes, {}, 0, bound).result != Deadlock
      {
        NoDeadlock(g, outcomes, {}, 0, bound);
      }
    }
  }

  /** With acyclic dependencies that stay inside the crew there is no deadlock, whatever
      the tasks reset. */
  lemma AcyclicNeverDeadlocks(g: Graph, rank: Task -> nat, outcomes: Outcomes, bound: nat)
    requires forall t, d | t in g.tasks && d in g.Deps(t) :: d in g.tasks && rank(d) < rank(t)
    ensures RunFrom(g, outcomes, {}, 0, bound).result != Deadlock
  {
    forall stuck
      ensures !StuckSet(g, stuck)
    {
      AcyclicIsNotStuck(g, rank, stuck);
    }
    NoDeadlock(g, outcomes, {}, 0, bound);
  }

  // ----- Exactly once, and after every dependency -----

  /** How many rounds of the log ran `t`. */
  function Runs(log: seq<seq<Task>>, t: Task): nat {
    if log == [] then 0 else (if t in log[0] then 1 else 0) + Runs(log[1..], t)
  }

  /** Task `d` ran in one of the first `k` rounds. */
  predicate RanBefore(log: seq<seq<Task>>, k: nat, d: Task)
    requires k <= |log|
  {
    exists j :: 0 <= j < k && d in log[j]
  }

  /** The log runs the tasks of `ts` once and no others. */
  ghost predicate RunsOnce(log: seq<seq<Task>>, ts: set<Task>) {
    forall t :: Runs(log, t) == if t in ts then 1 else 0
  }

  /** Every dependency of a logged task was processed at the start or ran in an earlier round. */
  ghost predicate Ordered(g: Graph, processed: set<Task>, log: seq<seq<Task>>) {
    forall j, t, d | 0 <= j < |log| && t in log[j] && d in g.Deps(t) :: d in processed || RanBefore(log, j, d)
  }

  lemma RunsOnceMore(ready: seq<Task>, log: seq<seq<Task>>, ts: set<Task>)
    requires RunsOnce(log, ts) && Members(ready) !! ts
    ensures RunsOnce([ready] + log, Members(ready) + ts)
  {
    assert ([ready] + log)[1..] == log;
  }

  lemma OrderedMore(g: Graph, processed: set<Task>, ready: seq<Task>, log: seq<seq<Task>>)
    requires (forall t | t in ready :: Ready(g, processed, t)) && Ordered(g, processed + Members(ready), log)
    ensures Ordered(g, processed, [ready] + log)
  {
    var all := [ready] + log;
    forall j, t, d | 0 <= j < |all| && t in all[j] && d in g.Deps(t)
      ensures d in processed || RanBefore(all, j, d)
    {
      if j > 0 {
        assert all[j] == log[j - 1];
        if d in Members(ready) {
          assert d in all[0];
        } else if d !in processed {
          assert RanBefore(log, j - 1, d);
          var i :| 0 <= i < j - 1 && d in log[i];
          assert d in all[i + 1];
        }
      }
    }
  }

  lemma CalmStep(g: Graph, outcomes: Outcomes, processed: set<Task>, k: nat, bound: nat)
    requires Calm(g, outcomes) && k < bound && !(Members(g.tasks) <= processed)
    requires ReadyTasks(g, g.tasks, processed) != []
    ensures var ready := ReadyTasks(g, g.tasks, processed);
            var rest := RunFrom(g, outcomes, processed + Members(ready), k + 1, bound);
            RunFrom(g, outcomes, processed, k, bound) == GraphRun(rest.result, [ready] + rest.log, rest.processed)
  {
    CalmRound(g, outcomes, processed, k);
  }

  /** What the log of a run without errors or feedback edges shows, however far it came. */
  ghost predicate LogsOnce(g: Graph, processed: set<Task>, run: GraphRun) {
    && processed <= run.processed <= Members(g.tasks)
    && RunsOnce(run.log, run.processed - processed) && Ordered(g, processed, run.log)
  }

  lemma LogsOnceMore(g: Graph, processed: set<Task>, rest: GraphRun)
    requires processed <= Members(g.tasks)
    requires LogsOnce(g, processed + Members(ReadyTasks(g, g.tasks, processed)), rest)
    ensures LogsOnce(g, processed, rest.(log := [ReadyTasks(g, g.tasks, processed)] + rest.log))
  {
    var ready := ReadyTasks(g, g.tasks, processed);
    ReadyTasksAre(g, g.tasks, processed);
    OrderedMore(g, processed, ready, rest.log);
    var later := rest.processed - (processed + Members(ready));
    RunsOnceMore(ready, rest.log, later);
    assert Members(ready) + later == rest.processed - processed;
  }

  lemma {:induction false} CalmRun(g: Graph, outcomes: Outcomes, processed: set<Task>, k: nat, bound: nat)
    requires Calm(g, outcomes) && processed <= Members(g.tasks)
    ensures LogsOnce(g, processed, RunFrom(g, outcomes, processed, k, bound))
    decreases bound - k
  {
    var ready := ReadyTasks(g, g.tasks, processed);
    if k < bound && !(Members(g.tasks) <= processed) && ready != [] {
      ReadyTasksAre(g, g.tasks, processed);
      CalmStep(g, outcomes, processed, k, bound);
      CalmRun(g, outcomes, processed + Members(ready), k + 1, bound);
      LogsOnceMore(g, processed, RunFrom(g, outcomes, processed + Members(ready), k + 1, bound));
    } else {
      assert RunFrom(g, outcomes, processed, k, bound).processed - processed == {};
    }
  }

  // ----- How many rounds it takes -----

  /** Every dependency is a task of the crew. */
  ghost predicate Closed(g: Graph) {
    forall t, d | t in g.tasks && d in g.Deps(t) :: d in g.tasks
  }

  /** Tasks of the crew each of which depends on the one before it. */
  ghost predicate Chain(g: Graph, c: seq<Task>) {
    && (forall i | 0 <= i < |c| :: c[i] in g.tasks)
    && (forall i | 0 < i < |c| :: DependsOn(g, c[i], c[i - 1]))
  }

  predicate DependsOn(g: Graph, t: Task, d: Task) {
    d in g.Deps(t)
  }

  /** No chain of dependencies is longer than `n`. */
  ghost predicate ChainsWithin(g: Graph, n: nat) {
    forall c | Chain(g, c) :: |c| <= n
  }

  /** Task `t` can be processed in `n` rounds. */
  predicate Within(g: Graph, t: Task, n: nat)
    decreases n
  {
    t in g.tasks && n > 0 && forall d | d in g.Deps(t) :: Within(g, d, n - 1)
  }

  lemma {:induction false} WithinMore(g: Graph, t: Task, n: nat)
    requires Within(g, t, n)
    ensures Within(g, t, n + 1)
    decreases n
  {
    forall d | d in g.Deps(t)
      ensures Within(g, d, n)
    {
      WithinMore(g, d, n - 1);
    }
  }

  lemma {:induction false} ChainFits(g: Graph, c: seq<Task>, n: nat)
    requires Chain(g, c) && c != [] && Within(g, c[|c| - 1], n)
    ensures |c| <= n
    decreases |c|
  {
    if |c| > 1 {
      assert DependsOn(g, c[|c| - 1], c[|c| - 2]);
      ChainFits(g, c[..|c| - 1], n - 1);
    }
  }

  lemma {:induction false} ChainTo(g: Graph, t: Task, n: nat) returns (c: seq<Task>)
    requires Closed(g) && t in g.tasks && !Within(g, t, n)
    ensures Chain(g, c) && |c| == n + 1 && c[n] == t
    decreases n
  {
    if n == 0 {
      c := [t];
    } else {
      var d :| d in g.Deps(t) && !Within(g, d, n - 1);
      c := ChainTo(g, d, n - 1);
      assert DependsOn(g, t, d);
      c := c + [t];
    }
  }

  /** Exactly the tasks that `k` rounds can process. */
  ghost predicate AtLevel(g: Graph, processed: set<Task>, k: nat) {
    forall t :: t in processed <==> Within(g, t, k)
  }

  lemma NextLevel(g: Graph, processed: set<Task>, k: nat)
    requires AtLevel(g, processed, k)
    ensures AtLevel(g, processed + Members(ReadyTasks(g, g.tasks, processed)), k + 1)
  {
    ReadyTasksAre(g, g.tasks, processed);
    forall t
      ensures t in processed || t in ReadyTasks(g, g.tasks, processed) <==> Within(g, t, k + 1)
    {
      if t in processed {
        WithinMore(g, t, k);
      }
    }
  }

  lemma {:induction false} LevelsEnd(g: Graph, t: Task, k: nat, n: nat)
    requires k <= n && forall u | Within(g, u, k + 1) :: Within(g, u, k)
    ensures Within(g, t, n) ==> Within(g, t, k)
    decreases n
  {
    if k < n && Within(g, t, n) {
      forall d | d in g.Deps(t)
        ensures Within(g, d, k)
      {
        LevelsEnd(g, d, k, n - 1);
      }
      assert Within(g, t, k + 1);
    }
  }

  /** A calm run processes exactly the tasks that its bound of rounds can process. */
  lemma {:induction false} CalmLevels(g: Graph, outcomes: Outcomes, processed: set<Task>, k: nat, bound: nat)
    requires Calm(g, outcomes) && AtLevel(g, processed, k) && k <= bound
    ensures AtLevel(g, RunFrom(g, outcomes, processed, k, bound).processed, bound)
    decreases bound - k
  {
    var ready := ReadyTasks(g, g.tasks, processed);
    if k < bound {
      NextLevel(g, processed, k);
      if Members(g.tasks) <= processed || ready == [] {
        ReadyTasksAre(g, g.tasks, processed);
        LevelStays(g, processed, k, bound);
      } else {
        CalmStep(g, outcomes, processed, k, bound);
        CalmLevels(g, outcomes, processed + Members(ready), k + 1, bound);
      }
    }
  }

  lemma LevelStays(g: Graph, processed: set<Task>, k: nat, n: nat)
    requires AtLevel(g, processed, k) && k <= n
    requires Members(g.tasks) <= processed || ReadyTasks(g, g.tasks, processed) == []
    ensures AtLevel(g, processed, n)
  {
    NextLevel(g, processed, k);
    ReadyTasksAre(g, g.tasks, processed);
    assert forall u | Within(g, u, k + 1) :: Within(g, u, k);
    forall t
      ensures Within(g, t, n) <==> Within(g, t, k)
    {
      LevelsEnd(g, t, k, n);
      if Within(g, t, k) {
        WithinUpTo(g, t, k, n);
      }
    }
  }

  lemma {:induction false} WithinUpTo(g: Graph, t: Task, k: nat, n: nat)
    requires k <= n && Within(g, t, k)
    ensures Within(g, t, n)
    decreases n
  {
    if k < n {
      WithinUpTo(g, t, k, n - 1);
      WithinMore(g, t, n - 1);
    }
  }

  lemma AllWithinIff(g: Graph, n: nat)
    ensures (forall t | t in g.tasks :: Within(g, t, n)) <==> Closed(g) && ChainsWithin(g, n)
  {
    if forall t | t in g.tasks :: Within(g, t, n) {
      forall t, d | t in g.tasks && d in g.Deps(t)
        ensures d in g.tasks
      {
        assert Within(g, t, n);
        assert Within(g, d, n - 1);
      }
      forall c | Chain(g, c)
        ensures |c| <= n
      {
        if c != [] {
          assert Within(g, c[|c| - 1], n);
          ChainFits(g, c, n);
        }
      }
    } else if Closed(g) {
      var t :| t in g.tasks && !Within(g, t, n);
      var c := ChainTo(g, t, n);
    }
  }

  /** Without errors or feedback edges, every task is processed, each having run exactly
      once and after all its dependencies, exactly when the dependencies stay inside the
      crew and no chain of them is longer than the bound of rounds. Otherwise some task is
      left out. */
  lemma EveryTaskRunsOnceIff(g: Graph, outcomes: Outcomes, bound: nat)
    requires Calm(g, outcomes)
    ensures var run := RunFrom(g, outcomes, {}, 0, bound);
            && (Members(g.tasks) <= run.processed <==> Closed(g) && ChainsWithin(g, bound))
            && ((forall t | t in g.tasks :: Runs(run.log, t) == 1) <==> Closed(g) && ChainsWithin(g, bound))
            && (forall t :: Runs(run.log, t) <= if t in g.tasks then 1 else 0)
            && (forall j, t, d | 0 <= j < |run.log| && t in run.log[j] && d in g.Deps(t) :: RanBefore(run.log, j, d))
  {
    var run := RunFrom(g, outcomes, {}, 0, bound);
    CalmRun(g, outcomes, {}, 0, bound);
    CalmLevels(g, outcomes, {}, 0, bound);
    AllWithinIff(g, bound);
    assert run.processed - {} == run.processed;
    assert Members(g.tasks) <= run.processed <==> forall t | t in g.tasks :: Within(g, t, bound);
    assert forall t :: t in run.processed <==> Runs(run.log, t) == 1;
  }

  lemma ChainsDoNotRepeat(g: Graph, c: seq<Task>, i: nat, j: nat)
    requires Chain(g, c) && i < j < |c| && c[i] == c[j]
    ensures exists stuck :: StuckSet(g, stuck)
  {
    var stuck := Members(c[i..j]);
    assert c[i..j][0] in stuck;
    forall t | t in stuck
      ensures Blocked(g, stuck, t)
    {
      var k :| 0 <= k < j - i && c[i..j][k] == t;
      var d := if k == 0 then c[j - 1] else c[i + k - 1];
      assert DependsOn(g, t, d);
      assert d == c[i..j][if k == 0 then j - i - 1 else k - 1];
    }
    assert StuckSet(g, stuck);
  }

  lemma {:induction false} DistinctCount(ts: seq<Task>)
    requires Distinct(ts)
    ensures |Members(ts)| == |ts|
  {
    if ts != [] {
      DistinctCount(ts[1..]);
      assert ts[0] !in ts[1..];
      assert Members(ts) == Members(ts[1..]) + {ts[0]};
    }
  }

  lemma {:induction false} FewMembers(ts: seq<Task>)
    ensures |Members(ts)| <= |ts|
  {
    if ts != [] {
      FewMembers(ts[1..]);
      assert Members(ts) == Members(ts[1..]) + {ts[0]};
    }
  }

  lemma {:induction false} SubsetCount(a: set<Task>, b: set<Task>)
    requires a <= b
    ensures |a| <= |b|
  {
    if a != {} {
      var x :| x in a;
      SubsetCount(a - {x}, b - {x});
    }
  }

  /** A crew that cannot deadlock has no chain longer than it has tasks. */
  lemma ChainsAreShort(g: Graph)
    requires !exists stuck :: StuckSet(g, stuck)
    ensures ChainsWithin(g, |g.tasks|)
  {
    forall c | Chain(g, c)
      ensures |c| <= |g.tasks|
    {
      if i: nat, j: nat :| i < j < |c| && c[i] == c[j] {
        ChainsDoNotRepeat(g, c, i, j);
      }
      DistinctCount(c);
      SubsetCount(Members(c), Members(g.tasks));
      FewMembers(g.tasks);
    }
  }

  /** As many rounds as there are tasks are always enough. */
  lemma EveryTaskRunsOnce(g: Graph, outcomes: Outcomes, bound: nat)
    requires Calm(g, outcomes) && !(exists stuck :: StuckSet(g, stuck)) && |g.tasks| <= bound
    ensures var run := RunFrom(g, outcomes, {}, 0, bound);
            && run.result == Returned
            && (forall t :: Runs(run.log, t) == if t in g.tasks then 1 else 0)
            && (forall j, t, d | 0 <= j < |run.log| && t in run.log[j] && d in g.Deps(t) :: RanBefore(run.log, j, d))
  {
    ChainsAreShort(g);
    EveryTaskRunsOnceIff(g, outcomes, bound);
    ReturnsUnfinishedIff(g, outcomes, bound);
  }

  // ----- What a return without an error means -----

  /** It returns without an error only when all tasks are processed or every round of the
      bound was run. */
  lemma {:induction false} ReturnedMeans(g: Graph, outcomes: Outcomes, processed: set<Task>, k: nat, bound: nat)
    requires k <= bound && RunFrom(g, outcomes, processed, k, bound).result == Returned
    ensures var run := RunFrom(g, outcomes, processed, k, bound);
            Members(g.tasks) <= run.processed || |run.log| == bound - k
    decreases bound - k
  {
    if k < bound && !(Members(g.tasks) <= processed) {
      ReturnedMeans(g, outcomes, AfterRound(g, processed, InRound(outcomes, k)), k + 1, bound);
    }
  }

  /** Without errors or feedback edges, in a crew that cannot deadlock, executeGraph always
      returns without an error, and has left tasks out exactly when some chain of
      dependencies is longer than its bound of rounds. */
  lemma ReturnsUnfinishedIff(g: Graph, outcomes: Outcomes, bound: nat)
    requires Calm(g, outcomes) && !exists stuck :: StuckSet(g, stuck)
    ensures var run := RunFrom(g, outcomes, {}, 0, bound);
            && run.result == Returned
            && (!(Members(g.tasks) <= run.processed) <==> !ChainsWithin(g, bound))
  {
    EveryTaskRunsOnceIff(g, outcomes, bound);
    NoDeadlock(g, outcomes, {}, 0, bound);
    NoFailureNoError(g, outcomes, {}, 0, bound);
    NotStuckIsClosed(g);
  }

  lemma {:induction false} NoFailureNoError(g: Graph, outcomes: Outcomes, processed: set<Task>, k: nat, bound: nat)
    requires forall j, t :: !outcomes(j, t).Failed?
    ensures RunFrom(g, outcomes, processed, k, bound).result != TaskError
    decreases bound - k
  {
    var ready := ReadyTasks(g, g.tasks, processed);
    if k < bound && !(Members(g.tasks) <= processed) && ready != [] {
      assert Failures(ready, InRound(outcomes, k)) == {};
      NoFailureNoError(g, outcomes, AfterRound(g, processed, InRound(outcomes, k)), k + 1, bound);
    }
  }

  /** A crew of `n` tasks in a row, each depending on the one before it. */
  function Row(n: nat): Graph {
    Graph(seq(n, i => i), RowDeps(n))
  }

  function RowDeps(n: nat): map<Task, seq<Task>> {
    if n <= 1 then map[] else RowDeps(n - 1)[n - 1 := [n - 2]]
  }

  lemma {:induction false} RowDepsAre(n: nat, t: Task)
    ensures t in RowDeps(n) <==> 0 < t < n
    ensures 0 < t < n ==> RowDeps(n)[t] == [t - 1]
  {
    if n > 1 {
      RowDepsAre(n - 1, t);
    }
  }

  /** A plain row of tasks longer than the bound, 101 of them for the default bound, comes
      back without an error and unfinished although nothing failed. */
  lemma LongRowReturnsUnfinished(n: nat, outcomes: Outcomes, maxCycles: int)
    requires Calm(Row(n), outcomes) && n > if maxCycles <= 0 then 100 else maxCycles
    ensures var run := RunFrom(Row(n), outcomes, {}, 0, Bound(maxCycles));
            run.result == Returned && !(Members(Row(n).tasks) <= run.processed)
  {
    var g, c := Row(n), Row(n).tasks;
    forall t, d | t in c && d in g.Deps(t)
      ensures d in c && d < t
    {
      RowDepsAre(n, t);
      assert c[d] == d;
    }
    forall stuck
      ensures !StuckSet(g, stuck)
    {
      AcyclicIsNotStuck(g, t => t, stuck);
    }
    forall i | 0 < i < |c|
      ensures DependsOn(g, c[i], c[i - 1])
    {
      RowDepsAre(n, i);
    }
    assert Chain(g, c) && |c| == n;
    ReturnsUnfinishedIff(g, outcomes, Bound(maxCycles));
  }

  /** A task that selects itself in every round is processed by no run, whatever the crew
      and the other tasks do. */
  lemma {:induction false} SelfSelectedIsNeverProcessed(g: Graph, outcomes: Outcomes, processed: set<Task>, t: Task,
                                                        k: nat, bound: nat)
    requires t !in processed && forall j :: outcomes(j, t) == Path(t)
    ensures t !in RunFrom(g, outcomes, processed, k, bound).processed
    decreases bound - k
  {
    var ready := ReadyTasks(g, g.tasks, processed);
    if k < bound && !(Members(g.tasks) <= processed) && ready != [] {
      var outcome := InRound(outcomes, k);
      var after := AfterRound(g, processed, outcome);
      assert outcome(t) == Path(t) && Resets(g, t, outcome(t));
      assert t in ready ==> t in Targets(g, Members(ready), outcome);
      assert t !in after;
      SelfSelectedIsNeverProcessed(g, outcomes, after, t, k + 1, bound);
    }
  }

  /** In a crew that cannot deadlock such a task makes executeGraph return without an error
      and unfinished for every bound, if no task fails. */
  lemma FeedbackReturnsUnfinished(g: Graph, outcomes: Outcomes, t: Task, bound: nat)
    requires t in g.tasks && (forall j :: outcomes(j, t) == Path(t)) && (forall j, u :: !outcomes(j, u).Failed?)
    requires !exists stuck :: StuckSet(g, stuck)
    ensures var run := RunFrom(g, outcomes, {}, 0, bound);
            run.result == Returned && t !in run.processed
  {
    SelfSelectedIsNeverProcessed(g, outcomes, {}, t, 0, bound);
    NoDeadlock(g, outcomes, {}, 0, bound);
    NoFailureNoError(g, outcomes, {}, 0, bound);
  }

  // ----- When feedback settles -----

  /** How much of the ranks of the tasks in `ts` is still unprocessed. */
  function Weight(ts: seq<Task>, rank: Task -> nat, processed: set<Task>): nat {
    if ts == [] then 0
    else
      var last := ts[|ts| - 1];
      Weight(ts[..|ts| - 1], rank, processed) + (if last in processed then 0 else rank(last) + 1)
  }

  lemma {:induction false} WeightWithout(ts: seq<Task>, rank: Task -> nat, processed: set<Task>, t: Task)
    requires t !in ts
    ensures Weight(ts, rank, processed + {t}) == Weight(ts, rank, processed - {t}) == Weight(ts, rank, processed)
  {
    if ts != [] {
      WeightWithout(ts[..|ts| - 1], rank, processed, t);
    }
  }

  lemma {:induction false} WeightMarked(ts: seq<Task>, rank: Task -> nat, processed: set<Task>, t: Task)
    requires Distinct(ts) && t in ts && t !in processed
    ensures Weight(ts, rank, processed + {t}) == Weight(ts, rank, processed) - (rank(t) + 1)
  {
    var n := |ts| - 1;
    if ts[n] == t {
      assert t !in ts[..n];
      WeightWithout(ts[..n], rank, processed, t);
    } else {
      assert t in ts[..n];
      WeightMarked(ts[..n], rank, processed, t);
    }
  }

  lemma {:induction false} WeightReset(ts: seq<Task>, rank: Task -> nat, processed: set<Task>, t: Task)
    requires Distinct(ts)
    ensures Weight(ts, rank, processed - {t}) <= Weight(ts, rank, processed) + rank(t) + 1
  {
    if ts != [] {
      var n := |ts| - 1;
      if ts[n] == t {
        assert t !in ts[..n];
        WeightWithout(ts[..n], rank, processed, t);
      } else {
        WeightReset(ts[..n], rank, processed, t);
      }
    }
  }

  lemma {:induction false} WeightLeft(ts: seq<Task>, rank: Task -> nat, processed: set<Task>)
    ensures Weight(ts, rank, processed) == 0 <==> Members(ts) <= processed
  {
    if ts != [] {
      var n := |ts| - 1;
      WeightLeft(ts[..n], rank, processed);
      assert Members(ts) == Members(ts[..n]) + {ts[n]};
    }
  }

  /** The rank goes down along every dependency, and dependencies stay inside the crew. */
  ghost predicate Ranked(g: Graph, rank: Task -> nat) {
    forall t, d | t in g.tasks && d in g.Deps(t) :: d in g.tasks && rank(d) < rank(t)
  }

  /** The processed set once the first `i` ready tasks were marked and have settled. */
  function PartOfRound(g: Graph, processed: set<Task>, ready: seq<Task>, outcome: Task -> Outcome, i: nat): set<Task>
    requires i <= |ready|
  {
    (processed + Members(ready[..i])) - Targets(g, Members(ready[..i]), outcome)
  }

  lemma NextPart(g: Graph, processed: set<Task>, ready: seq<Task>, outcome: Task -> Outcome, i: nat)
    requires i < |ready| && Distinct(ready) && forall t | t in ready :: Ready(g, processed, t)
    ensures var t, part := ready[i], PartOfRound(g, processed, ready, outcome, i);
            && t !in part
            && PartOfRound(g, processed, ready, outcome, i + 1)
               == if Resets(g, t, outcome(t)) then (part + {t}) - {outcome(t).next} else part + {t}
  {
    var t, before := ready[i], Members(ready[..i]);
    assert ready[..i + 1] == ready[..i] + [t];
    assert Members(ready[..i + 1]) == before + {t};
    assert t in ready && t !in ready[..i];
    NotATarget(g, processed, outcome, before, t);
    TargetsGrow(g, before, t, outcome);
  }

  /** A reset puts back a dependency of smaller rank than what was processed, so
      every ready task of a round takes weight away. */
  lemma {:induction false} PartWeighsLess(g: Graph, rank: Task -> nat, processed: set<Task>,
                                          outcome: Task -> Outcome, i: nat)
    requires g.Valid() && Ranked(g, rank) && i <= |ReadyTasks(g, g.tasks, processed)|
    requires forall t :: outcome(t) != Path(t)
    ensures var ready := ReadyTasks(g, g.tasks, processed);
            Weight(g.tasks, rank, PartOfRound(g, processed, ready, outcome, i)) + i <= Weight(g.tasks, rank, processed)
  {
    var ready := ReadyTasks(g, g.tasks, processed);
    ReadyTasksAre(g, g.tasks, processed);
    if i == 0 {
      assert Targets(g, {}, outcome) == {} && Members(ready[..0]) == {};
      assert PartOfRound(g, processed, ready, outcome, 0) == processed;
    } else {
      var t, part := ready[i - 1], PartOfRound(g, processed, ready, outcome, i - 1);
      PartWeighsLess(g, rank, processed, outcome, i - 1);
      ReadyTasksDistinct(g, g.tasks, processed);
      NextPart(g, processed, ready, outcome, i - 1);
      assert t in ready;
      WeightMarked(g.tasks, rank, part, t);
      if Resets(g, t, outcome(t)) {
        WeightReset(g.tasks, rank, part + {t}, outcome(t).next);
      }
    }
  }

  lemma RoundWeighsLess(g: Graph, rank: Task -> nat, processed: set<Task>, outcome: Task -> Outcome)
    requires g.Valid() && Ranked(g, rank) && ReadyTasks(g, g.tasks, processed) != []
    requires forall t :: outcome(t) != Path(t)
    ensures Weight(g.tasks, rank, AfterRound(g, processed, outcome)) < Weight(g.tasks, rank, processed)
  {
    var ready := ReadyTasks(g, g.tasks, processed);
    PartWeighsLess(g, rank, processed, outcome, |ready|);
    assert ready[..|ready|] == ready;
  }

  lemma RankedHasReady(g: Graph, rank: Task -> nat, processed: set<Task>)
    requires Ranked(g, rank) && processed <= Members(g.tasks) && !(Members(g.tasks) <= processed)
    ensures ReadyTasks(g, g.tasks, processed) != []
  {
    if ReadyTasks(g, g.tasks, processed) == [] {
      NoReadyMeansStuck(g, processed);
      AcyclicIsNotStuck(g, rank, Members(g.tasks) - processed);
    }
  }

  /** If no task ever fails or selects itself, feedback to dependencies wears off: with at
      least as many rounds as the tasks weigh, every task ends up processed, whatever is
      reset and in whatever rounds. */
  lemma {:induction false} FeedbackSettles(g: Graph, rank: Task -> nat, outcomes: Outcomes, processed: set<Task>,
                                           k: nat, bound: nat)
    requires g.Valid() && Ranked(g, rank) && processed <= Members(g.tasks)
    requires forall j, t :: !outcomes(j, t).Failed? && outcomes(j, t) != Path(t)
    requires k + Weight(g.tasks, rank, processed) <= bound
    ensures var run := RunFrom(g, outcomes, processed, k, bound);
            run.result == Returned && Members(g.tasks) <= run.processed
    decreases bound - k
  {
    WeightLeft(g.tasks, rank, processed);
    if !(Members(g.tasks) <= processed) {
      var outcome := InRound(outcomes, k);
      RankedHasReady(g, rank, processed);
      RoundWeighsLess(g, rank, processed, outcome);
      AfterRoundInCrew(g, processed, outcome);
      assert Failures(ReadyTasks(g, g.tasks, processed), outcome) == {};
      FeedbackSettles(g, rank, outcomes, AfterRound(g, processed, outcome), k + 1, bound);
    }
  }

  /** What NextPaths of the tasks allow: every task selects nothing or one of its paths, and
      none fails. */
  ghost predicate Allowed(paths: Task -> set<Task>, outcomes: Outcomes) {
    forall j, t :: !outcomes(j, t).Failed? && (outcomes(j, t).Path? ==> outcomes(j, t).next in paths(t))
  }

  ghost predicate Completes(g: Graph, outcomes: Outcomes, bound: nat) {
    var run := RunFrom(g, outcomes, {}, 0, bound);
    run.result == Returned && Members(g.tasks) <= run.processed
  }

  function OnlyItself(t: Task): Outcomes {
    (k: nat, u: Task) => if u == t then Path(t) else Plain
  }

  /** In how many rounds, at most `n`, task `t` can be processed. */
  function Level(g: Graph, t: Task, n: nat): nat {
    if n == 0 then 0 else if Within(g, t, n - 1) then Level(g, t, n - 1) else n
  }

  lemma {:induction false} LevelIs(g: Graph, t: Task, n: nat)
    requires Within(g, t, n)
    ensures 0 < Level(g, t, n) <= n && Within(g, t, Level(g, t, n))
  {
    if Within(g, t, n - 1) {
      LevelIs(g, t, n - 1);
    }
  }

  lemma {:induction false} LevelAtMost(g: Graph, t: Task, m: nat, n: nat)
    requires m <= n && Within(g, t, m)
    ensures Level(g, t, n) <= m
  {
    if m < n {
      WithinUpTo(g, t, m, n - 1);
      LevelAtMost(g, t, m, n - 1);
    } else {
      LevelIs(g, t, n);
    }
  }

  /** A rank for a crew that can be processed in `n` rounds. */
  function LevelRank(g: Graph, n: nat): Task -> nat {
    t => if Level(g, t, n) == 0 then 0 else Level(g, t, n) - 1
  }

  lemma LevelsRank(g: Graph, n: nat)
    requires Closed(g) && ChainsWithin(g, n)
    ensures Ranked(g, LevelRank(g, n)) && forall t | t in g.tasks :: LevelRank(g, n)(t) < n
  {
    AllWithinIff(g, n);
    forall t | t in g.tasks
      ensures LevelRank(g, n)(t) < n
      ensures forall d | d in g.Deps(t) :: LevelRank(g, n)(d) < LevelRank(g, n)(t)
    {
      LevelIs(g, t, n);
      forall d | d in g.Deps(t)
        ensures LevelRank(g, n)(d) < LevelRank(g, n)(t)
      {
        assert Within(g, d, Level(g, t, n) - 1);
        LevelAtMost(g, d, Level(g, t, n) - 1, n);
        LevelIs(g, d, n);
      }
    }
  }

  lemma {:induction false} WeightAtMost(ts: seq<Task>, rank: Task -> nat, processed: set<Task>, n: nat)
    requires forall t | t in ts :: rank(t) < n
    ensures Weight(ts, rank, processed) <= |ts| * n
  {
    if ts != [] {
      WeightAtMost(ts[..|ts| - 1], rank, processed, n);
      assert (|ts| - 1) * n + n == |ts| * n;
    }
  }

  lemma NotStuckIsClosed(g: Graph)
    requires !exists stuck :: StuckSet(g, stuck)
    ensures Closed(g)
  {
    forall t, d | t in g.tasks && d in g.Deps(t)
      ensures d in g.tasks
    {
      if d !in g.tasks {
        assert Blocked(g, {t}, t);
        assert StuckSet(g, {t});
      }
    }
  }

  /** With a bound of at least the square of the number of tasks, a crew that cannot
      deadlock completes on everything that the paths of its tasks allow exactly when no
      task lists itself among its paths. */
  lemma FeedbackSettlesIff(g: Graph, paths: Task -> set<Task>, bound: nat)
    requires g.Valid() && !(exists stuck :: StuckSet(g, stuck)) && |g.tasks| * |g.tasks| <= bound
    requires forall t | t !in g.tasks :: paths(t) == {}
    ensures (forall outcomes: Outcomes | Allowed(paths, outcomes) :: Completes(g, outcomes, bound))
       <==> (forall t | t in g.tasks :: t !in paths(t))
  {
    if t :| t in g.tasks && t in paths(t) {
      var outcomes := OnlyItself(t);
      assert Allowed(paths, outcomes);
      SelfSelectedIsNeverProcessed(g, outcomes, {}, t, 0, bound);
      assert !Completes(g, outcomes, bound);
    } else {
      var n := |g.tasks|;
      NotStuckIsClosed(g);
      ChainsAreShort(g);
      LevelsRank(g, n);
      WeightAtMost(g.tasks, LevelRank(g, n), {}, n);
      forall outcomes: Outcomes | Allowed(paths, outcomes)
        ensures Completes(g, outcomes, bound)
      {
        FeedbackSettles(g, LevelRank(g, n), outcomes, {}, 0, bound);
      }
    }
  }
}
