/** The circuit breaker of the LLM middleware under calls that overlap at will.

    Time is a real number; a clock that is read while the lock is held never goes
    back.  The history keeps every result that the breaker counts. */
module CircuitBreaker {

  datatype BreakerState = Closed | Open | HalfOpen

  /** How a call ended: cancellation and a fast-failed call are not counted. */
  datatype CallResult = Success | Failure | Uncounted

  datatype Breaker = Breaker(threshold: nat, cooldown: real, failures: nat, state: BreakerState, openedAt: real,
                             trialActive: bool)

  datatype Admission = Admission(breaker: Breaker, allow: bool, trial: bool)

  function NewBreaker(threshold: int, cooldown: real): Breaker {
    Breaker(if threshold <= 0 then 5 else threshold, if cooldown <= 0.0 then 30.0 else cooldown, 0, Closed, 0.0, false)
  }

  function BeforeCall(b: Breaker, now: real): Admission {
    match b.state
    case Closed => Admission(b, true, false)
    case Open =>
      if now - b.openedAt >= b.cooldown then Admission(b.(state := HalfOpen, trialActive := true), true, true)
      else Admission(b, false, false)
    case HalfOpen =>
      if b.trialActive then Admission(b, false, false) else Admission(b.(trialActive := true), true, true)
  }

  function AfterCall(b: Breaker, trial: bool, result: CallResult, now: real): Breaker {
    match result
    case Uncounted => if trial then b.(trialActive := false) else b
    case Success => b.(failures := 0, state := Closed, trialActive := false)
    case Failure =>
      var c := b.(failures := b.failures + 1, trialActive := false);
      if b.state == HalfOpen || c.failures >= b.threshold then c.(state := Open, openedAt := now) else c
  }

  class CircuitBreakerObject {
    const threshold: nat
    const cooldown: real
    var failures: nat
    var state: BreakerState
    var openedAt: real
    var trialActive: bool

    ghost function View(): Breaker
      reads this
    {
      Breaker(threshold, cooldown, failures, state, openedAt, trialActive)
    }

    constructor (threshold: int, cooldown: real)
      ensures View() == NewBreaker(threshold, cooldown)
    {
      this.threshold := if threshold <= 0 then 5 else threshold;
      this.cooldown := if cooldown <= 0.0 then 30.0 else cooldown;
      failures, state, openedAt, trialActive := 0, Closed, 0.0, false;
    }

    method Before(now: real) returns (allow: bool, trial: bool)
      modifies this
      ensures Admission(View(), allow, trial) == BeforeCall(old(View()), now)
    {
      match state
      case Closed => return true, false;
      case Open =>
        if now - openedAt >= cooldown {
          state := HalfOpen;
          trialActive := true;
          return true, true;
        }
        return false, false;
      case HalfOpen =>
        if trialActive {
          return false, false;
        }
        trialActive := true;
        return true, true;
    }

    method After(trial: bool, result: CallResult, now: real)
      modifies this
      ensures View() == AfterCall(old(View()), trial, result, now)
    {
      if result == Uncounted {
        if trial {
          trialActive := false;
        }
        return;
      }
      if result == Success {
        failures := 0;
        state := Closed;
        trialActive := false;
        return;
      }
      failures := failures + 1;
      if state == HalfOpen || failures >= threshold {
        state := Open;
        openedAt := now;
      }
      trialActive := false;
    }
  }

  // ----- Overlapping calls -----

  datatype Call = Call(trial: bool, over: bool)

  datatype Counted = Succeeded | FailedAt(time: real)

  /** Every call ever admitted, and every result ever counted. */
  datatype System = System(breaker: Breaker, clock: real, calls: seq<Call>, history: seq<Counted>)

  datatype Event = Begin(now: real) | End(i: nat, result: CallResult, now: real)

  predicate Enabled(s: System, e: Event) {
    s.clock <= e.now && (e.End? ==> e.i < |s.calls| && !s.calls[e.i].over)
  }

  predicate Admits(s: System, now: real) {
    BeforeCall(s.breaker, now).allow
  }

  function Apply(s: System, e: Event): System
    requires Enabled(s, e)
  {
    match e
    case Begin(now) =>
      var a := BeforeCall(s.breaker, now);
      s.(breaker := a.breaker, clock := now, calls := if a.allow then s.calls + [Call(a.trial, false)] else s.calls)
    case End(i, result, now) =>
      System(AfterCall(s.breaker, s.calls[i].trial, result, now), now, s.calls[i := s.calls[i].(over := true)],
             match result
             case Uncounted => s.history
             case Success => s.history + [Succeeded]
             case Failure => s.history + [FailedAt(now)])
  }

  ghost predicate Reaches(s: System, events: seq<Event>, t: System)
    decreases |events|
  {
    if events == [] then s == t
    else Enabled(s, events[0]) && Reaches(Apply(s, events[0]), events[1..], t)
  }

  function Start(threshold: int, cooldown: real, now: real): System {
    System(NewBreaker(threshold, cooldown), now, [], [])
  }

  /** The run of counted failures since the last success. */
  function Trailing(history: seq<Counted>): nat {
    if history == [] || history[|history| - 1].Succeeded? then 0 else 1 + Trailing(history[..|history| - 1])
  }

  predicate Outstanding(s: System, i: nat) {
    i < |s.calls| && !s.calls[i].over
  }

  predicate OutstandingTrial(s: System, i: nat) {
    Outstanding(s, i) && s.calls[i].trial
  }

  /** The breaker agrees with the history of counted results. */
  ghost predicate CountsInv(b: Breaker, history: seq<Counted>, clock: real) {
    var n := |history|;
    && 0 < b.threshold && 0.0 < b.cooldown
    && b.failures == Trailing(history)
    && (b.state != Closed <==> b.failures >= b.threshold)
    && (b.state != Closed ==> history[n - 1] == FailedAt(b.openedAt) && b.openedAt <= clock)
    && (b.state == HalfOpen ==> b.openedAt + b.cooldown <= clock)
    && (b.trialActive ==> b.state == HalfOpen)
  }

  ghost predicate Inv(s: System) {
    CountsInv(s.breaker, s.history, s.clock) && (s.breaker.trialActive ==> exists i: nat :: OutstandingTrial(s, i))
  }

  lemma BeginKept(s: System, now: real)
    requires Inv(s) && Enabled(s, Begin(now))
    ensures Inv(Apply(s, Begin(now)))
  {
    var t := Apply(s, Begin(now));
    if s.breaker.trialActive {
      var i: nat :| OutstandingTrial(s, i);
      assert OutstandingTrial(t, i);
    } else if t.breaker.trialActive {
      assert OutstandingTrial(t, |s.calls|);
    }
  }

  lemma TrailingMore(history: seq<Counted>, c: Counted)
    ensures Trailing(history + [c]) == if c.Succeeded? then 0 else Trailing(history) + 1
  {
    assert (history + [c])[..|history|] == history;
  }

  lemma UncountedKept(s: System, i: nat, now: real)
    requires Inv(s) && Enabled(s, End(i, Uncounted, now))
    ensures Inv(Apply(s, End(i, Uncounted, now)))
  {
    var t := Apply(s, End(i, Uncounted, now));
    if t.breaker.trialActive {
      var k: nat :| OutstandingTrial(s, k);
      assert OutstandingTrial(t, k);
    }
  }

  lemma CountedKept(b: Breaker, history: seq<Counted>, clock: real, trial: bool, failed: bool, now: real)
    requires CountsInv(b, history, clock) && clock <= now
    ensures CountsInv(AfterCall(b, trial, if failed then Failure else Success, now),
                      history + [if failed then FailedAt(now) else Succeeded], now)
  {
    TrailingMore(history, if failed then FailedAt(now) else Succeeded);
  }

  lemma EndKept(s: System, i: nat, result: CallResult, now: real)
    requires Inv(s) && Enabled(s, End(i, result, now))
    ensures Inv(Apply(s, End(i, result, now)))
  {
    match result
    case Uncounted => UncountedKept(s, i, now);
    case Success => CountedKept(s.breaker, s.history, s.clock, s.calls[i].trial, false, now);
    case Failure => CountedKept(s.breaker, s.history, s.clock, s.calls[i].trial, true, now);
  }

  lemma InvKept(s: System, e: Event)
    requires Inv(s) && Enabled(s, e)
    ensures Inv(Apply(s, e))
  {
    match e
    case Begin(now) => BeginKept(s, now);
    case End(i, result, now) => EndKept(s, i, result, now);
  }

  lemma {:induction false} ConfigStays(s: System, events: seq<Event>, t: System)
    requires Reaches(s, events, t)
    ensures t.breaker.threshold == s.breaker.threshold && t.breaker.cooldown == s.breaker.cooldown
    decreases |events|
  {
    if events != [] {
      ConfigStays(Apply(s, events[0]), events[1..], t);
    }
  }

  /** However calls overlap, the breaker agrees with the history of counted results, and an
      active trial is a call that is still out. */
  lemma {:induction false} InvHolds(s: System, events: seq<Event>, t: System)
    requires Inv(s) && Reaches(s, events, t)
    ensures Inv(t)
    decreases |events|
  {
    if events != [] {
      var next := Apply(s, events[0]);
      InvKept(s, events[0]);
      InvHolds(next, events[1..], t);
    }
  }

  /** The breaker is not closed exactly when the failures counted since the last success
      have reached the threshold. */
  lemma TripsOnTrailingFailures(threshold: int, cooldown: real, begin: real, events: seq<Event>, t: System)
    requires Reaches(Start(threshold, cooldown, begin), events, t)
    ensures t.breaker.state != Closed <==> Trailing(t.history) >= if threshold <= 0 then 5 else threshold
  {
    InvHolds(Start(threshold, cooldown, begin), events, t);
    ConfigStays(Start(threshold, cooldown, begin), events, t);
  }

  function LastFailure(history: seq<Counted>): real
    requires 0 < Trailing(history)
  {
    history[|history| - 1].time
  }

  /** A call that is let through while the breaker is not closed comes at least the
      cooldown after the most recent counted failure. */
  lemma TrialsWaitForCooldown(threshold: int, cooldown: real, begin: real, events: seq<Event>, t: System, now: real)
    requires Reaches(Start(threshold, cooldown, begin), events, t)
    requires t.clock <= now && t.breaker.state != Closed && Admits(t, now)
    ensures 0 < Trailing(t.history)
    ensures now >= LastFailure(t.history) + if cooldown <= 0.0 then 30.0 else cooldown
  {
    InvHolds(Start(threshold, cooldown, begin), events, t);
    ConfigStays(Start(threshold, cooldown, begin), events, t);
  }

  /** The breaker never wedges: with no call outstanding, a call is let through as soon
      as the cooldown is over, and at once when the breaker is closed. */
  lemma NeverWedged(threshold: int, cooldown: real, begin: real, events: seq<Event>, t: System, now: real)
    requires Reaches(Start(threshold, cooldown, begin), events, t) && t.clock <= now
    requires forall i: nat :: !Outstanding(t, i)
    ensures Admits(t, now) <==>
              t.breaker.state == Closed || now >= t.breaker.openedAt + if cooldown <= 0.0 then 30.0 else cooldown
  {
    InvHolds(Start(threshold, cooldown, begin), events, t);
    ConfigStays(Start(threshold, cooldown, begin), events, t);
    assert forall i: nat :: OutstandingTrial(t, i) ==> Outstanding(t, i);
  }

  /** A cancelled or fast-failed call counts for nothing: it leaves the breaker as it was,
      except that a trial makes room for the next one. */
  lemma UncountedChangesNothing(s: System, i: nat, now: real)
    requires Enabled(s, End(i, Uncounted, now))
    ensures var t := Apply(s, End(i, Uncounted, now));
            && t.history == s.history
            && (!s.calls[i].trial ==> t.breaker == s.breaker)
            && (s.calls[i].trial ==> t.breaker == s.breaker.(trialActive := false))
  {
  }

  // ----- How many trials can be out at once -----

  /** Trial `i` is out, and the events admit another one without ending `i`. */
  ghost predicate SecondTrial(s: System, i: nat, events: seq<Event>, t: System) {
    && Reaches(s, events, t) && OutstandingTrial(t, i)
    && exists j: nat :: |s.calls| <= j && OutstandingTrial(t, j)
  }

  lemma {:induction false} NoSecondTrial(s: System, i: nat, events: seq<Event>, t: System)
    requires OutstandingTrial(s, i) && s.breaker.state == HalfOpen && s.breaker.trialActive
    requires (forall j: nat | Outstanding(s, j) :: j == i) && Reaches(s, events, t) && OutstandingTrial(t, i)
    ensures t.calls == s.calls
    decreases |events|
  {
    if events != [] {
      var next := Apply(s, events[0]);
      if events[0].End? {
        assert events[0].i == i by {
          assert Outstanding(s, events[0].i);
        }
        assert next.calls[i].over;
        OverStays(next, events[1..], t, i);
        assert false;
      }
      assert next.breaker == s.breaker && next.calls == s.calls;
      assert forall j: nat | Outstanding(next, j) :: Outstanding(s, j);
      NoSecondTrial(next, i, events[1..], t);
    }
  }

  lemma {:induction false} OverStays(s: System, events: seq<Event>, t: System, i: nat)
    requires Reaches(s, events, t) && i < |s.calls| && s.calls[i].over
    ensures i < |t.calls| && t.calls[i].over
    decreases |events|
  {
    if events != [] {
      OverStays(Apply(s, events[0]), events[1..], t, i);
    }
  }

  lemma OtherCallLetsTrialIn(s: System, i: nat, j: nat) returns (events: seq<Event>, t: System)
    requires Inv(s) && OutstandingTrial(s, i) && Outstanding(s, j) && j != i && s.breaker.state == HalfOpen
    ensures SecondTrial(s, i, events, t)
  {
    var fail, again := End(j, Failure, s.clock), Begin(s.clock + s.breaker.cooldown);
    var u := Apply(s, fail);
    t := Apply(u, again);
    events := [fail, again];
    assert events[1..] == [again] && events[1..][1..] == [];
    assert Reaches(u, [again], t);
    assert OutstandingTrial(t, i) && OutstandingTrial(t, |s.calls|);
  }

  /** An open breaker, or a half-open one whose trial was cleared, admits a trial as soon as
      the cooldown is over. */
  lemma FreeLetsTrialIn(s: System, i: nat) returns (events: seq<Event>, t: System)
    requires Inv(s) && OutstandingTrial(s, i) && s.breaker.state != Closed
    requires s.breaker.state == HalfOpen ==> !s.breaker.trialActive
    ensures SecondTrial(s, i, events, t)
  {
    var again := Begin(s.clock + s.breaker.cooldown);
    t := Apply(s, again);
    events := [again];
    assert events[1..] == [];
    assert OutstandingTrial(t, i) && OutstandingTrial(t, |s.calls|);
  }

  lemma FailsOnce(s: System, i: nat) returns (events: seq<Event>, t: System)
    requires Inv(s) && OutstandingTrial(s, i) && s.breaker.state == Closed
    ensures |events| == 2 && Reaches(s, events, t) && OutstandingTrial(t, i) && |s.calls| <= |t.calls|
    ensures Inv(t) && t.breaker.state != HalfOpen
    ensures t.breaker.threshold == s.breaker.threshold && t.breaker.failures == s.breaker.failures + 1
  {
    var begin, fail := Begin(s.clock), End(|s.calls|, Failure, s.clock);
    var u := Apply(s, begin);
    BeginKept(s, s.clock);
    EndKept(u, |s.calls|, Failure, s.clock);
    t := Apply(u, fail);
    events := [begin, fail];
    assert events[1..] == [fail] && events[1..][1..] == [];
    assert Reaches(u, [fail], t);
  }

  lemma {:induction false} ReachesJoin(s: System, first: seq<Event>, t: System, second: seq<Event>, u: System)
    requires Reaches(s, first, t) && Reaches(t, second, u)
    ensures Reaches(s, first + second, u)
    decreases |first|
  {
    if first == [] {
      assert first + second == second;
    } else {
      ReachesJoin(Apply(s, first[0]), first[1..], t, second, u);
      assert (first + second)[1..] == first[1..] + second;
    }
  }

  /** A closed breaker can be made to trip by as many new calls as its threshold still
      needs, and admits a trial after the cooldown. */
  lemma {:induction false} ClosedLetsTrialIn(s: System, i: nat) returns (events: seq<Event>, t: System)
    requires Inv(s) && OutstandingTrial(s, i) && s.breaker.state == Closed
    ensures SecondTrial(s, i, events, t)
    decreases s.breaker.threshold - s.breaker.failures
  {
    var first, u := FailsOnce(s, i);
    var second;
    if u.breaker.state == Closed {
      second, t := ClosedLetsTrialIn(u, i);
    } else {
      second, t := FreeLetsTrialIn(u, i);
    }
    ReachesJoin(s, first, u, second, t);
    events := first + second;
  }

  /** While a trial is out, a second one can be admitted exactly when some other call is
      out too, such as one admitted before the breaker tripped, or when the breaker is not
      half-open with its trial active, because another call has ended since. */
  lemma SecondTrialIff(s: System, i: nat)
    requires Inv(s) && OutstandingTrial(s, i)
    ensures (exists events, t :: SecondTrial(s, i, events, t))
       <==> (exists j: nat :: Outstanding(s, j) && j != i) || !(s.breaker.state == HalfOpen && s.breaker.trialActive)
  {
    if s.breaker.state == Closed {
      var events, t := ClosedLetsTrialIn(s, i);
    } else if !(s.breaker.state == HalfOpen && s.breaker.trialActive) {
      var events, t := FreeLetsTrialIn(s, i);
    } else if j: nat :| Outstanding(s, j) && j != i {
      var events, t := OtherCallLetsTrialIn(s, i, j);
    } else if events, t :| SecondTrial(s, i, events, t) {
      NoSecondTrial(s, i, events, t);
    }
  }

  // ----- At most one trial when slow calls are over before it starts -----

  /** Every trial of the run is admitted when no call admitted while closed is still out. */
  ghost predicate Drained(s: System, events: seq<Event>)
    decreases |events|
  {
    events == [] || !Enabled(s, events[0]) ||
    (&& (events[0].Begin? && BeforeCall(s.breaker, events[0].now).trial ==>
           forall j: nat | Outstanding(s, j) :: s.calls[j].trial)
     && Drained(Apply(s, events[0]), events[1..]))
  }

  ghost predicate OneTrialInv(s: System) {
    && (forall i: nat | OutstandingTrial(s, i) :: s.breaker.state == HalfOpen && s.breaker.trialActive)
    && (forall i: nat, j: nat | OutstandingTrial(s, i) && Outstanding(s, j) :: i == j)
  }

  lemma OneTrialKept(s: System, e: Event)
    requires Inv(s) && OneTrialInv(s) && Enabled(s, e)
    requires e.Begin? && BeforeCall(s.breaker, e.now).trial ==> forall j: nat | Outstanding(s, j) :: s.calls[j].trial
    ensures OneTrialInv(Apply(s, e))
  {
    var t := Apply(s, e);
    if e.Begin? {
      forall j: nat | Outstanding(t, j) && j < |s.calls|
        ensures Outstanding(s, j) && (OutstandingTrial(t, j) <==> OutstandingTrial(s, j))
      {
      }
      assert BeforeCall(s.breaker, e.now).trial ==> forall j: nat | Outstanding(s, j) :: OutstandingTrial(s, j);
    } else {
      assert Outstanding(s, e.i);
      forall j: nat | Outstanding(t, j)
        ensures !t.calls[j].trial
      {
        assert !OutstandingTrial(s, j);
      }
    }
  }

  lemma {:induction false} AtMostOneTrial(s: System, events: seq<Event>, t: System)
    requires Inv(s) && OneTrialInv(s) && Reaches(s, events, t) && Drained(s, events)
    ensures forall i: nat, j: nat | OutstandingTrial(t, i) && OutstandingTrial(t, j) :: i == j
    decreases |events|
  {
    if events != [] {
      InvKept(s, events[0]);
      OneTrialKept(s, events[0]);
      AtMostOneTrial(Apply(s, events[0]), events[1..], t);
    }
  }

  /** Two trials do get out at once: a slow call from before the trip fails while the
      first trial is out. */
  lemma TwoTrialsHappen() returns (events: seq<Event>, t: System)
    ensures Reaches(Start(1, 1.0, 0.0), events, t) && OutstandingTrial(t, 2) && OutstandingTrial(t, 3)
  {
    var s := Start(1, 1.0, 0.0);
    var e0, e1, e2, e3, e4, e5 :=
      Begin(0.0), Begin(0.0), End(0, Failure, 0.0), Begin(1.0), End(1, Failure, 1.0), Begin(2.0);
    var s1 := Apply(s, e0);
    var s2 := Apply(s1, e1);
    var s3 := Apply(s2, e2);
    var s4 := Apply(s3, e3);
    var s5 := Apply(s4, e4);
    t := Apply(s5, e5);
    events := [e0, e1, e2, e3, e4, e5];
    assert events[1..] == [e1, e2, e3, e4, e5] && events[1..][1..] == [e2, e3, e4, e5];
    assert [e2, e3, e4, e5][1..] == [e3, e4, e5] && [e3, e4, e5][1..] == [e4, e5] && [e4, e5][1..] == [e5];
    assert Reaches(s5, [e5], t) by {
      assert [e5][1..] == [];
    }
    assert Reaches(s4, [e4, e5], t);
    assert Reaches(s3, [e3, e4, e5], t);
    assert Reaches(s2, [e2, e3, e4, e5], t);
  }
}
