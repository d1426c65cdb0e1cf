/** The kickoff protocol as a state machine: any number of requests, each with its
    own program counter, interleave over the shared ledger, session table and
    semaphores.  One step is one lock-protected block of the handler or of the
    detached run; requests are never forgotten, so what a state says about all of
    its requests it says about the whole life of the server. */
module KickoffProtocol {
  import opened Options
  import opened KickoffLedger

  datatype Response =
    | Replayed(sessionID: string, status: string)
    | Duplicate(sessionID: string)
    | SessionBusy
    | Rejected
    | NotPersisted
    | ServerBusy

  datatype Pc =
    | AtCheck
    | AtReserve
    | AtGate
    | AtBuild
    | AtPersist
    | AtFinalize
    | AtReadSem
    | AtSend(sem: nat)
    | AtRelease(reason: Response)
    | Responded(response: Response)
    | Live(sem: nat)                     // the crew runs in its goroutine
    | AtFinish(sem: nat, status: string) // terminal status persisted
    | AtReleaseSem(sem: nat)
    | Settled

  datatype Request = Request(key: string, owner: string, sid: string, pc: Pc)

  datatype Semaphore = Semaphore(capacity: nat, tokens: nat)

  /** `sems` lists every channel ever made, `current` is the one the global names. */
  datatype State = State(
    ledger: Ledger,
    sessions: map<string, Session>,
    sems: seq<Semaphore>,
    current: nat,
    reqs: seq<Request>)

  datatype Step =
    | Arrive(key: string, owner: string, sid: string)
    | Check(i: nat)
    | ReserveStep(i: nat)
    | Gate(i: nat)
    | Build(i: nat, ok: bool)
    | Persist(i: nat, saved: bool)
    | FinalizeStep(i: nat)
    | ReadSem(i: nat)
    | Send(i: nat)
    | ReleaseStep(i: nat)
    | End(i: nat, failed: bool)
    | FinishStep(i: nat)
    | ReleaseSem(i: nat)
    | MakeSem(capacity: nat)
    | UseSem(c: nat)

  function Init(): State {
    State(EMPTY_LEDGER, map[], [Semaphore(10, 0)], 0, [])
  }

  predicate Enabled(s: State, step: Step) {
    match step
    case Arrive(_, _, _) => true
    case Check(i) => i < |s.reqs| && s.reqs[i].pc == AtCheck
    case ReserveStep(i) => i < |s.reqs| && s.reqs[i].pc == AtReserve
    case Gate(i) => i < |s.reqs| && s.reqs[i].pc == AtGate
    case Build(i, _) => i < |s.reqs| && s.reqs[i].pc == AtBuild
    case Persist(i, _) => i < |s.reqs| && s.reqs[i].pc == AtPersist
    case FinalizeStep(i) => i < |s.reqs| && s.reqs[i].pc == AtFinalize
    case ReadSem(i) => i < |s.reqs| && s.reqs[i].pc == AtReadSem
    case Send(i) => i < |s.reqs| && s.reqs[i].pc.AtSend? && s.reqs[i].pc.sem < |s.sems|
    case ReleaseStep(i) => i < |s.reqs| && s.reqs[i].pc.AtRelease?
    case End(i, _) => i < |s.reqs| && s.reqs[i].pc.Live?
    case FinishStep(i) => i < |s.reqs| && s.reqs[i].pc.AtFinish?
    case ReleaseSem(i) =>
      // a receive from an empty channel would block
      i < |s.reqs| && s.reqs[i].pc.AtReleaseSem? && s.reqs[i].pc.sem < |s.sems| && 0 < s.sems[s.reqs[i].pc.sem].tokens
    case MakeSem(_) => true
    case UseSem(c) => c < |s.sems|
  }

  function Goto(s: State, i: nat, pc: Pc): State
    requires i < |s.reqs|
  {
    s.(reqs := s.reqs[i := s.reqs[i].(pc := pc)])
  }

  function Take(sems: seq<Semaphore>, c: nat): seq<Semaphore>
    requires c < |sems|
  {
    sems[c := sems[c].(tokens := sems[c].tokens + 1)]
  }

  function GiveBack(sems: seq<Semaphore>, c: nat): seq<Semaphore>
    requires c < |sems| && 0 < sems[c].tokens
  {
    sems[c := sems[c].(tokens := sems[c].tokens - 1)]
  }

  function AfterCheck(l: Ledger, r: Request): Pc {
    match Lookup(l, r.key, r.owner)
    case None => AtReserve
    case Some(e) => Responded(if e.done then Replayed(e.sessionID, e.status) else Duplicate(e.sessionID))
  }

  function Apply(s: State, step: Step): State
    requires Enabled(s, step)
  {
    match step
    case Arrive(key, owner, sid) =>
      s.(reqs := s.reqs + [Request(key, owner, sid, if key == "" then AtGate else AtCheck)])
    case Check(i) => Goto(s, i, AfterCheck(s.ledger, s.reqs[i]))
    case ReserveStep(i) =>
      var r := s.reqs[i];
      var result := DoIdem(s.ledger, Reserve, r.key, r.owner, r.sid, "");
      Goto(s.(ledger := result.ledger), i,
           if result.applied then AtGate else Responded(Duplicate(result.existingSession)))
    case Gate(i) => Goto(s, i, if IsRunning(s.sessions, s.reqs[i].sid) then AtRelease(SessionBusy) else AtBuild)
    case Build(i, ok) => Goto(s, i, if ok then AtPersist else AtRelease(Rejected))
    case Persist(i, saved) =>
      var r := s.reqs[i];
      var result := StartSession(s.sessions, r.sid, r.owner, saved);
      Goto(s.(sessions := result.sessions), i,
           if result.outcome != Started then AtRelease(NotPersisted) else if r.key == "" then AtReadSem else AtFinalize)
    case FinalizeStep(i) =>
      var r := s.reqs[i];
      Goto(s.(ledger := DoIdem(s.ledger, Finalize, r.key, "", r.sid, "").ledger), i, AtReadSem)
    case ReadSem(i) => Goto(s, i, AtSend(s.current))
    case Send(i) =>
      var c := s.reqs[i].pc.sem;
      if s.sems[c].tokens < s.sems[c].capacity then Goto(s.(sems := Take(s.sems, c)), i, Live(c))
      else Goto(s, i, AtRelease(ServerBusy))
    case ReleaseStep(i) =>
      var r := s.reqs[i];
      Goto(s.(ledger := DoIdem(s.ledger, Release, r.key, "", "", "").ledger), i, Responded(r.pc.reason))
    case End(i, failed) =>
      var status := if failed then FAILED else COMPLETED;
      Goto(s.(sessions := EndSession(s.sessions, s.reqs[i].sid, status)), i, AtFinish(s.reqs[i].pc.sem, status))
    case FinishStep(i) =>
      var r := s.reqs[i];
      Goto(s.(ledger := DoIdem(s.ledger, Finish, "", "", r.sid, r.pc.status).ledger), i, AtReleaseSem(r.pc.sem))
    case ReleaseSem(i) => Goto(s.(sems := GiveBack(s.sems, s.reqs[i].pc.sem)), i, Settled)
    case MakeSem(capacity) => s.(sems := s.sems + [Semaphore(capacity, 0)])
    case UseSem(c) => s.(current := c)
  }

  /** `steps` leads from `s` to `t`. */
  ghost predicate Reaches(s: State, steps: seq<Step>, t: State)
    decreases |steps|
  {
    if steps == [] then s == t
    else Enabled(s, steps[0]) && Reaches(Apply(s, steps[0]), steps[1..], t)
  }

  // ----- What a request owns -----

  /** Launched: its crew was started, now or earlier. */
  predicate Launched(r: Request) {
    r.pc.Live? || r.pc.AtFinish? || r.pc.AtReleaseSem? || r.pc.Settled?
  }

  /** It won the reservation of its key and has not given it up. */
  predicate HoldsKey(r: Request) {
    r.key != "" &&
    (r.pc.AtGate? || r.pc.AtBuild? || r.pc.AtPersist? || r.pc.AtFinalize? || r.pc.AtReadSem? || r.pc.AtSend? ||
     r.pc.AtRelease? || Launched(r))
  }

  predicate TurnedAwayBusy(r: Request) {
    r.pc == AtRelease(ServerBusy) || r.pc == Responded(ServerBusy)
  }

  /** It put its session id into the running status and nothing has ended that. */
  predicate Occupies(r: Request) {
    r.pc.AtFinalize? || r.pc.AtReadSem? || r.pc.AtSend? || r.pc.Live? || TurnedAwayBusy(r)
  }

  /** The channel it took a slot from and has not yet given back to. */
  function SlotOf(r: Request): Option<nat> {
    if r.pc.Live? || r.pc.AtFinish? || r.pc.AtReleaseSem? then Some(r.pc.sem) else None
  }

  predicate HoldsSlot(r: Request, c: nat) {
    SlotOf(r) == Some(c)
  }

  function Slots(reqs: seq<Request>, c: nat): nat {
    if reqs == [] then 0 else Slots(reqs[..|reqs| - 1], c) + (if HoldsSlot(reqs[|reqs| - 1], c) then 1 else 0)
  }

  // ----- The invariant, in four independent parts -----

  /** The ledger's entry under the key of `r` carries the session id and owner of `r`. */
  predicate RecordedFor(l: Ledger, r: Request) {
    r.key in l.keys && l.keys[r.key].sessionID == r.sid && l.keys[r.key].owner == r.owner
  }

  ghost predicate KeysInv(s: State) {
    && (forall i | 0 <= i < |s.reqs| && HoldsKey(s.reqs[i]) ::
          RecordedFor(s.ledger, s.reqs[i]))
    && (forall i, j | 0 <= i < j < |s.reqs| && HoldsKey(s.reqs[i]) && HoldsKey(s.reqs[j]) ::
          s.reqs[i].key != s.reqs[j].key)
    && (forall i | 0 <= i < |s.reqs| ::
          s.reqs[i].pc.AtCheck? || s.reqs[i].pc.AtReserve? || s.reqs[i].pc.AtFinalize? ==> s.reqs[i].key != "")
  }

  ghost predicate ReverseInv(s: State) {
    forall sid | sid in s.ledger.bySession :: OpenEntry(s.ledger, sid)
  }

  /** The reverse mapping of `sid` names an existing, unfinished entry for `sid`. */
  predicate OpenEntry(l: Ledger, sid: string)
    requires sid in l.bySession
  {
    var key := l.bySession[sid];
    key in l.keys && !l.keys[key].done && l.keys[key].sessionID == sid
  }

  ghost predicate SessionsInv(s: State) {
    && (forall i | 0 <= i < |s.reqs| && Occupies(s.reqs[i]) :: IsRunning(s.sessions, s.reqs[i].sid))
    && (forall i, j | 0 <= i < j < |s.reqs| && Occupies(s.reqs[i]) && Occupies(s.reqs[j]) ::
          s.reqs[i].sid != s.reqs[j].sid)
    && (forall sid | IsRunning(s.sessions, sid) ::
          exists i :: 0 <= i < |s.reqs| && Occupies(s.reqs[i]) && s.reqs[i].sid == sid)
  }

  ghost predicate SemsInv(s: State) {
    && s.current < |s.sems|
    && (forall c | 0 <= c < |s.sems| :: s.sems[c].tokens == Slots(s.reqs, c) && s.sems[c].tokens <= s.sems[c].capacity)
    && (forall i | 0 <= i < |s.reqs| && s.reqs[i].pc.AtSend? :: s.reqs[i].pc.sem < |s.sems|)
    && (forall i, c: nat | 0 <= i < |s.reqs| && HoldsSlot(s.reqs[i], c) :: c < |s.sems|)
  }

  ghost predicate Inv(s: State) {
    KeysInv(s) && ReverseInv(s) && SessionsInv(s) && SemsInv(s)
  }

  // ----- Every step keeps the invariant -----

  /** `t` differs from `s`, as far as requests go, in the program counter of `i`. */
  ghost predicate Moved(s: State, t: State, i: nat) {
    i < |s.reqs| == |t.reqs| && t.reqs == s.reqs[i := s.reqs[i].(pc := t.reqs[i].pc)]
  }

  /** Entry `k` names the same session and owner in both ledgers. */
  predicate SameEntry(l: Ledger, m: Ledger, k: string)
    requires k in l.keys
  {
    k in m.keys && m.keys[k].sessionID == l.keys[k].sessionID && m.keys[k].owner == l.keys[k].owner
  }

  lemma KeysMove(s: State, t: State, i: nat)
    requires KeysInv(s) && Moved(s, t, i)
    requires forall k | k in s.ledger.keys && k != s.reqs[i].key :: SameEntry(s.ledger, t.ledger, k)
    requires HoldsKey(t.reqs[i]) ==> RecordedFor(t.ledger, t.reqs[i])
    requires HoldsKey(t.reqs[i]) && !HoldsKey(s.reqs[i]) ==> s.reqs[i].key !in s.ledger.keys
    requires !HoldsKey(s.reqs[i]) && s.reqs[i].key in s.ledger.keys ==> SameEntry(s.ledger, t.ledger, s.reqs[i].key)
    requires t.reqs[i].pc.AtCheck? || t.reqs[i].pc.AtReserve? || t.reqs[i].pc.AtFinalize? ==> t.reqs[i].key != ""
    ensures KeysInv(t)
  {
    forall j | 0 <= j < |t.reqs| && HoldsKey(t.reqs[j])
      ensures RecordedFor(t.ledger, t.reqs[j])
    {
      if j != i {
        assert RecordedFor(s.ledger, s.reqs[j]);
        assert HoldsKey(s.reqs[i]) ==> s.reqs[j].key != s.reqs[i].key;
        assert SameEntry(s.ledger, t.ledger, s.reqs[j].key);
      }
    }
  }

  predicate OfRequest(step: Step) {
    !step.Arrive? && !step.MakeSem? && !step.UseSem?
  }

  predicate OnLedger(step: Step) {
    step.ReserveStep? || step.FinalizeStep? || step.ReleaseStep? || step.FinishStep?
  }

  /** A step that does not call doIdem leaves the ledger alone, and the request that
      moves holds its key after the step as before. */
  lemma QuietForLedger(s: State, step: Step)
    requires Enabled(s, step) && OfRequest(step) && !OnLedger(step)
    ensures var t := Apply(s, step);
            && Moved(s, t, step.i) && t.ledger == s.ledger && HoldsKey(t.reqs[step.i]) == HoldsKey(s.reqs[step.i])
            && (t.reqs[step.i].pc.AtReserve? ==> s.reqs[step.i].pc.AtCheck?)
            && (t.reqs[step.i].pc.AtFinalize? ==> s.reqs[step.i].key != "")
            && !t.reqs[step.i].pc.AtCheck?
  {
  }

  lemma KeysReserve(s: State, i: nat)
    requires KeysInv(s) && Enabled(s, ReserveStep(i))
    ensures KeysInv(Apply(s, ReserveStep(i)))
  {
    KeysMove(s, Apply(s, ReserveStep(i)), i);
  }

  lemma KeysFinalize(s: State, i: nat)
    requires KeysInv(s) && Enabled(s, FinalizeStep(i))
    ensures KeysInv(Apply(s, FinalizeStep(i)))
  {
    assert HoldsKey(s.reqs[i]) ==> RecordedFor(s.ledger, s.reqs[i]);
    KeysMove(s, Apply(s, FinalizeStep(i)), i);
  }

  lemma KeysRelease(s: State, i: nat)
    requires KeysInv(s) && Enabled(s, ReleaseStep(i))
    ensures KeysInv(Apply(s, ReleaseStep(i)))
  {
    assert HoldsKey(s.reqs[i]) ==> RecordedFor(s.ledger, s.reqs[i]);
    KeysMove(s, Apply(s, ReleaseStep(i)), i);
  }

  lemma KeysFinish(s: State, i: nat)
    requires KeysInv(s) && Enabled(s, FinishStep(i))
    ensures KeysInv(Apply(s, FinishStep(i)))
  {
    var t := Apply(s, FinishStep(i));
    assert HoldsKey(s.reqs[i]) ==> RecordedFor(s.ledger, s.reqs[i]);
    assert forall k | k in s.ledger.keys :: SameEntry(s.ledger, t.ledger, k);
    KeysMove(s, t, i);
  }

  lemma KeysOnLedger(s: State, step: Step)
    requires KeysInv(s) && Enabled(s, step) && OnLedger(step)
    ensures KeysInv(Apply(s, step))
  {
    match step
    case ReserveStep(i) => KeysReserve(s, i);
    case FinalizeStep(i) => KeysFinalize(s, i);
    case ReleaseStep(i) => KeysRelease(s, i);
    case FinishStep(i) => KeysFinish(s, i);
  }

  lemma KeysArrive(s: State, r: Request)
    requires KeysInv(s) && (if r.key == "" then r.pc == AtGate else r.pc == AtCheck)
    ensures KeysInv(s.(reqs := s.reqs + [r]))
  {
  }

  lemma KeysQuiet(s: State, step: Step)
    requires KeysInv(s) && Enabled(s, step) && OfRequest(step) && !OnLedger(step)
    ensures KeysInv(Apply(s, step))
  {
    QuietForLedger(s, step);
    KeysMove(s, Apply(s, step), step.i);
  }

  lemma KeysKept(s: State, step: Step)
    requires KeysInv(s) && Enabled(s, step)
    ensures KeysInv(Apply(s, step))
  {
    if OnLedger(step) {
      KeysOnLedger(s, step);
    } else if OfRequest(step) {
      KeysQuiet(s, step);
    } else if step.Arrive? {
      KeysArrive(s, Apply(s, step).reqs[|s.reqs|]);
    }
  }

  lemma ReverseKept(s: State, step: Step)
    requires KeysInv(s) && ReverseInv(s) && Enabled(s, step)
    ensures ReverseInv(Apply(s, step))
  {
    var t := Apply(s, step);
    forall sid | sid in t.ledger.bySession
      ensures OpenEntry(t.ledger, sid)
    {
      if sid in s.ledger.bySession {
        assert OpenEntry(s.ledger, sid);
      }
    }
  }

  lemma SessionsMove(s: State, t: State, i: nat)
    requires SessionsInv(s) && Moved(s, t, i)
    requires forall sid | sid != s.reqs[i].sid :: IsRunning(t.sessions, sid) == IsRunning(s.sessions, sid)
    requires Occupies(t.reqs[i]) == Occupies(s.reqs[i]) ==>
               IsRunning(t.sessions, s.reqs[i].sid) == IsRunning(s.sessions, s.reqs[i].sid)
    requires Occupies(t.reqs[i]) && !Occupies(s.reqs[i]) ==>
               !IsRunning(s.sessions, s.reqs[i].sid) && IsRunning(t.sessions, s.reqs[i].sid)
    requires !Occupies(t.reqs[i]) && Occupies(s.reqs[i]) ==> !IsRunning(t.sessions, s.reqs[i].sid)
    ensures SessionsInv(t)
  {
    forall j | 0 <= j < |t.reqs| && Occupies(t.reqs[j])
      ensures IsRunning(t.sessions, t.reqs[j].sid)
      ensures j != i && Occupies(t.reqs[i]) ==> t.reqs[j].sid != t.reqs[i].sid
    {
      assert j != i ==> IsRunning(s.sessions, s.reqs[j].sid);
      assert j < i ==> Occupies(s.reqs[i]) ==> s.reqs[j].sid != s.reqs[i].sid;
      assert i < j ==> Occupies(s.reqs[i]) ==> s.reqs[j].sid != s.reqs[i].sid;
    }
    forall sid | IsRunning(t.sessions, sid)
      ensures exists j :: 0 <= j < |t.reqs| && Occupies(t.reqs[j]) && t.reqs[j].sid == sid
    {
      if sid == s.reqs[i].sid && Occupies(t.reqs[i]) {
        assert t.reqs[i].sid == sid;
      } else {
        assert IsRunning(s.sessions, sid);
        var j :| 0 <= j < |s.reqs| && Occupies(s.reqs[j]) && s.reqs[j].sid == sid;
        assert j != i && Occupies(t.reqs[j]) && t.reqs[j].sid == sid;
      }
    }
  }

  lemma SessionsArrive(s: State, r: Request)
    requires SessionsInv(s) && !Occupies(r)
    ensures SessionsInv(s.(reqs := s.reqs + [r]))
  {
    var t := s.(reqs := s.reqs + [r]);
    forall sid | IsRunning(t.sessions, sid)
      ensures exists j :: 0 <= j < |t.reqs| && Occupies(t.reqs[j]) && t.reqs[j].sid == sid
    {
      var j :| 0 <= j < |s.reqs| && Occupies(s.reqs[j]) && s.reqs[j].sid == sid;
      assert t.reqs[j].sid == sid;
    }
  }

  lemma SessionsPersist(s: State, i: nat, saved: bool)
    requires SessionsInv(s) && Enabled(s, Persist(i, saved))
    ensures SessionsInv(Apply(s, Persist(i, saved)))
  {
    var t := Apply(s, Persist(i, saved));
    SessionsMove(s, t, i);
  }

  lemma SessionsEnd(s: State, i: nat, failed: bool)
    requires SessionsInv(s) && Enabled(s, End(i, failed))
    ensures SessionsInv(Apply(s, End(i, failed)))
  {
    var t := Apply(s, End(i, failed));
    SessionsMove(s, t, i);
  }

  /** Apart from Persist and End, a step leaves the session table alone, and the
      request that moves occupies its session id after the step as before. */
  lemma QuietForSessions(s: State, step: Step)
    requires Enabled(s, step) && OfRequest(step) && !step.Persist? && !step.End?
    ensures var t := Apply(s, step);
            Moved(s, t, step.i) && t.sessions == s.sessions && Occupies(t.reqs[step.i]) == Occupies(s.reqs[step.i])
  {
  }

  lemma SessionsKept(s: State, step: Step)
    requires SessionsInv(s) && Enabled(s, step)
    ensures SessionsInv(Apply(s, step))
  {
    if step.Arrive? {
      SessionsArrive(s, Apply(s, step).reqs[|s.reqs|]);
    } else if step.Persist? {
      SessionsPersist(s, step.i, step.saved);
    } else if step.End? {
      SessionsEnd(s, step.i, step.failed);
    } else if OfRequest(step) {
      QuietForSessions(s, step);
      SessionsMove(s, Apply(s, step), step.i);
    }
  }

  lemma {:induction false} SlotsMove(reqs: seq<Request>, i: nat, pc: Pc, c: nat)
    requires i < |reqs|
    ensures Slots(reqs[i := reqs[i].(pc := pc)], c) - Slots(reqs, c)
         == (if HoldsSlot(reqs[i].(pc := pc), c) then 1 else 0) - (if HoldsSlot(reqs[i], c) then 1 else 0)
  {
    var n := |reqs| - 1;
    var moved := reqs[i := reqs[i].(pc := pc)];
    if i == n {
      assert moved[..n] == reqs[..n];
    } else {
      SlotsMove(reqs[..n], i, pc, c);
      assert moved[..n] == reqs[..n][i := reqs[i].(pc := pc)];
    }
  }

  lemma {:induction false} NoSlots(reqs: seq<Request>, c: nat)
    requires forall i | 0 <= i < |reqs| :: !HoldsSlot(reqs[i], c)
    ensures Slots(reqs, c) == 0
  {
    if reqs != [] {
      NoSlots(reqs[..|reqs| - 1], c);
    }
  }

  /** The request that moves gives back what it held and takes what it holds next. */
  lemma SemsMove(s: State, t: State, i: nat)
    requires SemsInv(s) && Moved(s, t, i) && t.current < |t.sems| == |s.sems|
    requires t.reqs[i].pc.AtSend? ==> t.reqs[i].pc.sem < |t.sems|
    requires forall c: nat | HoldsSlot(t.reqs[i], c) :: c < |t.sems|
    requires forall c: nat | c < |t.sems| ::
               && t.sems[c].tokens <= t.sems[c].capacity
               && t.sems[c].tokens - s.sems[c].tokens
                  == (if HoldsSlot(t.reqs[i], c) then 1 else 0) - (if HoldsSlot(s.reqs[i], c) then 1 else 0)
    ensures SemsInv(t)
  {
    forall c: nat | c < |t.sems|
      ensures t.sems[c].tokens == Slots(t.reqs, c) && t.sems[c].tokens <= t.sems[c].capacity
    {
      SlotsMove(s.reqs, i, t.reqs[i].pc, c);
    }
  }

  /** Apart from Send and ReleaseSem, a step leaves the semaphores alone, and the
      request that moves keeps its slot. */
  lemma QuietForSems(s: State, step: Step)
    requires Enabled(s, step) && OfRequest(step) && !step.Send? && !step.ReleaseSem? && s.current < |s.sems|
    ensures var t := Apply(s, step);
            && Moved(s, t, step.i) && t.sems == s.sems && t.current == s.current
            && SlotOf(t.reqs[step.i]) == SlotOf(s.reqs[step.i])
            && (t.reqs[step.i].pc.AtSend? ==> t.reqs[step.i].pc.sem < |s.sems|)
  {
  }

  lemma SemsQuiet(s: State, step: Step)
    requires SemsInv(s) && Enabled(s, step) && OfRequest(step) && !step.Send? && !step.ReleaseSem?
    ensures SemsInv(Apply(s, step))
  {
    QuietForSems(s, step);
    var t := Apply(s, step);
    assert forall c: nat | HoldsSlot(t.reqs[step.i], c) :: HoldsSlot(s.reqs[step.i], c);
    SemsMove(s, t, step.i);
  }

  lemma SemsKept(s: State, step: Step)
    requires SemsInv(s) && Enabled(s, step)
    ensures SemsInv(Apply(s, step))
  {
    var t := Apply(s, step);
    if step.Arrive? {
      assert t.reqs[..|s.reqs|] == s.reqs;
    } else if step.MakeSem? {
      NoSlots(s.reqs, |s.sems|);
    } else if step.Send? || step.ReleaseSem? {
      SemsMove(s, t, step.i);
    } else if OfRequest(step) {
      SemsQuiet(s, step);
    }
  }

  lemma InvKept(s: State, step: Step)
    requires Inv(s) && Enabled(s, step)
    ensures Inv(Apply(s, step))
  {
    KeysKept(s, step);
    ReverseKept(s, step);
    SessionsKept(s, step);
    SemsKept(s, step);
  }

  lemma {:induction false} InvHolds(s: State, steps: seq<Step>, t: State)
    requires Inv(s) && Reaches(s, steps, t)
    ensures Inv(t)
    decreases |steps|
  {
    if steps != [] {
      InvKept(s, steps[0]);
      InvHolds(Apply(s, steps[0]), steps[1..], t);
    }
  }

  // ----- At most one run per Idempotency-Key -----

  datatype Tag = ByKey(key: string) | BySid(sid: string)

  predicate Carries(r: Request, tag: Tag) {
    match tag
    case ByKey(key) => r.key == key
    case BySid(sid) => r.sid == sid
  }

  /** This step starts a crew for a request that carries `tag`. */
  predicate Starts(s: State, step: Step, tag: Tag)
    requires Enabled(s, step)
  {
    step.Send? && Carries(s.reqs[step.i], tag) && Apply(s, step).reqs[step.i].pc.Live?
  }

  /** How many crews the steps start for requests that carry `tag`. */
  ghost function Launches(s: State, steps: seq<Step>, tag: Tag): nat
    decreases |steps|
  {
    if steps == [] || !Enabled(s, steps[0]) then 0
    else (if Starts(s, steps[0], tag) then 1 else 0) + Launches(Apply(s, steps[0]), steps[1..], tag)
  }

  lemma RequestsStay(s: State, step: Step, j: nat)
    requires Enabled(s, step) && j < |s.reqs|
    ensures var t := Apply(s, step);
            && j < |t.reqs| && t.reqs[j] == s.reqs[j].(pc := t.reqs[j].pc)
            && (Launched(s.reqs[j]) ==> Launched(t.reqs[j]))
            && (TurnedAwayBusy(s.reqs[j]) ==> TurnedAwayBusy(t.reqs[j]))
            && (s.reqs[j].pc.Settled? ==> t.reqs[j].pc.Settled?)
  {
  }

  lemma {:induction false} NoSecondLaunch(s: State, steps: seq<Step>, key: string, j: nat)
    requires Inv(s) && key != "" && j < |s.reqs| && s.reqs[j].key == key && Launched(s.reqs[j])
    ensures Launches(s, steps, ByKey(key)) == 0
    decreases |steps|
  {
    if steps != [] && Enabled(s, steps[0]) {
      var step := steps[0];
      RequestsStay(s, step, j);
      InvKept(s, step);
      NoSecondLaunch(Apply(s, step), steps[1..], key, j);
      assert HoldsKey(s.reqs[j]);
      assert !Starts(s, step, ByKey(key));
    }
  }

  /** Whatever the requests and their interleaving, a non-empty Idempotency-Key
      starts at most one crew for the life of the server. */
  lemma {:induction false} OneLaunchPerKey(s: State, steps: seq<Step>, key: string)
    requires Inv(s) && key != ""
    ensures Launches(s, steps, ByKey(key)) <= 1
    decreases |steps|
  {
    if steps != [] && Enabled(s, steps[0]) {
      var step := steps[0];
      InvKept(s, step);
      if Starts(s, step, ByKey(key)) {
        NoSecondLaunch(Apply(s, step), steps[1..], key, step.i);
      } else {
        OneLaunchPerKey(Apply(s, step), steps[1..], key);
      }
    }
  }

  lemma InvInit()
    ensures Inv(Init())
  {
  }

  lemma KeyLaunchesOnce(steps: seq<Step>, key: string)
    requires key != ""
    ensures Launches(Init(), steps, ByKey(key)) <= 1
  {
    InvInit();
    OneLaunchPerKey(Init(), steps, key);
  }

  // ----- Sessions and semaphores in every reachable state -----

  /** A session id has at most one live run, and it is recorded as running exactly
      when some request occupies it, which then is the only one. */
  lemma OneLiveRunPerSession(steps: seq<Step>, t: State)
    requires Reaches(Init(), steps, t)
    ensures forall i, j | 0 <= i < j < |t.reqs| && t.reqs[i].pc.Live? && t.reqs[j].pc.Live? ::
              t.reqs[i].sid != t.reqs[j].sid
    ensures forall i | 0 <= i < |t.reqs| && t.reqs[i].pc.Live? :: IsRunning(t.sessions, t.reqs[i].sid)
    ensures forall sid :: IsRunning(t.sessions, sid) <==>
              exists i :: 0 <= i < |t.reqs| && Occupies(t.reqs[i]) && t.reqs[i].sid == sid
  {
    InvInit();
    InvHolds(Init(), steps, t);
  }

  /** The tokens in a channel are the runs that took a slot from that very channel
      and have not given it back, whatever the global named meanwhile; they fit, and
      a run that is about to give its slot back can. */
  lemma SlotsAreHeldByRuns(steps: seq<Step>, t: State)
    requires Reaches(Init(), steps, t)
    ensures forall c | 0 <= c < |t.sems| :: t.sems[c].tokens == Slots(t.reqs, c) <= t.sems[c].capacity
    ensures forall i | 0 <= i < |t.reqs| && t.reqs[i].pc.AtReleaseSem? :: Enabled(t, ReleaseSem(i))
  {
    InvInit();
    InvHolds(Init(), steps, t);
    forall i | 0 <= i < |t.reqs| && t.reqs[i].pc.AtReleaseSem?
      ensures Enabled(t, ReleaseSem(i))
    {
      assert HoldsSlot(t.reqs[i], t.reqs[i].pc.sem);
      SomeSlot(t.reqs, i, t.reqs[i].pc.sem);
    }
  }

  lemma {:induction false} SomeSlot(reqs: seq<Request>, i: nat, c: nat)
    requires i < |reqs| && HoldsSlot(reqs[i], c)
    ensures 0 < Slots(reqs, c)
  {
    if i < |reqs| - 1 {
      SomeSlot(reqs[..|reqs| - 1], i, c);
    }
  }

  lemma ReverseMapIsOpen(steps: seq<Step>, t: State)
    requires Reaches(Init(), steps, t)
    ensures forall sid | sid in t.ledger.bySession :: OpenEntry(t.ledger, sid)
  {
    InvInit();
    InvHolds(Init(), steps, t);
  }

  /** A request turned away because every slot was taken leaves its session id
      running: no later run of the server ever ends that status or starts a crew for
      that session id. */
  lemma {:induction false} BusySessionIsStuck(s: State, steps: seq<Step>, t: State, i: nat)
    requires Inv(s) && Reaches(s, steps, t) && i < |s.reqs| && TurnedAwayBusy(s.reqs[i])
    ensures IsRunning(t.sessions, s.reqs[i].sid)
    ensures Launches(s, steps, BySid(s.reqs[i].sid)) == 0
    decreases |steps|
  {
    if steps != [] {
      var step := steps[0];
      var next := Apply(s, step);
      RequestsStay(s, step, i);
      InvKept(s, step);
      BusySessionIsStuck(next, steps[1..], t, i);
      assert Occupies(s.reqs[i]);
      assert !Starts(s, step, BySid(s.reqs[i].sid));
    }
  }

  // ----- Completion and replay -----

  /** Nobody but requests with the key of request `i`, its retries, names its session id. */
  ghost predicate OwnsSession(reqs: seq<Request>, i: nat) {
    && i < |reqs| && reqs[i].key != ""
    && forall j | 0 <= j < |reqs| && reqs[j].sid == reqs[i].sid :: reqs[j].key == reqs[i].key
  }

  predicate EndedWith(s: State, r: Request, status: string) {
    Terminal(status) && r.sid in s.sessions && s.sessions[r.sid].status == status
  }

  /** The ledger agrees with how far the request that holds the key has come. */
  predicate Tracked(s: State, r: Request) {
    && (r.pc.AtFinish? ==> EndedWith(s, r, r.pc.status))
    && (HoldsKey(r) ==>
          r.key in s.ledger.keys &&
          if r.pc.AtReleaseSem? || r.pc.Settled? then
            s.ledger.keys[r.key].done && EndedWith(s, r, s.ledger.keys[r.key].status)
          else
            !s.ledger.keys[r.key].done && r.sid in s.ledger.bySession && s.ledger.bySession[r.sid] == r.key)
  }

  /** Nothing the shared tables record for `r` changed. */
  predicate Untouched(s: State, t: State, r: Request) {
    && (r.key in s.ledger.keys ==> r.key in t.ledger.keys && t.ledger.keys[r.key] == s.ledger.keys[r.key])
    && (r.sid in s.ledger.bySession ==>
          r.sid in t.ledger.bySession && t.ledger.bySession[r.sid] == s.ledger.bySession[r.sid])
    && (r.sid in s.sessions ==> r.sid in t.sessions && t.sessions[r.sid] == s.sessions[r.sid])
  }

  /** A step of another request that has another session id, or the same key, leaves alone
      what is recorded for the holder of a key. */
  lemma OthersUntouched(s: State, step: Step, j: nat)
    requires Inv(s) && Enabled(s, step) && OfRequest(step) && j < |s.reqs| && j != step.i && HoldsKey(s.reqs[j])
    requires s.reqs[step.i].sid == s.reqs[j].sid ==> s.reqs[step.i].key == s.reqs[j].key
    ensures Untouched(s, Apply(s, step), s.reqs[j])
  {
    var r, i := s.reqs[j], step.i;
    assert RecordedFor(s.ledger, r);
    assert HoldsKey(s.reqs[i]) ==> s.reqs[i].key != r.key && RecordedFor(s.ledger, s.reqs[i]);
    if OnLedger(step) {
      assert s.reqs[i].sid in s.ledger.bySession ==> OpenEntry(s.ledger, s.reqs[i].sid);
    } else {
      QuietForLedger(s, step);
    }
  }

  lemma MoverTrackedOnLedger(s: State, step: Step)
    requires Inv(s) && Enabled(s, step) && OnLedger(step) && Tracked(s, s.reqs[step.i])
    ensures Tracked(Apply(s, step), Apply(s, step).reqs[step.i])
  {
    var r := s.reqs[step.i];
    assert HoldsKey(r) ==> RecordedFor(s.ledger, r);
  }

  lemma MoverTracked(s: State, step: Step)
    requires Inv(s) && Enabled(s, step) && OfRequest(step) && Tracked(s, s.reqs[step.i])
    ensures Tracked(Apply(s, step), Apply(s, step).reqs[step.i])
  {
    var r := s.reqs[step.i];
    if OnLedger(step) {
      MoverTrackedOnLedger(s, step);
    } else {
      QuietForLedger(s, step);
      assert Occupies(r) ==> IsRunning(s.sessions, r.sid);
    }
  }

  lemma OthersTracked(s: State, step: Step, j: nat)
    requires Inv(s) && Enabled(s, step) && OfRequest(step) && j < |s.reqs| && j != step.i && s.reqs[j].key != ""
    requires (s.reqs[step.i].sid == s.reqs[j].sid ==> s.reqs[step.i].key == s.reqs[j].key) && Tracked(s, s.reqs[j])
    ensures Apply(s, step).reqs[j] == s.reqs[j] && Tracked(Apply(s, step), s.reqs[j])
  {
    if HoldsKey(s.reqs[j]) {
      OthersUntouched(s, step, j);
    }
  }

  lemma TrackedKept(s: State, step: Step, i: nat)
    requires Inv(s) && Enabled(s, step) && OwnsSession(s.reqs, i) && Tracked(s, s.reqs[i])
    ensures i < |Apply(s, step).reqs| && Tracked(Apply(s, step), Apply(s, step).reqs[i])
  {
    if !OfRequest(step) {
      RequestsStay(s, step, i);
    } else if i == step.i {
      MoverTracked(s, step);
    } else {
      OthersTracked(s, step, i);
    }
  }

  lemma OwnedBefore(s: State, step: Step, i: nat)
    requires Enabled(s, step) && OwnsSession(Apply(s, step).reqs, i) && i < |s.reqs|
    ensures OwnsSession(s.reqs, i)
  {
    var t := Apply(s, step);
    RequestsStay(s, step, i);
    forall j | 0 <= j < |s.reqs| && s.reqs[j].sid == s.reqs[i].sid
      ensures s.reqs[j].key == s.reqs[i].key
    {
      RequestsStay(s, step, j);
      assert t.reqs[j].sid == t.reqs[i].sid;
    }
  }

  ghost predicate TrackedIfOwned(s: State, i: nat) {
    OwnsSession(s.reqs, i) ==> Tracked(s, s.reqs[i])
  }

  lemma TrackedIfOwnedKept(s: State, step: Step, i: nat)
    requires Inv(s) && Enabled(s, step) && TrackedIfOwned(s, i)
    ensures TrackedIfOwned(Apply(s, step), i)
  {
    if OwnsSession(Apply(s, step).reqs, i) && i < |s.reqs| {
      OwnedBefore(s, step, i);
      TrackedKept(s, step, i);
    }
  }

  lemma {:induction false} TrackedHolds(s: State, steps: seq<Step>, t: State, i: nat)
    requires Inv(s) && TrackedIfOwned(s, i) && Reaches(s, steps, t)
    ensures TrackedIfOwned(t, i)
    decreases |steps|
  {
    if steps != [] {
      InvKept(s, steps[0]);
      TrackedIfOwnedKept(s, steps[0], i);
      TrackedHolds(Apply(s, steps[0]), steps[1..], t, i);
    }
  }

  /** Its crew ended and it has passed finishIdem. */
  predicate Finished(r: Request) {
    r.pc.AtReleaseSem? || r.pc.Settled?
  }

  /** A run that has passed finishIdem, and whose session id no request with another key
      or with none has named, has its key recorded as done with exactly the terminal
      status of its session. */
  lemma FinishedRunIsRecorded(steps: seq<Step>, t: State, i: nat)
    requires Reaches(Init(), steps, t) && OwnsSession(t.reqs, i) && Finished(t.reqs[i])
    ensures var r := t.reqs[i];
            && r.sid in t.sessions && Terminal(t.sessions[r.sid].status)
            && r.key in t.ledger.keys
            && t.ledger.keys[r.key] == Entry(r.sid, r.owner, true, t.sessions[r.sid].status)
  {
    InvInit();
    InvHolds(Init(), steps, t);
    TrackedHolds(Init(), steps, t, i);
    assert Tracked(t, t.reqs[i]) && RecordedFor(t.ledger, t.reqs[i]);
  }

  /** Every request that sends that key again, with the same session id or not, replays
      that outcome unless it is another tenant's. */
  lemma FinishedRunsReplay(steps: seq<Step>, t: State, i: nat, j: nat)
    requires Reaches(Init(), steps, t) && OwnsSession(t.reqs, i) && Finished(t.reqs[i])
    requires j < |t.reqs| && t.reqs[j].key == t.reqs[i].key && t.reqs[j].pc == AtCheck
    requires !OtherTenant(t.reqs[i].owner, t.reqs[j].owner)
    ensures var r := t.reqs[i];
            && r.sid in t.sessions
            && Apply(t, Check(j)).reqs[j].pc == Responded(Replayed(r.sid, t.sessions[r.sid].status))
  {
    FinishedRunIsRecorded(steps, t, i);
  }

  /** Until then a request that sends the key again is told that the run of that session
      goes on, unless it is another tenant's. */
  lemma UnfinishedRunsAreReported(steps: seq<Step>, t: State, i: nat, j: nat)
    requires Reaches(Init(), steps, t) && OwnsSession(t.reqs, i) && HoldsKey(t.reqs[i]) && !Finished(t.reqs[i])
    requires j < |t.reqs| && t.reqs[j].key == t.reqs[i].key && t.reqs[j].pc == AtCheck
    requires t.reqs[i].owner == "" || t.reqs[j].owner == "" || t.reqs[i].owner == t.reqs[j].owner
    ensures Apply(t, Check(j)).reqs[j].pc == Responded(Duplicate(t.reqs[i].sid))
  {
    InvInit();
    InvHolds(Init(), steps, t);
    TrackedHolds(Init(), steps, t, i);
    assert Tracked(t, t.reqs[i]) && RecordedFor(t.ledger, t.reqs[i]);
  }

  // ----- Tenants -----

  /** A request of another tenant never learns from its lookup that a key is held: it goes
      on to reserve the key. */
  lemma OtherTenantSeesNoEntry(steps: seq<Step>, t: State, i: nat, j: nat)
    requires Reaches(Init(), steps, t) && i < |t.reqs| && HoldsKey(t.reqs[i])
    requires j < |t.reqs| && t.reqs[j].key == t.reqs[i].key && t.reqs[j].pc == AtCheck
    requires t.reqs[i].owner != "" && t.reqs[j].owner != "" && t.reqs[i].owner != t.reqs[j].owner
    ensures Apply(t, Check(j)).reqs[j].pc == AtReserve
  {
    InvInit();
    InvHolds(Init(), steps, t);
    assert RecordedFor(t.ledger, t.reqs[i]);
  }

  /** Whoever tries to reserve a key that is held is told the session of its holder, and
      changes nothing. */
  lemma LoserIsToldTheWinner(steps: seq<Step>, t: State, i: nat, j: nat)
    requires Reaches(Init(), steps, t) && i < |t.reqs| && HoldsKey(t.reqs[i])
    requires j < |t.reqs| && t.reqs[j].key == t.reqs[i].key && t.reqs[j].pc == AtReserve
    ensures var u := Apply(t, ReserveStep(j));
            u.reqs[j].pc == Responded(Duplicate(t.reqs[i].sid)) && u.ledger == t.ledger && u.sessions == t.sessions
  {
    InvInit();
    InvHolds(Init(), steps, t);
    assert RecordedFor(t.ledger, t.reqs[i]);
  }

  /** A session that another known tenant recorded is never started again by this one. */
  lemma OtherTenantsSessionIsRefused(s: State, i: nat, saved: bool)
    requires Enabled(s, Persist(i, saved)) && s.reqs[i].sid in s.sessions
    requires var r, st := s.reqs[i], s.sessions[s.reqs[i].sid];
             st.status == RUNNING || (r.owner != "" && st.owner != "" && r.owner != st.owner)
    ensures var t := Apply(s, Persist(i, saved));
            t.sessions == s.sessions && t.reqs[i].pc == AtRelease(NotPersisted)
  {
  }

  // ----- What is replayed is how the crew ended -----

  /** The crew of request `i` ended with this status, and its key says so once the run has
      passed finishIdem. */
  predicate EndedAs(s: State, i: nat, status: string) {
    && i < |s.reqs|
    && (s.reqs[i].pc.AtFinish? || Finished(s.reqs[i]))
    && (s.reqs[i].pc.AtFinish? ==> s.reqs[i].pc.status == status)
    && (Finished(s.reqs[i]) ==> s.reqs[i].key in s.ledger.keys && s.ledger.keys[s.reqs[i].key].status == status)
  }

  lemma EndedAsKept(s: State, step: Step, i: nat, status: string)
    requires Inv(s) && Enabled(s, step) && EndedAs(s, i, status)
    requires OwnsSession(s.reqs, i) && Tracked(s, s.reqs[i])
    ensures EndedAs(Apply(s, step), i, status)
  {
    RequestsStay(s, step, i);
    assert HoldsKey(s.reqs[i]) && RecordedFor(s.ledger, s.reqs[i]);
    if OfRequest(step) && step.i != i {
      OthersUntouched(s, step, i);
    }
  }

  lemma {:induction false} EndedAsHolds(s: State, steps: seq<Step>, t: State, i: nat, status: string)
    requires Inv(s) && TrackedIfOwned(s, i) && EndedAs(s, i, status) && Reaches(s, steps, t) && OwnsSession(t.reqs, i)
    ensures EndedAs(t, i, status) && OwnsSession(s.reqs, i)
    decreases |steps|
  {
    if steps != [] {
      var next := Apply(s, steps[0]);
      InvKept(s, steps[0]);
      TrackedIfOwnedKept(s, steps[0], i);
      OwnedThroughout(next, steps[1..], t, i);
      OwnedBefore(s, steps[0], i);
      EndedAsKept(s, steps[0], i, status);
      EndedAsHolds(next, steps[1..], t, i, status);
    }
  }

  lemma {:induction false} OwnedThroughout(s: State, steps: seq<Step>, t: State, i: nat)
    requires Reaches(s, steps, t) && OwnsSession(t.reqs, i) && i < |s.reqs|
    ensures OwnsSession(s.reqs, i)
    decreases |steps|
  {
    if steps != [] {
      RequestsStay(s, steps[0], i);
      OwnedThroughout(Apply(s, steps[0]), steps[1..], t, i);
      OwnedBefore(s, steps[0], i);
    }
  }

  lemma EndDecides(s: State, i: nat, failed: bool)
    requires Enabled(s, End(i, failed))
    ensures EndedAs(Apply(s, End(i, failed)), i, if failed then "failed" else "completed")
  {
  }

  lemma EndIsRecorded(first: seq<Step>, s: State, i: nat, failed: bool, second: seq<Step>, t: State)
    requires Reaches(Init(), first, s) && Enabled(s, End(i, failed)) && Reaches(Apply(s, End(i, failed)), second, t)
    requires OwnsSession(t.reqs, i) && Finished(t.reqs[i])
    ensures EndedAs(t, i, if failed then "failed" else "completed") && Inv(t) && Tracked(t, t.reqs[i])
  {
    var end, ended := End(i, failed), Apply(s, End(i, failed));
    InvInit();
    InvHolds(Init(), first, s);
    InvKept(s, end);
    InvHolds(ended, second, t);
    TrackedHolds(Init(), first, s, i);
    TrackedIfOwnedKept(s, end, i);
    EndDecides(s, i, failed);
    EndedAsHolds(ended, second, t, i, if failed then "failed" else "completed");
    TrackedHolds(ended, second, t, i);
  }

  /** A crew that failed has its key replay "failed", one that did not has it replay
      "completed", whatever happens in between. */
  lemma ReplayTellsHowItEnded(first: seq<Step>, s: State, i: nat, failed: bool, second: seq<Step>, t: State, j: nat)
    requires Reaches(Init(), first, s) && Enabled(s, End(i, failed)) && Reaches(Apply(s, End(i, failed)), second, t)
    requires OwnsSession(t.reqs, i) && Finished(t.reqs[i])
    requires j < |t.reqs| && t.reqs[j].key == t.reqs[i].key && t.reqs[j].pc == AtCheck
    requires t.reqs[i].owner == "" || t.reqs[j].owner == "" || t.reqs[i].owner == t.reqs[j].owner
    ensures Apply(t, Check(j)).reqs[j].pc
         == Responded(Replayed(t.reqs[i].sid, if failed then "failed" else "completed"))
  {
    EndIsRecorded(first, s, i, failed, second, t);
    assert RecordedFor(t.ledger, t.reqs[i]);
  }

  // ----- Exactly when a key is recorded as done -----

  /** Whoever names the session of a request with this key has this key. */
  ghost predicate KeyOwns(reqs: seq<Request>, key: string) {
    key != "" && forall i | 0 <= i < |reqs| && reqs[i].key == key :: OwnsSession(reqs, i)
  }

  ghost predicate Holder(s: State, key: string, i: int) {
    0 <= i < |s.reqs| && s.reqs[i].key == key && HoldsKey(s.reqs[i])
  }

  /** A recorded key has a request that holds it. */
  ghost predicate Held(s: State, key: string) {
    key in s.ledger.keys ==> exists i :: Holder(s, key, i)
  }

  lemma KeyOwnedBefore(s: State, step: Step, key: string)
    requires Enabled(s, step) && KeyOwns(Apply(s, step).reqs, key)
    ensures KeyOwns(s.reqs, key)
  {
    forall i | 0 <= i < |s.reqs| && s.reqs[i].key == key
      ensures OwnsSession(s.reqs, i)
    {
      RequestsStay(s, step, i);
      OwnedBefore(s, step, i);
    }
  }

  /** Only a reservation records a new key. */
  lemma NewKeyIsReserved(s: State, step: Step, key: string)
    requires Inv(s) && Enabled(s, step) && key !in s.ledger.keys && key in Apply(s, step).ledger.keys
    ensures OfRequest(step) && Holder(Apply(s, step), key, step.i)
  {
    if OfRequest(step) {
      if OnLedger(step) {
        var r := s.reqs[step.i];
        assert HoldsKey(r) ==> RecordedFor(s.ledger, r);
      } else {
        QuietForLedger(s, step);
      }
    }
  }

  /** Only its release takes a key from its holder, and that deletes an open entry. */
  lemma HolderStays(s: State, step: Step, key: string, i: nat)
    requires Inv(s) && Enabled(s, step) && Holder(s, key, i) && Tracked(s, s.reqs[i])
    requires key in Apply(s, step).ledger.keys
    ensures Holder(Apply(s, step), key, i)
  {
    RequestsStay(s, step, i);
    if OfRequest(step) && step.i == i {
      if OnLedger(step) {
        assert RecordedFor(s.ledger, s.reqs[i]);
      } else {
        QuietForLedger(s, step);
      }
    }
  }

  lemma HeldKept(s: State, step: Step, key: string)
    requires Inv(s) && Enabled(s, step) && KeyOwns(Apply(s, step).reqs, key) && Held(s, key)
    requires forall i: nat :: TrackedIfOwned(s, i)
    ensures Held(Apply(s, step), key)
  {
    if key in Apply(s, step).ledger.keys {
      if key in s.ledger.keys {
        KeyOwnedBefore(s, step, key);
        var i :| Holder(s, key, i);
        assert TrackedIfOwned(s, i);
        HolderStays(s, step, key, i);
      } else {
        NewKeyIsReserved(s, step, key);
      }
    }
  }

  lemma {:induction false} HeldHolds(s: State, steps: seq<Step>, t: State, key: string)
    requires Inv(s) && Reaches(s, steps, t) && (forall i: nat :: TrackedIfOwned(s, i))
    requires KeyOwns(s.reqs, key) ==> Held(s, key)
    ensures KeyOwns(t.reqs, key) ==> Held(t, key)
    decreases |steps|
  {
    if steps != [] {
      var step, next := steps[0], Apply(s, steps[0]);
      InvKept(s, step);
      forall i: nat
        ensures TrackedIfOwned(next, i)
      {
        TrackedIfOwnedKept(s, step, i);
      }
      if KeyOwns(next.reqs, key) {
        KeyOwnedBefore(s, step, key);
        HeldKept(s, step, key);
      }
      HeldHolds(next, steps[1..], t, key);
    }
  }

  /** As long as the sessions of its requests are named by no other request, a key is
      recorded as done exactly when a run of that key has finished, and then with that
      run's session and outcome: replays are sound and complete. */
  lemma DoneIffFinished(steps: seq<Step>, t: State, key: string)
    requires Reaches(Init(), steps, t) && KeyOwns(t.reqs, key)
    ensures (key in t.ledger.keys && t.ledger.keys[key].done)
       <==> exists i :: 0 <= i < |t.reqs| && t.reqs[i].key == key && Finished(t.reqs[i])
    ensures forall i | 0 <= i < |t.reqs| && t.reqs[i].key == key && Finished(t.reqs[i]) ::
              && t.reqs[i].sid in t.sessions
              && key in t.ledger.keys
              && t.ledger.keys[key] == Entry(t.reqs[i].sid, t.reqs[i].owner, true, t.sessions[t.reqs[i].sid].status)
  {
    InvInit();
    InvHolds(Init(), steps, t);
    HeldHolds(Init(), steps, t, key);
    forall i | 0 <= i < |t.reqs| && t.reqs[i].key == key && Finished(t.reqs[i])
      ensures t.reqs[i].sid in t.sessions && key in t.ledger.keys
      ensures t.ledger.keys[key] == Entry(t.reqs[i].sid, t.reqs[i].owner, true, t.sessions[t.reqs[i].sid].status)
    {
      FinishedRunIsRecorded(steps, t, i);
    }
    if key in t.ledger.keys && t.ledger.keys[key].done {
      var i :| Holder(t, key, i);
      TrackedHolds(Init(), steps, t, i);
      assert Tracked(t, t.reqs[i]);
    }
  }

  /** With session ids shared freely, finishIdem records the outcome under the key of
      its own run exactly when the reverse map still names that key, or a finish of
      another run on the session id has already left the same outcome there. */
  lemma FinishRecordsItsKey(steps: seq<Step>, s: State, i: nat)
    requires Reaches(Init(), steps, s) && Enabled(s, FinishStep(i)) && s.reqs[i].key != ""
    ensures var r, l, m := s.reqs[i], s.ledger, Apply(s, FinishStep(i)).ledger;
            && r.key in l.keys && r.key in m.keys
            && (m.keys[r.key].done && m.keys[r.key].status == r.pc.status
                <==> (r.sid in l.bySession && l.bySession[r.sid] == r.key)
                     || (l.keys[r.key].done && l.keys[r.key].status == r.pc.status))
  {
    InvInit();
    InvHolds(Init(), steps, s);
    assert RecordedFor(s.ledger, s.reqs[i]);
    assert s.reqs[i].sid in s.ledger.bySession ==> OpenEntry(s.ledger, s.reqs[i].sid);
  }

  /** A settled run whose entry is still open and which the reverse map has lost. */
  ghost predicate Lost(s: State, i: nat) {
    && i < |s.reqs| && s.reqs[i].key != "" && s.reqs[i].pc.Settled?
    && s.reqs[i].key in s.ledger.keys && !s.ledger.keys[s.reqs[i].key].done
    && forall sid | sid in s.ledger.bySession :: s.ledger.bySession[sid] != s.reqs[i].key
  }

  lemma LostKept(s: State, step: Step, i: nat)
    requires Inv(s) && Lost(s, i) && Enabled(s, step)
    ensures Lost(Apply(s, step), i)
  {
    RequestsStay(s, step, i);
    assert HoldsKey(s.reqs[i]);
    if OfRequest(step) && !OnLedger(step) {
      QuietForLedger(s, step);
    }
  }

  /** Once lost, the outcome is lost for good: whatever happens next, every lookup of
      the key, unless it is another tenant's, is answered as a duplicate that is still
      running. */
  lemma {:induction false} LostOutcomeNeverReplays(s: State, steps: seq<Step>, t: State, i: nat, j: nat)
    requires Inv(s) && Lost(s, i) && Reaches(s, steps, t)
    requires j < |t.reqs| && t.reqs[j].key == s.reqs[i].key && t.reqs[j].pc == AtCheck
    requires !OtherTenant(s.reqs[i].owner, t.reqs[j].owner)
    ensures Apply(t, Check(j)).reqs[j].pc == Responded(Duplicate(s.reqs[i].sid))
    decreases |steps|
  {
    if steps == [] {
      assert RecordedFor(s.ledger, s.reqs[i]);
    } else {
      InvKept(s, steps[0]);
      LostKept(s, steps[0], i);
      RequestsStay(s, steps[0], i);
      LostOutcomeNeverReplays(Apply(s, steps[0]), steps[1..], t, i, j);
    }
  }

  // ----- The two ways a session id goes wrong do happen -----

  lemma {:induction false} ReachesOneMore(s: State, steps: seq<Step>, t: State, step: Step)
    requires Reaches(s, steps, t) && Enabled(t, step)
    ensures Reaches(s, steps + [step], Apply(t, step))
    decreases |steps|
  {
    if steps == [] {
      assert Reaches(t, [step], Apply(t, step)) by {
        assert [step][1..] == [];
      }
    } else {
      ReachesOneMore(Apply(s, steps[0]), steps[1..], t, step);
      assert (steps + [step])[1..] == steps[1..] + [step];
    }
  }

  lemma {:induction false} ReachesJoin(s: State, first: seq<Step>, t: State, second: seq<Step>, u: State)
    requires Reaches(s, first, t) && Reaches(t, second, u)
    ensures Reaches(s, first + second, u)
    decreases |second|
  {
    if second == [] {
      assert first + second == first;
    } else {
      ReachesOneMore(s, first, t, second[0]);
      ReachesJoin(s, first + [second[0]], Apply(t, second[0]), second[1..], u);
      assert first + [second[0]] + second[1..] == first + second;
    }
  }

  const OPEN_A := Entry("s", "o", false, "")

  /** Request 0, with key "a" and session "s", has passed every gate. */
  function OneBuilt(): State {
    State(Ledger(map["a" := OPEN_A], map["s" := "a"]), map[], [Semaphore(10, 0)], 0,
          [Request("a", "o", "s", AtPersist)])
  }

  /** Its session is recorded and its key finalized. */
  function OneRecorded(): State {
    State(Ledger(map["a" := OPEN_A], map["s" := "a"]), map["s" := Session(RUNNING, "o")], [Semaphore(10, 0)], 0,
          [Request("a", "o", "s", AtReadSem)])
  }

  /** Its crew runs. */
  function OneLive(): State {
    State(Ledger(map["a" := OPEN_A], map["s" := "a"]), map["s" := Session(RUNNING, "o")], [Semaphore(10, 1)], 0,
          [Request("a", "o", "s", Live(0))])
  }

  /** Request 1, with key "b" and the same session, came and was turned away. */
  function MappingGone(): State {
    State(Ledger(map["a" := OPEN_A], map[]), map["s" := Session(RUNNING, "o")], [Semaphore(10, 1)], 0,
          [Request("a", "o", "s", Live(0)), Request("b", "o", "s", Responded(SessionBusy))])
  }

  /** The run completed and settled. */
  function OutcomeGone(): State {
    State(Ledger(map["a" := OPEN_A], map[]), map["s" := Session(COMPLETED, "o")], [Semaphore(10, 0)], 0,
          [Request("a", "o", "s", Settled), Request("b", "o", "s", Responded(SessionBusy))])
  }

  lemma ToOneBuilt() returns (steps: seq<Step>)
    ensures Reaches(Init(), steps, OneBuilt())
  {
    var s0 := Apply(Init(), Arrive("a", "o", "s"));
    var s1 := Apply(s0, Check(0));
    var s2 := Apply(s1, ReserveStep(0));
    var s3 := Apply(s2, Gate(0));
    var s4 := Apply(s3, Build(0, true));
    steps := [];
    ReachesOneMore(Init(), steps, Init(), Arrive("a", "o", "s"));
    steps := steps + [Arrive("a", "o", "s")];
    ReachesOneMore(Init(), steps, s0, Check(0));
    steps := steps + [Check(0)];
    ReachesOneMore(Init(), steps, s1, ReserveStep(0));
    steps := steps + [ReserveStep(0)];
    ReachesOneMore(Init(), steps, s2, Gate(0));
    steps := steps + [Gate(0)];
    ReachesOneMore(Init(), steps, s3, Build(0, true));
    steps := steps + [Build(0, true)];
    assert s4.reqs == OneBuilt().reqs;
    assert s4 == OneBuilt();
  }

  lemma ToOneRecorded() returns (steps: seq<Step>)
    ensures Reaches(OneBuilt(), steps, OneRecorded())
  {
    assert ValidCheckpointID("s");
    var s0 := Apply(OneBuilt(), Persist(0, true));
    var s1 := Apply(s0, FinalizeStep(0));
    steps := [];
    ReachesOneMore(OneBuilt(), steps, OneBuilt(), Persist(0, true));
    steps := steps + [Persist(0, true)];
    ReachesOneMore(OneBuilt(), steps, s0, FinalizeStep(0));
    steps := steps + [FinalizeStep(0)];
    assert s1.reqs == OneRecorded().reqs;
    assert s1 == OneRecorded();
  }

  lemma ToOneLive() returns (steps: seq<Step>)
    ensures Reaches(OneRecorded(), steps, OneLive())
  {
    var s0 := Apply(OneRecorded(), ReadSem(0));
    var s1 := Apply(s0, Send(0));
    steps := [];
    ReachesOneMore(OneRecorded(), steps, OneRecorded(), ReadSem(0));
    steps := steps + [ReadSem(0)];
    ReachesOneMore(OneRecorded(), steps, s0, Send(0));
    steps := steps + [Send(0)];
    assert s1.reqs == OneLive().reqs;
    assert s1 == OneLive();
  }

  lemma ToMappingGone() returns (steps: seq<Step>)
    ensures Reaches(OneLive(), steps, MappingGone())
  {
    var s0 := Apply(OneLive(), Arrive("b", "o", "s"));
    var s1 := Apply(s0, Check(1));
    var s2 := Apply(s1, ReserveStep(1));
    var s3 := Apply(s2, Gate(1));
    var s4 := Apply(s3, ReleaseStep(1));
    steps := [];
    ReachesOneMore(OneLive(), steps, OneLive(), Arrive("b", "o", "s"));
    steps := steps + [Arrive("b", "o", "s")];
    ReachesOneMore(OneLive(), steps, s0, Check(1));
    steps := steps + [Check(1)];
    ReachesOneMore(OneLive(), steps, s1, ReserveStep(1));
    steps := steps + [ReserveStep(1)];
    ReachesOneMore(OneLive(), steps, s2, Gate(1));
    steps := steps + [Gate(1)];
    ReachesOneMore(OneLive(), steps, s3, ReleaseStep(1));
    steps := steps + [ReleaseStep(1)];
    assert s4.reqs == MappingGone().reqs;
    assert s4 == MappingGone();
  }

  lemma ToOutcomeGone() returns (steps: seq<Step>)
    ensures Reaches(MappingGone(), steps, OutcomeGone())
  {
    var s0 := Apply(MappingGone(), End(0, false));
    var s1 := Apply(s0, FinishStep(0));
    var s2 := Apply(s1, ReleaseSem(0));
    steps := [];
    ReachesOneMore(MappingGone(), steps, MappingGone(), End(0, false));
    steps := steps + [End(0, false)];
    ReachesOneMore(MappingGone(), steps, s0, FinishStep(0));
    steps := steps + [FinishStep(0)];
    ReachesOneMore(MappingGone(), steps, s1, ReleaseSem(0));
    steps := steps + [ReleaseSem(0)];
    assert s2.reqs == OutcomeGone().reqs;
    assert s2 == OutcomeGone();
  }

  /** A second key that names the session of a live run takes over its reverse
      mapping and, when the gate turns it away, deletes it: the first run completes
      and its key is never marked done. */
  lemma SharedSessionLosesOutcome() returns (steps: seq<Step>, t: State)
    ensures Reaches(Init(), steps, t) && Lost(t, 0)
    ensures t.reqs[0].sid in t.sessions && t.sessions[t.reqs[0].sid].status == COMPLETED
  {
    t := OutcomeGone();
    var a := ToOneBuilt();
    var rec := ToOneRecorded();
    var b := ToOneLive();
    var c := ToMappingGone();
    var d := ToOutcomeGone();
    ReachesJoin(Init(), a, OneBuilt(), rec, OneRecorded());
    a := a + rec;
    ReachesJoin(Init(), a, OneRecorded(), b, OneLive());
    ReachesJoin(Init(), a + b, OneLive(), c, MappingGone());
    ReachesJoin(Init(), a + b + c, MappingGone(), d, t);
    steps := a + b + c + d;
  }

  // ----- A key that replays another run's outcome -----

  /** The first run completed; its finishIdem is still to come. */
  function FirstEnded(): State {
    State(Ledger(map["a" := OPEN_A], map["s" := "a"]), map["s" := Session(COMPLETED, "o")], [Semaphore(10, 1)], 0,
          [Request("a", "o", "s", AtFinish(0, COMPLETED))])
  }

  /** Request 1, with key "b" and the same session, has passed every gate. */
  function SecondBuilt(): State {
    State(Ledger(map["a" := OPEN_A, "b" := OPEN_A], map["s" := "b"]), map["s" := Session(COMPLETED, "o")],
          [Semaphore(10, 1)], 0, [Request("a", "o", "s", AtFinish(0, COMPLETED)), Request("b", "o", "s", AtPersist)])
  }

  function SecondLive(): State {
    State(Ledger(map["a" := OPEN_A, "b" := OPEN_A], map["s" := "b"]), map["s" := Session(RUNNING, "o")],
          [Semaphore(10, 2)], 0, [Request("a", "o", "s", AtFinish(0, COMPLETED)), Request("b", "o", "s", Live(0))])
  }

  /** The first run's finishIdem marked the second key; then the second run failed. */
  function OutcomeCrossed(): State {
    State(Ledger(map["a" := OPEN_A, "b" := Entry("s", "o", true, COMPLETED)], map[]), map["s" := Session(FAILED, "o")],
          [Semaphore(10, 2)], 0,
          [Request("a", "o", "s", AtReleaseSem(0)), Request("b", "o", "s", AtReleaseSem(0))])
  }

  lemma ToFirstEnded() returns (steps: seq<Step>)
    ensures Reaches(Init(), steps, FirstEnded())
  {
    var a := ToOneBuilt();
    var b := ToOneRecorded();
    var c := ToOneLive();
    ReachesJoin(Init(), a, OneBuilt(), b, OneRecorded());
    ReachesJoin(Init(), a + b, OneRecorded(), c, OneLive());
    ReachesOneMore(Init(), a + b + c, OneLive(), End(0, false));
    steps := a + b + c + [End(0, false)];
    assert Apply(OneLive(), End(0, false)).reqs == FirstEnded().reqs;
    assert Apply(OneLive(), End(0, false)) == FirstEnded();
  }

  lemma ToSecondBuilt() returns (steps: seq<Step>)
    ensures Reaches(FirstEnded(), steps, SecondBuilt())
  {
    steps := ToSecondReserved();
    ReachesOneMore(FirstEnded(), steps, SecondReserved(), Build(1, true));
    steps := steps + [Build(1, true)];
    assert Apply(SecondReserved(), Build(1, true)).reqs == SecondBuilt().reqs;
    assert Apply(SecondReserved(), Build(1, true)) == SecondBuilt();
  }

  function SecondRecorded(): State {
    State(Ledger(map["a" := OPEN_A, "b" := OPEN_A], map["s" := "b"]), map["s" := Session(RUNNING, "o")],
          [Semaphore(10, 1)], 0, [Request("a", "o", "s", AtFinish(0, COMPLETED)), Request("b", "o", "s", AtReadSem)])
  }

  lemma ToSecondRecorded() returns (steps: seq<Step>)
    ensures Reaches(SecondBuilt(), steps, SecondRecorded())
  {
    assert ValidCheckpointID("s");
    var s0 := Apply(SecondBuilt(), Persist(1, true));
    var s1 := Apply(s0, FinalizeStep(1));
    steps := [];
    ReachesOneMore(SecondBuilt(), steps, SecondBuilt(), Persist(1, true));
    steps := steps + [Persist(1, true)];
    ReachesOneMore(SecondBuilt(), steps, s0, FinalizeStep(1));
    steps := steps + [FinalizeStep(1)];
    assert s1.reqs == SecondRecorded().reqs;
    assert s1 == SecondRecorded();
  }

  lemma ToSecondLive() returns (steps: seq<Step>)
    ensures Reaches(SecondRecorded(), steps, SecondLive())
  {
    var s0 := Apply(SecondRecorded(), ReadSem(1));
    var s1 := Apply(s0, Send(1));
    steps := [];
    ReachesOneMore(SecondRecorded(), steps, SecondRecorded(), ReadSem(1));
    steps := steps + [ReadSem(1)];
    ReachesOneMore(SecondRecorded(), steps, s0, Send(1));
    steps := steps + [Send(1)];
    assert s1.reqs == SecondLive().reqs;
    assert s1 == SecondLive();
  }

  lemma ToOutcomeCrossed() returns (steps: seq<Step>)
    ensures Reaches(SecondLive(), steps, OutcomeCrossed())
  {
    var s0 := Apply(SecondLive(), FinishStep(0));
    var s1 := Apply(s0, End(1, true));
    var s2 := Apply(s1, FinishStep(1));
    steps := [];
    ReachesOneMore(SecondLive(), steps, SecondLive(), FinishStep(0));
    steps := steps + [FinishStep(0)];
    ReachesOneMore(SecondLive(), steps, s0, End(1, true));
    steps := steps + [End(1, true)];
    ReachesOneMore(SecondLive(), steps, s1, FinishStep(1));
    steps := steps + [FinishStep(1)];
    assert s2.reqs == OutcomeCrossed().reqs;
    assert s2 == OutcomeCrossed();
  }

  /** What a retry of key "b" for session "s" is told in this state. */
  function RetryOfB(t: State): Pc {
    AfterCheck(t.ledger, Request("b", "o", "s", AtCheck))
  }

  lemma RetryIsTold(t: State)
    ensures var retry := t.(reqs := t.reqs + [Request("b", "o", "s", AtCheck)]);
            Apply(retry, Check(|t.reqs|)).reqs[|t.reqs|].pc == RetryOfB(t)
  {
  }

  /** Persisting a terminal status and finishIdem are separate steps: a second key that
      starts a run on the same session in between is marked with the first run's outcome,
      and replays it although its own run ended otherwise. */
  lemma SharedSessionCrossesOutcomes() returns (steps: seq<Step>, t: State)
    ensures Reaches(Init(), steps, t) && |t.reqs| == 2 && t.reqs[1].pc.AtReleaseSem? && t.reqs[1].key == "b"
    ensures t.reqs[1].sid in t.sessions && t.sessions[t.reqs[1].sid].status == FAILED
    ensures var retry := t.(reqs := t.reqs + [Request("b", "o", t.reqs[1].sid, AtCheck)]);
            Apply(retry, Check(2)).reqs[2].pc == Responded(Replayed(t.reqs[1].sid, COMPLETED))
  {
    t := OutcomeCrossed();
    var a := ToFirstEnded();
    var b := ToSecondBuilt();
    var rec := ToSecondRecorded();
    var c := ToSecondLive();
    var d := ToOutcomeCrossed();
    ReachesJoin(Init(), a, FirstEnded(), b, SecondBuilt());
    ReachesJoin(Init(), a + b, SecondBuilt(), rec, SecondRecorded());
    steps := a + b + rec;
    ReachesJoin(Init(), steps, SecondRecorded(), c, SecondLive());
    ReachesJoin(Init(), steps + c, SecondLive(), d, t);
    steps := steps + c + d;
    RetryIsTold(t);
  }

  /** Request 1, with key "b", was marked with the first run's outcome while its crew was
      being built, and then rejected. */
  function RejectedButDone(): State {
    State(Ledger(map["a" := OPEN_A, "b" := Entry("s", "o", true, COMPLETED)], map[]),
          map["s" := Session(COMPLETED, "o")], [Semaphore(10, 1)], 0,
          [Request("a", "o", "s", AtReleaseSem(0)), Request("b", "o", "s", Responded(Rejected))])
  }

  function SecondReserved(): State {
    State(Ledger(map["a" := OPEN_A, "b" := OPEN_A], map["s" := "b"]), map["s" := Session(COMPLETED, "o")],
          [Semaphore(10, 1)], 0, [Request("a", "o", "s", AtFinish(0, COMPLETED)), Request("b", "o", "s", AtBuild)])
  }

  lemma ToSecondReserved() returns (steps: seq<Step>)
    ensures Reaches(FirstEnded(), steps, SecondReserved())
  {
    var s0 := Apply(FirstEnded(), Arrive("b", "o", "s"));
    var s1 := Apply(s0, Check(1));
    var s2 := Apply(s1, ReserveStep(1));
    var s3 := Apply(s2, Gate(1));
    steps := [];
    ReachesOneMore(FirstEnded(), steps, FirstEnded(), Arrive("b", "o", "s"));
    steps := steps + [Arrive("b", "o", "s")];
    ReachesOneMore(FirstEnded(), steps, s0, Check(1));
    steps := steps + [Check(1)];
    ReachesOneMore(FirstEnded(), steps, s1, ReserveStep(1));
    steps := steps + [ReserveStep(1)];
    ReachesOneMore(FirstEnded(), steps, s2, Gate(1));
    steps := steps + [Gate(1)];
    assert s3.reqs == SecondReserved().reqs;
    assert s3 == SecondReserved();
  }

  lemma ToRejectedButDone() returns (steps: seq<Step>)
    ensures Reaches(SecondReserved(), steps, RejectedButDone())
  {
    var s0 := Apply(SecondReserved(), FinishStep(0));
    var s1 := Apply(s0, Build(1, false));
    var s2 := Apply(s1, ReleaseStep(1));
    steps := [];
    ReachesOneMore(SecondReserved(), steps, SecondReserved(), FinishStep(0));
    steps := steps + [FinishStep(0)];
    ReachesOneMore(SecondReserved(), steps, s0, Build(1, false));
    steps := steps + [Build(1, false)];
    ReachesOneMore(SecondReserved(), steps, s1, ReleaseStep(1));
    steps := steps + [ReleaseStep(1)];
    assert s2.reqs == RejectedButDone().reqs;
    assert s2 == RejectedButDone();
  }

  /** A key can even replay an outcome although no crew ever ran for it: it was rejected
      after another run on its session had marked it, and releasing a key that is done
      does nothing. */
  lemma RejectedKeyReplays() returns (steps: seq<Step>, t: State)
    ensures Reaches(Init(), steps, t) && |t.reqs| == 2 && t.reqs[0].key == "a"
    ensures t.reqs[1].key == "b" && t.reqs[1].pc == Responded(Rejected)
    ensures var retry := t.(reqs := t.reqs + [Request("b", "o", t.reqs[1].sid, AtCheck)]);
            Apply(retry, Check(2)).reqs[2].pc == Responded(Replayed(t.reqs[1].sid, COMPLETED))
  {
    t := RejectedButDone();
    var a := ToFirstEnded();
    var b := ToSecondReserved();
    var c := ToRejectedButDone();
    ReachesJoin(Init(), a, FirstEnded(), b, SecondReserved());
    ReachesJoin(Init(), a + b, SecondReserved(), c, t);
    steps := a + b + c;
  }

  // ----- A full channel -----

  /** A keyless request for session `sid` has come this far. */
  function WithRequest(s: State, sid: string, pc: Pc): State {
    s.(reqs := s.reqs + [Request("", "o", sid, pc)])
  }

  function Waiting(s: State, sid: string): State {
    WithRequest(s.(sessions := s.sessions[sid := Session(RUNNING, "o")]), sid, AtSend(s.current))
  }

  lemma ToBuilt(s: State, sid: string) returns (steps: seq<Step>)
    requires sid !in s.sessions
    ensures Reaches(s, steps, WithRequest(s, sid, AtPersist))
  {
    var n := |s.reqs|;
    var s0 := Apply(s, Arrive("", "o", sid));
    var s1 := Apply(s0, Gate(n));
    ReachesOneMore(s, [], s, Arrive("", "o", sid));
    ReachesOneMore(s, [] + [Arrive("", "o", sid)], s0, Gate(n));
    ReachesOneMore(s, [] + [Arrive("", "o", sid)] + [Gate(n)], s1, Build(n, true));
    steps := [] + [Arrive("", "o", sid)] + [Gate(n)] + [Build(n, true)];
    assert Apply(s1, Build(n, true)).reqs == WithRequest(s, sid, AtPersist).reqs;
  }

  /** Any state lets a request with a valid, unused session id pass every gate and read
      the global channel. */
  lemma ToWaiting(s: State, sid: string) returns (steps: seq<Step>)
    requires ValidCheckpointID(sid) && sid !in s.sessions
    ensures Reaches(s, steps, Waiting(s, sid))
  {
    var n := |s.reqs|;
    var built := WithRequest(s, sid, AtPersist);
    steps := ToBuilt(s, sid);
    ReachesOneMore(s, steps, built, Persist(n, true));
    var persisted := Apply(built, Persist(n, true));
    steps := steps + [Persist(n, true)];
    ReachesOneMore(s, steps, persisted, ReadSem(n));
    steps := steps + [ReadSem(n)];
    assert Apply(persisted, ReadSem(n)).reqs == Waiting(s, sid).reqs;
  }

  function Name(n: nat): string {
    if n == 0 then "s" else Name(n - 1) + "s"
  }

  lemma {:induction false} NameIs(n: nat)
    ensures |Name(n)| == n + 1 && forall k | 0 <= k <= n :: Name(n)[k] == 's'
  {
    if n > 0 {
      NameIs(n - 1);
    }
  }

  lemma NamesAreValid(n: nat)
    requires n < 128
    ensures ValidCheckpointID(Name(n))
  {
    NameIs(n);
    assert Name(n)[0] == 's';
  }

  function RunningSessions(n: nat): map<string, Session> {
    if n == 0 then map[] else RunningSessions(n - 1)[Name(n - 1) := Session(RUNNING, "o")]
  }

  function LiveRuns(n: nat): seq<Request> {
    if n == 0 then [] else LiveRuns(n - 1) + [Request("", "o", Name(n - 1), Live(0))]
  }

  lemma {:induction false} FillIs(n: nat, m: nat)
    requires n <= m
    ensures |LiveRuns(n)| == n && Name(m) !in RunningSessions(n)
  {
    if n > 0 {
      FillIs(n - 1, m);
      NameIs(n - 1);
      NameIs(m);
    }
  }

  /** The first `n` slots of the channel the server starts with are taken by live runs. */
  function Filled(n: nat): State {
    State(EMPTY_LEDGER, RunningSessions(n), [Semaphore(10, n)], 0, LiveRuns(n))
  }

  lemma SendFills(n: nat)
    requires 0 < n <= 10 && Name(n - 1) !in RunningSessions(n - 1)
    ensures var w := Waiting(Filled(n - 1), Name(n - 1));
            Enabled(w, Send(n - 1)) && Apply(w, Send(n - 1)) == Filled(n)
  {
    FillIs(n - 1, n - 1);
    var w := Waiting(Filled(n - 1), Name(n - 1));
    assert Apply(w, Send(n - 1)).reqs == LiveRuns(n);
  }

  lemma {:induction false} ToFilled(n: nat) returns (steps: seq<Step>)
    requires n <= 10
    ensures Reaches(Init(), steps, Filled(n))
  {
    steps := [];
    if n > 0 {
      var s := Filled(n - 1);
      steps := ToFilled(n - 1);
      FillIs(n - 1, n - 1);
      NamesAreValid(n - 1);
      var more := ToWaiting(s, Name(n - 1));
      SendFills(n);
      ReachesJoin(Init(), steps, s, more, Waiting(s, Name(n - 1)));
      ReachesOneMore(Init(), steps + more, Waiting(s, Name(n - 1)), Send(n - 1));
      steps := steps + more + [Send(n - 1)];
    }
  }

  function TurnedAway(s: State, sid: string): State {
    WithRequest(s.(sessions := s.sessions[sid := Session(RUNNING, "o")]), sid, AtRelease(ServerBusy))
  }

  /** Whenever the global channel is full, a request with a valid, unused session id can
      be turned away and then leaves that session id running with no run on it. */
  lemma FullTurnsAway(s: State, sid: string) returns (steps: seq<Step>)
    requires s.current < |s.sems| && s.sems[s.current].tokens >= s.sems[s.current].capacity
    requires ValidCheckpointID(sid) && sid !in s.sessions
    ensures Reaches(s, steps, TurnedAway(s, sid))
  {
    var w := Waiting(s, sid);
    steps := ToWaiting(s, sid);
    ReachesOneMore(s, steps, w, Send(|s.reqs|));
    steps := steps + [Send(|s.reqs|)];
    assert Apply(w, Send(|s.reqs|)).reqs == TurnedAway(s, sid).reqs;
  }

  /** That happens on the server as it starts: ten runs fill its channel and the eleventh
      request is turned away. */
  lemma BusyIsReached() returns (steps: seq<Step>, t: State)
    ensures Reaches(Init(), steps, t) && |t.reqs| == 11 && t.sems == [Semaphore(10, 10)]
    ensures TurnedAwayBusy(t.reqs[10]) && IsRunning(t.sessions, t.reqs[10].sid)
    ensures forall i | 0 <= i < 10 :: t.reqs[i].pc.Live?
  {
    t := TurnedAway(Filled(10), Name(10));
    var first := ToFilled(10);
    FillIs(10, 10);
    NamesAreValid(10);
    var second := FullTurnsAway(Filled(10), Name(10));
    ReachesJoin(Init(), first, Filled(10), second, t);
    steps := first + second;
    AllLive(10);
  }

  lemma {:induction false} AllLive(n: nat)
    ensures |LiveRuns(n)| == n && forall i | 0 <= i < n :: LiveRuns(n)[i].pc.Live?
  {
    if n > 0 {
      AllLive(n - 1);
    }
  }
}
