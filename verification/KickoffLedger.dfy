/** The shared tables behind a kickoff request, and the effect of each block of
    code that the handlers run while holding a lock on them.

    The idempotency ledger is two maps: Idempotency-Key to entry, and session id
    back to the key whose run is still open.  The session table records the
    status and the owning token of every session id.  Creation and finish times
    are not kept: nothing below depends on them. */
module KickoffLedger {
  import opened Options

  datatype Entry = Entry(sessionID: string, owner: string, done: bool, status: string)

  datatype Ledger = Ledger(keys: map<string, Entry>, bySession: map<string, string>)

  datatype Session = Session(status: string, owner: string)

  const EMPTY_LEDGER := Ledger(map[], map[])
  const RUNNING := "running"
  const COMPLETED := "completed"
  const FAILED := "failed"

  predicate Terminal(status: string) {
    status == COMPLETED || status == FAILED
  }

  /** Two tokens are different tenants only when both are known. */
  predicate OtherTenant(recorded: string, owner: string) {
    owner != "" && recorded != "" && recorded != owner
  }

  /** What a lookup of `key` shows to `owner`: a key recorded for another tenant
      looks unseen. */
  function Lookup(l: Ledger, key: string, owner: string): Option<Entry> {
    if key !in l.keys || OtherTenant(l.keys[key].owner, owner) then None else Some(l.keys[key])
  }

  datatype IdemOp = Reserve | Release | Finalize | Finish

  datatype IdemResult = IdemResult(ledger: Ledger, applied: bool, existingSession: string)

  function ReserveKey(l: Ledger, key: string, owner: string, sid: string): Ledger {
    Ledger(l.keys[key := Entry(sid, owner, false, "")], l.bySession[sid := key])
  }

  function ReleaseKey(l: Ledger, key: string): Ledger {
    if key in l.keys && !l.keys[key].done then
      Ledger(l.keys - {key}, l.bySession - {l.keys[key].sessionID})
    else l
  }

  function FinalizeKey(l: Ledger, key: string, sid: string): Ledger {
    var owner := if key in l.keys then l.keys[key].owner else "";
    Ledger(l.keys[key := Entry(sid, owner, false, "")], l.bySession[sid := key])
  }

  function FinishSession(l: Ledger, sid: string, status: string): Ledger {
    if sid !in l.bySession then l
    else
      var key := l.bySession[sid];
      var keys := if key in l.keys then l.keys[key := l.keys[key].(done := true, status := status)] else l.keys;
      Ledger(keys, l.bySession - {sid})
  }

  /** The single mutation primitive of the ledger. */
  function DoIdem(l: Ledger, op: IdemOp, key: string, owner: string, sid: string, status: string): IdemResult {
    if key == "" && op != Finish then IdemResult(l, false, "")
    else
      match op
      case Reserve =>
        if key in l.keys then IdemResult(l, false, l.keys[key].sessionID)
        else IdemResult(ReserveKey(l, key, owner, sid), true, "")
      case Release => IdemResult(ReleaseKey(l, key), true, "")
      case Finalize => IdemResult(FinalizeKey(l, key, sid), true, "")
      case Finish => IdemResult(FinishSession(l, sid, status), true, "")
  }

  predicate ValidIDChar(c: char) {
    'A' <= c <= 'Z' || 'a' <= c <= 'z' || '0' <= c <= '9' || c == '-' || c == '_' || c == '.'
  }

  predicate ValidCheckpointID(id: string) {
    0 < |id| <= 128 && (forall k | 0 <= k < |id| :: ValidIDChar(id[k])) && id != "." && id != ".."
  }

  /** A session id that passes names one file in the directory it is joined to, no other. */
  lemma ValidIDsAreFileNames(id: string)
    ensures ValidCheckpointID(id) ==> '/' !in id && '\\' !in id && '\0' !in id && id != "." && id != ".." && id != ""
    ensures ValidCheckpointID(id) ==> |id| <= 128
    ensures 0 < |id| <= 128 && (forall c | c in id :: 'a' <= c <= 'z' || c == '-') ==> ValidCheckpointID(id)
  {
    assert forall k | 0 <= k < |id| :: id[k] in id;
    assert id == "." || id == ".." ==> id[0] == '.';
  }

  predicate IsRunning(sessions: map<string, Session>, sid: string) {
    sid in sessions && sessions[sid].status == RUNNING
  }

  datatype StartOutcome = Started | InvalidID | SessionConflict | SaveFailed

  datatype StartResult = StartResult(sessions: map<string, Session>, outcome: StartOutcome)

  /** Insert a session as running.  `saved` is the answer of the checkpoint store
      (true when no store is configured); a failed save removes the session. */
  function StartSession(sessions: map<string, Session>, sid: string, owner: string, saved: bool): StartResult {
    if !ValidCheckpointID(sid) then StartResult(sessions, InvalidID)
    else if sid in sessions && (OtherTenant(sessions[sid].owner, owner) || sessions[sid].status == RUNNING) then
      StartResult(sessions, SessionConflict)
    else if saved then StartResult(sessions[sid := Session(RUNNING, owner)], Started)
    else StartResult(sessions - {sid}, SaveFailed)
  }

  function EndSession(sessions: map<string, Session>, sid: string, status: string): map<string, Session> {
    if sid in sessions then sessions[sid := sessions[sid].(status := status)] else sessions
  }
}
