/** The server object whose maps the handlers update in place, one method per
    lock-protected block, and the counting semaphore built on a channel. */
module KickoffServer {
  import opened Options
  import opened L = KickoffLedger

  class Server {
    var idemKeys: map<string, Entry>
    var idemBySession: map<string, string>
    var sessions: map<string, Session>

    ghost function View(): Ledger
      reads this
    {
      Ledger(idemKeys, idemBySession)
    }

    constructor ()
      ensures View() == EMPTY_LEDGER && sessions == map[]
    {
      idemKeys, idemBySession, sessions := map[], map[], map[];
    }

    method CheckIdem(key: string, owner: string) returns (entry: Entry, found: bool)
      ensures found <==> key in idemKeys
                           && (owner == "" || idemKeys[key].owner == "" || idemKeys[key].owner == owner)
      ensures found ==> entry == idemKeys[key]
      ensures L.Lookup(View(), key, owner) == if found then Some(entry) else None
    {
      entry, found := Entry("", "", false, ""), false;
      if key in idemKeys {
        var e := idemKeys[key];
        if owner == "" || e.owner == "" || e.owner == owner {
          entry, found := e, true;
        }
      }
    }

    method DoIdem(op: IdemOp, key: string, owner: string, sessionID: string, status: string)
      returns (applied: bool, existingSession: string)
      modifies this`idemKeys, this`idemBySession
      ensures IdemResult(View(), applied, existingSession) == L.DoIdem(old(View()), op, key, owner, sessionID, status)
    {
      applied, existingSession := true, "";
      if key == "" && op != Finish {
        applied := false;
        return;
      }
      match op
      case Reserve =>
        if key in idemKeys {
          applied, existingSession := false, idemKeys[key].sessionID;
          return;
        }
        idemKeys := idemKeys[key := Entry(sessionID, owner, false, "")];
        idemBySession := idemBySession[sessionID := key];
      case Release =>
        if key in idemKeys && !idemKeys[key].done {
          var e := idemKeys[key];
          idemKeys := idemKeys - {key};
          idemBySession := idemBySession - {e.sessionID};
        }
      case Finalize =>
        var recorded := "";
        if key in idemKeys {
          recorded := idemKeys[key].owner;
        }
        idemKeys := idemKeys[key := Entry(sessionID, recorded, false, "")];
        idemBySession := idemBySession[sessionID := key];
      case Finish =>
        if sessionID in idemBySession {
          var k := idemBySession[sessionID];
          if k in idemKeys {
            idemKeys := idemKeys[k := idemKeys[k].(done := true, status := status)];
          }
          idemBySession := idemBySession - {sessionID};
        }
    }

    method PersistSessionStart(sessionID: string, owner: string, saved: bool) returns (outcome: StartOutcome)
      modifies this`sessions
      ensures StartResult(sessions, outcome) == L.StartSession(old(sessions), sessionID, owner, saved)
      ensures outcome == InvalidID <==> !ValidCheckpointID(sessionID)
      ensures outcome == SessionConflict <==>
                && ValidCheckpointID(sessionID) && sessionID in old(sessions)
                && (old(sessions)[sessionID].status == RUNNING || TakenByAnother(old(sessions)[sessionID].owner, owner))
      ensures outcome == Started ==> saved && sessions == old(sessions)[sessionID := Session(RUNNING, owner)]
      ensures outcome == SaveFailed ==> !saved && sessions == old(sessions) - {sessionID}
      ensures outcome == InvalidID || outcome == SessionConflict ==> sessions == old(sessions)
    {
      if !ValidCheckpointID(sessionID) {
        return InvalidID;
      }
      if sessionID in sessions {
        var existing := sessions[sessionID];
        if existing.owner != "" && owner != "" && existing.owner != owner {
          return SessionConflict;
        }
        if existing.status == RUNNING {
          return SessionConflict;
        }
      }
      ghost var before := sessions;
      sessions := sessions[sessionID := Session(RUNNING, owner)];
      if !saved {
        sessions := sessions - {sessionID};
        assert sessions == before - {sessionID};
        return SaveFailed;
      }
      return Started;
    }

    /** Two different known owners. */
    static predicate TakenByAnother(recorded: string, owner: string) {
      recorded != "" && owner != "" && recorded != owner
    }

    /** Both persistSessionFailure and persistSessionComplete. */
    method PersistSessionEnd(sessionID: string, status: string)
      modifies this`sessions
      ensures sessions == L.EndSession(old(sessions), sessionID, status)
    {
      if sessionID in sessions {
        var st := sessions[sessionID];
        sessions := sessions[sessionID := st.(status := status)];
      }
    }
  }

  /** A buffered channel of empty structs used as a semaphore. */
  class Channel {
    const capacity: nat
    var tokens: nat

    ghost predicate Valid()
      reads this
    {
      tokens <= capacity
    }

    constructor (capacity: nat)
      ensures Valid() && tokens == 0 && this.capacity == capacity
    {
      this.capacity, tokens := capacity, 0;
    }

    /** A non-blocking send: the select with a default branch. */
    method TrySend() returns (sent: bool)
      requires Valid()
      modifies this
      ensures Valid() && sent == (old(tokens) < capacity)
      ensures tokens == old(tokens) + (if sent then 1 else 0)
    {
      sent := tokens < capacity;
      if sent {
        tokens := tokens + 1;
      }
    }

    /** A receive; it would block on an empty channel. */
    method Receive()
      requires Valid() && 0 < tokens
      modifies this
      ensures Valid() && tokens == old(tokens) - 1
    {
      tokens := tokens - 1;
    }
  }
}
