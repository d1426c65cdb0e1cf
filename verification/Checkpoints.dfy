/** Checkpoints of a flow and resuming from the latest one.

    A checkpoint file is named after the flow and the node, so a node's file is
    overwritten each time the node completes; Load takes the newest of the files whose
    names begin with the flow's id.  The file system is a map from names to contents,
    and encoding to JSON and back is faithful. */
module Checkpoints {
  import opened Options
  import opened Flows
  import Text

  datatype Checkpoint = Checkpoint(flowID: string, nodeID: string, timestamp: int, data: Data)

  type Files = map<string, Checkpoint>

  function FileName(flowID: string, nodeID: string): string {
    flowID + "_" + nodeID + ".json"
  }

  /** The glob `flowID_*.json`. */
  predicate Matches(flowID: string, name: string) {
    |flowID| + 6 <= |name| && name[..|flowID| + 1] == flowID + "_" && name[|name| - 5..] == ".json"
  }

  predicate HasDotDot(id: string) {
    2 <= |id| && (id[..2] == ".." || HasDotDot(id[1..]))
  }

  predicate CleanID(id: string) {
    0 < Text.ByteLength(id) <= 128 && '/' !in id && '\\' !in id && !HasDotDot(id)
  }

  /** A clean id is not empty, has at most 128 bytes, and neither a separator nor two dots
      in a row. */
  lemma CleanIff(id: string)
    ensures CleanID(id) <==>
              && id != "" && Text.ByteLength(id) <= 128 && (forall c | c in id :: c != '/' && c != '\\')
              && forall i | 0 <= i < |id| - 1 :: !(id[i] == '.' && id[i + 1] == '.')
  {
    DotDotIs(id);
    Text.ByteLengthAtLeast(id);
  }

  lemma {:induction false} DotDotIs(id: string)
    ensures HasDotDot(id) <==> exists i :: 0 <= i < |id| - 1 && id[i] == '.' && id[i + 1] == '.'
  {
    if |id| >= 2 {
      DotDotIs(id[1..]);
      if id[..2] == ".." {
        assert id[0] == '.' && id[0 + 1] == '.';
      }
      if HasDotDot(id) && id[..2] != ".." {
        var i :| 0 <= i < |id[1..]| - 1 && id[1..][i] == '.' && id[1..][i + 1] == '.';
        assert id[i + 1] == '.' && id[i + 2] == '.';
      }
      if i :| 0 <= i < |id| - 1 && id[i] == '.' && id[i + 1] == '.' {
        if i > 0 {
          assert id[1..][i - 1] == '.' && id[1..][i] == '.';
        } else {
          assert id[..2] == "..";
        }
      }
    }
  }

  /** Clean ids name a file inside the directory of the checkpoints. */
  lemma CleanNamesStayInside(flowID: string, nodeID: string)
    requires CleanID(flowID) && CleanID(nodeID)
    ensures var name := FileName(flowID, nodeID);
            name != "" && name != "." && name != ".." && '/' !in name && '\\' !in name
  {
    assert |FileName(flowID, nodeID)| >= 6;
  }

  lemma OwnFilesMatch(flowID: string, nodeID: string)
    ensures Matches(flowID, FileName(flowID, nodeID))
  {
  }

  function Written(files: Files, flowID: string, nodeID: string, data: Data, now: int): Files {
    if CleanID(flowID) && CleanID(nodeID) then files[FileName(flowID, nodeID) := Checkpoint(flowID, nodeID, now, data)]
    else files
  }

  /** The newest of the flow's files. */
  ghost predicate Latest(files: Files, flowID: string, name: string) {
    && name in files && Matches(flowID, name)
    && forall other | other in files && Matches(flowID, other) :: files[other].timestamp <= files[name].timestamp
  }

  predicate NothingToLoad(files: Files, flowID: string) {
    !CleanID(flowID) || forall name | name in files :: !Matches(flowID, name)
  }

  class CheckpointManager {
    var files: Files

    constructor ()
      ensures files == map[]
    {
      files := map[];
    }

    method Save(flowID: string, nodeID: string, data: Data, now: int) returns (ok: bool)
      modifies this
      ensures files == Written(old(files), flowID, nodeID, data, now)
      ensures ok == (CleanID(flowID) && CleanID(nodeID))
    {
      if !CleanID(flowID) || !CleanID(nodeID) {
        return false;
      }
      files := files[FileName(flowID, nodeID) := Checkpoint(flowID, nodeID, now, data)];
      return true;
    }

    method Load(flowID: string) returns (latest: Option<Checkpoint>)
      ensures latest.None? <==> NothingToLoad(files, flowID)
      ensures latest.Some? ==> exists name :: Latest(files, flowID, name) && files[name] == latest.value
    {
      latest := None;
      if CleanID(flowID) {
        latest := Newest(flowID);
      }
    }

    method Newest(flowID: string) returns (latest: Option<Checkpoint>)
      ensures latest.None? <==> forall name | name in files :: !Matches(flowID, name)
      ensures latest.Some? ==> exists name :: Latest(files, flowID, name) && files[name] == latest.value
    {
      latest := None;
      var matches := set name | name in files && Matches(flowID, name);
      var left := matches;
      while left != {}
        invariant left <= matches && NewestOf(files, matches - left, latest)
        decreases left
      {
        var name :| name in left;
        NewestWith(files, matches - left, latest, name);
        assert matches - (left - {name}) == (matches - left) + {name};
        left := left - {name};
        if latest.None? || latest.value.timestamp < files[name].timestamp {
          latest := Some(files[name]);
        }
      }
      assert matches - left == matches;
      AllMatches(files, flowID, matches, latest);
    }
  }

  /** The newest of the files with these names, if there are any. */
  ghost predicate NewestOf(files: Files, names: set<string>, latest: Option<Checkpoint>) {
    && (latest.None? <==> names == {})
    && (latest.Some? ==> exists best :: best in names && IsBest(files, names, best) && files[best] == latest.value)
  }

  ghost predicate IsBest(files: Files, names: set<string>, best: string) {
    best in files && forall name | name in names && name in files :: files[name].timestamp <= files[best].timestamp
  }

  lemma NewestWith(files: Files, names: set<string>, latest: Option<Checkpoint>, name: string)
    requires NewestOf(files, names, latest) && name in files
    ensures var newer := latest.None? || latest.value.timestamp < files[name].timestamp;
            NewestOf(files, names + {name}, if newer then Some(files[name]) else latest)
  {
    if latest.None? || latest.value.timestamp < files[name].timestamp {
      assert IsBest(files, names + {name}, name);
    } else {
      var best :| best in names && IsBest(files, names, best) && files[best] == latest.value;
      assert IsBest(files, names + {name}, best);
    }
  }

  lemma AllMatches(files: Files, flowID: string, matches: set<string>, latest: Option<Checkpoint>)
    requires forall name :: name in matches <==> name in files && Matches(flowID, name)
    requires NewestOf(files, matches, latest)
    ensures latest.None? <==> forall name | name in files :: !Matches(flowID, name)
    ensures latest.Some? ==> exists name :: Latest(files, flowID, name) && files[name] == latest.value
  {
    if latest.Some? {
      var best :| best in matches && IsBest(files, matches, best) && files[best] == latest.value;
      assert Latest(files, flowID, best);
    } else {
      assert forall name | name in files :: name !in matches;
    }
  }

  // ----- Running a sequential flow writes a trail of checkpoints -----

  /** No parallel nodes. */
  ghost predicate Sequential(nodes: Nodes) {
    forall id | id in nodes :: !nodes[id].ParallelNode?
  }

  datatype Saved = Saved(nodeID: string, before: Data, data: Data)

  /** The checkpoints that the engine writes, oldest first, with the state each node was given. */
  function Trail(nodes: Nodes, id: string, s: Data, depth: nat): seq<Saved>
    decreases MAX_FLOW_DEPTH + 1 - depth
  {
    if depth > MAX_FLOW_DEPTH || id == "" || id !in nodes || nodes[id].ParallelNode? then []
    else if Effect(nodes[id], s).Err? then []
    else
      var t := Effect(nodes[id], s).state;
      [Saved(id, s, t)] + Trail(nodes, Successor(nodes[id], s), t, depth + 1)
  }

  /** What a node makes of the state it is given. */
  function NodeOutcome(nodes: Nodes, sched: Schedule, path: seq<nat>, id: string, s: Data, depth: nat): Outcome
    requires id in nodes && depth <= MAX_FLOW_DEPTH
  {
    if nodes[id].ParallelNode? then AfterBranches(nodes, sched, path, id, s, depth) else Effect(nodes[id], s)
  }

  /** The same for any flow, without the checkpoints that branches write. */
  function Visits(nodes: Nodes, sched: Schedule, path: seq<nat>, id: string, s: Data, depth: nat): seq<Saved>
    decreases MAX_FLOW_DEPTH + 1 - depth
  {
    if depth > MAX_FLOW_DEPTH || id == "" || id !in nodes then []
    else
      match NodeOutcome(nodes, sched, path, id, s, depth)
      case Err => []
      case Ok(t) => [Saved(id, s, t)] + Visits(nodes, sched, path + [0], Successor(nodes[id], s), t, depth + 1)
  }

  lemma {:induction false} VisitsOfSequential(nodes: Nodes, sched: Schedule, path: seq<nat>, id: string, s: Data,
                                              depth: nat)
    requires Sequential(nodes)
    ensures Visits(nodes, sched, path, id, s, depth) == Trail(nodes, id, s, depth)
    decreases MAX_FLOW_DEPTH + 1 - depth
  {
    if depth <= MAX_FLOW_DEPTH && id != "" && id in nodes && Effect(nodes[id], s).Ok? {
      VisitsOfSequential(nodes, sched, path + [0], Successor(nodes[id], s), Effect(nodes[id], s).state, depth + 1);
    }
  }

  /** What the node of a visit did, by its type: a step its action, a map node what its law
      says, a parallel node what its branches came to; a router and a reduce node nothing. */
  ghost predicate VisitLaw(nodes: Nodes, sched: Schedule, v: Saved) {
    v.nodeID in nodes &&
    match nodes[v.nodeID]
    case StepNode(action, _) => action(v.before) == Ok(v.data)
    case RouterNode(_, _) => v.data == v.before
    case MapNode(_, _, _, _) => MapLaw(nodes[v.nodeID], v.before, Ok(v.data))
    case ReduceNode(_, _) => v.data == v.before
    case ParallelNode(_, _) => exists path, depth :: JoinedAt(nodes, sched, path, depth, v)
  }

  ghost predicate JoinedAt(nodes: Nodes, sched: Schedule, path: seq<nat>, depth: nat, v: Saved)
    requires v.nodeID in nodes && nodes[v.nodeID].ParallelNode?
  {
    depth <= MAX_FLOW_DEPTH && AfterBranches(nodes, sched, path, v.nodeID, v.before, depth) == Ok(v.data)
  }

  /** Where a visit leads: to the choice of a router, else to the first successor, if any. */
  predicate LeadsTo(nodes: Nodes, v: Saved, id: string)
    requires v.nodeID in nodes
  {
    match nodes[v.nodeID]
    case RouterNode(router, _) => id == router(v.before)
    case node => id == if node.next == [] then "" else node.next[0]
  }

  lemma VisitFollowsLaw(nodes: Nodes, sched: Schedule, path: seq<nat>, id: string, s: Data, depth: nat)
    requires id in nodes && depth <= MAX_FLOW_DEPTH && NodeOutcome(nodes, sched, path, id, s, depth).Ok?
    ensures VisitLaw(nodes, sched, Saved(id, s, NodeOutcome(nodes, sched, path, id, s, depth).state))
    ensures LeadsTo(nodes, Saved(id, s, NodeOutcome(nodes, sched, path, id, s, depth).state), Successor(nodes[id], s))
  {
    var v := Saved(id, s, NodeOutcome(nodes, sched, path, id, s, depth).state);
    if nodes[id].MapNode? {
      MapNodeLaw(nodes[id], s);
    } else if nodes[id].ParallelNode? {
      assert JoinedAt(nodes, sched, path, depth, v);
    }
  }

  /** Visits one after the other, from node `id` in state `s` to no node in state `final`. */
  ghost predicate IsPath(nodes: Nodes, sched: Schedule, visits: seq<Saved>, id: string, s: Data, final: Data) {
    if visits == [] then id == "" && final == s
    else
      var v := visits[0];
      && id != "" && v.nodeID == id && v.before == s && VisitLaw(nodes, sched, v)
      && exists next :: LeadsTo(nodes, v, next) && IsPath(nodes, sched, visits[1..], next, v.data, final)
  }

  /** A run that succeeds is such a path: no node is skipped, and each is given what the one
      before it left. */
  lemma {:induction false} RunIsAPath(nodes: Nodes, sched: Schedule, path: seq<nat>, id: string, s: Data, depth: nat)
    requires Exec(nodes, sched, path, id, s, depth).Ok?
    ensures IsPath(nodes, sched, Visits(nodes, sched, path, id, s, depth), id, s,
                   Exec(nodes, sched, path, id, s, depth).state)
    decreases MAX_FLOW_DEPTH + 1 - depth
  {
    if id != "" {
      var visits := Visits(nodes, sched, path, id, s, depth);
      var t, next := NodeOutcome(nodes, sched, path, id, s, depth).state, Successor(nodes[id], s);
      VisitFollowsLaw(nodes, sched, path, id, s, depth);
      RunIsAPath(nodes, sched, path + [0], next, t, depth + 1);
      assert visits[1..] == Visits(nodes, sched, path + [0], next, t, depth + 1);
    }
  }

  /** The files after the first checkpoints of a trail, written at strictly increasing times. */
  function FilesAfter(files: Files, flowID: string, trail: seq<Saved>, start: int): Files {
    if trail == [] then files
    else
      var n := |trail| - 1;
      Written(FilesAfter(files, flowID, trail[..n], start), flowID, trail[n].nodeID, trail[n].data, start + n)
  }

  /** A trail may be written from its front as well. */
  lemma {:induction false} FilesAfterFirst(files: Files, flowID: string, first: Saved, rest: seq<Saved>, start: int)
    ensures FilesAfter(files, flowID, [first] + rest, start)
         == FilesAfter(Written(files, flowID, first.nodeID, first.data, start), flowID, rest, start + 1)
  {
    var all := [first] + rest;
    if rest == [] {
      assert all[..0] == [];
    } else {
      var n := |rest| - 1;
      assert all[..n + 1] == [first] + rest[..n] && all[n + 1] == rest[n];
      FilesAfterFirst(files, flowID, first, rest[..n], start);
    }
  }

  ghost predicate OlderThan(files: Files, flowID: string, time: int) {
    forall name | name in files && Matches(flowID, name) :: files[name].timestamp < time
  }

  lemma {:induction false} FilesStayOlder(files: Files, flowID: string, trail: seq<Saved>, start: int)
    requires OlderThan(files, flowID, start)
    ensures OlderThan(FilesAfter(files, flowID, trail, start), flowID, start + |trail|)
  {
    if trail != [] {
      FilesStayOlder(files, flowID, trail[..|trail| - 1], start);
    }
  }

  /** Load finds the checkpoint that was written last, whatever older files there are. */
  lemma LastCheckpointIsLatest(files: Files, flowID: string, trail: seq<Saved>, start: int, name: string)
    requires OlderThan(files, flowID, start) && CleanID(flowID) && trail != [] && CleanID(trail[|trail| - 1].nodeID)
    requires Latest(FilesAfter(files, flowID, trail, start), flowID, name)
    ensures var last := trail[|trail| - 1];
            FilesAfter(files, flowID, trail, start)[name]
            == Checkpoint(flowID, last.nodeID, start + |trail| - 1, last.data)
  {
    var n := |trail| - 1;
    FilesStayOlder(files, flowID, trail[..n], start);
    OwnFilesMatch(flowID, trail[n].nodeID);
    var own := FileName(flowID, trail[n].nodeID);
    var after := FilesAfter(files, flowID, trail, start);
    assert own in after && after[own].timestamp == start + n;
  }

  // ----- Resuming -----

  /** Unmarshalling into the state of the flow overlays the keys of the checkpoint. */
  function Restored(state: Data, data: Data): Data {
    state + data
  }

  function Resume(nodes: Nodes, sched: Schedule, state: Data, cp: Checkpoint): Outcome {
    if cp.nodeID !in nodes then Err
    else if nodes[cp.nodeID].next == [] then Ok(Restored(state, cp.data))
    else Exec(nodes, sched, [], nodes[cp.nodeID].next[0], Restored(state, cp.data), 0)
  }

  /** The checkpoints that resuming writes. */
  function ResumeVisits(nodes: Nodes, sched: Schedule, state: Data, cp: Checkpoint): seq<Saved> {
    if cp.nodeID !in nodes || nodes[cp.nodeID].next == [] then []
    else Visits(nodes, sched, [], nodes[cp.nodeID].next[0], Restored(state, cp.data), 0)
  }

  /** Restoring is exact precisely when the checkpoint has every key the flow starts with. */
  lemma RestoredExactly(state: Data, data: Data)
    ensures Restored(state, data) == data <==> state.Keys <= data.Keys
  {
    if state.Keys <= data.Keys {
      assert Restored(state, data).Keys == data.Keys;
    } else {
      var k :| k in state && k !in data;
      assert k in Restored(state, data);
    }
  }

  /** In a sequential flow, what succeeds at some depth succeeds with the same state at
      any smaller depth. */
  lemma {:induction false} ShallowerSucceeds(nodes: Nodes, sched: Schedule, path: seq<nat>, path': seq<nat>,
                                             id: string, s: Data, depth: nat, depth': nat)
    requires Sequential(nodes) && depth' <= depth && Exec(nodes, sched, path, id, s, depth).Ok?
    ensures Exec(nodes, sched, path', id, s, depth') == Exec(nodes, sched, path, id, s, depth)
    decreases MAX_FLOW_DEPTH + 1 - depth
  {
    if id != "" {
      ShallowerSucceeds(nodes, sched, path + [0], path' + [0], Successor(nodes[id], s), Effect(nodes[id], s).state,
                        depth + 1, depth' + 1);
    }
  }

  /** The depth guard: a run that succeeds has completed at most 256 nodes, whatever
      cycles the flow has. */
  lemma {:induction false} SuccessIsShort(nodes: Nodes, sched: Schedule, path: seq<nat>, id: string, s: Data,
                                          depth: nat)
    requires Sequential(nodes) && Exec(nodes, sched, path, id, s, depth).Ok?
    ensures depth + |Trail(nodes, id, s, depth)| <= MAX_FLOW_DEPTH
    decreases MAX_FLOW_DEPTH + 1 - depth
  {
    if id != "" {
      SuccessIsShort(nodes, sched, path + [0], Successor(nodes[id], s), Effect(nodes[id], s).state, depth + 1);
    }
  }

  /** Continuing after the k-th checkpoint of a successful run reaches its final state. */
  lemma {:induction false} ContinueFrom(nodes: Nodes, sched: Schedule, path: seq<nat>, id: string, s: Data,
                                        depth: nat, k: nat)
    requires Sequential(nodes) && Exec(nodes, sched, path, id, s, depth).Ok?
    requires k < |Trail(nodes, id, s, depth)|
    ensures var cp := Trail(nodes, id, s, depth)[k];
            && cp.nodeID in nodes
            && Exec(nodes, sched, [], Successor(nodes[cp.nodeID], cp.before), cp.data, 0)
               == Exec(nodes, sched, path, id, s, depth)
    decreases k
  {
    var t := Effect(nodes[id], s).state;
    var next := Successor(nodes[id], s);
    if k == 0 {
      ShallowerSucceeds(nodes, sched, path + [0], [], next, t, depth + 1, 0);
    } else {
      ContinueFrom(nodes, sched, path + [0], next, t, depth + 1, k - 1);
    }
  }

  /** No action drops a key of `state`. */
  ghost predicate KeepsKeys(nodes: Nodes, state: Data) {
    forall id: string, s: Data | id in nodes && nodes[id].StepNode? && state.Keys <= s.Keys
      && nodes[id].action(s).Ok? ::
      state.Keys <= nodes[id].action(s).state.Keys
  }

  lemma {:induction false} TrailKeepsKeys(nodes: Nodes, state: Data, id: string, s: Data, depth: nat, k: nat)
    requires KeepsKeys(nodes, state) && state.Keys <= s.Keys && k < |Trail(nodes, id, s, depth)|
    ensures state.Keys <= Trail(nodes, id, s, depth)[k].data.Keys
    decreases k
  {
    var t := Effect(nodes[id], s).state;
    assert state.Keys <= t.Keys;
    if k > 0 {
      TrailKeepsKeys(nodes, state, Successor(nodes[id], s), t, depth + 1, k - 1);
    }
  }

  /** The checkpointed node continues where its Next says: true of every node type but a
      router, which continues where it chose. */
  predicate FollowsNext(nodes: Nodes, cp: Saved)
    requires cp.nodeID in nodes
  {
    Successor(nodes[cp.nodeID], cp.before) == FirstOf(nodes[cp.nodeID].next)
  }

  /** The files when a run over older files stopped after its checkpoint `k`. */
  function FilesAt(nodes: Nodes, initial: string, state: Data, flowID: string, files: Files, start: int, k: nat): Files
    requires k < |Trail(nodes, initial, state, 0)|
  {
    FilesAfter(files, flowID, Trail(nodes, initial, state, 0)[..k + 1], start)
  }

  /** Stop a successful sequential run after any of its checkpoints, start over with a
      fresh copy of the flow, load the latest checkpoint and resume: the result is the
      final state of the run, provided that the checkpoint has every key of the initial
      state and its node goes on where its Next says. */
  lemma ResumeEqualsRun(nodes: Nodes, sched: Schedule, initial: string, state: Data, flowID: string,
                        files: Files, start: int, k: nat, name: string)
    requires Sequential(nodes) && Exec(nodes, sched, [], initial, state, 0).Ok?
    requires CleanID(flowID) && (forall id | id in nodes :: CleanID(id)) && OlderThan(files, flowID, start)
    requires k < |Trail(nodes, initial, state, 0)|
    requires var cp := Trail(nodes, initial, state, 0)[k];
             state.Keys <= cp.data.Keys && (cp.nodeID in nodes ==> FollowsNext(nodes, cp))
    requires Latest(FilesAt(nodes, initial, state, flowID, files, start, k), flowID, name)
    ensures Resume(nodes, sched, state, FilesAt(nodes, initial, state, flowID, files, start, k)[name])
         == Exec(nodes, sched, [], initial, state, 0)
  {
    var trail := Trail(nodes, initial, state, 0);
    var last := trail[k];
    assert trail[..k + 1][k] == last;
    ContinueFrom(nodes, sched, [], initial, state, 0, k);
    LastCheckpointIsLatest(files, flowID, trail[..k + 1], start, name);
    RestoredExactly(state, last.data);
  }

  lemma {:induction false} TrailIsInFlow(nodes: Nodes, id: string, s: Data, depth: nat, k: nat)
    requires k < |Trail(nodes, id, s, depth)|
    ensures Trail(nodes, id, s, depth)[k].nodeID in nodes
    decreases k
  {
    if k > 0 {
      TrailIsInFlow(nodes, Successor(nodes[id], s), Effect(nodes[id], s).state, depth + 1, k - 1);
    }
  }

  /** So flows of step, map and reduce nodes whose actions keep the initial keys can be
      resumed after any checkpoint. */
  lemma StepsCanResume(nodes: Nodes, sched: Schedule, initial: string, state: Data, flowID: string,
                       files: Files, start: int, k: nat, name: string)
    requires Sequential(nodes) && (forall id | id in nodes :: !nodes[id].RouterNode?) && KeepsKeys(nodes, state)
    requires Exec(nodes, sched, [], initial, state, 0).Ok?
    requires CleanID(flowID) && (forall id | id in nodes :: CleanID(id)) && OlderThan(files, flowID, start)
    requires k < |Trail(nodes, initial, state, 0)|
    requires Latest(FilesAt(nodes, initial, state, flowID, files, start, k), flowID, name)
    ensures Resume(nodes, sched, state, FilesAt(nodes, initial, state, flowID, files, start, k)[name])
         == Exec(nodes, sched, [], initial, state, 0)
  {
    TrailIsInFlow(nodes, initial, state, 0, k);
    TrailKeepsKeys(nodes, state, initial, state, 0, k);
    ResumeEqualsRun(nodes, sched, initial, state, flowID, files, start, k, name);
  }

  class Flow {
    const id: string
    const initial: string
    const nodes: Nodes
    var state: Data

    constructor (id: string, initial: string, nodes: Nodes, state: Data)
      ensures this.id == id && this.initial == initial && this.nodes == nodes && this.state == state
    {
      this.id, this.initial, this.nodes, this.state := id, initial, nodes, state;
    }

    /** Every node that succeeds is followed by a checkpoint, if there is a manager; times
        count the checkpoints. */
    method ExecuteNode(manager: CheckpointManager?, sched: Schedule, path: seq<nat>, nodeID: string, s: Data,
                       depth: nat, now: int)
      returns (out: Outcome)
      modifies manager
      ensures out == Exec(nodes, sched, path, nodeID, s, depth)
      ensures manager != null ==>
                manager.files == FilesAfter(old(manager.files), id, Visits(nodes, sched, path, nodeID, s, depth), now)
      decreases MAX_FLOW_DEPTH + 1 - depth
    {
      if depth > MAX_FLOW_DEPTH {
        return Err;
      }
      if nodeID == "" {
        return Ok(s);
      }
      if nodeID !in nodes {
        return Err;
      }
      var node := nodes[nodeID];
      var effect := if node.ParallelNode? then AfterBranches(nodes, sched, path, nodeID, s, depth) else Effect(node, s);
      var next := if node.ParallelNode? then FirstOf(node.next) else Successor(node, s);
      if effect.Err? {
        return Err;
      }
      ghost var rest := Visits(nodes, sched, path + [0], next, effect.state, depth + 1);
      if manager != null {
        FilesAfterFirst(manager.files, id, Saved(nodeID, s, effect.state), rest, now);
        var saved := manager.Save(id, nodeID, effect.state, now);
      }
      out := ExecuteNode(manager, sched, path + [0], next, effect.state, depth + 1, now + 1);
    }

    method RunFlow(manager: CheckpointManager?, sched: Schedule, now: int) returns (ok: bool)
      modifies this, manager
      ensures var out := Exec(nodes, sched, [], initial, old(state), 0);
              ok == out.Ok? && state == if ok then out.state else old(state)
      ensures manager != null ==>
                var visits := Visits(nodes, sched, [], initial, old(state), 0);
                manager.files == FilesAfter(old(manager.files), id, visits, now)
    {
      var out := ExecuteNode(manager, sched, [], initial, state, 0, now);
      if out.Ok? {
        state := out.state;
      }
      ok := out.Ok?;
    }

    /** A checkpoint that was found is restored into the state even if what follows fails. */
    method ResumeFlow(manager: CheckpointManager?, sched: Schedule, now: int) returns (ok: bool)
      modifies this, manager
      ensures manager == null || NothingToLoad(old(manager.files), id) ==> !ok && state == old(state)
      ensures manager != null && !NothingToLoad(old(manager.files), id) ==>
                exists name :: Latest(old(manager.files), id, name) &&
                  ResumedFrom(old(state), old(manager.files)[name], sched, ok, state) &&
                  var visits := ResumeVisits(nodes, sched, old(state), old(manager.files)[name]);
                  manager.files == FilesAfter(old(manager.files), id, visits, now)
    {
      if manager == null {
        return false;
      }
      var checkpoint := manager.Load(id);
      if checkpoint.None? {
        return false;
      }
      var cp := checkpoint.value;
      ghost var name :| Latest(manager.files, id, name) && manager.files[name] == cp;
      state := Restored(state, cp.data);
      if cp.nodeID !in nodes {
        return false;
      }
      if nodes[cp.nodeID].next == [] {
        return true;
      }
      var out := ExecuteNode(manager, sched, [], nodes[cp.nodeID].next[0], state, 0, now);
      if out.Ok? {
        state := out.state;
      }
      ok := out.Ok?;
    }

    /** The flow went from `was` to `now` by resuming from `cp`. */
    predicate ResumedFrom(was: Data, cp: Checkpoint, sched: Schedule, ok: bool, now: Data) {
      match Resume(nodes, sched, was, cp)
      case Ok(final) => ok && now == final
      case Err => !ok && now == Restored(was, cp.data)
    }
  }

  // ----- What goes wrong without the conditions -----

  /** Node "a" drops the key "x" of the initial state, node "b" reports whether it is there. */
  function Dropping(): Nodes {
    map["a" := StepNode((s: Data) => Ok(s - {"x"}), ["b"]),
        "b" := StepNode((s: Data) => Ok(s["saw" := if "x" in s then Text("x") else Null]), [])]
  }

  /** An action that drops a key of the initial state makes resuming differ from running. */
  lemma DroppedKeyComesBack(sched: Schedule)
    ensures var nodes, state := Dropping(), map["x" := Null];
            && Sequential(nodes) && !KeepsKeys(nodes, state)
            && Trail(nodes, "a", state, 0)[0] == Saved("a", state, map[])
            && Exec(nodes, sched, [], "a", state, 0) == Ok(map["saw" := Null])
            && Resume(nodes, sched, state, Checkpoint("f", "a", 0, map[])) == Ok(map["x" := Null, "saw" := Text("x")])
  {
    var nodes, state: Data := Dropping(), map["x" := Null];
    assert state - {"x"} == map[];
    assert nodes["a"].action(state) == Ok(map[]);
    assert Exec(nodes, sched, [] + [0] + [0], "", map["saw" := Null], 2) == Ok(map["saw" := Null]);
    assert Exec(nodes, sched, [] + [0], "b", map[], 1) == Ok(map["saw" := Null]);
    assert Restored(state, map[]) == state;
    assert Exec(nodes, sched, [] + [0], "", map["x" := Null, "saw" := Text("x")], 1)
      == Ok(map["x" := Null, "saw" := Text("x")]);
    assert Exec(nodes, sched, [], "b", state, 0) == Ok(map["x" := Null, "saw" := Text("x")]);
  }

  /** A router that chooses "b" while its Next begins with "a". */
  function Routing(): Nodes {
    map["r" := RouterNode((s: Data) => "b", ["a"]),
        "a" := StepNode((s: Data) => Ok(s["at" := Text("a")]), []),
        "b" := StepNode((s: Data) => Ok(s["at" := Text("b")]), [])]
  }

  /** Resuming after the checkpoint of a router follows its Next instead of its choice. */
  lemma RouterResumesElsewhere(sched: Schedule)
    ensures var nodes, state: Data := Routing(), map[];
            && Sequential(nodes) && KeepsKeys(nodes, state)
            && Trail(nodes, "r", state, 0)[0] == Saved("r", state, state)
            && Exec(nodes, sched, [], "r", state, 0) == Ok(map["at" := Text("b")])
            && Resume(nodes, sched, state, Checkpoint("f", "r", 0, state)) == Ok(map["at" := Text("a")])
  {
    var nodes, state: Data := Routing(), map[];
    var a, b: Data := map["at" := Text("a")], map["at" := Text("b")];
    assert Exec(nodes, sched, [] + [0] + [0], "", b, 2) == Ok(b);
    assert Exec(nodes, sched, [] + [0], "b", state, 1) == Ok(b);
    assert Restored(state, state) == state;
    assert Exec(nodes, sched, [] + [0], "", a, 1) == Ok(a);
    assert Exec(nodes, sched, [], "a", state, 0) == Ok(a);
  }

  predicate Begins(s: string, prefix: string) {
    |prefix| <= |s| && s[..|prefix|] == prefix
  }

  lemma {:induction false} NoDotDotInside(s: string, t: string)
    requires !HasDotDot(s) && t != "" && t[0] != '.' && !HasDotDot(t)
    ensures !HasDotDot(s + t)
  {
    if s != "" {
      NoDotDotInside(s[1..], t);
      assert (s + t)[1..] == s[1..] + t;
      if |s| == 1 {
        assert (s + t)[1] == t[0];
      } else {
        assert (s + t)[..2] == s[..2];
      }
    } else {
      assert s + t == t;
    }
  }

  lemma {:induction false} NoDotDotAfter(s: string, k: nat)
    requires !HasDotDot(s) && k <= |s|
    ensures !HasDotDot(s[k..])
  {
    if k > 0 {
      if |s| >= 2 {
        NoDotDotAfter(s[1..], k - 1);
      }
      assert s[1..][k - 1..] == s[k..];
    } else {
      assert s[0..] == s;
    }
  }

  lemma ByteLengthOfEnd(id: string, k: nat)
    requires 0 < k <= |id|
    ensures 0 < Text.ByteLength(id[k..] + "_") <= Text.ByteLength(id)
  {
    assert id == id[..k] + id[k..];
    Text.ByteLengthJoin(id[..k], id[k..]);
    Text.ByteLengthJoin(id[k..], "_");
    Text.ByteLengthAtLeast(id[..k]);
    assert Text.ByteLength("_") == 1;
  }

  /** The end of an id, after at least one character, with an underscore is an id again. */
  lemma CleanEnd(id: string, k: nat)
    requires CleanID(id) && 0 < k <= |id|
    ensures CleanID(id[k..] + "_")
  {
    NoDotDotAfter(id, k);
    NoDotDotInside(id[k..], "_");
    ByteLengthOfEnd(id, k);
  }

  lemma SharedName(flowID: string, other: string, nodeID: string)
    requires Matches(flowID, FileName(other, nodeID))
    ensures other == flowID || Begins(other, flowID + "_") || Begins(flowID, other + "_")
  {
    var name := FileName(other, nodeID);
    assert name[..|flowID| + 1] == flowID + "_";
    assert name[..|other| + 1] == other + "_";
    if |flowID| < |other| {
      assert other[..|flowID| + 1] == name[..|flowID| + 1];
    } else if |other| < |flowID| {
      assert flowID == name[..|flowID|];
      assert flowID[..|other| + 1] == name[..|other| + 1];
    } else {
      assert flowID == name[..|flowID|] && other == name[..|other|];
    }
  }

  /** Load does not look at the flow id inside a file: it can pick up a checkpoint that
      Save wrote for another flow exactly when one id continues the other after an
      underscore. */
  lemma FilesOfOtherFlows(flowID: string, other: string)
    requires CleanID(flowID) && CleanID(other)
    ensures (exists nodeID :: CleanID(nodeID) && Matches(flowID, FileName(other, nodeID)))
       <==> other == flowID || Begins(other, flowID + "_") || Begins(flowID, other + "_")
  {
    if nodeID :| CleanID(nodeID) && Matches(flowID, FileName(other, nodeID)) {
      SharedName(flowID, other, nodeID);
    }
    if other == flowID || Begins(other, flowID + "_") {
      assert Matches(flowID, FileName(other, "n")) && CleanID("n");
    } else if Begins(flowID, other + "_") {
      ContinuedName(flowID, other);
    }
  }

  lemma ContinuedName(flowID: string, other: string)
    requires CleanID(flowID) && Begins(flowID, other + "_")
    ensures CleanID(flowID[|other| + 1..] + "_") && Matches(flowID, FileName(other, flowID[|other| + 1..] + "_"))
  {
    var rest := flowID[|other| + 1..];
    var name := FileName(other, rest + "_");
    CleanEnd(flowID, |other| + 1);
    assert flowID == other + "_" + rest;
    assert name == flowID + "_.json";
    assert name[|name| - 5..] == ".json";
  }
}
