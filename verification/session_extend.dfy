/**
 How a session of the C API learns about nodes (c_api.cc): nodes are added to the graph under
 its mutex; before each run a session takes a snapshot of what is new under the same mutex
 and sends it to the runtime, which may refuse it, while other threads go on adding.
 */
module SessionExtend {
  import opened Options

  type Name = string
  type Sid = nat

  /** One entry per node id; None where the node was removed.  Ids 0 and 1 are source and sink. */
  type Nodes = seq<Option<Name>>

  predicate IsOp(nodes: Nodes, id: int) {
    2 <= id < |nodes| && nodes[id].Some?
  }

  /** The live op nodes with ids in [from, to), in id order. */
  function LiveOps(nodes: Nodes, from: nat, to: nat): seq<nat>
    decreases to
  {
    if to <= from then []
    else if IsOp(nodes, to - 1) then LiveOps(nodes, from, to - 1) + [to - 1]
    else LiveOps(nodes, from, to - 1)
  }

  /** A snapshot on its way to the runtime. */
  datatype Batch = Batch(numNodes: nat, ids: seq<nat>)

  /** pending is there while the session's mutex is held. */
  datatype Session = Session(lastNumGraphNodes: nat, pending: Option<Batch>, sent: seq<nat>)

  datatype State = State(nodes: Nodes, nameMap: map<Name, nat>, sessions: map<Sid, Session>)

  const INIT: State := State([Some("_SOURCE"), Some("_SINK")], map[], map[])

  /** How adding a node ends: refused by the builder, refused by shape inference, or added. */
  datatype Outcome = NotBuilt | NotInferred | Added

  datatype Step =
    | FinishOperation(name: Name, outcome: Outcome)
    | NewSession(sid: Sid)
    | Snapshot(sid: Sid)
    | ExtendSucceeds(sid: Sid)
    | ExtendFails(sid: Sid)
    | DeleteSession(sid: Sid)

  function AddNode(s: State, name: Name, outcome: Outcome): State {
    if name in s.nameMap then s
    else
      match outcome
      case NotBuilt => s
      case NotInferred => s.(nodes := s.nodes + [None])
      case Added => s.(nodes := s.nodes + [Some(name)], nameMap := s.nameMap[name := |s.nodes|])
  }

  /** Under the session's and the graph's mutex: collect what is new. */
  function TakeSnapshot(nodes: Nodes, session: Session): Session {
    var numNodes := |nodes|;
    if session.lastNumGraphNodes < numNodes
    then session.(pending := Some(Batch(numNodes, LiveOps(nodes, session.lastNumGraphNodes, numNodes))))
    else session
  }

  function Complete(session: Session): Session
    requires session.pending.Some?
  {
    Session(session.pending.value.numNodes, None, session.sent + session.pending.value.ids)
  }

  /** A step that is blocked, or not possible, changes nothing. */
  function Apply(s: State, step: Step): State {
    match step
    case FinishOperation(name, outcome) => AddNode(s, name, outcome)
    case NewSession(sid) => if sid in s.sessions then s else s.(sessions := s.sessions[sid := Session(0, None, [])])
    case Snapshot(sid) =>
      if sid in s.sessions && s.sessions[sid].pending.None?
      then s.(sessions := s.sessions[sid := TakeSnapshot(s.nodes, s.sessions[sid])]) else s
    case ExtendSucceeds(sid) =>
      if sid in s.sessions && s.sessions[sid].pending.Some?
      then s.(sessions := s.sessions[sid := Complete(s.sessions[sid])]) else s
    case ExtendFails(sid) =>
      if sid in s.sessions && s.sessions[sid].pending.Some?
      then s.(sessions := s.sessions[sid := s.sessions[sid].(pending := None)]) else s
    case DeleteSession(sid) =>
      if sid in s.sessions && s.sessions[sid].pending.None?
      then s.(sessions := s.sessions - {sid}) else s
  }

  /** The steps of all threads in the order in which they happen. */
  function Run(steps: seq<Step>): State {
    if steps == [] then INIT else Apply(Run(steps[..|steps| - 1]), steps[|steps| - 1])
  }

  // ---------------------------------------------------------------------------------------
  // Snapshots.

  predicate Increasing(ids: seq<nat>) {
    forall i, j :: 0 <= i < j < |ids| ==> ids[i] < ids[j]
  }

  lemma {:induction false} LiveOpsAre(nodes: Nodes, from: nat, to: nat)
    requires to <= |nodes|
    ensures forall id :: id in LiveOps(nodes, from, to) <==> from <= id < to && IsOp(nodes, id)
    ensures Increasing(LiveOps(nodes, from, to))
    ensures forall i :: 0 <= i < |LiveOps(nodes, from, to)| ==> LiveOps(nodes, from, to)[i] < to
  {
    if from < to {
      LiveOpsAre(nodes, from, to - 1);
    }
  }

  lemma {:induction false} LiveOpsJoin(nodes: Nodes, from: nat, mid: nat, to: nat)
    requires from <= mid <= to
    ensures LiveOps(nodes, from, mid) + LiveOps(nodes, mid, to) == LiveOps(nodes, from, to)
  {
    if mid < to {
      LiveOpsJoin(nodes, from, mid, to - 1);
    }
  }

  /** Nodes added later do not change it. */
  lemma {:induction false} LiveOpsGrow(nodes: Nodes, more: Nodes, from: nat, to: nat)
    requires to <= |nodes|
    ensures LiveOps(nodes + more, from, to) == LiveOps(nodes, from, to)
  {
    if from < to {
      LiveOpsGrow(nodes, more, from, to - 1);
    }
  }

  /** The loop over ids. */
  method CollectNodes(nodes: Nodes, lastNumGraphNodes: nat) returns (ids: seq<nat>)
    ensures ids == LiveOps(nodes, lastNumGraphNodes, |nodes|)
  {
    ids := [];
    var id := lastNumGraphNodes;
    while id < |nodes|
      invariant lastNumGraphNodes <= id && (id <= |nodes| || id == lastNumGraphNodes)
      invariant ids == LiveOps(nodes, lastNumGraphNodes, id)
    {
      if nodes[id].Some? && id > 1 {
        ids := ids + [id];
      }
      id := id + 1;
    }
  }

  // ---------------------------------------------------------------------------------------
  // The invariant.

  /** The name map names exactly the live op nodes, each by its own name. */
  ghost predicate NamesInv(nodes: Nodes, nameMap: map<Name, nat>) {
    && |nodes| >= 2
    && (forall name :: name in nameMap ==> IsOp(nodes, nameMap[name]) && nodes[nameMap[name]].value == name)
    && (forall id :: IsOp(nodes, id) ==> nodes[id].value in nameMap && nameMap[nodes[id].value] == id)
  }

  ghost predicate SessionInv(nodes: Nodes, session: Session) {
    && session.lastNumGraphNodes <= |nodes|
    && session.sent == LiveOps(nodes, 0, session.lastNumGraphNodes)
    && (session.pending.Some? ==>
          var batch := session.pending.value;
          && session.lastNumGraphNodes <= batch.numNodes <= |nodes|
          && batch.ids == LiveOps(nodes, session.lastNumGraphNodes, batch.numNodes))
  }

  ghost predicate Inv(s: State) {
    NamesInv(s.nodes, s.nameMap) && forall sid :: sid in s.sessions ==> SessionInv(s.nodes, s.sessions[sid])
  }

  lemma SessionSurvives(nodes: Nodes, more: Nodes, session: Session)
    requires SessionInv(nodes, session)
    ensures SessionInv(nodes + more, session)
  {
    LiveOpsGrow(nodes, more, 0, session.lastNumGraphNodes);
    if session.pending.Some? {
      LiveOpsGrow(nodes, more, session.lastNumGraphNodes, session.pending.value.numNodes);
    }
  }

  lemma CompleteKeeps(nodes: Nodes, session: Session)
    requires SessionInv(nodes, session) && session.pending.Some?
    ensures SessionInv(nodes, Complete(session))
  {
    LiveOpsJoin(nodes, 0, session.lastNumGraphNodes, session.pending.value.numNodes);
  }

  /** Adding a node keeps all sessions and older nodes; only one that is added gets an id and its name. */
  lemma AddNodeKeeps(s: State, name: Name, outcome: Outcome)
    requires Inv(s)
    ensures var s' := AddNode(s, name, outcome);
      && Inv(s') && s'.sessions == s.sessions && s.nodes <= s'.nodes
      && if outcome == Added && name !in s.nameMap
         then IsOp(s'.nodes, |s.nodes|) && s'.nameMap == s.nameMap[name := |s.nodes|]
         else s'.nameMap == s.nameMap && forall id :: id >= |s.nodes| ==> !IsOp(s'.nodes, id)
  {
    hide SessionInv;
    forall sid, more | sid in s.sessions ensures SessionInv(s.nodes + more, s.sessions[sid]) {
      SessionSurvives(s.nodes, more, s.sessions[sid]);
    }
  }

  lemma NothingSent(nodes: Nodes)
    ensures SessionInv(nodes, Session(0, None, []))
  {
  }

  lemma ApplyKeeps(s: State, step: Step)
    requires Inv(s)
    ensures Inv(Apply(s, step))
  {
    hide LiveOps, NamesInv, AddNode;
    match step {
      case FinishOperation(name, outcome) => AddNodeKeeps(s, name, outcome);
      case ExtendSucceeds(sid) =>
        if sid in s.sessions && s.sessions[sid].pending.Some? {
          CompleteKeeps(s.nodes, s.sessions[sid]);
        }
      case NewSession(sid) => NothingSent(s.nodes);
      case _ =>
    }
  }

  lemma {:induction false} RunInv(steps: seq<Step>)
    ensures Inv(Run(steps))
  {
    if steps != [] {
      RunInv(steps[..|steps| - 1]);
      ApplyKeeps(Run(steps[..|steps| - 1]), steps[|steps| - 1]);
    }
  }

  // ---------------------------------------------------------------------------------------
  // What the comments on ExtendSessionGraphHelper promise.

  /** A session has been sent exactly the live op nodes below its mark, in id order and so once each. */
  lemma SentExactlyOnce(steps: seq<Step>, sid: Sid)
    requires sid in Run(steps).sessions
    ensures var s := Run(steps); var session := s.sessions[sid];
      && session.lastNumGraphNodes <= |s.nodes|
      && (forall id :: id in session.sent <==> id < session.lastNumGraphNodes && IsOp(s.nodes, id))
      && Increasing(session.sent)
  {
    hide Run, LiveOps;
    RunInv(steps);
    var s := Run(steps);
    LiveOpsAre(s.nodes, 0, s.sessions[sid].lastNumGraphNodes);
  }

  /** What a session has been sent and what is on its way. */
  function SentOrPending(session: Session): seq<nat> {
    if session.pending.Some? then session.sent + session.pending.value.ids else session.sent
  }

  /** The runtime never sees a name twice. */
  lemma NamesSentOnce(steps: seq<Step>, sid: Sid, i: nat, j: nat)
    requires sid in Run(steps).sessions && i < j < |SentOrPending(Run(steps).sessions[sid])|
    ensures var s := Run(steps); var ids := SentOrPending(s.sessions[sid]);
      IsOp(s.nodes, ids[i]) && IsOp(s.nodes, ids[j]) && s.nodes[ids[i]] != s.nodes[ids[j]]
  {
    hide Run, LiveOps;
    RunInv(steps);
    var s := Run(steps);
    var session := s.sessions[sid];
    var mark := if session.pending.Some? then session.pending.value.numNodes else session.lastNumGraphNodes;
    LiveOpsJoin(s.nodes, 0, session.lastNumGraphNodes, mark);
    LiveOpsAre(s.nodes, 0, mark);
    var ids := LiveOps(s.nodes, 0, mark);
    assert ids == SentOrPending(session) && ids[i] in ids && ids[j] in ids && ids[i] != ids[j];
  }

  /** Adding nodes, and anything another session does. */
  predicate Elsewhere(step: Step, sid: Sid) {
    step.FinishOperation? || step.sid != sid
  }

  /** A snapshot that the runtime refuses leaves no trace, whatever others did meanwhile. */
  lemma FailedExtendLosesNothing(steps: seq<Step>, sid: Sid, others: seq<Step>)
    requires sid in Run(steps).sessions && Run(steps).sessions[sid].pending.None?
    requires forall step :: step in others ==> Elsewhere(step, sid)
    ensures sid in Run(steps + [Snapshot(sid)] + others + [ExtendFails(sid)]).sessions
    ensures Run(steps + [Snapshot(sid)] + others + [ExtendFails(sid)]).sessions[sid] == Run(steps).sessions[sid]
  {
    AppendStep(steps, Snapshot(sid));
    OthersKeepSession(steps + [Snapshot(sid)], sid, others);
    AppendStep(steps + [Snapshot(sid)] + others, ExtendFails(sid));
  }

  lemma AppendStep(steps: seq<Step>, step: Step)
    ensures Run(steps + [step]) == Apply(Run(steps), step)
  {
    assert (steps + [step])[..|steps|] == steps;
  }

  lemma ElsewhereKeeps(s: State, step: Step, sid: Sid)
    requires sid in s.sessions && Elsewhere(step, sid)
    ensures sid in Apply(s, step).sessions && Apply(s, step).sessions[sid] == s.sessions[sid]
  {
  }

  lemma {:induction false} OthersKeepSession(steps: seq<Step>, sid: Sid, others: seq<Step>)
    requires sid in Run(steps).sessions && forall step :: step in others ==> Elsewhere(step, sid)
    ensures sid in Run(steps + others).sessions && Run(steps + others).sessions[sid] == Run(steps).sessions[sid]
  {
    hide Run, Apply, Elsewhere;
    if others == [] {
      assert steps + others == steps;
    } else {
      var before, last := others[..|others| - 1], others[|others| - 1];
      OthersKeepSession(steps, sid, before);
      AppendStep(steps + before, last);
      assert steps + before + [last] == steps + others;
      assert last in others;
      ElsewhereKeeps(Run(steps + before), last, sid);
    }
  }

  /** Whatever failed before, the next Extend that succeeds brings the session up to its snapshot. */
  lemma SuccessCatchesUp(steps: seq<Step>, sid: Sid, others: seq<Step>)
    requires sid in Run(steps).sessions && Run(steps).sessions[sid].pending.None?
    requires forall step :: step in others ==> Elsewhere(step, sid)
    ensures sid in Run(steps + [Snapshot(sid)] + others + [ExtendSucceeds(sid)]).sessions
    ensures var session := Run(steps + [Snapshot(sid)] + others + [ExtendSucceeds(sid)]).sessions[sid];
      && session.lastNumGraphNodes == |Run(steps).nodes|
      && session.sent == LiveOps(Run(steps).nodes, 0, |Run(steps).nodes|)
  {
    RunInv(steps);
    var session := Run(steps).sessions[sid];
    LiveOpsJoin(Run(steps).nodes, 0, session.lastNumGraphNodes, |Run(steps).nodes|);
    AppendStep(steps, Snapshot(sid));
    OthersKeepSession(steps + [Snapshot(sid)], sid, others);
    AppendStep(steps + [Snapshot(sid)] + others, ExtendSucceeds(sid));
  }

  /** A session starts with nothing sent, and its first Extend that succeeds sends every live op. */
  lemma FirstExtendSendsEverything(steps: seq<Step>, sid: Sid, others: seq<Step>)
    requires sid !in Run(steps).sessions && forall step :: step in others ==> Elsewhere(step, sid)
    ensures var s := Run(steps + [NewSession(sid)]);
      s == Run(steps).(sessions := Run(steps).sessions[sid := Session(0, None, [])])
    ensures var s := Run(steps + [NewSession(sid)] + [Snapshot(sid)] + others + [ExtendSucceeds(sid)]);
      && sid in s.sessions
      && Increasing(s.sessions[sid].sent)
      && forall id :: id in s.sessions[sid].sent <==> IsOp(Run(steps).nodes, id)
  {
    AppendStep(steps, NewSession(sid));
    SuccessCatchesUp(steps + [NewSession(sid)], sid, others);
    hide Run, LiveOps;
    LiveOpsAre(Run(steps).nodes, 0, |Run(steps).nodes|);
  }

  /** A node that has been added reaches every session with its next Extend that succeeds. */
  lemma AddedNodeIsSent(steps: seq<Step>, name: Name, sid: Sid, others: seq<Step>)
    requires sid in Run(steps).sessions && Run(steps).sessions[sid].pending.None?
    requires name !in Run(steps).nameMap && forall step :: step in others ==> Elsewhere(step, sid)
    ensures var added := steps + [FinishOperation(name, Added)]; var id := |Run(steps).nodes|;
      var s := Run(added + [Snapshot(sid)] + others + [ExtendSucceeds(sid)]);
      && IsOp(Run(added).nodes, id) && Run(added).nodes[id] == Some(name)
      && sid in s.sessions && id in s.sessions[sid].sent
  {
    var added := steps + [FinishOperation(name, Added)];
    AppendStep(steps, FinishOperation(name, Added));
    RunInv(steps);
    SuccessCatchesUp(added, sid, others);
    hide Run, LiveOps;
    LiveOpsAre(Run(added).nodes, 0, |Run(added).nodes|);
  }

  /** A session with nothing on its way can be deleted; all else stays. */
  lemma DeletedSessionIsGone(steps: seq<Step>, sid: Sid)
    requires sid in Run(steps).sessions && Run(steps).sessions[sid].pending.None?
    ensures Run(steps + [DeleteSession(sid)]) == Run(steps).(sessions := Run(steps).sessions - {sid})
  {
    AppendStep(steps, DeleteSession(sid));
  }
}
