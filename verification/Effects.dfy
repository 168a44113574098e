/**
 What single transactions leave, told from the rows they find: operator actions, repair dispatch and
 acknowledgement, and a repair from its dispatch to its success.
 */
module Effects {
  import opened Wrappers
  import opened Rows
  import opened Tasks
  import opened Commands
  import opened Files
  import opened Executors
  import opened Runs
  import opened Serving
  import Recovery
  import RepairBytes
  import PipelineReplay
  import Coverage
  import Lineage
  import TextSplit
  import E = EdgeAgents

  // ----- nodes -------------------------------------------------------------------------------

  /** What a node's last heartbeat said of it, if it has sent one. */
  function LastHeard(events: seq<Event>, node: string): Option<bool> {
    if events == [] then None
    else
      var last := events[|events| - 1];
      if last.Heartbeat? && last.node == node then Some(last.isReplica) else LastHeard(events[..|events| - 1], node)
  }

  lemma {:induction false} RunSnoc(cfg: Config, w: World, events: seq<Event>)
    requires events != []
    ensures Run(cfg, w, events) == Step(cfg, Run(cfg, w, events[..|events| - 1]), events[|events| - 1])
    decreases |events|
  {
    if |events| > 1 {
      RunSnoc(cfg, Step(cfg, w, events[0]), events[1..]);
      assert events[1..][..|events| - 2] == events[..|events| - 1][1..];
    } else {
      assert Run(cfg, Step(cfg, w, events[0]), []) == Step(cfg, w, events[0]);
      assert events[1..] == [] && events[..0] == [];
    }
  }

  lemma WorkKeepsNodes(cfg: Config, h: Hub, t: nat, delivery: Delivery, foreignOk: bool)
    requires t < |h.tasks|
    ensures FinishTask(cfg, h, t, delivery, foreignOk).nodes == h.nodes
  {
    assert Execute(cfg, h, t, foreignOk).hub.nodes == h.nodes;
  }

  lemma NodeKeepsNodes(cfg: Config, h: Hub, stage: Node, f: nat, hash: string, content: Option<string>)
    ensures RunNode(cfg, h, stage, f, hash, content).hub.nodes == h.nodes
  {}

  lemma QuietStepKeepsNodes(cfg: Config, w: World, ev: Event)
    requires !ev.Heartbeat? && !ev.Finish? && !ev.PipelineStep? && !ev.EdgeAck?
    ensures Step(cfg, w, ev).hub.nodes == w.hub.nodes
  {}

  lemma StageKeepsNodes(cfg: Config, w: World, e: nat, stage: Node)
    ensures StepPipeline(cfg, w, e, stage).nodes == w.hub.nodes
  {
    if IsOpen(w, e) && w.hub.tasks[w.execs[e].task].work.RunPipeline? {
      var work := w.hub.tasks[w.execs[e].task].work;
      NodeKeepsNodes(cfg, w.hub, stage, work.fileId, work.fileHash, work.content);
    }
  }

  lemma OnlyHeartbeatsChangeNodes(cfg: Config, w: World, ev: Event)
    ensures Step(cfg, w, ev).hub.nodes == if ev.Heartbeat? then w.hub.nodes[ev.node := ev.isReplica] else w.hub.nodes
  {
    match ev
    case Finish(e, foreignOk) =>
      if IsOpen(w, e) {
        WorkKeepsNodes(cfg, w.hub, w.execs[e].task, w.execs[e].delivery, foreignOk);
      }
    case PipelineStep(e, stage) => StageKeepsNodes(cfg, w, e, stage);
    case EdgeAck(node, c, ack) => AckKeepsNodes(w.hub, node, c, ack);
    case Heartbeat(_, _) =>
    case _ => QuietStepKeepsNodes(cfg, w, ev);
  }

  lemma AckKeepsNodes(h: Hub, node: string, c: nat, ack: Ack)
    ensures Acknowledge(h, node, c, ack).hub.nodes == h.nodes
  {}

  /** In every run the center knows exactly the nodes that have been heard of, as they last said. */
  lemma {:induction false} NodesAreAsLastHeard(cfg: Config, events: seq<Event>, node: string)
    ensures var nodes := Run(cfg, Init, events).hub.nodes;
      LastHeard(events, node) == if node in nodes then Some(nodes[node]) else None
    decreases |events|
  {
    if events != [] {
      var before := events[..|events| - 1];
      NodesAreAsLastHeard(cfg, before, node);
      RunSnoc(cfg, Init, events);
      OnlyHeartbeatsChangeNodes(cfg, Run(cfg, Init, before), events[|events| - 1]);
    }
  }

  // ----- operators and clients ------------------------------------------------------------------

  /** The transition table read by its targets: work starts only from pending, ends only from running
      or waiting, goes back to pending from these and from failed, and is cancelled only before it starts. */
  lemma TransitionsByTarget(from: TaskStatus)
    ensures MayBecome(from, Running) <==> from == Pending
    ensures MayBecome(from, Cancelled) <==> from == Pending
    ensures MayBecome(from, Success) <==> from == Running || from == Waiting
    ensures MayBecome(from, Failed) <==> from == Running || from == Waiting
    ensures MayBecome(from, Pending) <==> from == Running || from == Waiting || from == Failed
    ensures !MayBecome(from, Waiting)
    ensures (forall to :: !MayBecome(from, to)) <==> from == Success || from == Cancelled
  {
    assert MayBecome(Pending, Running) && MayBecome(Running, Pending) && MayBecome(Waiting, Pending) && MayBecome(Failed, Pending);
  }

  /** A retry makes a running, waiting or failed task pending and unclaimed, one endpoint only a
      repair; any other retry is refused and changes nothing. */
  lemma RetryRequeuesIff(cfg: Config, w: World, t: nat, repairsOnly: bool)
    ensures var h, w' := w.hub, Step(cfg, w, OperatorRetry(t, repairsOnly));
      if t < |h.tasks| && h.tasks[t].status in {Running, Waiting, Failed} && (repairsOnly ==> h.tasks[t].work.RepairReplica?)
      then w' == w.(hub := h.(tasks := h.tasks[t := h.tasks[t].(status := Pending, claimedAt := None, claimedBy := None)]))
      else w' == w
  {}

  /** A client's task is created pending unless its key is known. */
  lemma CreateIsIdempotent(cfg: Config, w: World, name: string, work: Work)
    ensures var h, w' := w.hub, Step(cfg, w, Create(name, work));
      && ((exists t :: 0 <= t < |h.tasks| && h.tasks[t].key == ClientTask(name)) ==> w' == w)
      && (IsNew(h.tasks, ClientTask(name)) ==> w' == w.(hub := h.(tasks := h.tasks + [Task(ClientTask(name), work, Pending, 0, None, None)])))
  {}

  /** A client's command is queued for its node unless its key is known or its node is not. */
  lemma CommandIsIdempotent(cfg: Config, w: World, name: string, node: string)
    ensures var h, w' := w.hub, Step(cfg, w, QueueCommand(name, node));
      if node in h.nodes && (forall c :: 0 <= c < |h.commands| ==> h.commands[c].key != ClientCommand(name))
      then w' == w.(hub := h.(commands := h.commands + [Command(ClientCommand(name), node, OtherCommand, CQueued, None)],
                              audit := h.audit + [CommandQueued(|h.commands|)]))
      else w' == w
  {}

  /** Deleting a file drops its chunks and replicas, and those only, and leaves a tombstone that
      neither the gateway nor the search serves. */
  lemma DeleteLeavesATombstone(cfg: Config, w: World, f: nat)
    requires f < |w.hub.files|
    ensures var h, h' := w.hub, Step(cfg, w, Delete(f)).hub;
      && h' == h.(chunks := h'.chunks, replicas := h'.replicas, files := h.files[f := h.files[f].(alive := false, status := Deleted)])
      && (forall g :: g in h'.chunks <==> g in h.chunks && g != f) && (forall g :: g in h'.chunks ==> h'.chunks[g] == h.chunks[g])
      && (forall k :: k in h'.replicas <==> k in h.replicas && k.0 != f) && (forall k :: k in h'.replicas ==> h'.replicas[k] == h.replicas[k])
      && Gateway(h', f) == None
      && forall admits: SearchRuns.Filter, c: Search.Candidate :: c in SearchRuns.Candidates(h', admits) ==> c.file != f
  {
    var h' := Step(cfg, w, Delete(f)).hub;
    forall admits: SearchRuns.Filter, c: Search.Candidate | c in SearchRuns.Candidates(h', admits) ensures c.file != f {
      RankedIff(h', admits, c);
    }
  }

  // ----- repairs: dispatch -------------------------------------------------------------------------

  /** The row of a task's sync command. */
  predicate IsCommandOf(h: Hub, c: nat, t: nat) {
    c < |h.commands| && h.commands[c].key == ReplicaSync(t)
  }

  ghost predicate UniqueCommands(commands: seq<Command>) {
    forall c, d :: 0 <= c < d < |commands| ==> commands[c].key != commands[d].key
  }

  lemma FindCommandIs(commands: seq<Command>, c: nat)
    requires UniqueCommands(commands) && c < |commands|
    ensures FindCommand(commands, commands[c].key) == Some(c)
  {}

  predicate MayDispatch(h: Hub, f: nat, hash: string, node: string) {
    f < |h.files| && h.files[f].hash == hash && node in h.nodes && h.nodes[node]
  }

  /** A finishing repair for a recorded version and a replica node waits for its one command: queued
      for that node with version and path when there is none, queued again when it has failed, left
      alone otherwise.  Any other repair fails and leaves the commands alone. */
  lemma RepairFinishIff(cfg: Config, w: World, e: nat, foreignOk: bool)
    requires IsOpen(w, e) && w.hub.tasks[w.execs[e].task].work.RepairReplica? && UniqueCommands(w.hub.commands)
    ensures var h, h' := w.hub, Step(cfg, w, Finish(e, foreignOk)).hub; var t := w.execs[e].task; var work := h.tasks[t].work;
      && |h'.tasks| == |h.tasks| && h' == h.(tasks := h.tasks[t := h'.tasks[t]], commands := h'.commands, audit := h'.audit)
      && if MayDispatch(h, work.fileId, work.fileHash, work.node) then
           && FinishedAs(h.tasks[t], h'.tasks[t], Waiting)
           && ((forall c: nat :: !IsCommandOf(h, c, t)) ==>
               h'.commands == h.commands + [Command(ReplicaSync(t), work.node, SyncReplica(t, work.fileId, work.fileHash, h.files[work.fileId].path), CQueued, None)])
           && (forall c: nat :: IsCommandOf(h, c, t) ==>
               h'.commands == if h.commands[c].status == CFailed then h.commands[c := h.commands[c].(status := CQueued, claimedAt := None)] else h.commands)
         else FinishedAs(h.tasks[t], h'.tasks[t], Failed) && h'.commands == h.commands
  {
    var h, t := w.hub, w.execs[e].task;
    var work := h.tasks[t].work;
    forall c: nat | IsCommandOf(h, c, t) ensures FindCommand(h.commands, ReplicaSync(t)) == Some(c) {
      FindCommandIs(h.commands, c);
    }
    var known := FindCommand(h.commands, ReplicaSync(t));
    assert known.Some? ==> IsCommandOf(h, known.value, t);
    DispatchOnly(cfg, h, t, w.execs[e].delivery, foreignOk);
  }

  lemma DispatchOnly(cfg: Config, h: Hub, t: nat, delivery: Delivery, foreignOk: bool)
    requires t < |h.tasks| && h.tasks[t].work.RepairReplica?
    ensures var o := ExecuteRepair(h, t, h.tasks[t].work.fileId, h.tasks[t].work.fileHash, h.tasks[t].work.node);
      var h' := FinishTask(cfg, h, t, delivery, foreignOk);
      && o.hub == h.(commands := o.hub.commands, audit := o.hub.audit)
      && h' == h.(tasks := h.tasks[t := h.tasks[t].(status := if o.ok then Waiting else Failed, claimedAt := None, claimedBy := None)],
                  commands := o.hub.commands, audit := h'.audit)
  {}

  /** Work without an executor of its own ends as the outside says, work without effect always well. */
  lemma ForeignFinishIff(cfg: Config, w: World, e: nat, foreignOk: bool)
    requires IsOpen(w, e) && (w.hub.tasks[w.execs[e].task].work.External? || w.hub.tasks[w.execs[e].task].work.Noop?)
    ensures var h, h' := w.hub, Step(cfg, w, Finish(e, foreignOk)).hub; var t := w.execs[e].task;
      var status := if foreignOk || h.tasks[t].work.Noop? then Success else Failed;
      && |h'.tasks| == |h.tasks| && FinishedAs(h.tasks[t], h'.tasks[t], status)
      && h' == h.(tasks := h.tasks[t := h'.tasks[t]], audit := h.audit + [TaskFinished(t, status)])
  {}

  /** A finishing register task marks the recorded version registered, or fails. */
  lemma RegisterFinishIff(cfg: Config, w: World, e: nat, foreignOk: bool)
    requires IsOpen(w, e) && w.hub.tasks[w.execs[e].task].work.RegisterFile?
    ensures var h, h' := w.hub, Step(cfg, w, Finish(e, foreignOk)).hub; var t := w.execs[e].task; var f := h.tasks[t].work.fileId;
      && |h'.tasks| == |h.tasks|
      && if f < |h.files| && h.files[f].hash == h.tasks[t].work.fileHash
         then FinishedAs(h.tasks[t], h'.tasks[t], Success) && h'.files == h.files[f := h.files[f].(status := Registered)]
         else FinishedAs(h.tasks[t], h'.tasks[t], Failed) && h'.files == h.files
  {
    var h, t := w.hub, w.execs[e].task;
    if SameVersion(h, h.tasks[t].work.fileId, h.tasks[t].work.fileHash) {
      FinishOk(cfg, h, t, w.execs[e].delivery, foreignOk);
    }
  }

  // ----- repairs: acknowledgement --------------------------------------------------------------------

  /** An acknowledgement is accepted from the command's own node while the command is outstanding; one
      that only reports running renews the claim. */
  predicate Accepts(h: Hub, node: string, c: nat) {
    && c < |h.commands| && h.commands[c].node == node && h.commands[c].status in {CQueued, CRunning}
    && (h.commands[c].kind.SyncReplica? ==> h.commands[c].kind.repairTask < |h.tasks|)
  }

  /** The replica is what the command asked for, and what the record still is. */
  predicate Confirms(h: Hub, kind: CommandKind, ack: Ack)
    requires kind.SyncReplica?
  {
    ack.verified && ack.fileHash == Some(kind.fileHash) && kind.fileId < |h.files| && h.files[kind.fileId].hash == kind.fileHash
  }

  lemma AckSettlesIff(cfg: Config, w: World, node: string, c: nat, ack: Ack)
    ensures var h, w' := w.hub, Step(cfg, w, EdgeAck(node, c, ack)); var h' := w'.hub;
      if !Accepts(h, node, c) then w' == w
      else
        var kind := h.commands[c].kind;
        var good := ack.status == AckSuccess && (kind.SyncReplica? ==> Confirms(h, kind, ack));
        var status := if ack.status == AckRunning then CRunning else if good then CSuccess else CFailed;
        && w'.execs == w.execs && |h'.commands| == |h.commands| && h'.audit == h.audit + [CommandAcked(c, status)]
        && h'.commands == h.commands[c := h.commands[c].(status := status, claimedAt := if ack.status == AckRunning then Some(h.now) else None)]
        && (kind.OtherCommand? ==> h'.tasks == h.tasks && h'.replicas == h.replicas)
        && (kind.SyncReplica? ==>
            && h'.tasks == h.tasks[kind.repairTask := h.tasks[kind.repairTask].(claimedAt := None, claimedBy := None,
                 status := if ack.status == AckRunning then h.tasks[kind.repairTask].status else if good then Success else Failed)]
            && h'.replicas == if good then h.replicas[(kind.fileId, node) := Replica(kind.fileHash, true, h.now)] else h.replicas)
  {}

  /** Which calls are refused; a refused one leaves the database alone. */
  lemma RefusedIff(cfg: Config, h: Hub, name: string, node: string, f: nat, hash: string, content: string, t: nat, to: TaskStatus, repairsOnly: bool)
    ensures CreateCommand(h, name, node).ok <==>
      node in h.nodes || exists c :: 0 <= c < |h.commands| && h.commands[c].key == ClientCommand(name)
    ensures Transition(h, t, to).ok <==> t < |h.tasks| && MayBecome(h.tasks[t].status, to)
    ensures Retry(h, t, repairsOnly).ok <==>
      t < |h.tasks| && h.tasks[t].status in {Running, Waiting, Failed} && (repairsOnly ==> h.tasks[t].work.RepairReplica?)
    ensures QueueParse(cfg, h, f, node, hash, content).ok <==>
      f < |h.files| && h.files[f].source == node && h.files[f].hash == hash && cfg.sha(content) == hash
    ensures DeleteFile(h, f).ok <==> f < |h.files|
    ensures !CreateCommand(h, name, node).ok ==> CreateCommand(h, name, node).hub == h
    ensures !Transition(h, t, to).ok ==> Transition(h, t, to).hub == h
    ensures !Retry(h, t, repairsOnly).ok ==> Retry(h, t, repairsOnly).hub == h
    ensures !QueueParse(cfg, h, f, node, hash, content).ok ==> QueueParse(cfg, h, f, node, hash, content).hub == h
    ensures !DeleteFile(h, f).ok ==> DeleteFile(h, f).hub == h
  {
    var found := FindCommand(h.commands, ClientCommand(name));
    if found.Some? {
      assert h.commands[found.value].key == ClientCommand(name);
    }
  }

  /** A transition changes one row: its status, its attempts when it starts, and its claim when it does not. */
  lemma TransitionLeaves(h: Hub, t: nat, to: TaskStatus)
    requires Transition(h, t, to).ok
    ensures var h' := Transition(h, t, to).hub;
      && t < |h.tasks| == |h'.tasks| && h' == h.(tasks := h.tasks[t := h'.tasks[t]])
      && h'.tasks[t].(status := h.tasks[t].status, attempts := h.tasks[t].attempts,
                      claimedAt := h.tasks[t].claimedAt, claimedBy := h.tasks[t].claimedBy) == h.tasks[t]
      && h'.tasks[t].status == to
      && h'.tasks[t].attempts - h.tasks[t].attempts == (if to == Running then 1 else 0)
      && (if to == Running then h'.tasks[t].claimedAt == h.tasks[t].claimedAt && h'.tasks[t].claimedBy == h.tasks[t].claimedBy
          else h'.tasks[t].claimedAt == None && h'.tasks[t].claimedBy == None)
  {}

  lemma AckRefusedIff(h: Hub, node: string, c: nat, ack: Ack)
    ensures Acknowledge(h, node, c, ack).ok <==> Accepts(h, node, c)
    ensures !Acknowledge(h, node, c, ack).ok ==> Acknowledge(h, node, c, ack).hub == h
  {}

  // ----- a repair from its dispatch to its success ---------------------------------------------------

  /** A repair of a recorded version for a replica node that has no command yet: delivered, dispatched,
      handed to the node once nothing older is claimable, and acknowledged by an agent that finds the
      bytes at the record's path, it ends successful, with its command successful and a healthy replica
      recorded. */
  lemma RepairRoundTrip(cfg: Config, agent: E.AgentConfig, w: World, t: nat, worker: string, locked: set<nat>, site: E.Site)
    requires t < |w.hub.tasks| && w.hub.tasks[t].status == Pending && w.hub.tasks[t].work.RepairReplica?
    requires var work := w.hub.tasks[t].work; MayDispatch(w.hub, work.fileId, work.fileHash, work.node)
    requires UniqueCommands(w.hub.commands) && forall c: nat :: !IsCommandOf(w.hub, c, t)
    requires var work := w.hub.tasks[t].work;
      E.Executed(agent, Some(w.hub.files[work.fileId].path), Some(work.fileHash), site).success
    requires |w.hub.commands| !in locked
    requires forall i: nat :: Recovery.Claimable(cfg, w.hub, w.hub.tasks[t].work.node, i) ==> i in locked
    ensures var c, e, work := |w.hub.commands|, |w.execs|, w.hub.tasks[t].work;
      var claimed := Run(cfg, w, [CeleryDelivery(t, worker), Finish(e, true), EdgeClaim(work.node, locked)]);
      && c < |claimed.hub.commands| && claimed.hub.commands[c].status == CRunning && claimed.hub.commands[c].kind.SyncReplica?
      && var kind := claimed.hub.commands[c].kind;
      var h' := Step(cfg, claimed, EdgeAck(work.node, c, RepairBytes.Received(E.Executed(agent, Some(kind.path), Some(kind.fileHash), site)))).hub;
      && t < |h'.tasks| && h'.tasks[t].status == Success && c < |h'.commands| && h'.commands[c].status == CSuccess
      && (work.fileId, work.node) in h'.replicas && h'.replicas[(work.fileId, work.node)] == Replica(work.fileHash, true, w.hub.now)
  {
    var c, e, work := |w.hub.commands|, |w.execs|, w.hub.tasks[t].work;
    var w1 := Delivered(cfg, w, t, worker);
    forall d: nat ensures !IsCommandOf(w1.hub, d, t) {
      assert !IsCommandOf(w.hub, d, t);
    }
    var w2 := Dispatched(cfg, w1, e, t);
    var w3 := Step(cfg, w2, EdgeClaim(work.node, locked));
    forall i: nat | i < c && Recovery.Claimable(cfg, w2.hub, work.node, i) ensures i in locked {
      assert Recovery.Claimable(cfg, w.hub, work.node, i);
    }
    assert Recovery.IsFirstClaimable(cfg, w2.hub, work.node, locked, c);
    Recovery.EdgeClaimTakesFirst(cfg, w2, work.node, locked, c);
    ThreeSteps(cfg, w, CeleryDelivery(t, worker), Finish(e, true), EdgeClaim(work.node, locked), []);
    assert [CeleryDelivery(t, worker), Finish(e, true), EdgeClaim(work.node, locked)] + []
      == [CeleryDelivery(t, worker), Finish(e, true), EdgeClaim(work.node, locked)];
    AgentSettles(cfg, agent, w3, c, t, site);
  }

  lemma Dispatched(cfg: Config, w: World, e: nat, t: nat) returns (w': World)
    requires IsOpen(w, e) && w.execs[e].task == t && w.hub.tasks[t].work.RepairReplica?
    requires var work := w.hub.tasks[t].work; MayDispatch(w.hub, work.fileId, work.fileHash, work.node)
    requires UniqueCommands(w.hub.commands) && forall c: nat :: !IsCommandOf(w.hub, c, t)
    ensures w' == Step(cfg, w, Finish(e, true)) && |w'.hub.tasks| == |w.hub.tasks| && w'.hub.tasks[t].work == w.hub.tasks[t].work
    ensures w'.hub == w.hub.(tasks := w'.hub.tasks, commands := w'.hub.commands, audit := w'.hub.audit)
    ensures var work := w.hub.tasks[t].work;
      w'.hub.commands == w.hub.commands + [Command(ReplicaSync(t), work.node, SyncReplica(t, work.fileId, work.fileHash, w.hub.files[work.fileId].path), CQueued, None)]
  {
    w' := Step(cfg, w, Finish(e, true));
    RepairFinishIff(cfg, w, e, true);
  }

  lemma AgentSettles(cfg: Config, agent: E.AgentConfig, w: World, c: nat, t: nat, site: E.Site)
    requires c < |w.hub.commands| && w.hub.commands[c].status == CRunning && t < |w.hub.tasks|
    requires var kind := w.hub.commands[c].kind;
      && kind.SyncReplica? && kind.repairTask == t && kind.fileId < |w.hub.files| && w.hub.files[kind.fileId].hash == kind.fileHash
      && E.Executed(agent, Some(kind.path), Some(kind.fileHash), site).success
    ensures var kind, node := w.hub.commands[c].kind, w.hub.commands[c].node;
      var h' := Step(cfg, w, EdgeAck(node, c, RepairBytes.Received(E.Executed(agent, Some(kind.path), Some(kind.fileHash), site)))).hub;
      && t < |h'.tasks| && h'.tasks[t].status == Success && c < |h'.commands| && h'.commands[c].status == CSuccess
      && (kind.fileId, node) in h'.replicas && h'.replicas[(kind.fileId, node)] == Replica(kind.fileHash, true, w.hub.now)
  {
    var kind, node := w.hub.commands[c].kind, w.hub.commands[c].node;
    var ack := E.Executed(agent, Some(kind.path), Some(kind.fileHash), site);
    E.SuccessMeansEqualBytes(agent, Some(kind.path), Some(kind.fileHash), site);
    AckSettlesIff(cfg, w, node, c, RepairBytes.Received(ack));
  }

  // ----- a whole pipeline run -----------------------------------------------------------------------

  lemma {:induction false} PipelineKeys(h: Hub, f: nat, hash: string, policy: seq<string>, key: TaskKey)
    ensures Coverage.HasKey(PipelineRepairs(h, f, hash, policy), key) <==>
      key.ReplicaRepair? && key == ReplicaRepair(f, hash, key.node) && key.node in policy && FindTask(h.tasks, key).None?
    decreases |policy|
  {
    if policy != [] {
      PipelineKeys(h, f, hash, policy[1..], key);
      var own := ReplicaRepair(f, hash, policy[0]);
      var head := if FindTask(h.tasks, own).None? then [NewTask(own, RepairReplica(f, hash, policy[0]))] else [];
      Coverage.HasKeyConcat(head, PipelineRepairs(h, f, hash, policy[1..]), key);
      assert head != [] ==> head[0].key == own;
      assert policy == [policy[0]] + policy[1..];
    }
  }

  lemma {:induction false} PipelineDistinct(h: Hub, f: nat, hash: string, policy: seq<string>)
    requires Coverage.Distinct(policy)
    ensures DistinctKeys(PipelineRepairs(h, f, hash, policy))
    decreases |policy|
  {
    if policy != [] {
      PipelineDistinct(h, f, hash, policy[1..]);
      var own := ReplicaRepair(f, hash, policy[0]);
      var head := if FindTask(h.tasks, own).None? then [NewTask(own, RepairReplica(f, hash, policy[0]))] else [];
      forall key ensures !(Coverage.HasKey(head, key) && Coverage.HasKey(PipelineRepairs(h, f, hash, policy[1..]), key)) {
        PipelineKeys(h, f, hash, policy[1..], key);
      }
      Coverage.DistinctConcat(head, PipelineRepairs(h, f, hash, policy[1..]));
    }
  }

  ghost predicate HaveRepairs(tasks: seq<Task>, f: nat, hash: string, policy: seq<string>) {
    forall node :: node in policy ==> Coverage.HasKey(tasks, ReplicaRepair(f, hash, node))
  }

  /** With distinct policy nodes, a pipeline run over a text of the recorded version, not blank, ends
      well: the version is parsed, its rows are the text's, each embedded by itself, and every policy
      node has a repair task for it. */
  lemma PipelineDelivers(cfg: Config, h: Hub, f: nat, hash: string, content: string)
    requires CanParse(cfg, h, f, hash, Some(content)) && Coverage.Distinct(cfg.replicaNodes)
    ensures var o := RunNodes(cfg, h, PIPELINE, f, hash, Some(content));
      && o.ok && f in o.hub.chunks && o.hub == h.(files := o.hub.files, chunks := h.chunks[f := o.hub.chunks[f]], tasks := o.hub.tasks)
      && o.hub.files == h.files[f := h.files[f].(status := Parsed)]
      && Lineage.RowsOf(cfg, o.hub.chunks[f], hash, content)
      && (forall i :: 0 <= i < |o.hub.chunks[f]| ==> o.hub.chunks[f][i].embedding == Some(cfg.embed(o.hub.chunks[f][i].content)))
      && h.tasks <= o.hub.tasks && HaveRepairs(o.hub.tasks, f, hash, cfg.replicaNodes)
  {
    PipelineReplay.RunNodesIsWhole(cfg, h, f, hash, Some(content));
    var h1 := NodeRegistered(h, f, hash);
    var h2 := NodeParsed(cfg, h1, f, hash, content);
    var h3 := NodeEmbedded(cfg, h2, f, hash, content);
    var h4 := NodeRepaired(cfg, h3, f, hash);
    Rewritten(h, h1, h2, h3, f);
    assert PipelineReplay.Whole(cfg, h, f, hash, Some(content)) == Outcome(h4, true);
  }

  lemma Rewritten(h: Hub, h1: Hub, h2: Hub, h3: Hub, f: nat)
    requires f < |h.files| && f < |h1.files| && h1 == h.(files := h.files[f := h.files[f].(status := h1.files[f].status)])
    requires f in h2.chunks && h2 == h1.(files := h1.files[f := h1.files[f].(status := Parsed)], chunks := h1.chunks[f := h2.chunks[f]])
    requires f in h3.chunks && h3 == h2.(chunks := h2.chunks[f := h3.chunks[f]])
    ensures h3 == h.(files := h.files[f := h.files[f].(status := Parsed)], chunks := h.chunks[f := h3.chunks[f]])
  {
    assert h3.files == h.files[f := h.files[f].(status := Parsed)];
    assert h3.chunks == h.chunks[f := h3.chunks[f]];
  }

  lemma NodeRegistered(h: Hub, f: nat, hash: string) returns (h': Hub)
    requires SameVersion(h, f, hash)
    ensures RunRegisterNode(h, f, hash) == Outcome(h', true) && |h'.files| == |h.files| && h'.files[f].hash == hash
    ensures h' == h.(files := h.files[f := h.files[f].(status := h'.files[f].status)])
  {
    h' := RunRegisterNode(h, f, hash).hub;
    assert h.files[f := h.files[f]] == h.files;
  }

  lemma NodeRepaired(cfg: Config, h: Hub, f: nat, hash: string) returns (h': Hub)
    requires SameVersion(h, f, hash) && Coverage.Distinct(cfg.replicaNodes)
    ensures RunReplicaNode(cfg, h, f, hash) == Outcome(h', true) && h' == h.(tasks := h'.tasks)
    ensures h.tasks <= h'.tasks && HaveRepairs(h'.tasks, f, hash, cfg.replicaNodes)
  {
    PipelineDistinct(h, f, hash, cfg.replicaNodes);
    forall node | node in cfg.replicaNodes
      ensures Coverage.HasKey(h.tasks + PipelineRepairs(h, f, hash, cfg.replicaNodes), ReplicaRepair(f, hash, node))
    {
      PipelineCovers(cfg, h, f, hash, node);
    }
    h' := RunReplicaNode(cfg, h, f, hash).hub;
  }

  lemma NodeParsed(cfg: Config, h: Hub, f: nat, hash: string, content: string) returns (h': Hub)
    requires CanParse(cfg, h, f, hash, Some(content))
    ensures RunParseNode(cfg, h, f, hash, Some(content)) == Outcome(h', true)
    ensures f in h'.chunks && h' == h.(files := h.files[f := h.files[f].(status := Parsed)], chunks := h.chunks[f := h'.chunks[f]])
    ensures Lineage.RowsOf(cfg, h'.chunks[f], hash, content)
  {
    ParsableIff(cfg, h, f, hash, Some(content));
    h' := RunParseNode(cfg, h, f, hash, Some(content)).hub;
  }

  lemma NodeEmbedded(cfg: Config, h: Hub, f: nat, hash: string, content: string) returns (h': Hub)
    requires f in h.chunks && Lineage.RowsOf(cfg, h.chunks[f], hash, content)
    ensures RunEmbedNode(cfg, h, f, hash) == Outcome(h', true)
    ensures f in h'.chunks && h' == h.(chunks := h.chunks[f := h'.chunks[f]]) && Lineage.RowsOf(cfg, h'.chunks[f], hash, content)
    ensures forall i :: 0 <= i < |h'.chunks[f]| ==> h'.chunks[f][i].embedding == Some(cfg.embed(h'.chunks[f][i].content))
  {
    var rows := h.chunks[f];
    assert rows[0].fileHash == hash;
    RowsThereIff(rows, hash);
    h' := RunEmbedNode(cfg, h, f, hash).hub;
    forall i | 0 <= i < |rows| ensures Lineage.SameText(rows[i], h'.chunks[f][i]) {}
  }

  lemma PipelineCovers(cfg: Config, h: Hub, f: nat, hash: string, node: string)
    requires node in cfg.replicaNodes
    ensures Coverage.HasKey(h.tasks + PipelineRepairs(h, f, hash, cfg.replicaNodes), ReplicaRepair(f, hash, node))
  {
    var key := ReplicaRepair(f, hash, node);
    PipelineKeys(h, f, hash, cfg.replicaNodes, key);
    Coverage.HasKeyConcat(h.tasks, PipelineRepairs(h, f, hash, cfg.replicaNodes), key);
    Coverage.FindTaskIff(h.tasks, key);
  }
}
