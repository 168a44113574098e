/** The polling worker on its own: every poll that finds work leaves less of it. */
module Drain {
  import opened Wrappers
  import opened Rows
  import opened Tasks
  import opened Commands
  import opened Files
  import opened Executors
  import opened Protocol

  /** The work a task may still cause; `r` is the number of policy nodes. */
  function WorkWeight(work: Work, r: nat): nat {
    match work
    case RunPipeline(_, _, _) => 1 + r
    case ParseFile(_, _, _) => 2
    case _ => 1
  }

  function TaskWeight(t: Task, r: nat): nat {
    if t.status == Pending || t.status == Running then WorkWeight(t.work, r) else 0
  }

  function Weight(tasks: seq<Task>, r: nat): nat {
    if tasks == [] then 0 else Weight(tasks[..|tasks| - 1], r) + TaskWeight(tasks[|tasks| - 1], r)
  }

  datatype PollResult = PollResult(hub: Hub, found: bool)

  /** A claimed task executed and finished with nothing in between.  A pipeline's nodes commit first. */
  function RunClaimed(cfg: Config, h: Hub, t: nat, delivery: Delivery, foreignOk: bool): Hub
    requires t < |h.tasks|
  {
    match h.tasks[t].work
    case RunPipeline(f, hash, content) =>
      if hash == "" then FinishTask(cfg, h, t, delivery, false)
      else
        var o := RunNodes(cfg, h, PIPELINE, f, hash, content);
        NodesAppend(cfg, h, PIPELINE, f, hash, content);
        FinishTask(cfg, o.hub, t, delivery, o.ok)
    case _ => FinishTask(cfg, h, t, delivery, foreignOk)
  }

  /** One poll: claim, execute, finish. */
  function RunTaskOnce(cfg: Config, h: Hub, worker: string, foreignOk: bool): PollResult {
    var claim := ClaimNext(h, worker, cfg.lease, {});
    if claim.task.None? then PollResult(claim.hub, false)
    else
      ClaimNextEffect(h, worker, cfg.lease, {});
      PollResult(RunClaimed(cfg, claim.hub, claim.task.value, Poll, foreignOk), true)
  }

  /** One Celery delivery of task `t`. */
  function RunTaskById(cfg: Config, h: Hub, t: nat, worker: string, foreignOk: bool): PollResult {
    var claim := ClaimById(h, t, worker, cfg.lease);
    if claim.task.None? then PollResult(claim.hub, false)
    else PollResult(RunClaimed(cfg, claim.hub, t, Celery, foreignOk), true)
  }

  // ----- weights ---------------------------------------------------------------------------

  lemma {:induction false} WeightUpdate(tasks: seq<Task>, t: nat, task: Task, r: nat)
    requires t < |tasks|
    ensures Weight(tasks[t := task], r) + TaskWeight(tasks[t], r) == Weight(tasks, r) + TaskWeight(task, r)
    decreases |tasks|
  {
    var last := |tasks| - 1;
    if t == last {
      assert tasks[t := task][..last] == tasks[..last];
    } else {
      assert tasks[t := task][..last] == tasks[..last][t := task];
      WeightUpdate(tasks[..last], t, task, r);
    }
  }

  lemma {:induction false} WeightConcat(a: seq<Task>, b: seq<Task>, r: nat)
    ensures Weight(a + b, r) == Weight(a, r) + Weight(b, r)
    decreases |b|
  {
    if b == [] {
      assert a + b == a;
    } else {
      assert (a + b)[..|a + b| - 1] == a + b[..|b| - 1];
      WeightConcat(a, b[..|b| - 1], r);
    }
  }

  /** Requeueing and claiming move tasks between pending and running only. */
  lemma {:induction false} WeightKept(a: seq<Task>, b: seq<Task>, r: nat)
    requires |a| == |b| && forall i :: 0 <= i < |a| ==> TaskWeight(a[i], r) == TaskWeight(b[i], r)
    ensures Weight(a, r) == Weight(b, r)
    decreases |a|
  {
    if a != [] {
      WeightKept(a[..|a| - 1], b[..|b| - 1], r);
    }
  }

  lemma {:induction false} WeightOfUnits(tasks: seq<Task>, r: nat)
    requires forall i :: 0 <= i < |tasks| ==> TaskWeight(tasks[i], r) == 1
    ensures Weight(tasks, r) == |tasks|
    decreases |tasks|
  {
    if tasks != [] {
      WeightOfUnits(tasks[..|tasks| - 1], r);
    }
  }

  // ----- what a poll adds ----------------------------------------------------------------------

  lemma PipelineRepairsAreFew(h: Hub, f: nat, hash: string, policy: seq<string>)
    ensures |PipelineRepairs(h, f, hash, policy)| <= |policy|
    ensures forall i :: 0 <= i < |PipelineRepairs(h, f, hash, policy)| ==>
      PipelineRepairs(h, f, hash, policy)[i].status == Pending && PipelineRepairs(h, f, hash, policy)[i].work.RepairReplica?
  {}

  lemma NodeAppends(cfg: Config, h: Hub, node: Node, f: nat, hash: string, content: Option<string>)
    ensures var tasks' := RunNode(cfg, h, node, f, hash, content).hub.tasks;
      && h.tasks <= tasks' && |tasks'| - |h.tasks| <= (if node == ReplicaNode then |cfg.replicaNodes| else 0)
      && forall i :: |h.tasks| <= i < |tasks'| ==> tasks'[i].status == Pending && tasks'[i].work.RepairReplica?
  {
    PipelineRepairsAreFew(h, f, hash, cfg.replicaNodes);
  }

  function ReplicaNodes(nodes: seq<Node>): nat {
    if nodes == [] then 0 else (if nodes[0] == ReplicaNode then 1 else 0) + ReplicaNodes(nodes[1..])
  }

  /** A pipeline run only appends repair tasks, at most one per policy node and replica stage. */
  lemma {:induction false} NodesAppend(cfg: Config, h: Hub, nodes: seq<Node>, f: nat, hash: string, content: Option<string>)
    ensures var tasks' := RunNodes(cfg, h, nodes, f, hash, content).hub.tasks;
      && h.tasks <= tasks' && |tasks'| - |h.tasks| <= ReplicaNodes(nodes) * |cfg.replicaNodes|
      && forall i :: |h.tasks| <= i < |tasks'| ==> tasks'[i].status == Pending && tasks'[i].work.RepairReplica?
    decreases |nodes|
  {
    if nodes != [] {
      NodeAppends(cfg, h, nodes[0], f, hash, content);
      var o := RunNode(cfg, h, nodes[0], f, hash, content);
      var r := |cfg.replicaNodes|;
      assert (1 + ReplicaNodes(nodes[1..])) * r == r + ReplicaNodes(nodes[1..]) * r;
      assert ReplicaNodes(nodes[1..]) * r >= 0;
      if o.ok {
        NodesAppend(cfg, o.hub, nodes[1..], f, hash, content);
      }
    }
  }

  lemma OneReplicaNode()
    ensures ReplicaNodes(PIPELINE) == 1
  {
    assert PIPELINE[1..] == [ParseNode, EmbedNode, ReplicaNode];
    assert [ParseNode, EmbedNode, ReplicaNode][1..] == [EmbedNode, ReplicaNode] && [EmbedNode, ReplicaNode][1..] == [ReplicaNode];
    assert ReplicaNodes([ReplicaNode]) == 1;
  }

  /** Finishing takes the task's own weight away and adds at most an embedding task, after a parse. */
  lemma FinishLightens(cfg: Config, h: Hub, t: nat, foreignOk: bool, r: nat)
    requires t < |h.tasks| && h.tasks[t].status == Running
    ensures Weight(FinishTask(cfg, h, t, Poll, foreignOk).tasks, r) + TaskWeight(h.tasks[t], r)
            <= Weight(h.tasks, r) + (if h.tasks[t].work.ParseFile? then 1 else 0)
  {
    var added, task := FinishedTasks(cfg, h, t, foreignOk);
    SettledWeight(h.tasks, added, t, task, r);
  }

  /** The task table after a finish: the task itself settled, and what it created. */
  lemma FinishedTasks(cfg: Config, h: Hub, t: nat, foreignOk: bool) returns (added: seq<Task>, task: Task)
    requires t < |h.tasks|
    ensures FinishTask(cfg, h, t, Poll, foreignOk).tasks == (h.tasks + added)[t := task]
    ensures task.status != Pending && task.status != Running
    ensures |added| <= (if h.tasks[t].work.ParseFile? then 1 else 0)
    ensures forall i :: 0 <= i < |added| ==> added[i].status == Pending && added[i].work.EmbedFile?
  {
    var o := Execute(cfg, h, t, foreignOk);
    var outcome := FinishShape(cfg, h, t, Poll, foreignOk);
    ExecuteAdds(cfg, h, t, foreignOk);
    task := o.hub.tasks[t].(status := outcome, claimedAt := None, claimedBy := None);
    added := o.hub.tasks[|h.tasks|..];
    assert o.hub.tasks == h.tasks + added;
  }

  lemma SettledWeight(tasks: seq<Task>, added: seq<Task>, t: nat, task: Task, r: nat)
    requires t < |tasks| && task.status != Pending && task.status != Running
    requires forall i :: 0 <= i < |added| ==> added[i].status == Pending && added[i].work.EmbedFile?
    ensures Weight((tasks + added)[t := task], r) + TaskWeight(tasks[t], r) == Weight(tasks, r) + |added|
  {
    WeightConcat(tasks, added, r);
    WeightOfUnits(added, r);
    WeightUpdate(tasks + added, t, task, r);
  }

  lemma ExecuteAdds(cfg: Config, h: Hub, t: nat, foreignOk: bool)
    requires t < |h.tasks|
    ensures var tasks' := Execute(cfg, h, t, foreignOk).hub.tasks;
      && h.tasks <= tasks' && |tasks'| <= |h.tasks| + (if h.tasks[t].work.ParseFile? then 1 else 0)
      && forall i :: |h.tasks| <= i < |tasks'| ==> tasks'[i].status == Pending && tasks'[i].work.EmbedFile?
  {}

  // ----- the measure --------------------------------------------------------------------------------

  lemma ClaimKeepsWeight(cfg: Config, h: Hub, worker: string)
    ensures Weight(ClaimNext(h, worker, cfg.lease, {}).hub.tasks, |cfg.replicaNodes|) == Weight(h.tasks, |cfg.replicaNodes|)
  {
    ClaimNextEffect(h, worker, cfg.lease, {});
    WeightKept(h.tasks, ClaimNext(h, worker, cfg.lease, {}).hub.tasks, |cfg.replicaNodes|);
  }

  /** A poll that finds a task strictly lowers the weight, although executing it may create tasks;
      an empty poll keeps it and means that no task is pending that was pending before. */
  lemma PollLightens(cfg: Config, h: Hub, worker: string, foreignOk: bool)
    ensures var p := RunTaskOnce(cfg, h, worker, foreignOk); var r := |cfg.replicaNodes|;
      && (p.found ==> Weight(p.hub.tasks, r) < Weight(h.tasks, r))
      && (!p.found ==> Weight(p.hub.tasks, r) == Weight(h.tasks, r)
                       && forall t :: 0 <= t < |h.tasks| ==> h.tasks[t].status != Pending)
  {
    var r := |cfg.replicaNodes|;
    var claim := ClaimNext(h, worker, cfg.lease, {});
    ClaimKeepsWeight(cfg, h, worker);
    if claim.task.Some? {
      ClaimNextEffect(h, worker, cfg.lease, {});
      var t := claim.task.value;
      var work := claim.hub.tasks[t].work;
      if work.RunPipeline? && work.fileHash != "" {
        PipelinePollLightens(cfg, claim.hub, t);
      } else {
        FinishLightens(cfg, claim.hub, t, if work.RunPipeline? then false else foreignOk, r);
      }
    }
  }

  lemma PipelinePollLightens(cfg: Config, h: Hub, t: nat)
    requires t < |h.tasks| && h.tasks[t].status == Running && h.tasks[t].work.RunPipeline?
    ensures var work := h.tasks[t].work; var o := RunNodes(cfg, h, PIPELINE, work.fileId, work.fileHash, work.content);
      && t < |o.hub.tasks|
      && Weight(FinishTask(cfg, o.hub, t, Poll, o.ok).tasks, |cfg.replicaNodes|) < Weight(h.tasks, |cfg.replicaNodes|)
  {
    var work := h.tasks[t].work;
    NodesAppend(cfg, h, PIPELINE, work.fileId, work.fileHash, work.content);
    OneReplicaNode();
    var o := RunNodes(cfg, h, PIPELINE, work.fileId, work.fileHash, work.content);
    AppendedThenFinished(cfg, h.tasks, o.hub, t, o.ok);
  }

  lemma AppendedThenFinished(cfg: Config, tasks: seq<Task>, h: Hub, t: nat, ok: bool)
    requires t < |tasks| && tasks[t].status == Running && tasks[t].work.RunPipeline?
    requires tasks <= h.tasks && |h.tasks| - |tasks| <= |cfg.replicaNodes|
    requires forall i :: |tasks| <= i < |h.tasks| ==> h.tasks[i].status == Pending && h.tasks[i].work.RepairReplica?
    ensures Weight(FinishTask(cfg, h, t, Poll, ok).tasks, |cfg.replicaNodes|) < Weight(tasks, |cfg.replicaNodes|)
  {
    var added, r := h.tasks[|tasks|..], |cfg.replicaNodes|;
    assert h.tasks == tasks + added;
    WeightConcat(tasks, added, r);
    WeightOfUnits(added, r);
    FinishLightens(cfg, h, t, ok, r);
  }

  /** A worker's polls: what each is told about foreign work and how long it waits afterwards. */
  datatype Turn = Turn(worker: string, foreignOk: bool, pause: nat)

  function After(cfg: Config, h: Hub, turn: Turn): Hub {
    var h' := RunTaskOnce(cfg, h, turn.worker, turn.foreignOk).hub;
    h'.(now := h'.now + turn.pause)
  }

  predicate Finds(cfg: Config, h: Hub, turn: Turn) {
    RunTaskOnce(cfg, h, turn.worker, turn.foreignOk).found
  }

  predicate AllFind(cfg: Config, h: Hub, turns: seq<Turn>)
    decreases |turns|
  {
    turns == [] || (Finds(cfg, h, turns[0]) && AllFind(cfg, After(cfg, h, turns[0]), turns[1..]))
  }

  lemma TurnLightens(cfg: Config, h: Hub, turn: Turn)
    requires Finds(cfg, h, turn)
    ensures Weight(After(cfg, h, turn).tasks, |cfg.replicaNodes|) < Weight(h.tasks, |cfg.replicaNodes|)
  {
    PollLightens(cfg, h, turn.worker, turn.foreignOk);
  }

  /** Draining ends: no worker finds work more often in a row than the initial weight. */
  lemma {:induction false} DrainingEnds(cfg: Config, h: Hub, turns: seq<Turn>)
    requires AllFind(cfg, h, turns)
    ensures |turns| <= Weight(h.tasks, |cfg.replicaNodes|)
    decreases |turns|
  {
    if turns != [] {
      TurnLightens(cfg, h, turns[0]);
      DrainingEnds(cfg, After(cfg, h, turns[0]), turns[1..]);
    }
  }
}
