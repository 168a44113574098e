/** A worker's whole turn: it is a run of the steps it is made of, and a pipeline it claims ends as its nodes do. */
module Working {
  import opened Wrappers
  import opened Rows
  import opened Tasks
  import opened Commands
  import opened Files
  import opened Executors
  import opened Runs
  import opened Serving
  import opened Recovery
  import Coverage
  import Drain
  import Effects
  import Lineage
  import PipelineReplay

  // ----- turns that are a claim and a finish ----------------------------------------------------

  lemma TwoSteps(cfg: Config, w: World, a: Event, b: Event)
    ensures Run(cfg, w, [a, b]) == Step(cfg, Step(cfg, w, a), b)
  {
    RunCons(cfg, w, a, [b]);
    RunCons(cfg, Step(cfg, w, a), b, []);
    assert [a, b] == [a] + [b] && [b] == [b] + [];
    assert Run(cfg, Step(cfg, Step(cfg, w, a), b), []) == Step(cfg, Step(cfg, w, a), b);
  }

  predicate IsPipeline(h: Hub, t: nat) {
    t < |h.tasks| && h.tasks[t].work.RunPipeline?
  }

  /** A poll turn on any other work is a claim and a finish; without work it only requeues. */
  lemma PollTurnIsARun(cfg: Config, h: Hub, worker: string, foreignOk: bool)
    requires forall t: nat :: IsFirstFree(h.tasks, {}, t) ==> !IsPipeline(h, t)
    ensures var r := Drain.RunTaskOnce(cfg, h, worker, foreignOk);
      && r.hub == Run(cfg, World(h, []), [PollClaim(worker, {}), Finish(0, foreignOk)]).hub
      && (r.found <==> exists t: nat :: IsFirstFree(h.tasks, {}, t))
  {
    var w := World(h, []);
    TwoSteps(cfg, w, PollClaim(worker, {}), Finish(0, foreignOk));
    FirstPendingIs(h.tasks, {});
    var t := FirstPending(h.tasks, {}, 0);
    if t < |h.tasks| {
      FinishOfPoll(cfg, Step(cfg, w, PollClaim(worker, {})), h, t, worker, foreignOk);
    } else {
      assert ClaimNext(h, worker, cfg.lease, {}).task.None?;
    }
  }

  lemma FinishOfPoll(cfg: Config, w: World, h: Hub, t: nat, worker: string, foreignOk: bool)
    requires t < |h.tasks| && !IsPipeline(h, t) && ClaimNext(h, worker, cfg.lease, {}).task == Some(t)
    requires w == World(ClaimNext(h, worker, cfg.lease, {}).hub, [Execution(t, worker, h.now, Poll, true)])
    ensures Drain.RunTaskOnce(cfg, h, worker, foreignOk) == Drain.PollResult(Step(cfg, w, Finish(0, foreignOk)).hub, true)
  {}

  /** So is a delivery of any other work; one that is not claimed changes nothing. */
  lemma DeliveryTurnIsARun(cfg: Config, h: Hub, t: nat, worker: string, foreignOk: bool)
    requires !IsPipeline(h, t)
    ensures var r := Drain.RunTaskById(cfg, h, t, worker, foreignOk);
      && r.hub == Run(cfg, World(h, []), [CeleryDelivery(t, worker), Finish(0, foreignOk)]).hub
      && (r.found <==> t < |h.tasks| && (h.tasks[t].status == Pending || Expired(cfg, h, t)))
  {
    var w := World(h, []);
    TwoSteps(cfg, w, CeleryDelivery(t, worker), Finish(0, foreignOk));
    DeliveryClaimsIff(cfg, w, t, worker);
    if t < |h.tasks| && (h.tasks[t].status == Pending || Expired(cfg, h, t)) {
      FinishOfDelivery(cfg, Step(cfg, w, CeleryDelivery(t, worker)), h, t, worker, foreignOk);
    } else {
      assert ClaimById(h, t, worker, cfg.lease).task.None?;
    }
  }

  lemma FinishOfDelivery(cfg: Config, w: World, h: Hub, t: nat, worker: string, foreignOk: bool)
    requires t < |h.tasks| && !IsPipeline(h, t) && ClaimById(h, t, worker, cfg.lease).task == Some(t)
    requires w == World(ClaimById(h, t, worker, cfg.lease).hub, [Execution(t, worker, h.now, Celery, true)])
    ensures Drain.RunTaskById(cfg, h, t, worker, foreignOk) == Drain.PollResult(Step(cfg, w, Finish(0, foreignOk)).hub, true)
  {}

  // ----- pipelines ------------------------------------------------------------------------------------

  predicate RunsPipeline(w: World, e: nat) {
    IsOpen(w, e) && IsPipeline(w.hub, w.execs[e].task)
  }

  /** The register node marks the recorded version unless its text is being parsed, is parsed, or did not parse. */
  lemma RegisterNodeIff(cfg: Config, w: World, e: nat)
    requires RunsPipeline(w, e)
    ensures var h, work := w.hub, w.hub.tasks[w.execs[e].task].work; var f := work.fileId;
      Step(cfg, w, PipelineStep(e, RegisterNode)) ==
        if f < |h.files| && h.files[f].hash == work.fileHash && h.files[f].status !in {Parsed, Parsing, ParseFailed}
        then w.(hub := h.(files := h.files[f := h.files[f].(status := Registered)])) else w
  {}

  /** The parse node stores the text of the recorded version, unless it has none or it is blank. */
  lemma ParseNodeIff(cfg: Config, w: World, e: nat)
    requires RunsPipeline(w, e)
    ensures var h, work := w.hub, w.hub.tasks[w.execs[e].task].work; var f := work.fileId;
      var w' := Step(cfg, w, PipelineStep(e, ParseNode));
      if CanParse(cfg, h, f, work.fileHash, work.content) then
        && f in w'.hub.chunks && Lineage.RowsOf(cfg, w'.hub.chunks[f], work.fileHash, work.content.value) && NotYetEmbedded(w'.hub.chunks[f])
        && w' == w.(hub := h.(files := h.files[f := h.files[f].(status := Parsed)], chunks := h.chunks[f := w'.hub.chunks[f]]))
      else w' == w
  {
    var work := w.hub.tasks[w.execs[e].task].work;
    ParseNodeStores(cfg, w.hub, work.fileId, work.fileHash, work.content);
    assert StepPipeline(cfg, w, e, ParseNode) == RunParseNode(cfg, w.hub, work.fileId, work.fileHash, work.content).hub;
  }

  lemma ParseNodeStores(cfg: Config, h: Hub, f: nat, hash: string, content: Option<string>)
    ensures var h' := RunParseNode(cfg, h, f, hash, content).hub;
      if CanParse(cfg, h, f, hash, content) then
        && f in h'.chunks && Lineage.RowsOf(cfg, h'.chunks[f], hash, content.value) && NotYetEmbedded(h'.chunks[f])
        && h' == h.(files := h.files[f := h.files[f].(status := Parsed)], chunks := h.chunks[f := h'.chunks[f]])
      else h' == h
  {
    ParsableIff(cfg, h, f, hash, content);
  }

  /** The embed node embeds each row of the version by the row's own text. */
  lemma EmbedNodeIff(cfg: Config, w: World, e: nat)
    requires RunsPipeline(w, e)
    ensures var h, work := w.hub, w.hub.tasks[w.execs[e].task].work; var f, rows := work.fileId, ChunksOf(h, work.fileId);
      var w' := Step(cfg, w, PipelineStep(e, EmbedNode));
      if exists i :: 0 <= i < |rows| && rows[i].fileHash == work.fileHash then
        && f in w'.hub.chunks && w' == w.(hub := h.(chunks := h.chunks[f := w'.hub.chunks[f]])) && |w'.hub.chunks[f]| == |rows|
        && forall i :: 0 <= i < |rows| ==>
          w'.hub.chunks[f][i] == if rows[i].fileHash == work.fileHash then rows[i].(embedding := Some(cfg.embed(rows[i].content))) else rows[i]
      else w' == w
  {
    var work := w.hub.tasks[w.execs[e].task].work;
    RowsThereIff(ChunksOf(w.hub, work.fileId), work.fileHash);
  }

  /** The replica node appends a repair task for each policy node that has none, if the version is recorded. */
  lemma ReplicaNodeIff(cfg: Config, w: World, e: nat, t: Task)
    requires RunsPipeline(w, e) && Coverage.Distinct(cfg.replicaNodes)
    ensures var h, work := w.hub, w.hub.tasks[w.execs[e].task].work;
      var w' := Step(cfg, w, PipelineStep(e, ReplicaNode)); var added := w'.hub.tasks[|h.tasks|..];
      && h.tasks <= w'.hub.tasks && w' == w.(hub := h.(tasks := w'.hub.tasks))
      && (t in added <==>
          && work.fileId < |h.files| && h.files[work.fileId].hash == work.fileHash
          && t.key.ReplicaRepair? && t.key.node in cfg.replicaNodes && IsNew(h.tasks, t.key)
          && t == Task(ReplicaRepair(work.fileId, work.fileHash, t.key.node), RepairReplica(work.fileId, work.fileHash, t.key.node), Pending, 0, None, None))
  {
    var work := w.hub.tasks[w.execs[e].task].work;
    Effects.PipelineDistinct(w.hub, work.fileId, work.fileHash, cfg.replicaNodes);
    AddedRepairs(w.hub, work.fileId, work.fileHash, cfg.replicaNodes, t);
    if SameVersion(w.hub, work.fileId, work.fileHash) {
      assert (w.hub.tasks + PipelineRepairs(w.hub, work.fileId, work.fileHash, cfg.replicaNodes))[|w.hub.tasks|..]
          == PipelineRepairs(w.hub, work.fileId, work.fileHash, cfg.replicaNodes);
    }
  }

  lemma {:induction false} AddedRepairs(h: Hub, f: nat, hash: string, policy: seq<string>, t: Task)
    ensures t in PipelineRepairs(h, f, hash, policy) <==>
      && t.key.ReplicaRepair? && t.key.node in policy && IsNew(h.tasks, t.key)
      && t == Task(ReplicaRepair(f, hash, t.key.node), RepairReplica(f, hash, t.key.node), Pending, 0, None, None)
    decreases |policy|
  {
    if policy != [] {
      AddedRepairs(h, f, hash, policy[1..], t);
      assert policy == [policy[0]] + policy[1..];
    }
  }

  /** What a pipeline needs of its record and its text. */
  predicate MayRun(cfg: Config, h: Hub, f: nat, hash: string, content: Option<string>) {
    f < |h.files| && h.files[f].hash == hash && (content.Some? ==> CanParse(cfg, h, f, hash, content))
  }

  /** With distinct policy nodes a pipeline ends well exactly for a recorded version and, if it has a
      text, one of that version that is not blank. */
  lemma PipelineEndsWellIff(cfg: Config, h: Hub, f: nat, hash: string, content: Option<string>)
    requires Coverage.Distinct(cfg.replicaNodes)
    ensures RunNodes(cfg, h, PIPELINE, f, hash, content).ok <==> MayRun(cfg, h, f, hash, content)
  {
    PipelineReplay.RunNodesIsWhole(cfg, h, f, hash, content);
    var o1 := RunRegisterNode(h, f, hash);
    if o1.ok {
      ParsableIff(cfg, o1.hub, f, hash, content);
      var o2 := RunParseNode(cfg, o1.hub, f, hash, content);
      if o2.ok {
        Effects.PipelineDistinct(RunEmbedNode(cfg, o2.hub, f, hash).hub, f, hash, cfg.replicaNodes);
      }
    }
  }

  lemma NodeKeepsTasks(cfg: Config, h: Hub, node: Node, f: nat, hash: string, content: Option<string>)
    ensures var o := RunNode(cfg, h, node, f, hash, content); h.tasks <= o.hub.tasks && o.hub.audit == h.audit
  {}

  /** Pipelines leave the tasks there are, and the audit, alone. */
  lemma {:induction false} NodesKeepTasks(cfg: Config, h: Hub, nodes: seq<Node>, f: nat, hash: string, content: Option<string>)
    ensures var o := RunNodes(cfg, h, nodes, f, hash, content); h.tasks <= o.hub.tasks && o.hub.audit == h.audit
    decreases |nodes|
  {
    if nodes != [] {
      NodeKeepsTasks(cfg, h, nodes[0], f, hash, content);
      NodesKeepTasks(cfg, RunNode(cfg, h, nodes[0], f, hash, content).hub, nodes[1..], f, hash, content);
    }
  }

  lemma FinishOfPipeline(cfg: Config, h: Hub, t: nat, delivery: Delivery, ok: bool)
    requires IsPipeline(h, t) && (ok ==> h.tasks[t].work.fileHash != "")
    ensures var status := if ok then Success else Failed; var h' := FinishTask(cfg, h, t, delivery, ok);
      && |h'.tasks| == |h.tasks| && FinishedAs(h.tasks[t], h'.tasks[t], status)
      && h' == h.(tasks := h.tasks[t := h'.tasks[t]], audit := h.audit + [TaskFinished(t, status)])
  {}

  lemma DeliveredStays(cfg: Config, h: Hub, t: nat, task: Task, audit: seq<AuditEntry>, f: nat, hash: string, content: string)
    requires t < |h.tasks| && task.key == h.tasks[t].key && Delivers(cfg, h, f, hash, content)
    ensures Delivers(cfg, h.(tasks := h.tasks[t := task], audit := audit), f, hash, content)
  {
    forall node | node in cfg.replicaNodes ensures Coverage.HasKey(h.tasks[t := task], ReplicaRepair(f, hash, node)) {
      var key := ReplicaRepair(f, hash, node);
      assert Coverage.HasKey(h.tasks, key);
      var i :| 0 <= i < |h.tasks| && h.tasks[i].key == key;
      assert h.tasks[t := task][i].key == key;
    }
  }

  /** What a claimed pipeline leaves once it has finished. */
  lemma ClaimedPipelineSettles(cfg: Config, h: Hub, t: nat, delivery: Delivery, foreignOk: bool)
    requires IsPipeline(h, t) && Coverage.Distinct(cfg.replicaNodes)
    ensures var h', work := Drain.RunClaimed(cfg, h, t, delivery, foreignOk), h.tasks[t].work;
      var good := work.fileHash != "" && MayRun(cfg, h, work.fileId, work.fileHash, work.content);
      && t < |h'.tasks| && FinishedAs(h.tasks[t], h'.tasks[t], if good then Success else Failed)
      && h'.audit == h.audit + [TaskFinished(t, if good then Success else Failed)]
      && (good && work.content.Some? ==> Delivers(cfg, h', work.fileId, work.fileHash, work.content.value))
  {
    var work := h.tasks[t].work;
    if work.fileHash == "" {
      FinishOfPipeline(cfg, h, t, delivery, false);
      return;
    }
    var o := RunNodes(cfg, h, PIPELINE, work.fileId, work.fileHash, work.content);
    PipelineEndsWellIff(cfg, h, work.fileId, work.fileHash, work.content);
    NodesKeepTasks(cfg, h, PIPELINE, work.fileId, work.fileHash, work.content);
    FinishOfPipeline(cfg, o.hub, t, delivery, o.ok);
    var h' := FinishTask(cfg, o.hub, t, delivery, o.ok);
    if o.ok && work.content.Some? {
      Effects.PipelineDelivers(cfg, h, work.fileId, work.fileHash, work.content.value);
      DeliveredStays(cfg, o.hub, t, h'.tasks[t], h'.audit, work.fileId, work.fileHash, work.content.value);
    }
  }

  /** A poll turn that finds a pipeline first runs it to such an end, whatever foreign work would do. */
  lemma PolledPipelineSettles(cfg: Config, h: Hub, worker: string, foreignOk: bool, t: nat)
    requires IsFirstFree(h.tasks, {}, t) && IsPipeline(h, t) && Coverage.Distinct(cfg.replicaNodes)
    ensures var r, work := Drain.RunTaskOnce(cfg, h, worker, foreignOk), h.tasks[t].work;
      var good := work.fileHash != "" && MayRun(cfg, h, work.fileId, work.fileHash, work.content);
      && r.found && t < |r.hub.tasks|
      && r.hub.tasks[t] == h.tasks[t].(status := if good then Success else Failed, attempts := h.tasks[t].attempts + 1, claimedAt := None, claimedBy := None)
      && (good && work.content.Some? ==> Delivers(cfg, r.hub, work.fileId, work.fileHash, work.content.value))
  {
    var claim := ClaimNext(h, worker, cfg.lease, {});
    FirstPendingIs(h.tasks, {});
    assert claim.task == Some(t);
    assert claim.hub.files == h.files;
    ClaimedPipelineSettles(cfg, claim.hub, t, Poll, foreignOk);
  }

  /** And so does a delivery that claims one. */
  lemma DeliveredPipelineSettles(cfg: Config, h: Hub, t: nat, worker: string, foreignOk: bool)
    requires IsPipeline(h, t) && Coverage.Distinct(cfg.replicaNodes)
    requires h.tasks[t].status == Pending || Expired(cfg, h, t)
    ensures var r, work := Drain.RunTaskById(cfg, h, t, worker, foreignOk), h.tasks[t].work;
      var good := work.fileHash != "" && MayRun(cfg, h, work.fileId, work.fileHash, work.content);
      && r.found && t < |r.hub.tasks|
      && r.hub.tasks[t] == h.tasks[t].(status := if good then Success else Failed, attempts := h.tasks[t].attempts + 1, claimedAt := None, claimedBy := None)
      && (good && work.content.Some? ==> Delivers(cfg, r.hub, work.fileId, work.fileHash, work.content.value))
  {
    var claim := ClaimById(h, t, worker, cfg.lease);
    assert claim.task == Some(t);
    assert claim.hub.files == h.files;
    ClaimedPipelineSettles(cfg, claim.hub, t, Celery, foreignOk);
  }

  /** The version is parsed, its rows are the text's, each embedded by itself, and every policy node
      has a repair task for it. */
  ghost predicate Delivers(cfg: Config, h: Hub, f: nat, hash: string, content: string) {
    && f < |h.files| && h.files[f].status == Parsed && f in h.chunks && Lineage.RowsOf(cfg, h.chunks[f], hash, content)
    && (forall i :: 0 <= i < |h.chunks[f]| ==> h.chunks[f][i].embedding == Some(cfg.embed(h.chunks[f][i].content)))
    && Effects.HaveRepairs(h.tasks, f, hash, cfg.replicaNodes)
  }
}
