/** What the rows of the task table are, in every reachable state: one per key, doing what the key says. */
module TaskTables {
  import opened Wrappers
  import opened Rows
  import opened Tasks
  import opened Commands
  import opened Files
  import opened Executors
  import opened Runs
  import Lineage

  // ----- the invariant ------------------------------------------------------------------------

  predicate HasVersion(files: seq<FileRecord>, f: nat, hash: string) {
    f < |files| && files[f].hash == hash
  }

  /** A task with one of the center's own keys does the work its key names, on a recorded version;
      a parse task carries a text with that version's hash. */
  predicate Named(cfg: Config, files: seq<FileRecord>, task: Task) {
    match task.key
    case FileRegister(f, hash) => HasVersion(files, f, hash) && task.work == RegisterFile(f, hash)
    case FileParse(f, hash) =>
      && HasVersion(files, f, hash) && task.work.ParseFile? && task.work.content.Some?
      && task.work == ParseFile(f, hash, task.work.content) && cfg.sha(task.work.content.value) == hash
    case FileEmbed(f, hash) => HasVersion(files, f, hash) && task.work == EmbedFile(f, hash)
    case ReplicaRepair(f, hash, node) => HasVersion(files, f, hash) && task.work == RepairReplica(f, hash, node)
    case ClientTask(_) => true
  }

  ghost predicate UniqueKeys(tasks: seq<Task>) {
    forall i, j :: 0 <= i < j < |tasks| ==> tasks[i].key != tasks[j].key
  }

  ghost predicate WellKept(cfg: Config, h: Hub) {
    UniqueKeys(h.tasks) && forall t :: 0 <= t < |h.tasks| ==> Named(cfg, h.files, h.tasks[t])
  }

  /** Old rows keep key and work; new ones are named and have keys of their own. */
  ghost predicate Extends(cfg: Config, files: seq<FileRecord>, a: seq<Task>, b: seq<Task>) {
    && |a| <= |b|
    && (forall i :: 0 <= i < |a| ==> b[i].key == a[i].key && b[i].work == a[i].work)
    && (forall i :: |a| <= i < |b| ==> Named(cfg, files, b[i]) && IsFresh(a, b[i].key))
    && (forall i, j :: |a| <= i < j < |b| ==> b[i].key != b[j].key)
  }

  predicate IsFresh(tasks: seq<Task>, key: TaskKey) {
    forall i :: 0 <= i < |tasks| ==> tasks[i].key != key
  }

  lemma ExtendedIsWellKept(cfg: Config, h: Hub, h': Hub)
    requires WellKept(cfg, h) && Lineage.IdentitiesKept(h.files, h'.files) && Extends(cfg, h'.files, h.tasks, h'.tasks)
    ensures WellKept(cfg, h')
  {
    forall t | 0 <= t < |h'.tasks| ensures Named(cfg, h'.files, h'.tasks[t]) {
      if t < |h.tasks| {
        assert Named(cfg, h.files, h.tasks[t]);
      }
    }
    forall i, j | 0 <= i < j < |h'.tasks| ensures h'.tasks[i].key != h'.tasks[j].key {
      if i < |h.tasks| <= j {
        assert IsFresh(h.tasks, h'.tasks[j].key);
      }
    }
  }

  lemma OneMore(cfg: Config, files: seq<FileRecord>, a: seq<Task>, task: Task)
    requires Named(cfg, files, task) && IsFresh(a, task.key)
    ensures Extends(cfg, files, a, a + [task])
  {}

  // ----- every step extends the table --------------------------------------------------------------

  lemma NewFileIsFresh(cfg: Config, h: Hub, hash: string)
    requires WellKept(cfg, h)
    ensures IsFresh(h.tasks, FileRegister(|h.files|, hash))
  {
    forall i | 0 <= i < |h.tasks| ensures h.tasks[i].key != FileRegister(|h.files|, hash) {
      assert Named(cfg, h.files, h.tasks[i]);
    }
  }

  lemma ReportExtends(cfg: Config, h: Hub, node: string, path: string, hash: string)
    requires WellKept(cfg, h)
    ensures var h' := ReportFile(h, node, path, hash); Extends(cfg, h'.files, h.tasks, h'.tasks)
  {
    var h' := ReportFile(h, node, path, hash);
    var known := FindFile(h.files, path, hash);
    if known.None? {
      NewFileIsFresh(cfg, h, hash);
      OneMore(cfg, h'.files, h.tasks, NewTask(FileRegister(|h.files|, hash), RegisterFile(|h.files|, hash)));
    }
  }

  lemma RepairsForExtend(h: Hub, f: nat, desired: seq<string>)
    requires f < |h.files|
    ensures forall i :: 0 <= i < |RepairsFor(h, f, desired)| ==> IsRepair(h, RepairsFor(h, f, desired)[i])
    decreases |desired|
  {}

  /** A repair task for a recorded version that has none. */
  predicate IsRepair(h: Hub, task: Task) {
    && task.key.ReplicaRepair? && HasVersion(h.files, task.key.fileId, task.key.fileHash)
    && task == NewTask(task.key, RepairReplica(task.key.fileId, task.key.fileHash, task.key.node))
    && IsFresh(h.tasks, task.key)
  }

  lemma {:induction false} RepairsExtend(h: Hub, n: nat, cutoff: int, desired: seq<string>)
    requires n <= |h.files|
    ensures forall i :: 0 <= i < |Repairs(h, n, cutoff, desired)| ==> IsRepair(h, Repairs(h, n, cutoff, desired)[i])
  {
    if n > 0 {
      RepairsExtend(h, n - 1, cutoff, desired);
      RepairsForExtend(h, n - 1, desired);
    }
  }

  lemma PipelineRepairsExtend(h: Hub, f: nat, hash: string, policy: seq<string>)
    requires HasVersion(h.files, f, hash)
    ensures forall i :: 0 <= i < |PipelineRepairs(h, f, hash, policy)| ==> IsRepair(h, PipelineRepairs(h, f, hash, policy)[i])
  {}

  lemma AppendedRepairs(cfg: Config, h: Hub, files: seq<FileRecord>, added: seq<Task>)
    requires DistinctKeys(added) && (forall i :: 0 <= i < |added| ==> IsRepair(h, added[i])) && Lineage.IdentitiesKept(h.files, files)
    ensures Extends(cfg, files, h.tasks, h.tasks + added)
  {
    var b := h.tasks + added;
    forall i | |h.tasks| <= i < |b| ensures Named(cfg, files, b[i]) && IsFresh(h.tasks, b[i].key) {
      assert IsRepair(h, added[i - |h.tasks|]);
    }
    forall i, j | |h.tasks| <= i < j < |b| ensures b[i].key != b[j].key {
      assert added[i - |h.tasks|].key != added[j - |h.tasks|].key;
    }
  }

  lemma ScanExtends(cfg: Config, h: Hub)
    ensures var h' := Reconcile(cfg, h).hub; Extends(cfg, h'.files, h.tasks, h'.tasks)
  {
    var o := Reconcile(cfg, h);
    if o.ok {
      var cutoff, desired := h.now - cfg.missingAfter, Desired(h.nodes, cfg.replicaNodes);
      RepairsExtend(h, |h.files|, cutoff, desired);
      AppendedRepairs(cfg, h, o.hub.files, Repairs(h, |h.files|, cutoff, desired));
    }
  }

  lemma PipelineExtends(cfg: Config, h: Hub, node: Node, f: nat, hash: string, content: Option<string>)
    ensures var h' := RunNode(cfg, h, node, f, hash, content).hub; Extends(cfg, h'.files, h.tasks, h'.tasks)
  {
    if node == ReplicaNode && RunReplicaNode(cfg, h, f, hash).ok {
      PipelineRepairsExtend(h, f, hash, cfg.replicaNodes);
      AppendedRepairs(cfg, h, h.files, PipelineRepairs(h, f, hash, cfg.replicaNodes));
    }
  }

  lemma ExecuteExtends(cfg: Config, h: Hub, t: nat, foreignOk: bool)
    requires t < |h.tasks|
    ensures var h' := Execute(cfg, h, t, foreignOk).hub; Extends(cfg, h'.files, h.tasks, h'.tasks)
  {
    var work := h.tasks[t].work;
    var h' := Execute(cfg, h, t, foreignOk).hub;
    if work.ParseFile? {
      ParseExtends(cfg, h, work.fileId, work.fileHash, work.content);
    } else {
      assert h'.tasks == h.tasks;
    }
  }

  lemma ParseExtends(cfg: Config, h: Hub, f: nat, hash: string, content: Option<string>)
    ensures var h' := ExecuteParse(cfg, h, f, hash, content).hub; Extends(cfg, h'.files, h.tasks, h'.tasks)
  {
    var o := ExecuteParse(cfg, h, f, hash, content);
    if o.ok && FindTask(h.tasks, FileEmbed(f, hash)).None? {
      OneMore(cfg, o.hub.files, h.tasks, NewTask(FileEmbed(f, hash), EmbedFile(f, hash)));
    }
  }

  lemma FinishExtends(cfg: Config, h: Hub, t: nat, delivery: Delivery, foreignOk: bool)
    requires t < |h.tasks|
    ensures var h' := FinishTask(cfg, h, t, delivery, foreignOk); Extends(cfg, h'.files, h.tasks, h'.tasks)
  {
    var o, h' := Execute(cfg, h, t, foreignOk), FinishTask(cfg, h, t, delivery, foreignOk);
    ExecuteExtends(cfg, h, t, foreignOk);
    ExecuteKeepsTask(cfg, h, t, foreignOk);
    assert forall i :: 0 <= i < |o.hub.tasks| ==> h'.tasks[i].key == o.hub.tasks[i].key && h'.tasks[i].work == o.hub.tasks[i].work;
    SameIdentities(cfg, o.hub.files, h'.files, h.tasks, o.hub.tasks, h'.tasks);
  }

  lemma SameIdentities(cfg: Config, files: seq<FileRecord>, files': seq<FileRecord>, a: seq<Task>, b: seq<Task>, b': seq<Task>)
    requires Extends(cfg, files, a, b) && |b| == |b'| && Lineage.IdentitiesKept(files, files')
    requires forall i :: 0 <= i < |b| ==> b'[i].key == b[i].key && b'[i].work == b[i].work
    ensures Extends(cfg, files', a, b')
  {
    forall i | |a| <= i < |b'| ensures Named(cfg, files', b'[i]) {
      assert Named(cfg, files, b[i]);
    }
  }

  lemma UploadExtends(cfg: Config, h: Hub, f: nat, node: string, hash: string, content: string)
    ensures var h' := QueueParse(cfg, h, f, node, hash, content).hub; Extends(cfg, h'.files, h.tasks, h'.tasks)
  {
    var o := QueueParse(cfg, h, f, node, hash, content);
    if o.ok && FindTask(h.tasks, FileParse(f, hash)).None? {
      OneMore(cfg, o.hub.files, h.tasks, NewTask(FileParse(f, hash), ParseFile(f, hash, Some(content))));
    }
  }

  lemma AckExtends(cfg: Config, h: Hub, node: string, c: nat, ack: Ack)
    ensures var h' := Acknowledge(h, node, c, ack).hub; Extends(cfg, h'.files, h.tasks, h'.tasks)
  {}

  lemma StepExtends(cfg: Config, w: World, ev: Event)
    requires WellKept(cfg, w.hub)
    ensures var h' := Step(cfg, w, ev).hub; Extends(cfg, h'.files, w.hub.tasks, h'.tasks)
  {
    match ev
    case Report(node, path, hash) => ReportExtends(cfg, w.hub, node, path, hash);
    case Upload(f, node, hash, content) => UploadExtends(cfg, w.hub, f, node, hash, content);
    case Scan => ScanExtends(cfg, w.hub);
    case PipelineStep(e, stage) => PipelineStepExtends(cfg, w, e, stage);
    case Finish(e, foreignOk) =>
      if IsOpen(w, e) {
        FinishExtends(cfg, w.hub, w.execs[e].task, w.execs[e].delivery, foreignOk);
      }
    case EdgeAck(node, c, ack) => AckExtends(cfg, w.hub, node, c, ack);
    case _ => OthersExtend(cfg, w, ev);
  }

  lemma OthersExtend(cfg: Config, w: World, ev: Event)
    requires !ev.Report? && !ev.Upload? && !ev.Scan? && !ev.PipelineStep? && !ev.Finish? && !ev.EdgeAck?
    ensures var h' := Step(cfg, w, ev).hub; Extends(cfg, h'.files, w.hub.tasks, h'.tasks)
  {
    match ev
    case PollClaim(worker, locked) => ClaimsExtend(cfg, w.hub, worker, locked);
    case Create(name, work) =>
      if FindTask(w.hub.tasks, ClientTask(name)).None? {
        OneMore(cfg, w.hub.files, w.hub.tasks, NewTask(ClientTask(name), work));
      }
    case CeleryDelivery(t, worker) =>
    case OperatorRetry(t, repairsOnly) =>
    case _ =>
  }

  lemma ClaimsExtend(cfg: Config, h: Hub, worker: string, locked: set<nat>)
    ensures Extends(cfg, h.files, h.tasks, ClaimNext(h, worker, cfg.lease, locked).hub.tasks)
  {}

  lemma PipelineStepExtends(cfg: Config, w: World, e: nat, stage: Node)
    ensures var h' := Step(cfg, w, PipelineStep(e, stage)).hub; Extends(cfg, h'.files, w.hub.tasks, h'.tasks)
  {
    if IsOpen(w, e) && w.hub.tasks[w.execs[e].task].work.RunPipeline? {
      var work := w.hub.tasks[w.execs[e].task].work;
      PipelineExtends(cfg, w.hub, stage, work.fileId, work.fileHash, work.content);
    }
  }

  lemma StepKeepsTable(cfg: Config, w: World, ev: Event)
    requires WellKept(cfg, w.hub)
    ensures WellKept(cfg, Step(cfg, w, ev).hub)
  {
    StepExtends(cfg, w, ev);
    Lineage.StepKeepsVersions(cfg, w, ev);
    ExtendedIsWellKept(cfg, w.hub, Step(cfg, w, ev).hub);
  }

  lemma {:induction false} RunKeepsTable(cfg: Config, w: World, events: seq<Event>)
    requires WellKept(cfg, w.hub)
    ensures WellKept(cfg, Run(cfg, w, events).hub)
    decreases |events|
  {
    if events != [] {
      StepKeepsTable(cfg, w, events[0]);
      RunKeepsTable(cfg, Step(cfg, w, events[0]), events[1..]);
    }
  }

  /** In every run no two tasks have one key, so the unique index never refuses what got this far,
      and every task of the center does exactly the work its key names, on a recorded version. */
  lemma TasksAreWhatTheirKeysSay(cfg: Config, events: seq<Event>, t: nat, u: nat)
    requires var h := Run(cfg, Init, events).hub; t < |h.tasks| && u < |h.tasks|
    ensures var h := Run(cfg, Init, events).hub;
      && (h.tasks[t].key == h.tasks[u].key ==> t == u)
      && (match h.tasks[t].key
          case FileRegister(f, hash) => f < |h.files| && h.files[f].hash == hash && h.tasks[t].work == RegisterFile(f, hash)
          case FileParse(f, hash) =>
            && f < |h.files| && h.files[f].hash == hash
            && exists content :: cfg.sha(content) == hash && h.tasks[t].work == ParseFile(f, hash, Some(content))
          case FileEmbed(f, hash) => f < |h.files| && h.files[f].hash == hash && h.tasks[t].work == EmbedFile(f, hash)
          case ReplicaRepair(f, hash, node) => f < |h.files| && h.files[f].hash == hash && h.tasks[t].work == RepairReplica(f, hash, node)
          case ClientTask(_) => true)
  {
    RunKeepsTable(cfg, Init, events);
    var h := Run(cfg, Init, events).hub;
    assert Named(cfg, h.files, h.tasks[t]);
    if t < u {
      assert h.tasks[t].key != h.tasks[u].key;
    } else if u < t {
      assert h.tasks[u].key != h.tasks[t].key;
    }
  }

  /** The row of a key. */
  lemma FindTaskIs(tasks: seq<Task>, t: nat)
    requires UniqueKeys(tasks) && t < |tasks|
    ensures FindTask(tasks, tasks[t].key) == Some(t)
  {}
}
