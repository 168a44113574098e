/**
 The task, lease and repair protocol over every interleaving.

 `Sound` holds in every reachable state.  `Agreed` holds in every state reached by a run
 that keeps the two rules of `Runs.Rules`.
 */
module Protocol {
  import opened Wrappers
  import opened Rows
  import opened Tasks
  import opened Commands
  import opened Files
  import opened Executors
  import opened Runs

  // ----- counting audit rows ---------------------------------------------------------

  datatype Subject = ClaimsOf(task: nat) | DispatchesOf(command: nat) | TerminalAcksOf(command: nat)

  predicate Counts(s: Subject, e: AuditEntry) {
    match s
    case ClaimsOf(t) => e.TaskClaimed? && e.task == t
    case DispatchesOf(c) => (e.CommandQueued? || e.CommandRetried?) && e.command == c
    case TerminalAcksOf(c) => e.CommandAcked? && e.command == c && e.reported != CRunning
  }

  function Tally(audit: seq<AuditEntry>, s: Subject): nat {
    if audit == [] then 0
    else Tally(audit[..|audit| - 1], s) + (if Counts(s, audit[|audit| - 1]) then 1 else 0)
  }

  lemma {:induction false} TallyConcat(a: seq<AuditEntry>, b: seq<AuditEntry>, s: Subject)
    ensures Tally(a + b, s) == Tally(a, s) + Tally(b, s)
    decreases |b|
  {
    if b == [] {
      assert a + b == a;
    } else {
      var front := b[..|b| - 1];
      assert (a + b)[..|a + b| - 1] == a + front;
      TallyConcat(a, front, s);
    }
  }

  lemma TallySnoc(a: seq<AuditEntry>, e: AuditEntry, s: Subject)
    ensures Tally(a + [e], s) == Tally(a, s) + (if Counts(s, e) then 1 else 0)
  {
    assert (a + [e])[..|a|] == a;
  }

  lemma StaleAuditIsNeutral(tasks: seq<Task>, deadline: int, s: Subject)
    ensures Tally(StaleAudit(tasks, deadline), s) == 0
  {
    if tasks != [] {
      StaleAuditIsNeutral(tasks[..|tasks| - 1], deadline, s);
      TallyConcat(StaleAudit(tasks[..|tasks| - 1], deadline),
                  if IsStale(tasks[|tasks| - 1], deadline) then [TaskRequeued(|tasks| - 1)] else [], s);
    }
  }

  lemma ExpiredAuditIsNeutral(commands: seq<Command>, node: string, deadline: int, s: Subject)
    ensures Tally(ExpiredAudit(commands, node, deadline), s) == 0
  {
    if commands != [] {
      ExpiredAuditIsNeutral(commands[..|commands| - 1], node, deadline, s);
      TallyConcat(ExpiredAudit(commands[..|commands| - 1], node, deadline),
                  if IsExpired(commands[|commands| - 1], node, deadline) then [CommandExpired(|commands| - 1)] else [], s);
    }
  }

  /** Audit rows that only report requeues. */
  ghost predicate Neutral(before: seq<AuditEntry>, after: seq<AuditEntry>) {
    forall s :: Tally(after, s) == Tally(before, s)
  }

  // ----- the invariants ----------------------------------------------------------------

  function SyncStatus(commands: seq<Command>, t: nat): Option<CommandStatus> {
    var c := FindCommand(commands, ReplicaSync(t));
    if c.Some? then Some(commands[c.value].status) else None
  }

  predicate Outstanding(c: Command) {
    c.status == CQueued || c.status == CRunning
  }

  /** A sync command belongs to one repair task and carries its target. */
  ghost predicate Linked(tasks: seq<Task>, c: Command) {
    && (c.key.ReplicaSync? <==> c.kind.SyncReplica?)
    && (c.kind.SyncReplica? ==>
        && c.key.taskId == c.kind.repairTask < |tasks|
        && var work := tasks[c.kind.repairTask].work;
           work.RepairReplica? && work.fileId == c.kind.fileId && work.fileHash == c.kind.fileHash && work.node == c.node)
  }

  ghost predicate CommandsLinked(tasks: seq<Task>, commands: seq<Command>) {
    && (forall c :: 0 <= c < |commands| ==> Linked(tasks, commands[c]))
    && (forall c, d :: 0 <= c < d < |commands| ==> commands[c].key != commands[d].key)
  }

  ghost predicate Conserved(commands: seq<Command>, audit: seq<AuditEntry>) {
    && (forall c :: 0 <= c < |commands| ==>
        Tally(audit, DispatchesOf(c)) == Tally(audit, TerminalAcksOf(c)) + if Outstanding(commands[c]) then 1 else 0)
    && (forall c :: c >= |commands| ==> Tally(audit, DispatchesOf(c)) == Tally(audit, TerminalAcksOf(c)) == 0)
  }

  ghost predicate AttemptsCounted(tasks: seq<Task>, audit: seq<AuditEntry>) {
    && (forall t :: 0 <= t < |tasks| ==> tasks[t].attempts == Tally(audit, ClaimsOf(t)))
    && (forall t :: t >= |tasks| ==> Tally(audit, ClaimsOf(t)) == 0)
  }

  ghost predicate Sound(w: World) {
    && CommandsLinked(w.hub.tasks, w.hub.commands)
    && Conserved(w.hub.commands, w.hub.audit)
    && AttemptsCounted(w.hub.tasks, w.hub.audit)
    && (forall e :: 0 <= e < |w.execs| ==> w.execs[e].task < |w.hub.tasks| && w.execs[e].startedAt <= w.hub.now)
  }

  /** The status a repair task has for each status of its command. */
  predicate Agrees(status: TaskStatus, command: Option<CommandStatus>) {
    match status
    case Pending => command == None || command == Some(CFailed)
    case Running => command == None || command == Some(CFailed)
    case Waiting => command == Some(CQueued) || command == Some(CRunning)
    case Success => command == Some(CSuccess)
    case Failed => command == None || command == Some(CFailed)
    case Cancelled => false
  }

  ghost predicate RepairsAgree(tasks: seq<Task>, commands: seq<Command>) {
    forall t :: 0 <= t < |tasks| && tasks[t].work.RepairReplica? ==> Agrees(tasks[t].status, SyncStatus(commands, t))
  }

  /** An execution that can still commit owns its task. */
  ghost predicate Owns(w: World, e: nat)
    requires e < |w.execs| && w.execs[e].task < |w.hub.tasks|
  {
    var task := w.hub.tasks[w.execs[e].task];
    task.status == Running && task.claimedAt == Some(w.execs[e].startedAt) && task.claimedBy == Some(w.execs[e].worker)
  }

  ghost predicate LeasesExclude(cfg: Config, w: World) {
    && (forall e :: 0 <= e < |w.execs| && InTime(cfg, w, e) ==> Owns(w, e))
    && (forall d, e :: 0 <= d < e < |w.execs| && InTime(cfg, w, d) && InTime(cfg, w, e) ==> w.execs[d].task != w.execs[e].task)
  }

  ghost predicate Agreed(cfg: Config, w: World) {
    RepairsAgree(w.hub.tasks, w.hub.commands) && LeasesExclude(cfg, w)
  }

  // ----- quiet steps ---------------------------------------------------------------------

  /** New rows are pending; an old row changes only by going from failed to pending. */
  ghost predicate Grows(a: seq<Task>, b: seq<Task>) {
    && |a| <= |b|
    && (forall i :: 0 <= i < |a| ==>
        b[i] == a[i] || (a[i].status == Failed && b[i].status == Pending && b[i].work == a[i].work && b[i].attempts == a[i].attempts))
    && (forall i :: |a| <= i < |b| ==> b[i].status == Pending && b[i].attempts == 0)
  }

  /** A step that neither claims, finishes, nor touches a command. */
  ghost predicate Quiet(w: World, w': World) {
    && w.hub.now <= w'.hub.now
    && Grows(w.hub.tasks, w'.hub.tasks)
    && w'.hub.commands == w.hub.commands
    && Neutral(w.hub.audit, w'.hub.audit)
    && |w'.execs| == |w.execs|
    && (forall e :: 0 <= e < |w.execs| ==> w'.execs[e] == w.execs[e] || w'.execs[e] == w.execs[e].(open := false))
  }

  predicate IsQuiet(ev: Event) {
    !ev.PollClaim? && !ev.CeleryDelivery? && !ev.Finish? && !ev.OperatorRetry?
    && !ev.QueueCommand? && !ev.EdgeClaim? && !ev.EdgeAck?
  }

  lemma RepairsArePending(h: Hub, n: nat, cutoff: int, desired: seq<string>)
    requires n <= |h.files|
    ensures forall i :: 0 <= i < |Repairs(h, n, cutoff, desired)| ==>
      Repairs(h, n, cutoff, desired)[i].status == Pending && Repairs(h, n, cutoff, desired)[i].attempts == 0
  {
    if n > 0 {
      RepairsArePending(h, n - 1, cutoff, desired);
      RepairsForArePending(h, n - 1, desired);
    }
  }

  lemma RepairsForArePending(h: Hub, f: nat, desired: seq<string>)
    requires f < |h.files|
    ensures forall i :: 0 <= i < |RepairsFor(h, f, desired)| ==>
      RepairsFor(h, f, desired)[i].status == Pending && RepairsFor(h, f, desired)[i].attempts == 0
  {}

  lemma PipelineRepairsArePending(h: Hub, f: nat, hash: string, policy: seq<string>)
    ensures forall i :: 0 <= i < |PipelineRepairs(h, f, hash, policy)| ==>
      PipelineRepairs(h, f, hash, policy)[i].status == Pending && PipelineRepairs(h, f, hash, policy)[i].attempts == 0
  {}

  lemma RereportIsQuiet(h: Hub, node: string, f: nat)
    requires f < |h.files|
    ensures var h' := Rereport(h, node, f);
      Grows(h.tasks, h'.tasks) && Neutral(h.audit, h'.audit) && h'.commands == h.commands && h'.now == h.now
  {
    var h' := Rereport(h, node, f);
    forall s ensures Tally(h'.audit, s) == Tally(h.audit, s) {
      if h'.audit != h.audit {
        TallySnoc(h.audit, h'.audit[|h.audit|], s);
      }
    }
  }

  lemma ReportIsQuiet(cfg: Config, w: World, ev: Event)
    requires ev.Report?
    ensures Quiet(w, Step(cfg, w, ev))
  {
    var known := FindFile(w.hub.files, ev.path, ev.hash);
    if known.Some? {
      RereportIsQuiet(w.hub, ev.node, known.value);
    }
  }

  lemma ScanIsQuiet(cfg: Config, w: World)
    ensures Quiet(w, Step(cfg, w, Scan))
  {
    var cutoff := w.hub.now - cfg.missingAfter;
    RepairsArePending(w.hub, |w.hub.files|, cutoff, Desired(w.hub.nodes, cfg.replicaNodes));
  }

  lemma PipelineStepIsQuiet(cfg: Config, w: World, e: nat, stage: Node)
    ensures Quiet(w, Step(cfg, w, PipelineStep(e, stage)))
  {
    if IsOpen(w, e) {
      var work := w.hub.tasks[w.execs[e].task].work;
      if work.RunPipeline? {
        PipelineRepairsArePending(w.hub, work.fileId, work.fileHash, cfg.replicaNodes);
      }
    }
  }

  lemma QuietSteps(cfg: Config, w: World, ev: Event)
    requires IsQuiet(ev)
    ensures Quiet(w, Step(cfg, w, ev))
  {
    match ev
    case Report(_, _, _) => ReportIsQuiet(cfg, w, ev);
    case Scan => ScanIsQuiet(cfg, w);
    case PipelineStep(e, stage) => PipelineStepIsQuiet(cfg, w, e, stage);
    case _ =>
  }

  lemma QuietKeepsSound(w: World, w': World)
    requires Sound(w) && Quiet(w, w')
    ensures Sound(w')
  {
    forall c | 0 <= c < |w'.hub.commands| ensures Linked(w'.hub.tasks, w'.hub.commands[c]) {
      assert Linked(w.hub.tasks, w.hub.commands[c]);
    }
    forall t | 0 <= t < |w'.hub.tasks| ensures w'.hub.tasks[t].attempts == Tally(w'.hub.audit, ClaimsOf(t)) {}
  }

  lemma NoCommandYet(tasks: seq<Task>, commands: seq<Command>, t: nat)
    requires CommandsLinked(tasks, commands) && t >= |tasks|
    ensures SyncStatus(commands, t) == None
  {
    forall c | 0 <= c < |commands| ensures commands[c].key != ReplicaSync(t) {
      assert Linked(tasks, commands[c]);
    }
  }

  lemma QuietKeepsRepairs(w: World, w': World)
    requires Sound(w) && RepairsAgree(w.hub.tasks, w.hub.commands) && Quiet(w, w')
    ensures RepairsAgree(w'.hub.tasks, w'.hub.commands)
  {
    forall t | 0 <= t < |w'.hub.tasks| && w'.hub.tasks[t].work.RepairReplica?
      ensures Agrees(w'.hub.tasks[t].status, SyncStatus(w'.hub.commands, t))
    {
      if t >= |w.hub.tasks| {
        NoCommandYet(w.hub.tasks, w.hub.commands, t);
      }
    }
  }

  lemma QuietKeepsLeases(cfg: Config, w: World, w': World)
    requires Sound(w) && LeasesExclude(cfg, w) && Quiet(w, w')
    ensures LeasesExclude(cfg, w')
  {
    forall e | 0 <= e < |w'.execs| && InTime(cfg, w', e) ensures InTime(cfg, w, e) && Owns(w', e) {
      assert w'.execs[e] == w.execs[e] && w.execs[e].task < |w.hub.tasks|;
      assert Owns(w, e);
    }
  }

  // ----- looking commands up after an update -----------------------------------------------

  ghost predicate SameKeys(a: seq<Command>, b: seq<Command>) {
    |a| == |b| && forall c :: 0 <= c < |a| ==> a[c].key == b[c].key
  }

  lemma FindSameKeys(a: seq<Command>, b: seq<Command>, key: CommandKey)
    requires SameKeys(a, b)
    ensures FindCommand(a, key) == FindCommand(b, key)
  {
    if a != [] {
      FindSameKeys(a[..|a| - 1], b[..|b| - 1], key);
    }
  }

  lemma FindAppended(commands: seq<Command>, c: Command, key: CommandKey)
    ensures FindCommand(commands + [c], key) == if c.key == key then Some(|commands|) else FindCommand(commands, key)
  {
    assert (commands + [c])[..|commands|] == commands;
  }

  /** Statuses of a task's command before and after a change that keeps all keys. */
  lemma SyncStatusSameKeys(a: seq<Command>, b: seq<Command>, t: nat)
    requires SameKeys(a, b)
    ensures SyncStatus(a, t).Some? <==> SyncStatus(b, t).Some?
    ensures SyncStatus(a, t).Some? ==>
      exists c :: 0 <= c < |a| && a[c].key == ReplicaSync(t) && SyncStatus(a, t) == Some(a[c].status) && SyncStatus(b, t) == Some(b[c].status)
  {
    FindSameKeys(a, b, ReplicaSync(t));
    var c := FindCommand(a, ReplicaSync(t));
    if c.Some? {
      assert a[c.value].key == ReplicaSync(t) && SyncStatus(b, t) == Some(b[c.value].status);
    }
  }

  /** The command of a task is found wherever it is. */
  lemma SyncStatusIs(tasks: seq<Task>, commands: seq<Command>, c: nat)
    requires CommandsLinked(tasks, commands) && c < |commands| && commands[c].key.ReplicaSync?
    ensures SyncStatus(commands, commands[c].key.taskId) == Some(commands[c].status)
  {
    var d := FindCommand(commands, commands[c].key);
    assert d.Some? && commands[d.value].key == commands[c].key;
  }

  // ----- claims -----------------------------------------------------------------------------

  /** A claim takes a pending or expired row; every other row is unchanged or its expired lease is requeued. */
  ghost predicate ClaimEffect(h: Hub, lease: nat, claim: Claim, worker: string) {
    var h' := claim.hub;
    && h' == h.(tasks := h'.tasks, audit := h'.audit)
    && |h'.tasks| == |h.tasks|
    && (claim.task.Some? ==> claim.task.value < |h.tasks|)
    && (forall i :: 0 <= i < |h.tasks| ==>
        var before, after := h.tasks[i], h'.tasks[i];
        if claim.task == Some(i) then
          after == Claimed(before, worker, h.now) && (before.status == Pending || IsStale(before, h.now - lease))
        else
          after == before || (IsStale(before, h.now - lease) && after == Requeued(before)))
    && CountsClaim(h.audit, h'.audit, claim.task)
  }

  ghost predicate CountsClaim(before: seq<AuditEntry>, after: seq<AuditEntry>, t: Option<nat>) {
    forall s :: Tally(after, s) == Tally(before, s) + ClaimCount(t, s)
  }

  function ClaimCount(t: Option<nat>, s: Subject): nat {
    if t.Some? && s == ClaimsOf(t.value) then 1 else 0
  }

  lemma ClaimLogged(before: seq<AuditEntry>, stale: seq<AuditEntry>, t: nat, worker: string, s: Subject)
    requires Tally(stale, s) == 0
    ensures Tally(before + stale, s) == Tally(before, s)
    ensures Tally(before + stale + [TaskClaimed(t, worker)], s) == Tally(before, s) + ClaimCount(Some(t), s)
  {
    TallyConcat(before, stale, s);
    TallySnoc(before + stale, TaskClaimed(t, worker), s);
  }

  lemma StaleThenClaimed(before: seq<AuditEntry>, stale: seq<AuditEntry>, t: nat, worker: string)
    requires forall s :: Tally(stale, s) == 0
    ensures CountsClaim(before, before + stale, None)
    ensures CountsClaim(before, before + stale + [TaskClaimed(t, worker)], Some(t))
  {
    forall s
      ensures Tally(before + stale, s) == Tally(before, s) + ClaimCount(None, s)
      ensures Tally(before + stale + [TaskClaimed(t, worker)], s) == Tally(before, s) + ClaimCount(Some(t), s)
    {
      ClaimLogged(before, stale, t, worker, s);
    }
  }

  lemma ClaimNextCounts(h: Hub, worker: string, lease: nat, locked: set<nat>)
    ensures var claim := ClaimNext(h, worker, lease, locked); CountsClaim(h.audit, claim.hub.audit, claim.task)
  {
    var stale := StaleAudit(h.tasks, h.now - lease);
    forall s ensures Tally(stale, s) == 0 {
      StaleAuditIsNeutral(h.tasks, h.now - lease, s);
    }
    StaleThenClaimed(h.audit, stale, FirstPending(h.tasks, locked, 0), worker);
  }

  lemma ClaimNextEffect(h: Hub, worker: string, lease: nat, locked: set<nat>)
    ensures ClaimEffect(h, lease, ClaimNext(h, worker, lease, locked), worker)
  {
    ClaimNextCounts(h, worker, lease, locked);
  }

  lemma ClaimByIdEffect(h: Hub, t: nat, worker: string, lease: nat)
    ensures ClaimEffect(h, lease, ClaimById(h, t, worker, lease), worker)
  {
    var claim := ClaimById(h, t, worker, lease);
    if claim.task.Some? {
      var requeue := if h.tasks[t].status == Running then [TaskRequeued(t)] else [];
      forall s ensures Tally(claim.hub.audit, s) == Tally(h.audit, s) + ClaimCount(Some(t), s) {
        TallySnoc(h.audit, TaskRequeued(t), s);
        TallySnoc(h.audit + requeue, TaskClaimed(t, worker), s);
        assert h.audit + [] == h.audit;
      }
    }
  }

  lemma ClaimKeepsSound(cfg: Config, w: World, claim: Claim, worker: string, delivery: Delivery)
    requires Sound(w) && ClaimEffect(w.hub, cfg.lease, claim, worker)
    ensures Sound(Begin(w, claim, worker, delivery))
  {
    forall c | 0 <= c < |w.hub.commands| ensures Linked(claim.hub.tasks, w.hub.commands[c]) {
      assert Linked(w.hub.tasks, w.hub.commands[c]);
    }
  }

  lemma ClaimKeepsRepairs(h: Hub, lease: nat, claim: Claim, worker: string)
    requires RepairsAgree(h.tasks, h.commands) && ClaimEffect(h, lease, claim, worker)
    ensures RepairsAgree(claim.hub.tasks, claim.hub.commands)
  {
    forall t | 0 <= t < |claim.hub.tasks| && claim.hub.tasks[t].work.RepairReplica?
      ensures Agrees(claim.hub.tasks[t].status, SyncStatus(claim.hub.commands, t))
    {
      assert Agrees(h.tasks[t].status, SyncStatus(h.commands, t));
    }
  }

  lemma ClaimKeepsLeases(cfg: Config, w: World, claim: Claim, worker: string, delivery: Delivery)
    requires Sound(w) && LeasesExclude(cfg, w) && ClaimEffect(w.hub, cfg.lease, claim, worker)
    ensures LeasesExclude(cfg, Begin(w, claim, worker, delivery))
  {
    var w' := Begin(w, claim, worker, delivery);
    var n := |w.execs|;
    forall e | 0 <= e < n && InTime(cfg, w', e) ensures InTime(cfg, w, e) && Owns(w', e) && claim.task != Some(w.execs[e].task) {
      assert InTime(cfg, w, e) && Owns(w, e);
    }
  }

  // ----- edge claims and client commands --------------------------------------------------

  /** An edge claim only moves outstanding commands between queued and running. */
  ghost predicate Reshuffles(a: seq<Command>, b: seq<Command>) {
    && |a| == |b|
    && (forall c :: 0 <= c < |a| ==>
        && a[c].key == b[c].key && a[c].kind == b[c].kind && a[c].node == b[c].node
        && (a[c].status == b[c].status || (Outstanding(a[c]) && Outstanding(b[c]))))
  }

  lemma EdgeClaimEffect(h: Hub, node: string, lease: nat, locked: set<nat>)
    ensures var h' := ClaimCommand(h, node, lease, locked).hub;
      && h' == h.(commands := h'.commands, audit := h'.audit)
      && Reshuffles(h.commands, h'.commands)
      && Neutral(h.audit, h'.audit)
  {
    var claim := ClaimCommand(h, node, lease, locked);
    forall s ensures Tally(claim.hub.audit, s) == Tally(h.audit, s) {
      if claim.command.Some? {
        EdgeClaimTally(h, node, h.now - lease, claim.command.value, s);
      }
    }
  }

  lemma EdgeClaimTally(h: Hub, node: string, deadline: int, c: nat, s: Subject)
    ensures Tally(h.audit + ExpiredAudit(h.commands, node, deadline) + [CommandClaimed(c)], s) == Tally(h.audit, s)
  {
    TallyConcat(h.audit, ExpiredAudit(h.commands, node, deadline), s);
    ExpiredAuditIsNeutral(h.commands, node, deadline, s);
    TallySnoc(h.audit + ExpiredAudit(h.commands, node, deadline), CommandClaimed(c), s);
  }

  lemma EdgeClaimKeepsSound(cfg: Config, w: World, ev: Event)
    requires Sound(w) && ev.EdgeClaim?
    ensures Sound(Step(cfg, w, ev))
  {
    var h, h' := w.hub, Step(cfg, w, ev).hub;
    EdgeClaimEffect(h, ev.node, cfg.commandLease, ev.locked);
    forall c | 0 <= c < |h.commands| ensures Linked(h'.tasks, h'.commands[c]) {
      assert Linked(h.tasks, h.commands[c]);
    }
  }

  lemma ReshuffledAgree(tasks: seq<Task>, a: seq<Command>, b: seq<Command>)
    requires RepairsAgree(tasks, a) && Reshuffles(a, b)
    ensures RepairsAgree(tasks, b)
  {
    forall t | 0 <= t < |tasks| && tasks[t].work.RepairReplica? ensures Agrees(tasks[t].status, SyncStatus(b, t)) {
      SyncStatusSameKeys(a, b, t);
    }
  }

  /** Who may commit depends on the clock, the tasks and the executions alone. */
  lemma LeasesIgnoreCommands(cfg: Config, w: World, w': World)
    requires LeasesExclude(cfg, w) && w'.execs == w.execs && w'.hub.tasks == w.hub.tasks && w'.hub.now == w.hub.now
    ensures LeasesExclude(cfg, w')
  {
    forall e | 0 <= e < |w'.execs| && InTime(cfg, w', e) ensures InTime(cfg, w, e) && Owns(w', e) {
      assert InTime(cfg, w, e) && Owns(w, e);
    }
  }

  lemma EdgeClaimKeepsRepairs(cfg: Config, w: World, ev: Event)
    requires RepairsAgree(w.hub.tasks, w.hub.commands) && ev.EdgeClaim?
    ensures var w' := Step(cfg, w, ev); RepairsAgree(w'.hub.tasks, w'.hub.commands)
  {
    var w' := Step(cfg, w, ev);
    EdgeClaimEffect(w.hub, ev.node, cfg.commandLease, ev.locked);
    ReshuffledAgree(w.hub.tasks, w.hub.commands, w'.hub.commands);
  }

  lemma QueueCommandKeeps(cfg: Config, w: World, ev: Event)
    requires Sound(w) && ev.QueueCommand?
    ensures Sound(Step(cfg, w, ev))
    ensures RepairsAgree(w.hub.tasks, w.hub.commands) ==>
      RepairsAgree(Step(cfg, w, ev).hub.tasks, Step(cfg, w, ev).hub.commands)
  {
    var h, w' := w.hub, Step(cfg, w, ev);
    if w'.hub != h {
      var command := Command(ClientCommand(ev.name), ev.node, OtherCommand, CQueued, None);
      QueuedKeepsSound(w, command);
      if RepairsAgree(h.tasks, h.commands) {
        QueuedKeepsRepairs(w, command);
      }
    }
  }

  /** A command for another purpose has been appended. */
  function Queued(w: World, command: Command): World {
    w.(hub := w.hub.(commands := w.hub.commands + [command], audit := w.hub.audit + [CommandQueued(|w.hub.commands|)]))
  }

  lemma QueuedKeepsSound(w: World, command: Command)
    requires Sound(w) && command.key.ClientCommand? && command.kind.OtherCommand? && Outstanding(command)
    requires FindCommand(w.hub.commands, command.key).None?
    ensures Sound(Queued(w, command))
  {
    var h, w' := w.hub, Queued(w, command);
    var n := |h.commands|;
    forall s ensures Tally(w'.hub.audit, s) == Tally(h.audit, s) + (if s == DispatchesOf(n) then 1 else 0) {
      TallySnoc(h.audit, CommandQueued(n), s);
    }
    forall c | 0 <= c <= n ensures Linked(h.tasks, w'.hub.commands[c]) {
      if c < n {
        assert Linked(h.tasks, h.commands[c]);
      }
    }
  }

  lemma QueuedKeepsRepairs(w: World, command: Command)
    requires RepairsAgree(w.hub.tasks, w.hub.commands) && command.key.ClientCommand?
    ensures RepairsAgree(w.hub.tasks, Queued(w, command).hub.commands)
  {
    var h, commands' := w.hub, Queued(w, command).hub.commands;
    forall t | 0 <= t < |h.tasks| ensures SyncStatus(commands', t) == SyncStatus(h.commands, t) {
      FindAppended(h.commands, command, ReplicaSync(t));
    }
  }

  // ----- finishing an execution --------------------------------------------------------------

  /** The finished row gets its outcome and loses its claim; other rows stay, new rows are pending. */
  ghost predicate FinishesRow(a: seq<Task>, b: seq<Task>, t: nat, outcome: TaskStatus)
    requires t < |a|
  {
    && |a| <= |b|
    && (forall i :: 0 <= i < |a| && i != t ==> b[i] == a[i])
    && b[t] == a[t].(status := outcome, claimedAt := None, claimedBy := None)
    && (forall i :: |a| <= i < |b| ==> b[i].status == Pending && b[i].attempts == 0)
  }

  /** What finishing does to the command table: nothing, a new command, or a failed one requeued. */
  datatype Dispatch = Nothing | Created | Revived(command: nat)

  ghost predicate Dispatches(a: seq<Command>, b: seq<Command>, t: nat, work: Work, outcome: TaskStatus, d: Dispatch) {
    match d
    case Nothing => b == a && (work.RepairReplica? && outcome == Waiting ==> SyncStatus(a, t).Some? && SyncStatus(a, t) != Some(CFailed))
    case Created =>
      && work.RepairReplica? && outcome == Waiting && SyncStatus(a, t).None?
      && |b| == |a| + 1 && b[..|a|] == a
      && b[|a|].key == ReplicaSync(t) && b[|a|].node == work.node && b[|a|].status == CQueued
      && var kind := b[|a|].kind;
         kind.SyncReplica? && kind.repairTask == t && kind.fileId == work.fileId && kind.fileHash == work.fileHash
    case Revived(c) =>
      && work.RepairReplica? && outcome == Waiting && c < |a| && a[c].key == ReplicaSync(t) && a[c].status == CFailed
      && b == a[c := a[c].(status := CQueued, claimedAt := None)]
  }

  ghost predicate CountsDispatch(before: seq<AuditEntry>, after: seq<AuditEntry>, n: nat, d: Dispatch) {
    forall s :: Tally(after, s) == Tally(before, s) + DispatchCount(n, d, s)
  }

  function DispatchCount(n: nat, d: Dispatch, s: Subject): nat {
    match d
    case Nothing => 0
    case Created => if s == DispatchesOf(n) then 1 else 0
    case Revived(c) => if s == DispatchesOf(c) then 1 else 0
  }

  ghost predicate FinishEffect(h: Hub, h': Hub, t: nat, outcome: TaskStatus, d: Dispatch)
    requires t < |h.tasks|
  {
    && h'.now == h.now
    && FinishesRow(h.tasks, h'.tasks, t, outcome)
    && (if h.tasks[t].work.RepairReplica? then outcome == Waiting || outcome == Failed else outcome == Success || outcome == Failed)
    && Dispatches(h.commands, h'.commands, t, h.tasks[t].work, outcome, d)
    && CountsDispatch(h.audit, h'.audit, |h.commands|, d)
  }

  lemma ExecuteCounts(h: Hub, t: nat, outcome: TaskStatus, d: Dispatch)
    ensures CountsDispatch(h.audit, h.audit + DispatchAudit(|h.commands|, d) + [TaskFinished(t, outcome)], |h.commands|, d)
  {
    forall s
      ensures Tally(h.audit + DispatchAudit(|h.commands|, d) + [TaskFinished(t, outcome)], s)
        == Tally(h.audit, s) + DispatchCount(|h.commands|, d, s)
    {
      DispatchTally(h.audit, |h.commands|, d, t, outcome, s);
    }
  }

  lemma DispatchTally(audit: seq<AuditEntry>, n: nat, d: Dispatch, t: nat, outcome: TaskStatus, s: Subject)
    ensures Tally(audit + DispatchAudit(n, d) + [TaskFinished(t, outcome)], s) == Tally(audit, s) + DispatchCount(n, d, s)
  {
    TallySnoc(audit + DispatchAudit(n, d), TaskFinished(t, outcome), s);
    match d
    case Nothing => assert audit + [] == audit;
    case Created => TallySnoc(audit, CommandQueued(n), s);
    case Revived(c) => TallySnoc(audit, CommandRetried(c), s);
  }

  function DispatchAudit(n: nat, d: Dispatch): seq<AuditEntry> {
    match d case Nothing => [] case Created => [CommandQueued(n)] case Revived(c) => [CommandRetried(c)]
  }

  lemma FinishShape(cfg: Config, h: Hub, t: nat, delivery: Delivery, foreignOk: bool) returns (outcome: TaskStatus)
    requires t < |h.tasks|
    ensures var o := Execute(cfg, h, t, foreignOk); var h' := FinishTask(cfg, h, t, delivery, foreignOk);
      && t < |o.hub.tasks| && h'.now == o.hub.now && h'.commands == o.hub.commands
      && h'.tasks == o.hub.tasks[t := o.hub.tasks[t].(status := outcome, claimedAt := None, claimedBy := None)]
      && h'.audit == o.hub.audit + [TaskFinished(t, outcome)]
      && outcome == if !o.ok then Failed else if h.tasks[t].work.RepairReplica? then Waiting else Success
  {
    ExecuteKeepsTask(cfg, h, t, foreignOk);
    outcome := if !Execute(cfg, h, t, foreignOk).ok then Failed else if h.tasks[t].work.RepairReplica? then Waiting else Success;
  }

  lemma FinishHasEffect(cfg: Config, h: Hub, t: nat, delivery: Delivery, foreignOk: bool) returns (outcome: TaskStatus, d: Dispatch)
    requires t < |h.tasks|
    ensures FinishEffect(h, FinishTask(cfg, h, t, delivery, foreignOk), t, outcome, d)
  {
    outcome := FinishShape(cfg, h, t, delivery, foreignOk);
    ExecuteAppends(cfg, h, t, foreignOk);
    var work := h.tasks[t].work;
    d := Nothing;
    if work.RepairReplica? && outcome == Waiting {
      d := RepairDispatch(h, t, work);
    }
    ExecuteCounts(h, t, outcome, d);
    assert h.audit + [] == h.audit;
  }

  lemma RepairDispatch(h: Hub, t: nat, work: Work) returns (d: Dispatch)
    requires work.RepairReplica?
    requires ExecuteRepair(h, t, work.fileId, work.fileHash, work.node).ok
    ensures var h' := ExecuteRepair(h, t, work.fileId, work.fileHash, work.node).hub;
      && Dispatches(h.commands, h'.commands, t, work, Waiting, d)
      && h'.audit == h.audit + DispatchAudit(|h.commands|, d)
  {
    var found := FindCommand(h.commands, ReplicaSync(t));
    d := if found.None? then Created else if h.commands[found.value].status == CFailed then Revived(found.value) else Nothing;
  }

  lemma ExecuteAppends(cfg: Config, h: Hub, t: nat, foreignOk: bool)
    requires t < |h.tasks|
    ensures var h' := Execute(cfg, h, t, foreignOk).hub;
      && h'.now == h.now && h.tasks <= h'.tasks
      && (forall i :: |h.tasks| <= i < |h'.tasks| ==> h'.tasks[i].status == Pending && h'.tasks[i].attempts == 0)
    ensures !h.tasks[t].work.RepairReplica? ==>
      var h' := Execute(cfg, h, t, foreignOk).hub; h'.commands == h.commands && h'.audit == h.audit
  {}

  lemma FinishKeepsConserved(h: Hub, h': Hub, t: nat, outcome: TaskStatus, d: Dispatch)
    requires t < |h.tasks| && FinishEffect(h, h', t, outcome, d) && Conserved(h.commands, h.audit)
    ensures Conserved(h'.commands, h'.audit)
  {
    forall c: nat
      ensures c < |h'.commands| ==> Tally(h'.audit, DispatchesOf(c)) == Tally(h'.audit, TerminalAcksOf(c)) + if Outstanding(h'.commands[c]) then 1 else 0
      ensures c >= |h'.commands| ==> Tally(h'.audit, DispatchesOf(c)) == Tally(h'.audit, TerminalAcksOf(c)) == 0
    {
      assert Tally(h'.audit, DispatchesOf(c)) == Tally(h.audit, DispatchesOf(c)) + DispatchCount(|h.commands|, d, DispatchesOf(c));
      assert Tally(h'.audit, TerminalAcksOf(c)) == Tally(h.audit, TerminalAcksOf(c));
      if d.Created? && c < |h.commands| {
        assert h'.commands[c] == h'.commands[..|h.commands|][c];
      }
    }
  }

  lemma FinishKeepsLinked(h: Hub, h': Hub, t: nat, outcome: TaskStatus, d: Dispatch)
    requires t < |h.tasks| && FinishEffect(h, h', t, outcome, d) && CommandsLinked(h.tasks, h.commands)
    ensures CommandsLinked(h'.tasks, h'.commands)
  {
    if d.Created? {
      assert forall c :: 0 <= c < |h.commands| ==> h'.commands[c] == h'.commands[..|h.commands|][c];
      assert forall c :: 0 <= c < |h.commands| ==> h.commands[c].key != ReplicaSync(t);
    }
    forall c | 0 <= c < |h'.commands| ensures Linked(h'.tasks, h'.commands[c]) {
      assert c < |h.commands| ==> Linked(h.tasks, h.commands[c]);
    }
  }

  lemma FinishKeepsSound(w: World, h': Hub, e: nat, outcome: TaskStatus, d: Dispatch)
    requires Sound(w) && e < |w.execs| && FinishEffect(w.hub, h', w.execs[e].task, outcome, d)
    ensures Sound(World(h', Close(w, e)))
  {
    FinishKeepsConserved(w.hub, h', w.execs[e].task, outcome, d);
    FinishKeepsLinked(w.hub, h', w.execs[e].task, outcome, d);
    forall t: nat ensures Tally(h'.audit, ClaimsOf(t)) == Tally(w.hub.audit, ClaimsOf(t)) {}
  }

  /** Whether a repair for this record and node can be dispatched. */
  predicate Dispatchable(h: Hub, f: nat, hash: string, node: string) {
    SameVersion(h, f, hash) && node in h.nodes && h.nodes[node]
  }

  /** A finish may overwrite any row except a successful repair, and a waiting one only while the
      repair can be dispatched. */
  predicate MayFinish(h: Hub, t: nat)
    requires t < |h.tasks|
  {
    var task := h.tasks[t];
    task.work.RepairReplica? ==>
      && task.status != Success
      && (task.status == Waiting ==> Dispatchable(h, task.work.fileId, task.work.fileHash, task.work.node))
  }

  /** The other rows still agree after a finish. */
  lemma FinishKeepsOthers(h: Hub, h': Hub, t: nat, outcome: TaskStatus, d: Dispatch, i: nat)
    requires CommandsLinked(h.tasks, h.commands) && RepairsAgree(h.tasks, h.commands)
    requires t < |h.tasks| && FinishEffect(h, h', t, outcome, d) && i != t && i < |h'.tasks| && h'.tasks[i].work.RepairReplica?
    ensures Agrees(h'.tasks[i].status, SyncStatus(h'.commands, i))
  {
    if i >= |h.tasks| {
      NoCommandYet(h.tasks, h.commands, i);
    } else {
      assert Agrees(h.tasks[i].status, SyncStatus(h.commands, i));
    }
    if d.Created? {
      FindAppended(h.commands, h'.commands[|h.commands|], ReplicaSync(i));
      assert h'.commands == h.commands + [h'.commands[|h.commands|]];
    } else if d.Revived? {
      FindSameKeys(h.commands, h'.commands, ReplicaSync(i));
      SyncStatusIs(h.tasks, h.commands, d.command);
    }
  }

  /** What a finish makes of the command of the repair it finishes. */
  lemma FinishedCommand(h: Hub, h': Hub, t: nat, outcome: TaskStatus, d: Dispatch)
    requires CommandsLinked(h.tasks, h.commands)
    requires t < |h.tasks| && h.tasks[t].work.RepairReplica? && FinishEffect(h, h', t, outcome, d)
    ensures var before := SyncStatus(h.commands, t);
      SyncStatus(h'.commands, t) ==
        if outcome == Waiting && (before == None || before == Some(CFailed)) then Some(CQueued) else before
  {
    if d.Created? {
      FindAppended(h.commands, h'.commands[|h.commands|], ReplicaSync(t));
      assert h'.commands == h.commands + [h'.commands[|h.commands|]];
    } else if d.Revived? {
      FindSameKeys(h.commands, h'.commands, ReplicaSync(t));
      SyncStatusIs(h.tasks, h.commands, d.command);
    }
  }

  lemma FinishKeepsRepairsIff(h: Hub, h': Hub, t: nat, outcome: TaskStatus, d: Dispatch)
    requires CommandsLinked(h.tasks, h.commands) && RepairsAgree(h.tasks, h.commands)
    requires t < |h.tasks| && FinishEffect(h, h', t, outcome, d)
    requires var work := h.tasks[t].work;
      work.RepairReplica? ==> (outcome == Waiting <==> Dispatchable(h, work.fileId, work.fileHash, work.node))
    ensures RepairsAgree(h'.tasks, h'.commands) <==> MayFinish(h, t)
  {
    forall i | 0 <= i < |h'.tasks| && i != t && h'.tasks[i].work.RepairReplica?
      ensures Agrees(h'.tasks[i].status, SyncStatus(h'.commands, i))
    {
      FinishKeepsOthers(h, h', t, outcome, d, i);
    }
    if h.tasks[t].work.RepairReplica? {
      assert Agrees(h.tasks[t].status, SyncStatus(h.commands, t));
      FinishedCommand(h, h', t, outcome, d);
      assert h'.tasks[t].status == outcome;
      assert Agrees(outcome, SyncStatus(h'.commands, t)) <==> MayFinish(h, t);
    }
  }

  /** No execution but `e` can still commit task `t`. */
  ghost predicate NoRival(cfg: Config, w: World, t: nat, e: nat) {
    forall x :: 0 <= x < |w.execs| && x != e && InTime(cfg, w, x) ==> w.execs[x].task != t
  }

  lemma FinishKeepsLeasesIff(cfg: Config, w: World, h': Hub, e: nat, outcome: TaskStatus, d: Dispatch)
    requires Sound(w) && LeasesExclude(cfg, w) && e < |w.execs|
    requires FinishEffect(w.hub, h', w.execs[e].task, outcome, d)
    ensures LeasesExclude(cfg, World(h', Close(w, e))) <==> NoRival(cfg, w, w.execs[e].task, e)
  {
    var w', t := World(h', Close(w, e)), w.execs[e].task;
    forall x | 0 <= x < |w.execs| && x != e ensures InTime(cfg, w', x) <==> InTime(cfg, w, x) {
      assert w'.execs[x] == w.execs[x];
    }
    if NoRival(cfg, w, t, e) {
      forall x | 0 <= x < |w'.execs| && InTime(cfg, w', x) ensures x != e && InTime(cfg, w, x) && Owns(w', x) {
        assert Owns(w, x);
      }
    } else {
      var x :| 0 <= x < |w.execs| && x != e && InTime(cfg, w, x) && w.execs[x].task == t;
      assert InTime(cfg, w', x) && !Owns(w', x);
    }
  }

  // ----- acknowledgements -----------------------------------------------------------------------

  ghost predicate AckEffect(h: Hub, h': Hub, node: string, c: nat, ack: Ack) {
    && h'.now == h.now && c < |h.commands| && Outstanding(h.commands[c]) && |h'.commands| == |h.commands|
    && h'.commands == h.commands[c := h'.commands[c]]
    && h'.commands[c].key == h.commands[c].key && h'.commands[c].kind == h.commands[c].kind && h'.commands[c].node == h.commands[c].node == node
    && h'.commands[c].status != CQueued
    && (h'.commands[c].status == CRunning <==> ack.status == AckRunning)
    && h'.audit == h.audit + [CommandAcked(c, h'.commands[c].status)]
    && (h.commands[c].kind.OtherCommand? ==> h'.tasks == h.tasks)
    && (h.commands[c].kind.SyncReplica? ==>
        var t := h.commands[c].kind.repairTask;
        && t < |h.tasks| && |h'.tasks| == |h.tasks|
        && h'.tasks == h.tasks[t := h.tasks[t].(status := SettledStatus(h.tasks[t].status, h'.commands[c].status), claimedAt := None, claimedBy := None)])
  }

  function SettledStatus(task: TaskStatus, command: CommandStatus): TaskStatus {
    match command
    case CSuccess => Success
    case CFailed => Failed
    case _ => task
  }

  lemma AckHasEffect(h: Hub, node: string, c: nat, ack: Ack)
    ensures Acknowledge(h, node, c, ack).ok ==> AckEffect(h, Acknowledge(h, node, c, ack).hub, node, c, ack)
    ensures !Acknowledge(h, node, c, ack).ok ==> Acknowledge(h, node, c, ack).hub == h
  {}

  lemma AckKeepsSound(w: World, h': Hub, node: string, c: nat, ack: Ack)
    requires Sound(w) && AckEffect(w.hub, h', node, c, ack)
    ensures Sound(World(h', w.execs))
  {
    var h := w.hub;
    forall s ensures Tally(h'.audit, s) ==
      Tally(h.audit, s) + (if s == TerminalAcksOf(c) && ack.status != AckRunning then 1 else 0)
    {
      TallySnoc(h.audit, CommandAcked(c, h'.commands[c].status), s);
    }
    forall d | 0 <= d < |h'.commands| ensures Linked(h'.tasks, h'.commands[d]) {
      assert Linked(h.tasks, h.commands[d]);
    }
  }

  lemma AckKeepsRepairs(h: Hub, h': Hub, node: string, c: nat, ack: Ack)
    requires CommandsLinked(h.tasks, h.commands) && RepairsAgree(h.tasks, h.commands) && AckEffect(h, h', node, c, ack)
    ensures RepairsAgree(h'.tasks, h'.commands)
    ensures h.commands[c].kind.SyncReplica? ==> h.tasks[h.commands[c].kind.repairTask].status == Waiting
  {
    assert Linked(h.tasks, h.commands[c]);
    if h.commands[c].kind.SyncReplica? {
      SyncStatusIs(h.tasks, h.commands, c);
      assert Agrees(h.tasks[h.commands[c].kind.repairTask].status, SyncStatus(h.commands, h.commands[c].kind.repairTask));
    }
    forall t | 0 <= t < |h.tasks| && h.tasks[t].work.RepairReplica?
      ensures Agrees(h'.tasks[t].status, SyncStatus(h'.commands, t))
    {
      FindSameKeys(h.commands, h'.commands, ReplicaSync(t));
      var d := FindCommand(h.commands, ReplicaSync(t));
      assert Agrees(h.tasks[t].status, SyncStatus(h.commands, t));
    }
  }

  lemma AckKeepsLeases(cfg: Config, w: World, h': Hub, node: string, c: nat, ack: Ack)
    requires Sound(w) && Agreed(cfg, w) && AckEffect(w.hub, h', node, c, ack)
    ensures LeasesExclude(cfg, World(h', w.execs))
  {
    var h, w' := w.hub, World(h', w.execs);
    AckKeepsRepairs(h, h', node, c, ack);
    forall e | 0 <= e < |w.execs| && InTime(cfg, w', e) ensures InTime(cfg, w, e) && Owns(w', e) {
      assert InTime(cfg, w, e) && Owns(w, e);
    }
  }

  // ----- operator retries -------------------------------------------------------------------------

  lemma RetryKeepsSound(w: World, t: nat, repairsOnly: bool)
    requires Sound(w)
    ensures Sound(w.(hub := Retry(w.hub, t, repairsOnly).hub))
  {
    var h' := Retry(w.hub, t, repairsOnly).hub;
    forall c | 0 <= c < |w.hub.commands| ensures Linked(h'.tasks, h'.commands[c]) {
      assert Linked(w.hub.tasks, w.hub.commands[c]);
    }
  }

  /** A retry may take any row but a waiting repair, whose command is still out. */
  predicate MayRetry(h: Hub, t: nat)
    requires t < |h.tasks|
  {
    !(h.tasks[t].work.RepairReplica? && h.tasks[t].status == Waiting)
  }

  lemma RetryKeepsRepairsIff(h: Hub, t: nat, repairsOnly: bool)
    requires RepairsAgree(h.tasks, h.commands) && Retry(h, t, repairsOnly).ok
    ensures RepairsAgree(Retry(h, t, repairsOnly).hub.tasks, h.commands) <==> MayRetry(h, t)
  {
    var tasks' := Retry(h, t, repairsOnly).hub.tasks;
    forall i | 0 <= i < |tasks'| && i != t && tasks'[i].work.RepairReplica? ensures Agrees(tasks'[i].status, SyncStatus(h.commands, i)) {
      assert Agrees(h.tasks[i].status, SyncStatus(h.commands, i));
    }
    if h.tasks[t].work.RepairReplica? {
      assert Agrees(h.tasks[t].status, SyncStatus(h.commands, t));
      assert Agrees(tasks'[t].status, SyncStatus(h.commands, t)) <==> MayRetry(h, t);
    }
  }

  lemma RetryKeepsLeasesIff(cfg: Config, w: World, t: nat, repairsOnly: bool)
    requires LeasesExclude(cfg, w) && Retry(w.hub, t, repairsOnly).ok
    ensures LeasesExclude(cfg, Step(cfg, w, OperatorRetry(t, repairsOnly))) <==> NoRival(cfg, w, t, |w.execs|)
  {
    var w' := Step(cfg, w, OperatorRetry(t, repairsOnly));
    if NoRival(cfg, w, t, |w.execs|) {
      forall x | 0 <= x < |w'.execs| && InTime(cfg, w', x) ensures InTime(cfg, w, x) && Owns(w', x) {
        assert InTime(cfg, w, x) && Owns(w, x);
      }
    } else {
      var x :| 0 <= x < |w.execs| && InTime(cfg, w, x) && w.execs[x].task == t;
      assert InTime(cfg, w', x) && !Owns(w', x);
    }
  }

  // ----- every step, every run -----------------------------------------------------------------------

  lemma PollStep(cfg: Config, w: World, worker: string, locked: set<nat>)
    requires Sound(w)
    ensures var w' := Step(cfg, w, PollClaim(worker, locked));
      && Sound(w')
      && (RepairsAgree(w.hub.tasks, w.hub.commands) ==> RepairsAgree(w'.hub.tasks, w'.hub.commands))
      && (LeasesExclude(cfg, w) ==> LeasesExclude(cfg, w'))
  {
    var claim := ClaimNext(w.hub, worker, cfg.lease, locked);
    ClaimNextEffect(w.hub, worker, cfg.lease, locked);
    ClaimKeepsAll(cfg, w, claim, worker, Poll);
  }

  lemma DeliveryStep(cfg: Config, w: World, t: nat, worker: string)
    requires Sound(w)
    ensures var w' := Step(cfg, w, CeleryDelivery(t, worker));
      && Sound(w')
      && (RepairsAgree(w.hub.tasks, w.hub.commands) ==> RepairsAgree(w'.hub.tasks, w'.hub.commands))
      && (LeasesExclude(cfg, w) ==> LeasesExclude(cfg, w'))
  {
    var claim := ClaimById(w.hub, t, worker, cfg.lease);
    ClaimByIdEffect(w.hub, t, worker, cfg.lease);
    ClaimKeepsAll(cfg, w, claim, worker, Celery);
  }

  lemma ClaimKeepsAll(cfg: Config, w: World, claim: Claim, worker: string, delivery: Delivery)
    requires Sound(w) && ClaimEffect(w.hub, cfg.lease, claim, worker)
    ensures var w' := Begin(w, claim, worker, delivery);
      && Sound(w')
      && (RepairsAgree(w.hub.tasks, w.hub.commands) ==> RepairsAgree(w'.hub.tasks, w'.hub.commands))
      && (LeasesExclude(cfg, w) ==> LeasesExclude(cfg, w'))
  {
    ClaimKeepsSound(cfg, w, claim, worker, delivery);
    if RepairsAgree(w.hub.tasks, w.hub.commands) {
      ClaimKeepsRepairs(w.hub, cfg.lease, claim, worker);
    }
    if LeasesExclude(cfg, w) {
      ClaimKeepsLeases(cfg, w, claim, worker, delivery);
    }
  }

  /** The outcome of an execution: a repair waits exactly when it could be dispatched. */
  lemma FinishOf(cfg: Config, w: World, e: nat, foreignOk: bool) returns (outcome: TaskStatus, d: Dispatch)
    requires Sound(w) && IsOpen(w, e)
    ensures FinishEffect(w.hub, Step(cfg, w, Finish(e, foreignOk)).hub, w.execs[e].task, outcome, d)
    ensures var work := w.hub.tasks[w.execs[e].task].work;
      work.RepairReplica? ==> (outcome == Waiting <==> Dispatchable(w.hub, work.fileId, work.fileHash, work.node))
  {
    var t := w.execs[e].task;
    outcome, d := FinishHasEffect(cfg, w.hub, t, w.execs[e].delivery, foreignOk);
    var shape := FinishShape(cfg, w.hub, t, w.execs[e].delivery, foreignOk);
  }

  lemma FinishStep(cfg: Config, w: World, e: nat, foreignOk: bool)
    requires Sound(w)
    ensures Sound(Step(cfg, w, Finish(e, foreignOk)))
  {
    if IsOpen(w, e) {
      var outcome, d := FinishOf(cfg, w, e, foreignOk);
      FinishKeepsSound(w, Step(cfg, w, Finish(e, foreignOk)).hub, e, outcome, d);
    }
  }

  lemma FinishStepIff(cfg: Config, w: World, e: nat, foreignOk: bool)
    requires Sound(w) && IsOpen(w, e)
    ensures var w' := Step(cfg, w, Finish(e, foreignOk));
      && (RepairsAgree(w.hub.tasks, w.hub.commands) ==>
          (RepairsAgree(w'.hub.tasks, w'.hub.commands) <==> MayFinish(w.hub, w.execs[e].task)))
      && (LeasesExclude(cfg, w) ==> (LeasesExclude(cfg, w') <==> NoRival(cfg, w, w.execs[e].task, e)))
  {
    var h' := Step(cfg, w, Finish(e, foreignOk)).hub;
    var outcome, d := FinishOf(cfg, w, e, foreignOk);
    if RepairsAgree(w.hub.tasks, w.hub.commands) {
      FinishKeepsRepairsIff(w.hub, h', w.execs[e].task, outcome, d);
    }
    if LeasesExclude(cfg, w) {
      FinishKeepsLeasesIff(cfg, w, h', e, outcome, d);
    }
  }

  lemma AckStep(cfg: Config, w: World, node: string, c: nat, ack: Ack)
    requires Sound(w)
    ensures var w' := Step(cfg, w, EdgeAck(node, c, ack));
      && Sound(w')
      && (RepairsAgree(w.hub.tasks, w.hub.commands) ==> RepairsAgree(w'.hub.tasks, w'.hub.commands))
      && (Agreed(cfg, w) ==> LeasesExclude(cfg, w'))
  {
    var h' := Step(cfg, w, EdgeAck(node, c, ack)).hub;
    AckHasEffect(w.hub, node, c, ack);
    if Acknowledge(w.hub, node, c, ack).ok {
      AckKeepsSound(w, h', node, c, ack);
      if RepairsAgree(w.hub.tasks, w.hub.commands) {
        AckKeepsRepairs(w.hub, h', node, c, ack);
      }
      if Agreed(cfg, w) {
        AckKeepsLeases(cfg, w, h', node, c, ack);
      }
    }
  }

  /** Every step of every interleaving keeps the links, the balance of dispatches and the counts. */
  lemma StepKeepsSound(cfg: Config, w: World, ev: Event)
    requires Sound(w)
    ensures Sound(Step(cfg, w, ev))
  {
    if IsQuiet(ev) {
      QuietSteps(cfg, w, ev);
      QuietKeepsSound(w, Step(cfg, w, ev));
    } else {
      match ev {
        case PollClaim(worker, locked) => PollStep(cfg, w, worker, locked);
        case CeleryDelivery(t, worker) => DeliveryStep(cfg, w, t, worker);
        case Finish(e, foreignOk) => FinishStep(cfg, w, e, foreignOk);
        case OperatorRetry(t, repairsOnly) => RetryKeepsSound(w, t, repairsOnly);
        case QueueCommand(_, _) => QueueCommandKeeps(cfg, w, ev);
        case EdgeClaim(_, _) => EdgeClaimKeepsSound(cfg, w, ev);
        case EdgeAck(node, c, ack) => AckStep(cfg, w, node, c, ack);
      }
    }
  }

  /** What a step must respect for repairs and commands to go on agreeing. */
  predicate KeepsRepairs(w: World, ev: Event) {
    && (ev.OperatorRetry? && Retry(w.hub, ev.task, ev.repairsOnly).ok ==> MayRetry(w.hub, ev.task))
    && (ev.Finish? && IsOpen(w, ev.exec) ==> MayFinish(w.hub, w.execs[ev.exec].task))
  }

  lemma RetryOrFinishIff(cfg: Config, w: World, ev: Event)
    requires Sound(w) && RepairsAgree(w.hub.tasks, w.hub.commands) && (ev.OperatorRetry? || ev.Finish?)
    ensures var w' := Step(cfg, w, ev); RepairsAgree(w'.hub.tasks, w'.hub.commands) <==> KeepsRepairs(w, ev)
  {
    if ev.OperatorRetry? {
      if Retry(w.hub, ev.task, ev.repairsOnly).ok {
        RetryKeepsRepairsIff(w.hub, ev.task, ev.repairsOnly);
      }
    } else if IsOpen(w, ev.exec) {
      FinishStepIff(cfg, w, ev.exec, ev.foreignOk);
    }
  }

  /** From a state in which repairs and commands agree, a step leads to such a state exactly when it
      retries no waiting repair, and finishes none that is successful or that waits and cannot be
      dispatched. */
  lemma RepairStepIff(cfg: Config, w: World, ev: Event)
    requires Sound(w) && RepairsAgree(w.hub.tasks, w.hub.commands)
    ensures var w' := Step(cfg, w, ev); RepairsAgree(w'.hub.tasks, w'.hub.commands) <==> KeepsRepairs(w, ev)
  {
    if IsQuiet(ev) {
      QuietSteps(cfg, w, ev);
      QuietKeepsRepairs(w, Step(cfg, w, ev));
    } else {
      match ev {
        case PollClaim(worker, locked) => PollStep(cfg, w, worker, locked);
        case CeleryDelivery(t, worker) => DeliveryStep(cfg, w, t, worker);
        case QueueCommand(_, _) => QueueCommandKeeps(cfg, w, ev);
        case EdgeClaim(_, _) => EdgeClaimKeepsRepairs(cfg, w, ev);
        case EdgeAck(node, c, ack) => AckStep(cfg, w, node, c, ack);
        case _ => RetryOrFinishIff(cfg, w, ev);
      }
    }
  }

  /** And what it must respect for in-time executions to go on owning their rows alone. */
  ghost predicate KeepsLeases(cfg: Config, w: World, ev: Event) {
    && (ev.OperatorRetry? && Retry(w.hub, ev.task, ev.repairsOnly).ok ==> NoRival(cfg, w, ev.task, |w.execs|))
    && (ev.Finish? && IsOpen(w, ev.exec) ==> NoRival(cfg, w, w.execs[ev.exec].task, ev.exec))
  }

  lemma LeaseStepIff(cfg: Config, w: World, ev: Event)
    requires Sound(w) && Agreed(cfg, w)
    ensures LeasesExclude(cfg, Step(cfg, w, ev)) <==> KeepsLeases(cfg, w, ev)
  {
    if IsQuiet(ev) {
      QuietSteps(cfg, w, ev);
      QuietKeepsLeases(cfg, w, Step(cfg, w, ev));
    } else {
      match ev {
        case PollClaim(worker, locked) => PollStep(cfg, w, worker, locked);
        case CeleryDelivery(t, worker) => DeliveryStep(cfg, w, t, worker);
        case Finish(e, foreignOk) => if IsOpen(w, e) { FinishStepIff(cfg, w, e, foreignOk); }
        case OperatorRetry(t, repairsOnly) => if Retry(w.hub, t, repairsOnly).ok { RetryKeepsLeasesIff(cfg, w, t, repairsOnly); }
        case QueueCommand(_, _) => LeasesIgnoreCommands(cfg, w, Step(cfg, w, ev));
        case EdgeClaim(node, locked) =>
          EdgeClaimEffect(w.hub, node, cfg.commandLease, locked);
          LeasesIgnoreCommands(cfg, w, Step(cfg, w, ev));
        case EdgeAck(node, c, ack) => AckStep(cfg, w, node, c, ack);
      }
    }
  }

  /** Tasks and commands agree and leases exclude after a step exactly when it respects both. */
  lemma AgreedStepIff(cfg: Config, w: World, ev: Event)
    requires Sound(w) && Agreed(cfg, w)
    ensures Agreed(cfg, Step(cfg, w, ev)) <==> KeepsRepairs(w, ev) && KeepsLeases(cfg, w, ev)
  {
    RepairStepIff(cfg, w, ev);
    LeaseStepIff(cfg, w, ev);
  }

  /** The working rules are enough: a failed task has no execution in time, and one that commits
      in time owns its running row alone. */
  lemma RulesSuffice(cfg: Config, w: World, ev: Event)
    requires Sound(w) && Agreed(cfg, w) && Rules(cfg, w, ev)
    ensures KeepsRepairs(w, ev) && KeepsLeases(cfg, w, ev)
  {
    if ev.OperatorRetry? && Retry(w.hub, ev.task, ev.repairsOnly).ok {
      forall x | 0 <= x < |w.execs| && InTime(cfg, w, x) ensures w.execs[x].task != ev.task {
        assert Owns(w, x);
      }
    }
    if ev.Finish? && IsOpen(w, ev.exec) {
      assert InTime(cfg, w, ev.exec) && Owns(w, ev.exec);
    }
  }

  /** Every step that obeys the two rules keeps tasks and commands in agreement and leases exclusive. */
  lemma StepKeepsAgreed(cfg: Config, w: World, ev: Event)
    requires Sound(w) && Agreed(cfg, w) && Rules(cfg, w, ev)
    ensures Agreed(cfg, Step(cfg, w, ev))
  {
    RulesSuffice(cfg, w, ev);
    AgreedStepIff(cfg, w, ev);
  }

  lemma {:induction false} RunKeepsSound(cfg: Config, w: World, events: seq<Event>)
    requires Sound(w)
    ensures Sound(Run(cfg, w, events))
    decreases |events|
  {
    if events != [] {
      StepKeepsSound(cfg, w, events[0]);
      RunKeepsSound(cfg, Step(cfg, w, events[0]), events[1..]);
    }
  }

  lemma {:induction false} RunKeepsAgreed(cfg: Config, w: World, events: seq<Event>)
    requires Sound(w) && Agreed(cfg, w) && Disciplined(cfg, w, events)
    ensures Agreed(cfg, Run(cfg, w, events))
    decreases |events|
  {
    if events != [] {
      StepKeepsSound(cfg, w, events[0]);
      StepKeepsAgreed(cfg, w, events[0]);
      RunKeepsAgreed(cfg, Step(cfg, w, events[0]), events[1..]);
    }
  }
}
