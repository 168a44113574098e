/** The two sides together: what a settled repair says about the bytes on the edge node. */
module RepairBytes {
  import opened Wrappers
  import opened Rows
  import opened Commands
  import opened Protocol
  import opened Executors
  import opened Runs
  import EdgePaths
  import Lineage
  import ProtocolTheorems
  import E = EdgeAgents

  /** The center's reading of the agent's acknowledgement. */
  function Received(ack: E.AgentAck): Ack {
    Ack(if ack.success then AckSuccess else AckFailed, ack.verified, ack.fileHash)
  }

  // ----- what a dispatched command names ---------------------------------------------------------

  /** A sync command names the path of the record it is for. */
  predicate NamesPath(files: seq<FileRecord>, command: Command) {
    command.kind.SyncReplica? ==> command.kind.fileId < |files| && command.kind.path == files[command.kind.fileId].path
  }

  ghost predicate PathsNamed(h: Hub) {
    forall c :: 0 <= c < |h.commands| ==> NamesPath(h.files, h.commands[c])
  }

  /** Old commands keep what they are; a new one is for another purpose or names its record's path. */
  ghost predicate CommandsKept(files: seq<FileRecord>, a: seq<Command>, b: seq<Command>) {
    && |a| <= |b|
    && (forall c :: 0 <= c < |a| ==> b[c].kind == a[c].kind)
    && (forall c :: |a| <= c < |b| ==> NamesPath(files, b[c]))
  }

  lemma RepairNamesPath(h: Hub, t: nat, f: nat, hash: string, node: string)
    ensures CommandsKept(h.files, h.commands, ExecuteRepair(h, t, f, hash, node).hub.commands)
  {}

  lemma FinishNamesPath(cfg: Config, h: Hub, t: nat, delivery: Delivery, foreignOk: bool)
    requires t < |h.tasks|
    ensures CommandsKept(h.files, h.commands, FinishTask(cfg, h, t, delivery, foreignOk).commands)
  {
    var work := h.tasks[t].work;
    ExecuteKeepsTask(cfg, h, t, foreignOk);
    if work.RepairReplica? {
      RepairNamesPath(h, t, work.fileId, work.fileHash, work.node);
    } else {
      ExecuteAppends(cfg, h, t, foreignOk);
    }
  }

  lemma StepKeepsCommands(cfg: Config, w: World, ev: Event)
    ensures CommandsKept(w.hub.files, w.hub.commands, Step(cfg, w, ev).hub.commands)
  {
    if IsQuiet(ev) {
      QuietSteps(cfg, w, ev);
    } else if ev.Finish? && IsOpen(w, ev.exec) {
      FinishNamesPath(cfg, w.hub, w.execs[ev.exec].task, w.execs[ev.exec].delivery, ev.foreignOk);
    } else if ev.EdgeClaim? {
      EdgeClaimEffect(w.hub, ev.node, cfg.commandLease, ev.locked);
    } else if ev.EdgeAck? {
      AckHasEffect(w.hub, ev.node, ev.command, ev.ack);
    } else {
      OthersKeepCommands(cfg, w, ev);
    }
  }

  lemma OthersKeepCommands(cfg: Config, w: World, ev: Event)
    requires ev.PollClaim? || ev.CeleryDelivery? || ev.OperatorRetry? || ev.QueueCommand? || (ev.Finish? && !IsOpen(w, ev.exec))
    ensures CommandsKept(w.hub.files, w.hub.commands, Step(cfg, w, ev).hub.commands)
  {}

  lemma StepKeepsPaths(cfg: Config, w: World, ev: Event)
    requires PathsNamed(w.hub)
    ensures PathsNamed(Step(cfg, w, ev).hub)
  {
    var h, h' := w.hub, Step(cfg, w, ev).hub;
    StepKeepsCommands(cfg, w, ev);
    Lineage.StepKeepsVersions(cfg, w, ev);
    forall c | 0 <= c < |h'.commands| ensures NamesPath(h'.files, h'.commands[c]) {
      assert c < |h.commands| ==> NamesPath(h.files, h.commands[c]);
    }
  }

  lemma {:induction false} RunKeepsPaths(cfg: Config, w: World, events: seq<Event>)
    requires PathsNamed(w.hub)
    ensures PathsNamed(Run(cfg, w, events).hub)
    decreases |events|
  {
    if events != [] {
      StepKeepsPaths(cfg, w, events[0]);
      RunKeepsPaths(cfg, Step(cfg, w, events[0]), events[1..]);
    }
  }

  /** In every run each sync command names the path, and its repair task the hash and the node, of a
      recorded version. */
  lemma CommandsNameTheRecord(cfg: Config, events: seq<Event>, c: nat)
    requires var h := Run(cfg, Init, events).hub; c < |h.commands| && h.commands[c].kind.SyncReplica?
    ensures var h := Run(cfg, Init, events).hub; var kind := h.commands[c].kind;
      && kind.fileId < |h.files| && kind.path == h.files[kind.fileId].path
      && kind.repairTask < |h.tasks| && h.tasks[kind.repairTask].work == RepairReplica(kind.fileId, kind.fileHash, h.commands[c].node)
  {
    var h := Run(cfg, Init, events).hub;
    RunKeepsPaths(cfg, Init, events);
    ProtocolTheorems.InitIsSound(cfg);
    RunKeepsSound(cfg, Init, events);
    assert NamesPath(h.files, h.commands[c]) && Linked(h.tasks, h.commands[c]);
  }

  // ----- what a settled repair says ----------------------------------------------------------------

  /** The agent looked at bytes with the wanted hash, at the place a path leads to. */
  ghost predicate FoundBytes(agent: E.AgentConfig, site: E.Site, path: string, want: string) {
    exists n: nat :: E.Sees(agent.sha, E.LooksAt(site, EdgePaths.Walk(agent.watchDir, EdgePaths.Parts(path)))(n), want)
  }

  /** In every run, an agent's acknowledgement of an outstanding sync command makes the linked task
      successful exactly when the agent succeeded, asked for the record's path, and the record still
      has the command's hash; the agent then read, at the record's path, bytes that hash to the
      record's hash; otherwise the task fails. */
  lemma AgentAckSettlesByBytes(cfg: Config, agent: E.AgentConfig, events: seq<Event>, c: nat, site: E.Site)
    requires var h := Run(cfg, Init, events).hub;
      agent.sha == cfg.sha && c < |h.commands| && h.commands[c].kind.SyncReplica? && Outstanding(h.commands[c])
    ensures var w := Run(cfg, Init, events);
      var h, command := w.hub, w.hub.commands[c];
      var kind := command.kind;
      && kind.fileId < |h.files|
      && var record := h.files[kind.fileId];
      var ack := E.Executed(agent, Some(record.path), Some(kind.fileHash), site);
      var h' := Step(cfg, w, EdgeAck(command.node, c, Received(E.Executed(agent, Some(kind.path), Some(kind.fileHash), site)))).hub;
      && kind.repairTask < |h'.tasks|
      && (h'.tasks[kind.repairTask].status == Success <==> ack.success && record.hash == kind.fileHash)
      && (h'.tasks[kind.repairTask].status != Success ==> h'.tasks[kind.repairTask].status == Failed)
      && (h'.tasks[kind.repairTask].status == Success ==>
          && FoundBytes(agent, site, record.path, record.hash)
          && h'.replicas == h.replicas[(kind.fileId, command.node) := Replica(record.hash, true, h.now)])
  {
    var w := Run(cfg, Init, events);
    CommandsNameTheRecord(cfg, events, c);
    var command := w.hub.commands[c];
    E.SuccessMeansEqualBytes(agent, Some(command.kind.path), Some(command.kind.fileHash), site);
  }
}
