/** What the task, lease and repair protocol guarantees, and what it loses without its two rules. */
module ProtocolTheorems {
  import opened Wrappers
  import opened Rows
  import opened Tasks
  import opened Commands
  import opened Executors
  import opened Runs
  import opened Protocol

  lemma InitIsSound(cfg: Config)
    ensures Sound(Init) && Agreed(cfg, Init)
  {}

  // ----- the linked rows agree ---------------------------------------------------------

  /** A run in which no waiting repair is retried, and no finish overwrites a repair that is
      successful or that waits and cannot be dispatched. */
  predicate RepairsKept(cfg: Config, w: World, events: seq<Event>)
    decreases |events|
  {
    events == [] || (KeepsRepairs(w, events[0]) && RepairsKept(cfg, Step(cfg, w, events[0]), events[1..]))
  }

  lemma {:induction false} RunKeepsRepairs(cfg: Config, w: World, events: seq<Event>)
    requires Sound(w) && RepairsAgree(w.hub.tasks, w.hub.commands) && RepairsKept(cfg, w, events)
    ensures RepairsAgree(Run(cfg, w, events).hub.tasks, Run(cfg, w, events).hub.commands)
    decreases |events|
  {
    if events != [] {
      StepKeepsSound(cfg, w, events[0]);
      RepairStepIff(cfg, w, events[0]);
      RunKeepsRepairs(cfg, Step(cfg, w, events[0]), events[1..]);
    }
  }

  /** The two working rules ask for more. */
  lemma {:induction false} DisciplineKeepsRepairs(cfg: Config, w: World, events: seq<Event>)
    requires Sound(w) && Agreed(cfg, w) && Disciplined(cfg, w, events)
    ensures RepairsKept(cfg, w, events)
    decreases |events|
  {
    if events != [] {
      RulesSuffice(cfg, w, events[0]);
      StepKeepsSound(cfg, w, events[0]);
      StepKeepsAgreed(cfg, w, events[0]);
      DisciplineKeepsRepairs(cfg, Step(cfg, w, events[0]), events[1..]);
    }
  }

  /** In every such run a repair task and its sync command agree: pending, running and failed tasks
      have no command or a failed one, a task waits exactly while its command is outstanding, and it
      has succeeded exactly when its command has.  Late finishes are allowed where the row allows. */
  lemma RepairAgreement(cfg: Config, events: seq<Event>, t: nat)
    requires RepairsKept(cfg, Init, events)
    requires var h := Run(cfg, Init, events).hub; t < |h.tasks| && h.tasks[t].work.RepairReplica?
    ensures var h := Run(cfg, Init, events).hub;
      var status, command := h.tasks[t].status, SyncStatus(h.commands, t);
      && (status == Pending || status == Running || status == Failed ==> command == None || command == Some(CFailed))
      && (status == Waiting <==> command == Some(CQueued) || command == Some(CRunning))
      && (status == Success <==> command == Some(CSuccess))
      && status != Cancelled
  {
    InitIsSound(cfg);
    RunKeepsRepairs(cfg, Init, events);
    var h := Run(cfg, Init, events).hub;
    assert Agrees(h.tasks[t].status, SyncStatus(h.commands, t));
  }

  // ----- leases ---------------------------------------------------------------------------

  /** Whether execution `e` commits its result somewhere in a run. */
  predicate Commits(cfg: Config, w: World, events: seq<Event>, e: nat)
    decreases |events|
  {
    events != [] &&
    ((events[0].Finish? && events[0].exec == e && IsOpen(w, e)) || Commits(cfg, Step(cfg, w, events[0]), events[1..], e))
  }

  lemma ClaimsKeepExecutions(cfg: Config, w: World, ev: Event, e: nat)
    requires e < |w.execs| && (ev.PollClaim? || ev.CeleryDelivery?)
    ensures var w' := Step(cfg, w, ev); w.hub.now <= w'.hub.now && e < |w'.execs| && w'.execs[e] == w.execs[e]
  {
    if ev.PollClaim? {
      ClaimNextEffect(w.hub, ev.worker, cfg.lease, ev.locked);
    } else {
      ClaimByIdEffect(w.hub, ev.task, ev.worker, cfg.lease);
    }
  }

  lemma FinishKeepsExecutions(cfg: Config, w: World, ev: Event, e: nat)
    requires e < |w.execs| && ev.Finish?
    ensures var w' := Step(cfg, w, ev);
      && w.hub.now <= w'.hub.now && e < |w'.execs|
      && w'.execs[e].(open := w.execs[e].open) == w.execs[e]
      && (w'.execs[e].open ==> w.execs[e].open)
  {
    if IsOpen(w, ev.exec) {
      var _, _ := FinishHasEffect(cfg, w.hub, w.execs[ev.exec].task, w.execs[ev.exec].delivery, ev.foreignOk);
    }
  }

  lemma StepKeepsExecutions(cfg: Config, w: World, ev: Event, e: nat)
    requires e < |w.execs|
    ensures var w' := Step(cfg, w, ev);
      && w.hub.now <= w'.hub.now && e < |w'.execs|
      && w'.execs[e].(open := w.execs[e].open) == w.execs[e]
      && (w'.execs[e].open ==> w.execs[e].open)
  {
    if IsQuiet(ev) {
      QuietSteps(cfg, w, ev);
    } else if ev.PollClaim? || ev.CeleryDelivery? {
      ClaimsKeepExecutions(cfg, w, ev, e);
    } else if ev.Finish? {
      FinishKeepsExecutions(cfg, w, ev, e);
    } else if ev.EdgeClaim? {
      EdgeClaimEffect(w.hub, ev.node, cfg.commandLease, ev.locked);
    } else if ev.EdgeAck? {
      AckHasEffect(w.hub, ev.node, ev.command, ev.ack);
    }
  }

  lemma {:induction false} LateNeverCommits(cfg: Config, w: World, events: seq<Event>, e: nat)
    requires e < |w.execs| && w.hub.now > w.execs[e].startedAt + cfg.lease
    requires Disciplined(cfg, w, events)
    ensures !Commits(cfg, w, events, e)
    decreases |events|
  {
    if events != [] {
      StepKeepsExecutions(cfg, w, events[0], e);
      LateNeverCommits(cfg, Step(cfg, w, events[0]), events[1..], e);
    }
  }

  /** Overlapping executions of one task, left by crashes, lost and duplicate deliveries or expired
      leases, never both commit. */
  lemma OverlapNeverCommitsTwice(cfg: Config, before: seq<Event>, after: seq<Event>, d: nat, e: nat)
    requires Disciplined(cfg, Init, before) && Disciplined(cfg, Run(cfg, Init, before), after)
    requires var w := Run(cfg, Init, before);
      d < e < |w.execs| && IsOpen(w, d) && IsOpen(w, e) && w.execs[d].task == w.execs[e].task
    ensures var w := Run(cfg, Init, before); !(Commits(cfg, w, after, d) && Commits(cfg, w, after, e))
  {
    var w := Run(cfg, Init, before);
    InitIsSound(cfg);
    RunKeepsAgreed(cfg, Init, before);
    if !InTime(cfg, w, d) {
      LateNeverCommits(cfg, w, after, d);
    } else {
      assert !InTime(cfg, w, e);
      LateNeverCommits(cfg, w, after, e);
    }
  }

  /** A result is committed only by the worker whose claim is still on the row. */
  lemma FinishIsByTheClaimant(cfg: Config, events: seq<Event>, e: nat, foreignOk: bool)
    requires Disciplined(cfg, Init, events)
    requires var w := Run(cfg, Init, events); IsOpen(w, e) && Rules(cfg, w, Finish(e, foreignOk))
    ensures var w := Run(cfg, Init, events); var task := w.hub.tasks[w.execs[e].task];
      task.status == Running && task.claimedBy == Some(w.execs[e].worker) && task.claimedAt == Some(w.execs[e].startedAt)
  {
    InitIsSound(cfg);
    RunKeepsAgreed(cfg, Init, events);
    assert Owns(Run(cfg, Init, events), e);
  }

  lemma AckLeavesSuccess(w: World, node: string, c: nat, ack: Ack, t: nat)
    requires Sound(w) && RepairsAgree(w.hub.tasks, w.hub.commands)
    requires t < |w.hub.tasks| && w.hub.tasks[t].status == Success
    ensures var h' := Acknowledge(w.hub, node, c, ack).hub; t < |h'.tasks| && h'.tasks[t].status == Success
  {
    var h := w.hub;
    AckHasEffect(h, node, c, ack);
    if Acknowledge(h, node, c, ack).ok && h.commands[c].kind.SyncReplica? {
      assert Linked(h.tasks, h.commands[c]);
      SyncStatusIs(h.tasks, h.commands, c);
      var r := h.commands[c].kind.repairTask;
      assert Agrees(h.tasks[r].status, SyncStatus(h.commands, r));
    }
  }

  lemma ClaimsLeaveSuccess(cfg: Config, w: World, ev: Event, t: nat)
    requires ev.PollClaim? || ev.CeleryDelivery?
    ensures |Step(cfg, w, ev).hub.tasks| == |w.hub.tasks|
    ensures t < |w.hub.tasks| ==> (Step(cfg, w, ev).hub.tasks[t].status == Success <==> w.hub.tasks[t].status == Success)
  {
    if ev.PollClaim? {
      ClaimNextEffect(w.hub, ev.worker, cfg.lease, ev.locked);
    } else {
      ClaimByIdEffect(w.hub, ev.task, ev.worker, cfg.lease);
    }
  }

  lemma FinishersRun(cfg: Config, w: World, e: nat, foreignOk: bool)
    requires Agreed(cfg, w) && Rules(cfg, w, Finish(e, foreignOk)) && IsOpen(w, e)
    ensures w.hub.tasks[w.execs[e].task].status == Running
  {
    assert Owns(w, e);
  }

  lemma FinishLeavesSuccess(cfg: Config, w: World, e: nat, foreignOk: bool, t: nat)
    requires IsOpen(w, e) ==> w.hub.tasks[w.execs[e].task].status == Running
    requires t < |w.hub.tasks| && w.hub.tasks[t].status == Success
    ensures var h' := Step(cfg, w, Finish(e, foreignOk)).hub; t < |h'.tasks| && h'.tasks[t].status == Success
  {
    if IsOpen(w, e) {
      var _, _ := FinishHasEffect(cfg, w.hub, w.execs[e].task, w.execs[e].delivery, foreignOk);
    }
  }

  lemma SuccessIsKept(cfg: Config, w: World, ev: Event, t: nat)
    requires Sound(w) && Agreed(cfg, w) && Rules(cfg, w, ev)
    requires t < |w.hub.tasks| && w.hub.tasks[t].status == Success
    ensures var h' := Step(cfg, w, ev).hub; t < |h'.tasks| && h'.tasks[t].status == Success
  {
    if IsQuiet(ev) {
      QuietSteps(cfg, w, ev);
    } else if ev.PollClaim? || ev.CeleryDelivery? {
      ClaimsLeaveSuccess(cfg, w, ev, t);
    } else if ev.Finish? {
      if IsOpen(w, ev.exec) {
        FinishersRun(cfg, w, ev.exec, ev.foreignOk);
      }
      FinishLeavesSuccess(cfg, w, ev.exec, ev.foreignOk, t);
    } else if ev.EdgeClaim? {
      EdgeClaimEffect(w.hub, ev.node, cfg.commandLease, ev.locked);
    } else if ev.EdgeAck? {
      AckLeavesSuccess(w, ev.node, ev.command, ev.ack, t);
    }
  }

  /** A successful task stays successful for the rest of a disciplined run. */
  lemma {:induction false} SuccessIsNeverLeft(cfg: Config, w: World, events: seq<Event>, t: nat)
    requires Sound(w) && Agreed(cfg, w) && Disciplined(cfg, w, events)
    requires t < |w.hub.tasks| && w.hub.tasks[t].status == Success
    ensures var h' := Run(cfg, w, events).hub; t < |h'.tasks| && h'.tasks[t].status == Success
    decreases |events|
  {
    if events != [] {
      SuccessIsKept(cfg, w, events[0], t);
      StepKeepsSound(cfg, w, events[0]);
      StepKeepsAgreed(cfg, w, events[0]);
      SuccessIsNeverLeft(cfg, Step(cfg, w, events[0]), events[1..], t);
    }
  }

  // ----- what holds without the rules --------------------------------------------------------

  /** In every run `attempts` is the number of audited claims of the task. */
  lemma AttemptsAreClaims(cfg: Config, events: seq<Event>, t: nat)
    requires t < |Run(cfg, Init, events).hub.tasks|
    ensures var h := Run(cfg, Init, events).hub; h.tasks[t].attempts == Tally(h.audit, ClaimsOf(t))
  {
    InitIsSound(cfg);
    RunKeepsSound(cfg, Init, events);
  }

  /** In every run a command has been dispatched as often as it has been answered for good, plus
      once more while it is outstanding. */
  lemma DispatchesAreAnswered(cfg: Config, events: seq<Event>, c: nat)
    requires c < |Run(cfg, Init, events).hub.commands|
    ensures var h := Run(cfg, Init, events).hub;
      Tally(h.audit, DispatchesOf(c)) == Tally(h.audit, TerminalAcksOf(c)) + if Outstanding(h.commands[c]) then 1 else 0
  {
    InitIsSound(cfg);
    RunKeepsSound(cfg, Init, events);
  }

  /** In every run a repair task becomes successful only through an acknowledgement of its own
      command that is verified with the hash of the command and of the file record, and that
      records a healthy replica on the node. */
  lemma {:induction false} SuccessIsVerified(cfg: Config, events: seq<Event>, ev: Event, t: nat)
    requires var w := Run(cfg, Init, events); var h' := Step(cfg, w, ev).hub;
      t < |h'.tasks| && h'.tasks[t].work.RepairReplica? && h'.tasks[t].status == Success
      && (t < |w.hub.tasks| ==> w.hub.tasks[t].status != Success)
    ensures var w := Run(cfg, Init, events); var h, h' := w.hub, Step(cfg, w, ev).hub;
      && ev.EdgeAck? && ev.command < |h.commands| && t < |h.tasks|
      && var command, work := h.commands[ev.command], h.tasks[t].work;
      && command.key == ReplicaSync(t) && command.node == ev.node == work.node && Outstanding(command)
      && ev.ack == Ack(AckSuccess, true, Some(work.fileHash))
      && work.fileId < |h.files| && h.files[work.fileId].hash == work.fileHash
      && h'.replicas == h.replicas[(work.fileId, work.node) := Replica(work.fileHash, true, h.now)]
  {
    var w := Run(cfg, Init, events);
    InitIsSound(cfg);
    RunKeepsSound(cfg, Init, events);
    VerifiedStep(cfg, w, ev, t);
  }

  lemma FinishSettlesNoRepair(cfg: Config, w: World, e: nat, foreignOk: bool, t: nat)
    requires var h' := Step(cfg, w, Finish(e, foreignOk)).hub;
      t < |h'.tasks| && h'.tasks[t].work.RepairReplica? && h'.tasks[t].status == Success
    ensures t < |w.hub.tasks| && w.hub.tasks[t].status == Success
  {
    if IsOpen(w, e) {
      var _, _ := FinishHasEffect(cfg, w.hub, w.execs[e].task, w.execs[e].delivery, foreignOk);
    }
  }

  lemma OnlyAcksSettleRepairs(cfg: Config, w: World, ev: Event, t: nat)
    requires !ev.EdgeAck?
    requires var h' := Step(cfg, w, ev).hub; t < |h'.tasks| && h'.tasks[t].work.RepairReplica? && h'.tasks[t].status == Success
    ensures t < |w.hub.tasks| && w.hub.tasks[t].status == Success
  {
    if IsQuiet(ev) {
      QuietSteps(cfg, w, ev);
    } else if ev.PollClaim? || ev.CeleryDelivery? {
      ClaimsLeaveSuccess(cfg, w, ev, t);
    } else if ev.Finish? {
      FinishSettlesNoRepair(cfg, w, ev.exec, ev.foreignOk, t);
    } else if ev.EdgeClaim? {
      EdgeClaimEffect(w.hub, ev.node, cfg.commandLease, ev.locked);
    }
  }

  lemma {:induction false} VerifiedStep(cfg: Config, w: World, ev: Event, t: nat)
    requires Sound(w)
    requires var h' := Step(cfg, w, ev).hub;
      t < |h'.tasks| && h'.tasks[t].work.RepairReplica? && h'.tasks[t].status == Success
      && (t < |w.hub.tasks| ==> w.hub.tasks[t].status != Success)
    ensures var h, h' := w.hub, Step(cfg, w, ev).hub;
      && ev.EdgeAck? && ev.command < |h.commands| && t < |h.tasks|
      && var command, work := h.commands[ev.command], h.tasks[t].work;
      && command.key == ReplicaSync(t) && command.node == ev.node == work.node && Outstanding(command)
      && ev.ack == Ack(AckSuccess, true, Some(work.fileHash))
      && work.fileId < |h.files| && h.files[work.fileId].hash == work.fileHash
      && h'.replicas == h.replicas[(work.fileId, work.node) := Replica(work.fileHash, true, h.now)]
  {
    if !ev.EdgeAck? {
      OnlyAcksSettleRepairs(cfg, w, ev, t);
    }
    var h := w.hub;
    AckHasEffect(h, ev.node, ev.command, ev.ack);
    assert Linked(h.tasks, h.commands[ev.command]);
  }

  // ----- what the rules are for ----------------------------------------------------------------

  /** A finish, in time or late, keeps repairs and commands in agreement exactly when its task is not
      a successful repair, nor a waiting one that cannot be dispatched; it keeps the leases too
      exactly when no other execution could still commit the task. */
  lemma FinishKeepsAgreementIff(cfg: Config, w: World, e: nat, foreignOk: bool)
    requires Sound(w) && Agreed(cfg, w) && IsOpen(w, e)
    ensures var w' := Step(cfg, w, Finish(e, foreignOk)); var task := w.hub.tasks[w.execs[e].task];
      var mayFinish := task.work.RepairReplica? ==>
        && task.status != Success
        && (task.status == Waiting ==> Dispatchable(w.hub, task.work.fileId, task.work.fileHash, task.work.node));
      && (RepairsAgree(w'.hub.tasks, w'.hub.commands) <==> mayFinish)
      && (Agreed(cfg, w') <==> mayFinish && NoRival(cfg, w, w.execs[e].task, e))
  {
    FinishStepIff(cfg, w, e, foreignOk);
  }

  /** An operator's retry, at either endpoint and for any kind of work, keeps the agreement exactly
      when the task is no waiting repair and no execution can still commit it. */
  lemma RetryKeepsAgreementIff(cfg: Config, w: World, t: nat, repairsOnly: bool)
    requires Sound(w) && Agreed(cfg, w) && Retry(w.hub, t, repairsOnly).ok
    ensures Agreed(cfg, Step(cfg, w, OperatorRetry(t, repairsOnly))) <==>
      && !(w.hub.tasks[t].work.RepairReplica? && w.hub.tasks[t].status == Waiting)
      && (forall x :: 0 <= x < |w.execs| && InTime(cfg, w, x) ==> w.execs[x].task != t)
  {
    AgreedStepIff(cfg, w, OperatorRetry(t, repairsOnly));
  }

  /** What the row alone tells: a retry of a failed task, or of a running one whose lease has
      expired, keeps the agreement. */
  lemma RetryOfExpiredKeepsAgreement(cfg: Config, w: World, t: nat, repairsOnly: bool)
    requires Sound(w) && Agreed(cfg, w) && Retry(w.hub, t, repairsOnly).ok
    requires w.hub.tasks[t].status == Failed || IsStale(w.hub.tasks[t], w.hub.now - cfg.lease)
    ensures Agreed(cfg, Step(cfg, w, OperatorRetry(t, repairsOnly)))
  {
    forall x | 0 <= x < |w.execs| && InTime(cfg, w, x) ensures w.execs[x].task != t {
      assert Owns(w, x);
    }
    RetryKeepsAgreementIff(cfg, w, t, repairsOnly);
  }

  /** A replica node, a reported file and a repair task for it. */
  const SETUP: seq<Event> := [Heartbeat("n", true), Report("n", "p", "h"), Create("r", RepairReplica(0, "h", "n"))]

  const VERIFIED_ACK := EdgeAck("n", 0, Ack(AckSuccess, true, Some("h")))

  /** The task "r" and its command, with everything else the steps below read. */
  ghost predicate Stage(w: World, status: TaskStatus, command: Option<CommandStatus>) {
    var h := w.hub;
    && h.nodes == map["n" := true] && |h.files| == 1 && h.files[0].hash == "h"
    && |h.tasks| == 2 && h.tasks[1].work == RepairReplica(0, "h", "n") && h.tasks[1].status == status
    && (if command.None? then h.commands == []
        else |h.commands| == 1 && h.commands[0].key == ReplicaSync(1) && h.commands[0].node == "n"
             && h.commands[0].kind.SyncReplica? && h.commands[0].kind.repairTask == 1 && h.commands[0].kind.fileId == 0
             && h.commands[0].kind.fileHash == "h" && h.commands[0].status == command.value)
  }

  lemma SetupRun(cfg: Config, rest: seq<Event>) returns (w: World)
    ensures Run(cfg, Init, SETUP + rest) == Run(cfg, w, rest)
    ensures Stage(w, Pending, None) && w.execs == [] && w.hub.now == 0
  {
    var h1 := Init.hub.(nodes := map["n" := true]);
    RunCons(cfg, Init, SETUP[0], SETUP[1..] + rest);
    RunCons(cfg, World(h1, []), SETUP[1], SETUP[2..] + rest);
    var h2 := Files.ReportFile(h1, "n", "p", "h");
    assert Files.FindFile([], "p", "h") == None;
    assert |h2.tasks| == 1 && h2.tasks[0].key == FileRegister(0, "h");
    RunCons(cfg, World(h2, []), SETUP[2], rest);
    assert FindTask(h2.tasks, ClientTask("r")) == None;
    w := Step(cfg, World(h2, []), SETUP[2]);
    assert SETUP + rest == [SETUP[0]] + (SETUP[1..] + rest);
    assert SETUP[1..] + rest == [SETUP[1]] + (SETUP[2..] + rest);
    assert SETUP[2..] + rest == [SETUP[2]] + rest;
  }

  lemma Delivered(cfg: Config, w: World, worker: string, command: Option<CommandStatus>) returns (w': World)
    requires Stage(w, Pending, command)
    ensures w' == Step(cfg, w, CeleryDelivery(1, worker)) && Stage(w', Running, command)
    ensures w'.hub.now == w.hub.now && w'.hub.tasks[1].claimedAt == Some(w.hub.now)
    ensures |w'.execs| == |w.execs| + 1 && w'.execs[..|w.execs|] == w.execs && IsOpen(w', |w.execs|) && w'.execs[|w.execs|].task == 1
  {
    w' := Step(cfg, w, CeleryDelivery(1, worker));
  }

  lemma Finished(cfg: Config, w: World, e: nat, status: TaskStatus, command: Option<CommandStatus>) returns (w': World)
    requires Stage(w, status, command) && command != Some(CFailed) && IsOpen(w, e) && w.execs[e].task == 1
    ensures w' == Step(cfg, w, Finish(e, true)) && w'.hub.now == w.hub.now && w'.execs == Close(w, e)
    ensures Stage(w', Waiting, if command.None? then Some(CQueued) else command)
  {
    w' := Step(cfg, w, Finish(e, true));
    assert command.None? ==> FindCommand(w.hub.commands, ReplicaSync(1)) == None;
    var o := ExecuteRepair(w.hub, 1, 0, "h", "n");
    assert o.ok && o.hub.tasks == w.hub.tasks;
  }

  lemma Acknowledged(cfg: Config, w: World, status: TaskStatus) returns (w': World)
    requires Stage(w, status, Some(CQueued))
    ensures w' == Step(cfg, w, VERIFIED_ACK) && w'.hub.now == w.hub.now && w'.execs == w.execs
    ensures Stage(w', Success, Some(CSuccess))
  {
    w' := Step(cfg, w, VERIFIED_ACK);
  }

  lemma Retried(cfg: Config, w: World) returns (w': World)
    requires Stage(w, Waiting, Some(CQueued))
    ensures w' == Step(cfg, w, OperatorRetry(1, true)) && w'.hub.now == w.hub.now && w'.execs == w.execs
    ensures Stage(w', Pending, Some(CQueued))
  {
    w' := Step(cfg, w, OperatorRetry(1, true));
  }

  lemma SixSteps(cfg: Config, w: World, a: Event, b: Event, c: Event, d: Event, e: Event, f: Event)
    ensures Run(cfg, w, [a, b, c, d, e, f]) == Step(cfg, Step(cfg, Step(cfg, Step(cfg, Step(cfg, Step(cfg, w, a), b), c), d), e), f)
  {
    var w3 := Step(cfg, Step(cfg, Step(cfg, w, a), b), c);
    ThreeSteps(cfg, w, a, b, c, [d, e, f]);
    ThreeSteps(cfg, w3, d, e, f, []);
    assert [a, b, c] + [d, e, f] == [a, b, c, d, e, f] && [d, e, f] + [] == [d, e, f];
  }

  /** A retry of a waiting task: the acknowledgement of the first dispatch lands between the second
      claim and its finish, and the finish overwrites the success.  The task then waits for a
      command that has already been answered. */
  lemma RetryOfWaitingLosesTheSuccess(cfg: Config)
    ensures var h := Run(cfg, Init, SETUP + [CeleryDelivery(1, "a"), Finish(0, true), OperatorRetry(1, true),
                                             CeleryDelivery(1, "b"), VERIFIED_ACK, Finish(1, true)]).hub;
      |h.tasks| == 2 && h.tasks[1].status == Waiting && SyncStatus(h.commands, 1) == Some(CSuccess)
  {
    var w3 := SetupRun(cfg, [CeleryDelivery(1, "a"), Finish(0, true), OperatorRetry(1, true), CeleryDelivery(1, "b"), VERIFIED_ACK, Finish(1, true)]);
    SixSteps(cfg, w3, CeleryDelivery(1, "a"), Finish(0, true), OperatorRetry(1, true), CeleryDelivery(1, "b"), VERIFIED_ACK, Finish(1, true));
    var w5 := DeliveredAndFinished(cfg, w3, "a");
    var w6 := Retried(cfg, w5);
    var w7 := Delivered(cfg, w6, "b", Some(CQueued));
    var w8 := Acknowledged(cfg, w7, Running);
    var w9 := Finished(cfg, w8, 1, Success, Some(CSuccess));
    OnlyCommandStatus(w9);
  }

  lemma DeliveredAndFinished(cfg: Config, w: World, worker: string) returns (w': World)
    requires Stage(w, Pending, None) && w.execs == []
    ensures w' == Step(cfg, Step(cfg, w, CeleryDelivery(1, worker)), Finish(0, true))
    ensures Stage(w', Waiting, Some(CQueued)) && |w'.execs| == 1
  {
    var w1 := Delivered(cfg, w, worker, None);
    w' := Finished(cfg, w1, 0, Running, None);
  }

  /** A finish after the lease: the second claimant's success is overwritten by the first one. */
  lemma LateFinishLosesTheSuccess(cfg: Config)
    ensures var h := Run(cfg, Init, SETUP + [CeleryDelivery(1, "a"), Tick(cfg.lease + 1), CeleryDelivery(1, "b"),
                                             Finish(1, true), VERIFIED_ACK, Finish(0, true)]).hub;
      |h.tasks| == 2 && h.tasks[1].status == Waiting && SyncStatus(h.commands, 1) == Some(CSuccess)
  {
    var tick := Tick(cfg.lease + 1);
    var w3 := SetupRun(cfg, [CeleryDelivery(1, "a"), tick, CeleryDelivery(1, "b"), Finish(1, true), VERIFIED_ACK, Finish(0, true)]);
    SixSteps(cfg, w3, CeleryDelivery(1, "a"), tick, CeleryDelivery(1, "b"), Finish(1, true), VERIFIED_ACK, Finish(0, true));
    var w6 := DeliveredTwice(cfg, w3);
    var w7 := Finished(cfg, w6, 1, Running, None);
    var w8 := Acknowledged(cfg, w7, Waiting);
    assert IsOpen(w8, 0);
    var w9 := Finished(cfg, w8, 0, Success, Some(CSuccess));
    OnlyCommandStatus(w9);
  }

  lemma DeliveredTwice(cfg: Config, w: World) returns (w': World)
    requires Stage(w, Pending, None) && w.execs == []
    ensures w' == Step(cfg, Step(cfg, Step(cfg, w, CeleryDelivery(1, "a")), Tick(cfg.lease + 1)), CeleryDelivery(1, "b"))
    ensures Stage(w', Running, None) && |w'.execs| == 2 && IsOpen(w', 0) && IsOpen(w', 1) && w'.execs[0].task == w'.execs[1].task == 1
  {
    var w1 := Delivered(cfg, w, "a", None);
    w' := Step(cfg, Step(cfg, w1, Tick(cfg.lease + 1)), CeleryDelivery(1, "b"));
  }

  lemma OnlyCommandStatus(w: World)
    requires Stage(w, Waiting, Some(CSuccess))
    ensures SyncStatus(w.hub.commands, 1) == Some(CSuccess)
  {
    assert FindCommand(w.hub.commands, ReplicaSync(1)) == Some(0);
  }
}
