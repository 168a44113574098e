/**
 Runs of the whole center: every committed transaction is one step, a worker's claim and
 its finish are separate steps, and anything may happen in between.
 */
module Runs {
  import opened Wrappers
  import opened Rows
  import opened Tasks
  import opened Commands
  import opened Files
  import opened Executors

  /** A worker between its claim and its finish.  `open` ends with the finish or a crash. */
  datatype Execution = Execution(task: nat, worker: string, startedAt: int, delivery: Delivery, open: bool)

  datatype World = World(hub: Hub, execs: seq<Execution>)

  const Init := World(EmptyHub, [])

  datatype Event =
    | Tick(elapsed: nat)
    | Heartbeat(node: string, isReplica: bool)
    | Report(node: string, path: string, hash: string)
    | Upload(file: nat, node: string, hash: string, content: string)
    | Delete(file: nat)
    | Scan
    | Create(name: string, work: Work)
    | PollClaim(worker: string, locked: set<nat>)
    | CeleryDelivery(task: nat, worker: string)  // late and duplicate deliveries included
    | PipelineStep(exec: nat, stage: Node)
    | Finish(exec: nat, foreignOk: bool)
    | Crash(exec: nat)
    | OperatorRetry(task: nat, repairsOnly: bool)
    | Search(returned: set<(nat, nat)>)
    | QueueCommand(name: string, node: string)
    | EdgeClaim(node: string, locked: set<nat>)
    | EdgeAck(node: string, command: nat, ack: Ack)

  predicate IsOpen(w: World, e: nat) {
    e < |w.execs| && w.execs[e].open && w.execs[e].task < |w.hub.tasks|
  }

  function Begin(w: World, claim: Claim, worker: string, delivery: Delivery): World {
    if claim.task.None? then World(claim.hub, w.execs)
    else World(claim.hub, w.execs + [Execution(claim.task.value, worker, w.hub.now, delivery, true)])
  }

  function Close(w: World, e: nat): seq<Execution>
    requires e < |w.execs|
  {
    w.execs[e := w.execs[e].(open := false)]
  }

  /** A pipeline node run by the worker that holds execution `e`. */
  function StepPipeline(cfg: Config, w: World, e: nat, node: Node): Hub {
    if !IsOpen(w, e) then w.hub
    else
      match w.hub.tasks[w.execs[e].task].work
      case RunPipeline(f, hash, content) => RunNode(cfg, w.hub, node, f, hash, content).hub
      case _ => w.hub
  }

  function Step(cfg: Config, w: World, ev: Event): World {
    var h := w.hub;
    match ev
    case Tick(elapsed) => w.(hub := h.(now := h.now + elapsed))
    case Heartbeat(node, isReplica) => w.(hub := h.(nodes := h.nodes[node := isReplica]))
    case Report(node, path, hash) => w.(hub := ReportFile(h, node, path, hash))
    case Upload(f, node, hash, content) => w.(hub := QueueParse(cfg, h, f, node, hash, content).hub)
    case Delete(f) => w.(hub := DeleteFile(h, f).hub)
    case Scan => w.(hub := Reconcile(cfg, h).hub)
    case Create(name, work) => w.(hub := CreateTask(h, name, work))
    case PollClaim(worker, locked) => Begin(w, ClaimNext(h, worker, cfg.lease, locked), worker, Poll)
    case CeleryDelivery(t, worker) => Begin(w, ClaimById(h, t, worker, cfg.lease), worker, Celery)
    case PipelineStep(e, stage) => w.(hub := StepPipeline(cfg, w, e, stage))
    case Finish(e, foreignOk) =>
      if IsOpen(w, e) then World(FinishTask(cfg, h, w.execs[e].task, w.execs[e].delivery, foreignOk), Close(w, e)) else w
    case Crash(e) => if IsOpen(w, e) then w.(execs := Close(w, e)) else w
    case OperatorRetry(t, repairsOnly) => w.(hub := Retry(h, t, repairsOnly).hub)
    case Search(returned) => w.(hub := RecordHits(h, returned))
    case QueueCommand(name, node) => w.(hub := CreateCommand(h, name, node).hub)
    case EdgeClaim(node, locked) => w.(hub := ClaimCommand(h, node, cfg.commandLease, locked).hub)
    case EdgeAck(node, c, ack) => w.(hub := Acknowledge(h, node, c, ack).hub)
  }

  function Run(cfg: Config, w: World, events: seq<Event>): World
    decreases |events|
  {
    if events == [] then w else Run(cfg, Step(cfg, w, events[0]), events[1..])
  }

  /** Unfolding a run from its first event. */
  lemma RunCons(cfg: Config, w: World, ev: Event, rest: seq<Event>)
    ensures Run(cfg, w, [ev] + rest) == Run(cfg, Step(cfg, w, ev), rest)
  {
    assert ([ev] + rest)[1..] == rest;
  }

  lemma ThreeSteps(cfg: Config, w: World, a: Event, b: Event, c: Event, rest: seq<Event>)
    ensures Run(cfg, w, [a, b, c] + rest) == Run(cfg, Step(cfg, Step(cfg, Step(cfg, w, a), b), c), rest)
  {
    RunCons(cfg, w, a, [b, c] + rest);
    RunCons(cfg, Step(cfg, w, a), b, [c] + rest);
    RunCons(cfg, Step(cfg, Step(cfg, w, a), b), c, rest);
    assert [a, b, c] + rest == [a] + ([b, c] + rest) && [b, c] + rest == [b] + ([c] + rest);
  }

  // ----- the two working rules -----------------------------------------------------

  /** An execution that still fits in the lease of its claim. */
  predicate InTime(cfg: Config, w: World, e: nat) {
    IsOpen(w, e) && w.hub.now <= w.execs[e].startedAt + cfg.lease
  }

  /** Operators retry only failed tasks, and a worker commits its result within its lease. */
  predicate Rules(cfg: Config, w: World, ev: Event) {
    && (ev.OperatorRetry? && ev.task < |w.hub.tasks| ==> w.hub.tasks[ev.task].status == Failed)
    && (ev.Finish? && IsOpen(w, ev.exec) ==> InTime(cfg, w, ev.exec))
  }

  predicate Disciplined(cfg: Config, w: World, events: seq<Event>)
    decreases |events|
  {
    events == [] || (Rules(cfg, w, events[0]) && Disciplined(cfg, Step(cfg, w, events[0]), events[1..]))
  }
}
