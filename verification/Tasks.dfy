/** The task table: lookup by key, leases, claims and operator transitions. */
module Tasks {
  import opened Wrappers
  import opened Rows

  /** Lookup by the unique idempotency key. */
  function FindTask(tasks: seq<Task>, key: TaskKey): (r: Option<nat>)
    ensures r.Some? ==> r.value < |tasks| && tasks[r.value].key == key
    ensures r.None? ==> forall i :: 0 <= i < |tasks| ==> tasks[i].key != key
  {
    if tasks == [] then None
    else
      var last := |tasks| - 1;
      if tasks[last].key == key then Some(last) else FindTask(tasks[..last], key)
  }

  predicate IsStale(t: Task, deadline: int) {
    t.status == Running && (t.claimedAt.None? || t.claimedAt.value < deadline)
  }

  function Requeued(t: Task): Task {
    t.(status := Pending, claimedAt := None, claimedBy := None)
  }

  function RequeueStale(tasks: seq<Task>, deadline: int): seq<Task> {
    seq(|tasks|, i requires 0 <= i < |tasks| => if IsStale(tasks[i], deadline) then Requeued(tasks[i]) else tasks[i])
  }

  function StaleAudit(tasks: seq<Task>, deadline: int): seq<AuditEntry> {
    if tasks == [] then []
    else
      var last := |tasks| - 1;
      StaleAudit(tasks[..last], deadline) + (if IsStale(tasks[last], deadline) then [TaskRequeued(last)] else [])
  }

  /** The first pending row at or after `i` that no concurrent transaction holds; the table's length if none. */
  function FirstPending(tasks: seq<Task>, locked: set<nat>, i: nat): (r: nat)
    requires i <= |tasks|
    ensures i <= r <= |tasks|
    ensures r < |tasks| ==> tasks[r].status == Pending && r !in locked
    ensures forall j :: i <= j < r ==> tasks[j].status != Pending || j in locked
    decreases |tasks| - i
  {
    if i == |tasks| then i
    else if tasks[i].status == Pending && i !in locked then i
    else FirstPending(tasks, locked, i + 1)
  }

  function Claimed(t: Task, worker: string, now: int): Task {
    t.(status := Running, attempts := t.attempts + 1, claimedAt := Some(now), claimedBy := Some(worker))
  }

  datatype Claim = Claim(hub: Hub, task: Option<nat>)

  /** The polling claim.  Expired leases are requeued first, but the query for a pending
      row does not see those unflushed changes: a requeued row is claimable by the next call. */
  function ClaimNext(h: Hub, worker: string, lease: nat, locked: set<nat>): Claim {
    var deadline := h.now - lease;
    var requeued := RequeueStale(h.tasks, deadline);
    var audit := h.audit + StaleAudit(h.tasks, deadline);
    var t := FirstPending(h.tasks, locked, 0);
    if t == |h.tasks| then Claim(h.(tasks := requeued, audit := audit), None)
    else Claim(h.(tasks := requeued[t := Claimed(h.tasks[t], worker, h.now)], audit := audit + [TaskClaimed(t, worker)]), Some(t))
  }

  /** The claim of one delivered task id. */
  function ClaimById(h: Hub, t: nat, worker: string, lease: nat): Claim {
    if t >= |h.tasks| then Claim(h, None)
    else
      var task := h.tasks[t];
      if task.status == Running && !IsStale(task, h.now - lease) then Claim(h, None)
      else if task.status != Pending && task.status != Running then Claim(h, None)
      else
        var audit := h.audit + (if task.status == Running then [TaskRequeued(t)] else []);
        Claim(h.(tasks := h.tasks[t := Claimed(task, worker, h.now)], audit := audit + [TaskClaimed(t, worker)]), Some(t))
  }

  predicate MayBecome(from: TaskStatus, to: TaskStatus) {
    match from
    case Pending => to == Running || to == Cancelled
    case Running => to == Success || to == Failed || to == Pending
    case Waiting => to == Success || to == Failed || to == Pending
    case Failed => to == Pending
    case Success => false
    case Cancelled => false
  }

  /** The checked transition behind the two retry endpoints. */
  function Transition(h: Hub, t: nat, to: TaskStatus): Outcome {
    if t >= |h.tasks| || !MayBecome(h.tasks[t].status, to) then Outcome(h, false)
    else
      var task := h.tasks[t];
      var moved := if to == Running then task.(status := to, attempts := task.attempts + 1)
                   else task.(status := to, claimedAt := None, claimedBy := None);
      Outcome(h.(tasks := h.tasks[t := moved]), true)
  }

  /** Both retry endpoints move a task back to pending; one of them only accepts repair tasks. */
  function Retry(h: Hub, t: nat, repairsOnly: bool): Outcome {
    if t >= |h.tasks| || (repairsOnly && !h.tasks[t].work.RepairReplica?) then Outcome(h, false)
    else Transition(h, t, Pending)
  }

  function CreateTask(h: Hub, name: string, work: Work): Hub {
    if FindTask(h.tasks, ClientTask(name)).Some? then h
    else h.(tasks := h.tasks + [NewTask(ClientTask(name), work)])
  }
}
