/** The remote command table: creation, edge claims and acknowledgements. */
module Commands {
  import opened Wrappers
  import opened Rows

  function FindCommand(commands: seq<Command>, key: CommandKey): (r: Option<nat>)
    ensures r.Some? ==> r.value < |commands| && commands[r.value].key == key
    ensures r.None? ==> forall i :: 0 <= i < |commands| ==> commands[i].key != key
  {
    if commands == [] then None
    else
      var last := |commands| - 1;
      if commands[last].key == key then Some(last) else FindCommand(commands[..last], key)
  }

  function CreateCommand(h: Hub, name: string, node: string): Outcome {
    if FindCommand(h.commands, ClientCommand(name)).Some? then Outcome(h, true)
    else if node !in h.nodes then Outcome(h, false)
    else Outcome(h.(commands := h.commands + [Command(ClientCommand(name), node, OtherCommand, CQueued, None)],
                    audit := h.audit + [CommandQueued(|h.commands|)]), true)
  }

  predicate IsExpired(c: Command, node: string, deadline: int) {
    c.node == node && c.status == CRunning && c.claimedAt.Some? && c.claimedAt.value < deadline
  }

  function RequeueExpired(commands: seq<Command>, node: string, deadline: int): seq<Command> {
    seq(|commands|, i requires 0 <= i < |commands| =>
      if IsExpired(commands[i], node, deadline) then commands[i].(status := CQueued, claimedAt := None) else commands[i])
  }

  function ExpiredAudit(commands: seq<Command>, node: string, deadline: int): seq<AuditEntry> {
    if commands == [] then []
    else
      var last := |commands| - 1;
      ExpiredAudit(commands[..last], node, deadline)
        + (if IsExpired(commands[last], node, deadline) then [CommandExpired(last)] else [])
  }

  function FirstQueued(commands: seq<Command>, node: string, locked: set<nat>, i: nat): (r: nat)
    requires i <= |commands|
    ensures i <= r <= |commands|
    ensures r < |commands| ==> commands[r].status == CQueued && commands[r].node == node && r !in locked
    ensures forall j :: i <= j < r ==> commands[j].status != CQueued || commands[j].node != node || j in locked
    decreases |commands| - i
  {
    if i == |commands| then i
    else if commands[i].status == CQueued && commands[i].node == node && i !in locked then i
    else FirstQueued(commands, node, locked, i + 1)
  }

  datatype CommandClaim = CommandClaim(hub: Hub, command: Option<nat>)

  /** The edge claim.  Expired claims are flushed before the query, so they can be claimed again
      at once.  Without a claimable row nothing is committed. */
  function ClaimCommand(h: Hub, node: string, lease: nat, locked: set<nat>): CommandClaim {
    var deadline := h.now - lease;
    var requeued := RequeueExpired(h.commands, node, deadline);
    var c := FirstQueued(requeued, node, locked, 0);
    if c == |requeued| then CommandClaim(h, None)
    else
      CommandClaim(
        h.(commands := requeued[c := requeued[c].(status := CRunning, claimedAt := Some(h.now))],
           audit := h.audit + ExpiredAudit(h.commands, node, deadline) + [CommandClaimed(c)]),
        Some(c))
  }

  datatype AckStatus = AckRunning | AckSuccess | AckFailed

  /** An edge node's acknowledgement: the reported status and the two result fields the center reads. */
  datatype Ack = Ack(status: AckStatus, verified: bool, fileHash: Option<string>)

  /** A success report counts only with a matching verified hash and an unchanged file record. */
  predicate Verified(h: Hub, kind: CommandKind, ack: Ack)
    requires kind.SyncReplica?
  {
    && ack.verified && ack.fileHash == Some(kind.fileHash)
    && kind.fileId < |h.files| && h.files[kind.fileId].hash == kind.fileHash
  }

  function AckedStatus(ack: Ack): CommandStatus {
    match ack.status
    case AckRunning => CRunning
    case AckSuccess => CSuccess
    case AckFailed => CFailed
  }

  function Acknowledge(h: Hub, node: string, c: nat, ack: Ack): Outcome {
    if c >= |h.commands| || h.commands[c].node != node then Outcome(h, false)
    else if h.commands[c].status != CQueued && h.commands[c].status != CRunning then Outcome(h, false)
    else
      var command := h.commands[c].(status := AckedStatus(ack), claimedAt := if ack.status == AckRunning then Some(h.now) else None);
      if command.kind.OtherCommand? then
        Outcome(h.(commands := h.commands[c := command], audit := h.audit + [CommandAcked(c, command.status)]), true)
      else if command.kind.repairTask >= |h.tasks| then Outcome(h, false)
      else AcknowledgeSync(h, c, command, ack)
  }

  /** The part of an acknowledgement that settles the linked repair task. */
  function AcknowledgeSync(h: Hub, c: nat, command: Command, ack: Ack): Outcome
    requires c < |h.commands| && command.kind.SyncReplica? && command.kind.repairTask < |h.tasks|
  {
    var kind := command.kind;
    var task := h.tasks[kind.repairTask].(claimedAt := None, claimedBy := None);
    match ack.status
    case AckRunning => Outcome(Settle(h, c, command, task, h.replicas), true)
    case AckFailed => Outcome(Settle(h, c, command, task.(status := Failed), h.replicas), true)
    case AckSuccess =>
      if Verified(h, kind, ack) then
        var replica := Replica(kind.fileHash, true, h.now);
        Outcome(Settle(h, c, command, task.(status := Success), h.replicas[(kind.fileId, command.node) := replica]), true)
      else
        Outcome(Settle(h, c, command.(status := CFailed), task.(status := Failed), h.replicas), true)
  }

  function Settle(h: Hub, c: nat, command: Command, task: Task, replicas: map<(nat, string), Replica>): Hub
    requires c < |h.commands| && command.kind.SyncReplica? && command.kind.repairTask < |h.tasks|
  {
    h.(commands := h.commands[c := command],
       tasks := h.tasks[command.kind.repairTask := task],
       replicas := replicas,
       audit := h.audit + [CommandAcked(c, command.status)])
  }
}
