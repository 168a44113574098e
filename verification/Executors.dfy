/** Task executors, the pipeline nodes and the finishing transaction of a worker. */
module Executors {
  import opened Wrappers
  import opened Rows
  import opened Tasks
  import opened Commands
  import opened Files
  import TextSplit

  // ----- chunk rows -------------------------------------------------------------

  function ChunkRows(cfg: Config, hash: string, pieces: seq<string>): seq<Chunk> {
    seq(|pieces|, i requires 0 <= i < |pieces| => Chunk(i, pieces[i], cfg.sha(pieces[i]), hash, None, 0))
  }

  function EmbedRows(cfg: Config, rows: seq<Chunk>, hash: string): seq<Chunk> {
    seq(|rows|, i requires 0 <= i < |rows| =>
      if rows[i].fileHash == hash then rows[i].(embedding := Some(cfg.embed(rows[i].content))) else rows[i])
  }

  predicate SameVersion(h: Hub, f: nat, hash: string) {
    f < |h.files| && h.files[f].hash == hash
  }

  /** The checks both parsers make; the pieces are the chunks they write. */
  function Parsable(cfg: Config, h: Hub, f: nat, hash: string, content: Option<string>): Result<seq<string>> {
    if !SameVersion(h, f, hash) || content.None? || content.value == "" || cfg.sha(content.value) != hash || cfg.parseChunkChars <= 0
    then Raised
    else
      var pieces := TextSplit.SplitText(content.value, cfg.parseChunkChars);
      if pieces == [] then Raised else Ok(pieces)
  }

  function StoreChunks(cfg: Config, h: Hub, f: nat, pieces: seq<string>): Hub
    requires f < |h.files|
  {
    h.(chunks := h.chunks[f := ChunkRows(cfg, h.files[f].hash, pieces)],
       files := h.files[f := h.files[f].(status := Parsed)])
  }

  // ----- single executors ---------------------------------------------------------

  function ExecuteRegister(h: Hub, f: nat, hash: string): Outcome {
    if !SameVersion(h, f, hash) then Outcome(h, false)
    else Outcome(h.(files := h.files[f := h.files[f].(status := Registered)]), true)
  }

  function ExecuteParse(cfg: Config, h: Hub, f: nat, hash: string, content: Option<string>): Outcome {
    match Parsable(cfg, h, f, hash, content)
    case Raised => Outcome(h, false)
    case Ok(pieces) =>
      var stored := StoreChunks(cfg, h, f, pieces);
      var key := FileEmbed(f, hash);
      if FindTask(h.tasks, key).Some? then Outcome(stored, true)
      else Outcome(stored.(tasks := h.tasks + [NewTask(key, EmbedFile(f, hash))]), true)
  }

  predicate HasRows(h: Hub, f: nat, hash: string) {
    RowsWithHash(ChunksOf(h, f), hash) != []
  }

  function ExecuteEmbed(cfg: Config, h: Hub, f: nat, hash: string): Outcome {
    if !SameVersion(h, f, hash) || !HasRows(h, f, hash) then Outcome(h, false)
    else Outcome(h.(chunks := h.chunks[f := EmbedRows(cfg, ChunksOf(h, f), hash)]), true)
  }

  /** Dispatching a repair: create the sync command, or requeue it after a failure; any other
      command is left as it is. */
  function ExecuteRepair(h: Hub, t: nat, f: nat, hash: string, node: string): Outcome {
    if !SameVersion(h, f, hash) || node !in h.nodes || !h.nodes[node] then Outcome(h, false)
    else
      var found := FindCommand(h.commands, ReplicaSync(t));
      if found.None? then
        var command := Command(ReplicaSync(t), node, SyncReplica(t, f, hash, h.files[f].path), CQueued, None);
        Outcome(h.(commands := h.commands + [command], audit := h.audit + [CommandQueued(|h.commands|)]), true)
      else if h.commands[found.value].status == CFailed then
        var c := found.value;
        Outcome(h.(commands := h.commands[c := h.commands[c].(status := CQueued, claimedAt := None)],
                   audit := h.audit + [CommandRetried(c)]), true)
      else Outcome(h, true)
  }

  /** One executor run.  Foreign work, and a pipeline whose nodes commit on their own, end as `foreignOk` says. */
  function Execute(cfg: Config, h: Hub, t: nat, foreignOk: bool): Outcome
    requires t < |h.tasks|
  {
    match h.tasks[t].work
    case Noop => Outcome(h, true)
    case RegisterFile(f, hash) => ExecuteRegister(h, f, hash)
    case ParseFile(f, hash, content) => ExecuteParse(cfg, h, f, hash, content)
    case EmbedFile(f, hash) => ExecuteEmbed(cfg, h, f, hash)
    case RepairReplica(f, hash, node) => ExecuteRepair(h, t, f, hash, node)
    case RunPipeline(_, hash, _) => Outcome(h, foreignOk && hash != "")
    case External(_) => Outcome(h, foreignOk)
  }

  datatype Delivery = Poll | Celery

  /** The finishing transaction writes the task row whatever its status is by then. */
  function FinishTask(cfg: Config, h: Hub, t: nat, delivery: Delivery, foreignOk: bool): Hub
    requires t < |h.tasks|
  {
    var o := Execute(cfg, h, t, foreignOk);
    var work := h.tasks[t].work;
    ExecuteKeepsTask(cfg, h, t, foreignOk);
    var outcome := if !o.ok then Failed else if work.RepairReplica? then Waiting else Success;
    var task := o.hub.tasks[t].(status := outcome, claimedAt := None, claimedBy := None);
    var h' := o.hub.(tasks := o.hub.tasks[t := task], audit := o.hub.audit + [TaskFinished(t, outcome)]);
    if !o.ok && delivery == Poll && work.ParseFile? && SameVersion(h, work.fileId, work.fileHash)
    then h'.(files := h'.files[work.fileId := h'.files[work.fileId].(status := ParseFailed)])
    else h'
  }

  /** Executors leave every task row alone; parsing may append an embedding task. */
  lemma ExecuteKeepsTask(cfg: Config, h: Hub, t: nat, foreignOk: bool)
    requires t < |h.tasks|
    ensures !Execute(cfg, h, t, foreignOk).ok ==> Execute(cfg, h, t, foreignOk).hub == h
    ensures h.tasks <= Execute(cfg, h, t, foreignOk).hub.tasks
    ensures |Execute(cfg, h, t, foreignOk).hub.files| == |h.files|
  {}

  // ----- the pipeline -------------------------------------------------------------

  datatype Node = RegisterNode | ParseNode | EmbedNode | ReplicaNode

  const PIPELINE: seq<Node> := [RegisterNode, ParseNode, EmbedNode, ReplicaNode]

  function RunRegisterNode(h: Hub, f: nat, hash: string): Outcome {
    if !SameVersion(h, f, hash) then Outcome(h, false)
    else
      var status := h.files[f].status;
      if status == Parsed || status == Parsing || status == ParseFailed then Outcome(h, true)
      else Outcome(h.(files := h.files[f := h.files[f].(status := Registered)]), true)
  }

  function RunParseNode(cfg: Config, h: Hub, f: nat, hash: string, content: Option<string>): Outcome {
    if content.None? then Outcome(h, true)
    else
      match Parsable(cfg, h, f, hash, content)
      case Raised => Outcome(h, false)
      case Ok(pieces) => Outcome(StoreChunks(cfg, h, f, pieces), true)
  }

  function RunEmbedNode(cfg: Config, h: Hub, f: nat, hash: string): Outcome {
    if !HasRows(h, f, hash) then Outcome(h, true)
    else Outcome(h.(chunks := h.chunks[f := EmbedRows(cfg, ChunksOf(h, f), hash)]), true)
  }

  /** The repair tasks the last node adds; its queries do not see the rows it has just added. */
  function PipelineRepairs(h: Hub, f: nat, hash: string, policy: seq<string>): seq<Task> {
    if policy == [] then []
    else
      var key := ReplicaRepair(f, hash, policy[0]);
      (if FindTask(h.tasks, key).None? then [NewTask(key, RepairReplica(f, hash, policy[0]))] else [])
        + PipelineRepairs(h, f, hash, policy[1..])
  }

  function RunReplicaNode(cfg: Config, h: Hub, f: nat, hash: string): Outcome {
    var added := PipelineRepairs(h, f, hash, cfg.replicaNodes);
    if !SameVersion(h, f, hash) || !DistinctKeys(added) then Outcome(h, false)
    else Outcome(h.(tasks := h.tasks + added), true)
  }

  /** One node is one transaction: it commits as a whole or leaves nothing. */
  function RunNode(cfg: Config, h: Hub, node: Node, f: nat, hash: string, content: Option<string>): Outcome {
    match node
    case RegisterNode => RunRegisterNode(h, f, hash)
    case ParseNode => RunParseNode(cfg, h, f, hash, content)
    case EmbedNode => RunEmbedNode(cfg, h, f, hash)
    case ReplicaNode => RunReplicaNode(cfg, h, f, hash)
  }

  /** Nodes in order, stopping at the first that raises. */
  function RunNodes(cfg: Config, h: Hub, nodes: seq<Node>, f: nat, hash: string, content: Option<string>): Outcome
    decreases |nodes|
  {
    if nodes == [] then Outcome(h, true)
    else
      var o := RunNode(cfg, h, nodes[0], f, hash, content);
      if !o.ok then o else RunNodes(cfg, o.hub, nodes[1..], f, hash, content)
  }
}
