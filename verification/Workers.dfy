/**
 What workers run against the center's database: the task executors, the pipeline nodes and the
 claim, execute, finish cycle of the polling worker and of a Celery delivery.
 */
module Workers {
  import opened Wrappers
  import opened Rows
  import opened Tasks
  import opened Files
  import opened Executors
  import opened Centers
  import Drain
  import Protocol
  import TextSplit

  // ----- chunk rows -------------------------------------------------------------------------

  /** The checks and the chunking shared by the parse task and the parse node. */
  method CheckAndSplit(db: Center, f: nat, hash: string, content: Option<string>) returns (r: Result<seq<string>>)
    ensures r == Parsable(db.cfg, db.State(), f, hash, content)
  {
    if f >= |db.files| || db.files[f].hash != hash {
      return Raised;
    }
    if content.None? || content.value == "" {
      return Raised;
    }
    if db.cfg.sha(content.value) != db.files[f].hash {
      return Raised;
    }
    r := TextSplit.SplitTextInto(content.value, db.cfg.parseChunkChars);
    if r.Ok? && r.value == [] {
      return Raised;
    }
  }

  /** Replaces the chunk rows of a file: delete, then insert one by one. */
  method ReplaceChunks(db: Center, f: nat, pieces: seq<string>)
    requires f < |db.files|
    modifies db`chunks, db`files
    ensures db.State() == StoreChunks(db.cfg, old(db.State()), f, pieces)
  {
    var hash := db.files[f].hash;
    var rows: seq<Chunk> := [];
    for i := 0 to |pieces|
      invariant rows == ChunkRows(db.cfg, hash, pieces)[..i]
    {
      rows := rows + [Chunk(i, pieces[i], db.cfg.sha(pieces[i]), hash, None, 0)];
    }
    assert rows == ChunkRows(db.cfg, hash, pieces);
    db.chunks := db.chunks[f := rows];
    db.files := db.files[f := db.files[f].(status := Parsed)];
  }

  /** Embeds the rows of one version; none to embed leaves everything alone. */
  method EmbedChunks(db: Center, f: nat, hash: string) returns (found: bool)
    modifies db`chunks
    ensures found == HasRows(old(db.State()), f, hash)
    ensures db.State() == RunEmbedNode(db.cfg, old(db.State()), f, hash).hub
  {
    var rows := if f in db.chunks then db.chunks[f] else [];
    var selected := RowsWithHash(rows, hash);
    if selected == [] {
      return false;
    }
    var embedded := rows;
    for i := 0 to |rows|
      invariant |embedded| == |rows|
      invariant forall j :: 0 <= j < i ==> embedded[j] == EmbedRows(db.cfg, rows, hash)[j]
      invariant forall j :: i <= j < |rows| ==> embedded[j] == rows[j]
    {
      if rows[i].fileHash == hash {
        embedded := embedded[i := rows[i].(embedding := Some(db.cfg.embed(rows[i].content)))];
      }
    }
    assert embedded == EmbedRows(db.cfg, rows, hash);
    db.chunks := db.chunks[f := embedded];
    return true;
  }

  // ----- executors ----------------------------------------------------------------------------

  method ExecuteParseTask(db: Center, f: nat, hash: string, content: Option<string>) returns (ok: bool)
    modifies db`chunks, db`files, db`tasks
    ensures Outcome(db.State(), ok) == ExecuteParse(db.cfg, old(db.State()), f, hash, content)
  {
    var split := CheckAndSplit(db, f, hash, content);
    if split.Raised? {
      return false;
    }
    ReplaceChunks(db, f, split.value);
    var key := FileEmbed(f, hash);
    var existing := db.LookUpTask(key);
    if existing.None? {
      db.tasks := db.tasks + [NewTask(key, EmbedFile(f, hash))];
    }
    return true;
  }

  method ExecuteRepairTask(db: Center, t: nat, f: nat, hash: string, node: string) returns (ok: bool)
    modifies db`commands, db`audit
    ensures Outcome(db.State(), ok) == ExecuteRepair(old(db.State()), t, f, hash, node)
  {
    if f >= |db.files| || db.files[f].hash != hash {
      return false;
    }
    if node !in db.nodes || !db.nodes[node] {
      return false;
    }
    var found := db.LookUpCommand(ReplicaSync(t));
    if found.None? {
      var command := Command(ReplicaSync(t), node, SyncReplica(t, f, hash, db.files[f].path), CQueued, None);
      db.audit := db.audit + [CommandQueued(|db.commands|)];
      db.commands := db.commands + [command];
    } else if db.commands[found.value].status == CFailed {
      db.commands := db.commands[found.value := db.commands[found.value].(status := CQueued, claimedAt := None)];
      db.audit := db.audit + [CommandRetried(found.value)];
    }
    return true;
  }

  /** One executor run; `foreignOk` is how foreign work, or the pipeline, has ended. */
  method ExecuteTaskPayload(db: Center, t: nat, foreignOk: bool) returns (ok: bool)
    requires t < |db.tasks|
    modifies db`chunks, db`files, db`tasks, db`commands, db`audit
    ensures Outcome(db.State(), ok) == Execute(db.cfg, old(db.State()), t, foreignOk)
  {
    match db.tasks[t].work
    case Noop => ok := true;
    case RegisterFile(f, hash) =>
      if f >= |db.files| || db.files[f].hash != hash {
        return false;
      }
      db.files := db.files[f := db.files[f].(status := Registered)];
      ok := true;
    case ParseFile(f, hash, content) => ok := ExecuteParseTask(db, f, hash, content);
    case EmbedFile(f, hash) =>
      if f >= |db.files| || db.files[f].hash != hash {
        return false;
      }
      ok := EmbedChunks(db, f, hash);
    case RepairReplica(f, hash, node) => ok := ExecuteRepairTask(db, t, f, hash, node);
    case RunPipeline(_, hash, _) => ok := foreignOk && hash != "";
    case External(_) => ok := foreignOk;
  }

  /** Execute and commit the result, from the claim to the final status. */
  method FinishClaimed(db: Center, t: nat, delivery: Delivery, foreignOk: bool)
    requires t < |db.tasks|
    modifies db`chunks, db`files, db`tasks, db`commands, db`audit
    ensures db.State() == FinishTask(db.cfg, old(db.State()), t, delivery, foreignOk)
  {
    ghost var h := db.State();
    ExecuteKeepsTask(db.cfg, h, t, foreignOk);
    var work := db.tasks[t].work;
    var ok := ExecuteTaskPayload(db, t, foreignOk);
    var outcome := if !ok then Failed else if work.RepairReplica? then Waiting else Success;
    db.tasks := db.tasks[t := db.tasks[t].(status := outcome, claimedAt := None, claimedBy := None)];
    db.audit := db.audit + [TaskFinished(t, outcome)];
    if !ok && delivery == Poll && work.ParseFile? {
      if work.fileId < |db.files| && db.files[work.fileId].hash == work.fileHash {
        db.files := db.files[work.fileId := db.files[work.fileId].(status := ParseFailed)];
      }
    }
  }

  // ----- the pipeline --------------------------------------------------------------------------

  method RegisterStage(db: Center, f: nat, hash: string) returns (ok: bool)
    modifies db`files
    ensures Outcome(db.State(), ok) == RunRegisterNode(old(db.State()), f, hash)
  {
    if f >= |db.files| || db.files[f].hash != hash {
      return false;
    }
    var status := db.files[f].status;
    if status != Parsed && status != Parsing && status != ParseFailed {
      db.files := db.files[f := db.files[f].(status := Registered)];
    }
    return true;
  }

  method ParseStage(db: Center, f: nat, hash: string, content: Option<string>) returns (ok: bool)
    modifies db`chunks, db`files
    ensures Outcome(db.State(), ok) == RunParseNode(db.cfg, old(db.State()), f, hash, content)
  {
    if content.None? {
      return true;
    }
    var split := CheckAndSplit(db, f, hash, content);
    if split.Raised? {
      return false;
    }
    ReplaceChunks(db, f, split.value);
    return true;
  }

  lemma RepairsNext(h: Hub, f: nat, hash: string, policy: seq<string>, i: nat, added: seq<Task>, repair: seq<Task>)
    requires i < |policy| && added + PipelineRepairs(h, f, hash, policy[i..]) == PipelineRepairs(h, f, hash, policy)
    requires var key := ReplicaRepair(f, hash, policy[i]);
      repair == if FindTask(h.tasks, key).None? then [NewTask(key, RepairReplica(f, hash, policy[i]))] else []
    ensures (added + repair) + PipelineRepairs(h, f, hash, policy[i + 1..]) == PipelineRepairs(h, f, hash, policy)
  {
    assert policy[i..][0] == policy[i] && policy[i..][1..] == policy[i + 1..];
    var rest := PipelineRepairs(h, f, hash, policy[i + 1..]);
    assert added + (repair + rest) == (added + repair) + rest;
  }

  method ReplicaStage(db: Center, f: nat, hash: string) returns (ok: bool)
    modifies db`tasks
    ensures Outcome(db.State(), ok) == RunReplicaNode(db.cfg, old(db.State()), f, hash)
  {
    if f >= |db.files| || db.files[f].hash != hash {
      return false;
    }
    var added: seq<Task> := [];
    var policy := db.cfg.replicaNodes;
    ghost var h := db.State();
    for i := 0 to |policy|
      invariant db.State() == h
      invariant added + PipelineRepairs(h, f, hash, policy[i..]) == PipelineRepairs(h, f, hash, policy)
    {
      var key := ReplicaRepair(f, hash, policy[i]);
      var existing := db.LookUpTask(key);
      var repair := if existing.None? then [NewTask(key, RepairReplica(f, hash, policy[i]))] else [];
      RepairsNext(h, f, hash, policy, i, added, repair);
      added := added + repair;
    }
    assert policy[|policy|..] == [] && added + [] == added;
    if !DistinctKeys(added) {
      return false;  // the unique index on the key rejects the commit
    }
    db.tasks := db.tasks + added;
    return true;
  }

  method RunStage(db: Center, stage: Node, f: nat, hash: string, content: Option<string>) returns (ok: bool)
    modifies db`chunks, db`files, db`tasks
    ensures Outcome(db.State(), ok) == RunNode(db.cfg, old(db.State()), stage, f, hash, content)
  {
    match stage
    case RegisterNode => ok := RegisterStage(db, f, hash);
    case ParseNode => ok := ParseStage(db, f, hash, content);
    case EmbedNode =>
      var _ := EmbedChunks(db, f, hash);
      ok := true;
    case ReplicaNode => ok := ReplicaStage(db, f, hash);
  }

  /** The sequential orchestrator: the stages in order until one raises. */
  method RunSequential(db: Center, f: nat, hash: string, content: Option<string>) returns (ok: bool)
    modifies db`chunks, db`files, db`tasks
    ensures Outcome(db.State(), ok) == RunNodes(db.cfg, old(db.State()), PIPELINE, f, hash, content)
  {
    ghost var whole := RunNodes(db.cfg, db.State(), PIPELINE, f, hash, content);
    for i := 0 to |PIPELINE|
      invariant RunNodes(db.cfg, db.State(), PIPELINE[i..], f, hash, content) == whole
    {
      assert PIPELINE[i..][0] == PIPELINE[i] && PIPELINE[i..][1..] == PIPELINE[i + 1..];
      ok := RunStage(db, PIPELINE[i], f, hash, content);
      if !ok {
        return false;
      }
    }
    return true;
  }

  // ----- worker cycles ----------------------------------------------------------------------------

  /** What follows a claim: a pipeline runs its stages, anything else is executed as it is finished. */
  method RunClaimed(db: Center, t: nat, delivery: Delivery, foreignOk: bool)
    requires t < |db.tasks|
    modifies db
    ensures db.State() == Drain.RunClaimed(db.cfg, old(db.State()), t, delivery, foreignOk)
  {
    var work := db.tasks[t].work;
    var ok := foreignOk;
    if work.RunPipeline? {
      ok := false;
      if work.fileHash != "" {
        Drain.NodesAppend(db.cfg, db.State(), PIPELINE, work.fileId, work.fileHash, work.content);
        ok := RunSequential(db, work.fileId, work.fileHash, work.content);
      }
    }
    FinishClaimed(db, t, delivery, ok);
  }

  /** One turn of the polling worker with nothing in between its transactions. */
  method RunTaskOnce(db: Center, worker: string, foreignOk: bool) returns (found: bool)
    modifies db
    ensures Drain.PollResult(db.State(), found) == Drain.RunTaskOnce(db.cfg, old(db.State()), worker, foreignOk)
  {
    ghost var h := db.State();
    var claimed := db.ClaimNextTask(worker, {});
    if claimed.None? {
      return false;
    }
    Protocol.ClaimNextEffect(h, worker, db.cfg.lease, {});
    RunClaimed(db, claimed.value, Poll, foreignOk);
    return true;
  }

  /** One Celery delivery with nothing in between its transactions. */
  method RunTaskById(db: Center, t: nat, worker: string, foreignOk: bool) returns (ran: bool)
    modifies db
    ensures Drain.PollResult(db.State(), ran) == Drain.RunTaskById(db.cfg, old(db.State()), t, worker, foreignOk)
  {
    var claimed := db.ClaimTaskById(t, worker);
    if claimed.None? {
      return false;
    }
    RunClaimed(db, t, Celery, foreignOk);
    return true;
  }

  // ----- the gateway ---------------------------------------------------------------------------------

  /** The text download: nothing for a version that is not current or has no rows yet. */
  method GatewayDownload(db: Center, f: nat) returns (body: Option<string>)
    ensures body == Gateway(db.State(), f)
  {
    if f >= |db.files| || !db.files[f].alive || db.files[f].status == Superseded {
      return None;
    }
    var rows := if f in db.chunks then db.chunks[f] else [];
    var contents: seq<string> := [];
    var hash := db.files[f].hash;
    for i := 0 to |rows|
      invariant contents + RowsWithHash(rows[i..], hash) == RowsWithHash(rows, hash)
    {
      assert rows[i..][0] == rows[i] && rows[i..][1..] == rows[i + 1..];
      var selected := if rows[i].fileHash == hash then [rows[i].content] else [];
      assert contents + (selected + RowsWithHash(rows[i + 1..], hash)) == (contents + selected) + RowsWithHash(rows[i + 1..], hash);
      contents := contents + selected;
    }
    assert rows[|rows|..] == [] && contents + [] == contents;
    if contents == [] {
      return None;
    }
    return Some(TextSplit.Join(contents));
  }
}
