/** Small shared datatypes. */
module Wrappers {
  datatype Option<+T> = None | Some(value: T)

  datatype Result<+T> = Ok(value: T) | Raised
}

/**
 The rows of the center's database, the database itself and its settings.

 A table that never loses rows is a sequence: the row with primary key `i + 1` is at
 index `i`, so ordering by `(created_at, id)` under one clock is ordering by index.
 Chunk rows and replica rows can be deleted and are maps over their unique columns.
 */
module Rows {
  import opened Wrappers

  datatype FileStatus = Reported | Registered | Parsing | Parsed | ParseFailed | Missing | Superseded | Deleted

  datatype FileRecord = FileRecord(path: string, hash: string, source: string, status: FileStatus,
                                   alive: bool, lastSeen: int, version: nat)

  datatype Replica = Replica(hash: string, healthy: bool, lastSeen: int)

  datatype Embedding = Embedding(vector: seq<real>, provider: string, ready: bool)

  datatype Chunk = Chunk(index: nat, content: string, contentHash: string, fileHash: string,
                         embedding: Option<Embedding>, hits: nat)

  datatype TaskStatus = Pending | Running | Waiting | Success | Failed | Cancelled

  /** A task's kind together with its payload. */
  datatype Work =
    | Noop
    | RegisterFile(fileId: nat, fileHash: string)
    | ParseFile(fileId: nat, fileHash: string, content: Option<string>)
    | EmbedFile(fileId: nat, fileHash: string)
    | RepairReplica(fileId: nat, fileHash: string, node: string)
    | RunPipeline(fileId: nat, fileHash: string, content: Option<string>)
    | External(kind: string)  // Dify ingestion, backups and kinds without an executor

  /** Idempotency keys; client keys avoid the reserved prefixes. */
  datatype TaskKey =
    | FileRegister(fileId: nat, fileHash: string)
    | FileParse(fileId: nat, fileHash: string)
    | FileEmbed(fileId: nat, fileHash: string)
    | ReplicaRepair(fileId: nat, fileHash: string, node: string)
    | ClientTask(name: string)

  datatype Task = Task(key: TaskKey, work: Work, status: TaskStatus, attempts: nat,
                       claimedAt: Option<int>, claimedBy: Option<string>)

  function NewTask(key: TaskKey, work: Work): Task {
    Task(key, work, Pending, 0, None, None)
  }

  datatype CommandStatus = CQueued | CRunning | CSuccess | CFailed

  datatype CommandKey = ReplicaSync(taskId: nat) | ClientCommand(name: string)

  /** Only `sync_replica` commands carry a payload the center reads back. */
  datatype CommandKind = SyncReplica(repairTask: nat, fileId: nat, fileHash: string, path: string) | OtherCommand

  datatype Command = Command(key: CommandKey, node: string, kind: CommandKind,
                             status: CommandStatus, claimedAt: Option<int>)

  /** The audit rows that concern tasks and commands. */
  datatype AuditEntry =
    | TaskClaimed(task: nat, worker: string)
    | TaskRequeued(task: nat)
    | TaskFinished(task: nat, outcome: TaskStatus)
    | CommandQueued(command: nat)
    | CommandRetried(command: nat)   // requeued because an operator retried its task
    | CommandExpired(command: nat)   // requeued because the edge node's lease ran out
    | CommandClaimed(command: nat)
    | CommandAcked(command: nat, reported: CommandStatus)

  datatype Hub = Hub(now: int,
                     nodes: map<string, bool>,
                     files: seq<FileRecord>,
                     replicas: map<(nat, string), Replica>,
                     chunks: map<nat, seq<Chunk>>,
                     tasks: seq<Task>,
                     commands: seq<Command>,
                     audit: seq<AuditEntry>)

  /** Settings, plus the two foreign functions: SHA-256 and the embedding service. */
  datatype Config = Config(lease: nat, commandLease: nat, missingAfter: nat, parseChunkChars: int,
                           replicaNodes: seq<string>, sha: string -> string, embed: string -> Embedding)

  /** What one transaction leaves behind, and whether it raised. */
  datatype Outcome = Outcome(hub: Hub, ok: bool)

  const EmptyHub := Hub(0, map[], [], map[], map[], [], [], [])

  function ChunksOf(h: Hub, fileId: nat): seq<Chunk> {
    if fileId in h.chunks then h.chunks[fileId] else []
  }
}
