/** File reports and versions, the liveness scan, uploads, deletion and the download gateway. */
module Files {
  import opened Wrappers
  import opened Rows
  import opened Tasks
  import TextSplit

  function FindFile(files: seq<FileRecord>, path: string, hash: string): (r: Option<nat>)
    ensures r.Some? ==> r.value < |files| && files[r.value].path == path && files[r.value].hash == hash
    ensures r.None? ==> forall i :: 0 <= i < |files| ==> files[i].path != path || files[i].hash != hash
  {
    if files == [] then None
    else
      var last := |files| - 1;
      if files[last].path == path && files[last].hash == hash then Some(last) else FindFile(files[..last], path, hash)
  }

  /** The newest version number of a path; zero when the path is new. */
  function NewestVersion(files: seq<FileRecord>, path: string): (v: nat)
    ensures forall i :: 0 <= i < |files| && files[i].path == path ==> files[i].version <= v
    ensures v == 0 || exists i :: 0 <= i < |files| && files[i].path == path && files[i].version == v
  {
    if files == [] then 0
    else
      var last := |files| - 1;
      var v := NewestVersion(files[..last], path);
      if files[last].path == path && files[last].version > v then files[last].version else v
  }

  function Supersede(files: seq<FileRecord>, path: string): seq<FileRecord> {
    seq(|files|, i requires 0 <= i < |files| =>
      if files[i].path == path && files[i].alive then files[i].(alive := false, status := Superseded) else files[i])
  }

  function TaskStatusOf(tasks: seq<Task>, key: TaskKey): Option<TaskStatus> {
    var t := FindTask(tasks, key);
    if t.Some? then Some(tasks[t.value].status) else None
  }

  predicate Settled(status: FileStatus) {
    status == Registered || status == Parsing || status == Parsed
  }

  /** The status of a record that is reported again, from its register and parse tasks. */
  function RereportedStatus(status: FileStatus, register: Option<TaskStatus>, parse: Option<TaskStatus>): FileStatus {
    var s :=
      if parse == Some(Success) then Parsed
      else if register == Some(Success) && status != Parsing && status != ParseFailed then Registered
      else if status == Missing then Reported
      else status;
    if Settled(s) then s else Reported
  }

  /** A report of a path and hash the center already knows. */
  function Rereport(h: Hub, node: string, f: nat): Hub
    requires f < |h.files|
  {
    var record := h.files[f];
    var key := FileRegister(f, record.hash);
    var register := FindTask(h.tasks, key);
    var status := RereportedStatus(record.status, TaskStatusOf(h.tasks, key), TaskStatusOf(h.tasks, FileParse(f, record.hash)));
    var tasks :=
      if Settled(status) then h.tasks
      else if register.None? then h.tasks + [NewTask(key, RegisterFile(f, record.hash))]
      else if h.tasks[register.value].status == Failed then h.tasks[register.value := h.tasks[register.value].(status := Pending)]
      else h.tasks;
    var audit :=
      if !Settled(status) && register.Some? && h.tasks[register.value].status == Failed
      then h.audit + [TaskRequeued(register.value)] else h.audit;
    h.(files := h.files[f := record.(source := node, alive := true, lastSeen := h.now, status := status)],
       tasks := tasks,
       audit := audit,
       replicas := h.replicas[(f, node) := Replica(record.hash, true, h.now)])
  }

  /** The first report of a path's new content: a new version that supersedes the live ones. */
  function NewVersion(h: Hub, node: string, path: string, hash: string): Hub {
    var f := |h.files|;
    var record := FileRecord(path, hash, node, Reported, true, h.now, NewestVersion(h.files, path) + 1);
    h.(files := Supersede(h.files, path) + [record],
       tasks := h.tasks + [NewTask(FileRegister(f, hash), RegisterFile(f, hash))],
       replicas := h.replicas[(f, node) := Replica(hash, true, h.now)])
  }

  function ReportFile(h: Hub, node: string, path: string, hash: string): Hub {
    var known := FindFile(h.files, path, hash);
    if known.Some? then Rereport(h, node, known.value) else NewVersion(h, node, path, hash)
  }

  /** The upload endpoint: check the lineage, then queue or requeue the parse task. */
  function QueueParse(cfg: Config, h: Hub, f: nat, node: string, hash: string, content: string): Outcome {
    if f >= |h.files| || h.files[f].source != node || h.files[f].hash != hash || cfg.sha(content) != hash then Outcome(h, false)
    else
      var key := FileParse(f, hash);
      var t := FindTask(h.tasks, key);
      var tasks :=
        if t.None? then h.tasks + [NewTask(key, ParseFile(f, hash, Some(content)))]
        else if h.tasks[t.value].status == Failed then h.tasks[t.value := h.tasks[t.value].(status := Pending)]
        else h.tasks;
      var status := if h.files[f].status != Parsed then Parsing else Parsed;
      Outcome(h.(tasks := tasks, files := h.files[f := h.files[f].(status := status)]), true)
  }

  function DeleteFile(h: Hub, f: nat): Outcome {
    if f >= |h.files| then Outcome(h, false)
    else Outcome(h.(chunks := h.chunks - {f},
                    replicas := map k | k in h.replicas && k.0 != f :: h.replicas[k],
                    files := h.files[f := h.files[f].(alive := false, status := Deleted)]), true)
  }

  // ----- the liveness scan and replica repair policy --------------------------

  function Desired(nodes: map<string, bool>, policy: seq<string>): seq<string> {
    if policy == [] then []
    else (if policy[0] in nodes && nodes[policy[0]] then [policy[0]] else []) + Desired(nodes, policy[1..])
  }

  function ScanFile(r: FileRecord, cutoff: int): FileRecord {
    if r.status == Superseded then r
    else if r.lastSeen < cutoff then
      if r.alive || r.status != Missing then r.(alive := false, status := Missing) else r
    else if !r.alive then
      r.(alive := true, status := if r.status == Missing then Reported else r.status)
    else r
  }

  function ScanFiles(files: seq<FileRecord>, cutoff: int): seq<FileRecord> {
    seq(|files|, f requires 0 <= f < |files| => ScanFile(files[f], cutoff))
  }

  predicate ReplicaExpired(h: Hub, k: (nat, string), cutoff: int)
    requires k in h.replicas
  {
    k.0 < |h.files| && h.files[k.0].status != Superseded && h.replicas[k].lastSeen < cutoff
  }

  function ScanReplicas(h: Hub, cutoff: int): map<(nat, string), Replica> {
    map k | k in h.replicas :: if ReplicaExpired(h, k, cutoff) then h.replicas[k].(healthy := false) else h.replicas[k]
  }

  predicate HasHealthy(h: Hub, f: nat, node: string) {
    (f, node) in h.replicas && h.replicas[(f, node)].healthy
  }

  function RepairKey(h: Hub, f: nat, node: string): TaskKey
    requires f < |h.files|
  {
    ReplicaRepair(f, h.files[f].hash, node)
  }

  /** Neither a healthy replica row nor a repair task: what the scan must queue. */
  predicate Lacks(h: Hub, f: nat, node: string)
    requires f < |h.files|
  {
    !HasHealthy(h, f, node) && FindTask(h.tasks, RepairKey(h, f, node)).None?
  }

  /** The repair tasks one file needs.  Queries see the tables as they were before the pass. */
  function RepairsFor(h: Hub, f: nat, desired: seq<string>): seq<Task>
    requires f < |h.files|
  {
    if desired == [] then []
    else
      var node := desired[0];
      (if Lacks(h, f, node) then [NewTask(RepairKey(h, f, node), RepairReplica(f, h.files[f].hash, node))] else [])
        + RepairsFor(h, f, desired[1..])
  }

  function Repairs(h: Hub, n: nat, cutoff: int, desired: seq<string>): seq<Task>
    requires n <= |h.files|
  {
    if n == 0 then []
    else
      var f := n - 1;
      var r := ScanFile(h.files[f], cutoff);
      Repairs(h, f, cutoff, desired)
        + (if h.files[f].status != Superseded && r.alive then RepairsFor(h, f, desired) else [])
  }

  predicate DistinctKeys(tasks: seq<Task>) {
    forall i, j :: 0 <= i < j < |tasks| ==> tasks[i].key != tasks[j].key
  }

  /** One reconciliation pass.  Two new tasks with one key violate the unique index: the pass rolls back. */
  function Reconcile(cfg: Config, h: Hub): Outcome {
    var cutoff := h.now - cfg.missingAfter;
    var added := Repairs(h, |h.files|, cutoff, Desired(h.nodes, cfg.replicaNodes));
    if !DistinctKeys(added) then Outcome(h, false)
    else Outcome(h.(files := ScanFiles(h.files, cutoff), replicas := ScanReplicas(h, cutoff), tasks := h.tasks + added), true)
  }

  // ----- the gateway -----------------------------------------------------------

  function RowsWithHash(rows: seq<Chunk>, hash: string): seq<string> {
    if rows == [] then []
    else (if rows[0].fileHash == hash then [rows[0].content] else []) + RowsWithHash(rows[1..], hash)
  }

  /** The text body served for a file, or nothing when the version is not current or not parsed. */
  function Gateway(h: Hub, f: nat): Option<string> {
    if f >= |h.files| || !h.files[f].alive || h.files[f].status == Superseded then None
    else
      var contents := RowsWithHash(ChunksOf(h, f), h.files[f].hash);
      if contents == [] then None else Some(TextSplit.Join(contents))
  }

  /** A retrieval log counts one hit for every chunk row it returned, named by file and index. */
  function RecordHits(h: Hub, returned: set<(nat, nat)>): Hub {
    h.(chunks := map f | f in h.chunks ::
      seq(|h.chunks[f]|, i requires 0 <= i < |h.chunks[f]| =>
        var row := h.chunks[f][i];
        if (f, row.index) in returned then row.(hits := row.hits + 1) else row))
  }
}
