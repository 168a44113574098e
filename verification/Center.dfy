/**
 The center's transactions as the program runs them: row by row updates of the tables, each
 proved to leave the database that the corresponding function of `Tasks`, `Commands`, `Files`
 and `Executors` describes.
 */
module Centers {
  import opened Wrappers
  import opened Rows
  import opened Tasks
  import opened Commands
  import opened Files
  import opened Executors
  import TextSplit

  class Center {
    const cfg: Config
    var now: int
    var nodes: map<string, bool>
    var files: seq<FileRecord>
    var replicas: map<(nat, string), Replica>
    var chunks: map<nat, seq<Chunk>>
    var tasks: seq<Task>
    var commands: seq<Command>
    var audit: seq<AuditEntry>

    constructor (cfg: Config)
      ensures this.cfg == cfg && State() == EmptyHub
    {
      this.cfg := cfg;
      now, nodes, files, replicas, chunks, tasks, commands, audit := 0, map[], [], map[], map[], [], [], [];
    }

    /** The database a transaction sees. */
    function State(): Hub
      reads this
    {
      Hub(now, nodes, files, replicas, chunks, tasks, commands, audit)
    }

    // ----- lookups -------------------------------------------------------------------------

    method LookUpTask(key: TaskKey) returns (r: Option<nat>)
      ensures r == FindTask(tasks, key)
    {
      var i := |tasks|;
      assert tasks[..i] == tasks;
      while i > 0
        invariant 0 <= i <= |tasks|
        invariant FindTask(tasks[..i], key) == FindTask(tasks, key)
      {
        i := i - 1;
        assert tasks[..i + 1][..i] == tasks[..i];
        if tasks[i].key == key {
          return Some(i);
        }
      }
      return None;
    }

    method LookUpCommand(key: CommandKey) returns (r: Option<nat>)
      ensures r == FindCommand(commands, key)
    {
      var i := |commands|;
      assert commands[..i] == commands;
      while i > 0
        invariant 0 <= i <= |commands|
        invariant FindCommand(commands[..i], key) == FindCommand(commands, key)
      {
        i := i - 1;
        assert commands[..i + 1][..i] == commands[..i];
        if commands[i].key == key {
          return Some(i);
        }
      }
      return None;
    }

    method LookUpFile(path: string, hash: string) returns (r: Option<nat>)
      ensures r == FindFile(files, path, hash)
    {
      var i := |files|;
      assert files[..i] == files;
      while i > 0
        invariant 0 <= i <= |files|
        invariant FindFile(files[..i], path, hash) == FindFile(files, path, hash)
      {
        i := i - 1;
        assert files[..i + 1][..i] == files[..i];
        if files[i].path == path && files[i].hash == hash {
          return Some(i);
        }
      }
      return None;
    }

    // ----- task claims -----------------------------------------------------------------------

    method CreateClientTask(name: string, work: Work)
      modifies `tasks
      ensures State() == CreateTask(old(State()), name, work)
    {
      var existing := LookUpTask(ClientTask(name));
      if existing.None? {
        tasks := tasks + [NewTask(ClientTask(name), work)];
      }
    }

    method CreateRemoteCommand(name: string, node: string) returns (ok: bool)
      modifies `commands, `audit
      ensures State() == CreateCommand(old(State()), name, node).hub && ok == CreateCommand(old(State()), name, node).ok
    {
      var existing := LookUpCommand(ClientCommand(name));
      if existing.Some? {
        return true;
      }
      if node !in nodes {
        return false;
      }
      audit := audit + [CommandQueued(|commands|)];
      commands := commands + [Command(ClientCommand(name), node, OtherCommand, CQueued, None)];
      return true;
    }

    /** Requeues the running rows whose lease has expired. */
    method RequeueStaleTasks(deadline: int)
      modifies `tasks, `audit
      ensures tasks == RequeueStale(old(tasks), deadline)
      ensures audit == old(audit) + StaleAudit(old(tasks), deadline)
    {
      var rows := tasks;
      ghost var logged := audit;
      for i := 0 to |rows|
        invariant |tasks| == |rows|
        invariant forall j :: 0 <= j < i ==> tasks[j] == if IsStale(rows[j], deadline) then Requeued(rows[j]) else rows[j]
        invariant forall j :: i <= j < |rows| ==> tasks[j] == rows[j]
        invariant audit == logged + StaleAudit(rows[..i], deadline)
      {
        assert rows[..i + 1][..i] == rows[..i];
        if IsStale(rows[i], deadline) {
          tasks := tasks[i := tasks[i].(status := Pending, claimedAt := None, claimedBy := None)];
          audit := audit + [TaskRequeued(i)];
        }
      }
      assert rows[..|rows|] == rows;
    }

    /** `locked` are the rows concurrent transactions hold; they are skipped. */
    method ClaimNextTask(worker: string, locked: set<nat>) returns (r: Option<nat>)
      modifies `tasks, `audit
      ensures State() == ClaimNext(old(State()), worker, cfg.lease, locked).hub
      ensures r == ClaimNext(old(State()), worker, cfg.lease, locked).task
    {
      var committed := tasks;  // what this transaction's queries see until it flushes
      RequeueStaleTasks(now - cfg.lease);
      var t := 0;
      while t < |committed| && !(committed[t].status == Pending && t !in locked)
        invariant 0 <= t <= |committed|
        invariant FirstPending(committed, locked, t) == FirstPending(committed, locked, 0)
      {
        t := t + 1;
      }
      if t == |committed| {
        return None;
      }
      tasks := tasks[t := committed[t].(status := Running, attempts := committed[t].attempts + 1,
                                        claimedAt := Some(now), claimedBy := Some(worker))];
      audit := audit + [TaskClaimed(t, worker)];
      return Some(t);
    }

    method ClaimTaskById(t: nat, worker: string) returns (r: Option<nat>)
      modifies `tasks, `audit
      ensures State() == ClaimById(old(State()), t, worker, cfg.lease).hub
      ensures r == ClaimById(old(State()), t, worker, cfg.lease).task
    {
      if t >= |tasks| {
        return None;
      }
      var deadline := now - cfg.lease;
      var claimedAt := tasks[t].claimedAt;
      if tasks[t].status == Running && claimedAt.Some? && claimedAt.value >= deadline {
        return None;
      }
      if tasks[t].status != Pending && tasks[t].status != Running {
        return None;
      }
      if tasks[t].status == Running {
        audit := audit + [TaskRequeued(t)];
      }
      tasks := tasks[t := tasks[t].(status := Running, attempts := tasks[t].attempts + 1,
                                    claimedAt := Some(now), claimedBy := Some(worker))];
      audit := audit + [TaskClaimed(t, worker)];
      return Some(t);
    }

    method TransitionTask(t: nat, to: TaskStatus) returns (ok: bool)
      modifies `tasks
      ensures Outcome(State(), ok) == Transition(old(State()), t, to)
    {
      if t >= |tasks| || !MayBecome(tasks[t].status, to) {
        return false;
      }
      var task := tasks[t].(status := to);
      if to != Running {
        task := task.(claimedAt := None, claimedBy := None);
      }
      if to == Running {
        task := task.(attempts := task.attempts + 1);
      }
      tasks := tasks[t := task];
      return true;
    }

    // ----- commands ------------------------------------------------------------------------------

    /** What the session makes of the node's expired claims, and the audit rows it adds. */
    method RequeueExpiredCommands(node: string, deadline: int) returns (rows: seq<Command>, log: seq<AuditEntry>)
      ensures rows == RequeueExpired(commands, node, deadline)
      ensures log == ExpiredAudit(commands, node, deadline)
    {
      rows, log := commands, [];
      for i := 0 to |commands|
        invariant |rows| == |commands|
        invariant forall j :: 0 <= j < i ==>
          rows[j] == if IsExpired(commands[j], node, deadline) then commands[j].(status := CQueued, claimedAt := None) else commands[j]
        invariant forall j :: i <= j < |commands| ==> rows[j] == commands[j]
        invariant log == ExpiredAudit(commands[..i], node, deadline)
      {
        assert commands[..i + 1][..i] == commands[..i];
        if IsExpired(commands[i], node, deadline) {
          rows := rows[i := rows[i].(status := CQueued, claimedAt := None)];
          log := log + [CommandExpired(i)];
        }
      }
      assert commands[..|commands|] == commands;
    }

    method ClaimNextRemoteCommand(node: string, locked: set<nat>) returns (r: Option<nat>)
      modifies `commands, `audit
      ensures State() == ClaimCommand(old(State()), node, cfg.commandLease, locked).hub
      ensures r == ClaimCommand(old(State()), node, cfg.commandLease, locked).command
    {
      var rows, log := RequeueExpiredCommands(node, now - cfg.commandLease);
      var c := 0;  // the expired rows are flushed, so the query sees them
      while c < |rows| && !(rows[c].status == CQueued && rows[c].node == node && c !in locked)
        invariant 0 <= c <= |rows|
        invariant FirstQueued(rows, node, locked, c) == FirstQueued(rows, node, locked, 0)
      {
        c := c + 1;
      }
      if c == |rows| {
        return None;
      }
      commands := rows[c := rows[c].(status := CRunning, claimedAt := Some(now))];
      audit := audit + log + [CommandClaimed(c)];
      return Some(c);
    }

    method AcknowledgeRemoteCommand(node: string, c: nat, ack: Ack) returns (ok: bool)
      modifies `commands, `tasks, `replicas, `audit
      ensures Outcome(State(), ok) == Acknowledge(old(State()), node, c, ack)
    {
      if c >= |commands| || commands[c].node != node {
        return false;
      }
      if commands[c].status != CQueued && commands[c].status != CRunning {
        return false;
      }
      var command := commands[c].(status := AckedStatus(ack), claimedAt := if ack.status == AckRunning then Some(now) else None);
      if command.kind.SyncReplica? {
        var payload := command.kind;
        if payload.repairTask >= |tasks| {
          return false;
        }
        var repairTask := tasks[payload.repairTask];
        if ack.status == AckSuccess {
          if !ack.verified || ack.fileHash != Some(payload.fileHash) {
            command := command.(status := CFailed);
            repairTask := repairTask.(status := Failed);
          } else if payload.fileId >= |files| || files[payload.fileId].hash != payload.fileHash {
            command := command.(status := CFailed);
            repairTask := repairTask.(status := Failed);
          } else {
            replicas := replicas[(payload.fileId, command.node) := Replica(files[payload.fileId].hash, true, now)];
            repairTask := repairTask.(status := Success);
          }
        } else if ack.status == AckFailed {
          repairTask := repairTask.(status := Failed);
        }
        tasks := tasks[payload.repairTask := repairTask.(claimedAt := None, claimedBy := None)];
      }
      commands := commands[c := command];
      audit := audit + [CommandAcked(c, command.status)];
      return true;
    }

    // ----- file reports -----------------------------------------------------------------------------

    method Report(node: string, path: string, hash: string)
      modifies `files, `tasks, `replicas, `audit
      ensures State() == ReportFile(old(State()), node, path, hash)
    {
      var known := LookUpFile(path, hash);
      if known.Some? {
        ReportAgain(node, known.value);
      } else {
        ReportNew(node, path, hash);
      }
    }

    /** The status a known record gets when it is reported again. */
    method StatusOnReport(f: nat, register: Option<nat>) returns (status: FileStatus)
      requires f < |files| && register == FindTask(tasks, FileRegister(f, files[f].hash))
      ensures status == RereportedStatus(files[f].status, TaskStatusOf(tasks, FileRegister(f, files[f].hash)),
                                         TaskStatusOf(tasks, FileParse(f, files[f].hash)))
    {
      status := files[f].status;
      var parse := LookUpTask(FileParse(f, files[f].hash));
      if parse.Some? && tasks[parse.value].status == Success {
        status := Parsed;
      } else if register.Some? && tasks[register.value].status == Success && status != Parsing && status != ParseFailed {
        status := Registered;
      } else if status == Missing {
        status := Reported;
      }
      if !Settled(status) {
        status := Reported;
      }
    }

    method ReportAgain(node: string, f: nat)
      requires f < |files|
      modifies `files, `tasks, `replicas, `audit
      ensures State() == Rereport(old(State()), node, f)
    {
      var hash := files[f].hash;
      var key := FileRegister(f, hash);
      var register := LookUpTask(key);
      var status := StatusOnReport(f, register);
      if register.None? && !Settled(status) {
        tasks := tasks + [NewTask(key, RegisterFile(f, hash))];
      } else if !Settled(status) && tasks[register.value].status == Failed {
        tasks := tasks[register.value := tasks[register.value].(status := Pending)];
        audit := audit + [TaskRequeued(register.value)];
      }
      files := files[f := files[f].(source := node, alive := true, lastSeen := now, status := status)];
      replicas := replicas[(f, node) := Replica(hash, true, now)];
    }

    method NewestVersionOf(path: string) returns (newest: nat)
      ensures newest == NewestVersion(files, path)
    {
      newest := 0;
      for i := 0 to |files|
        invariant newest == NewestVersion(files[..i], path)
      {
        assert files[..i + 1][..i] == files[..i];
        if files[i].path == path && files[i].version > newest {
          newest := files[i].version;
        }
      }
      assert files[..|files|] == files;
    }

    method SupersedeLive(path: string)
      modifies `files
      ensures files == Supersede(old(files), path)
    {
      var committed := files;
      for i := 0 to |committed|
        invariant |files| == |committed|
        invariant forall j :: 0 <= j < i ==> files[j] == Supersede(committed, path)[j]
        invariant forall j :: i <= j < |committed| ==> files[j] == committed[j]
      {
        if files[i].path == path && files[i].alive {
          files := files[i := files[i].(alive := false, status := Superseded)];
        }
      }
    }

    method ReportNew(node: string, path: string, hash: string)
      modifies `files, `tasks, `replicas
      ensures State() == NewVersion(old(State()), node, path, hash)
    {
      var newest := NewestVersionOf(path);
      SupersedeLive(path);
      var f := |files|;
      files := files + [FileRecord(path, hash, node, Reported, true, now, newest + 1)];
      tasks := tasks + [NewTask(FileRegister(f, hash), RegisterFile(f, hash))];
      replicas := replicas[(f, node) := Replica(hash, true, now)];
    }

    method QueueFileContentParse(f: nat, node: string, hash: string, content: string) returns (ok: bool)
      modifies `files, `tasks
      ensures Outcome(State(), ok) == QueueParse(cfg, old(State()), f, node, hash, content)
    {
      if f >= |files| || files[f].source != node || files[f].hash != hash || cfg.sha(content) != hash {
        return false;
      }
      var key := FileParse(f, hash);
      var t := LookUpTask(key);
      if t.None? {
        tasks := tasks + [NewTask(key, ParseFile(f, hash, Some(content)))];
      } else if tasks[t.value].status == Failed {
        tasks := tasks[t.value := tasks[t.value].(status := Pending)];
      }
      if files[f].status != Parsed {
        files := files[f := files[f].(status := Parsing)];
      } else {
        assert files[f := files[f].(status := Parsed)] == files;
      }
      return true;
    }

    method Delete(f: nat) returns (ok: bool)
      modifies `files, `chunks, `replicas
      ensures Outcome(State(), ok) == DeleteFile(old(State()), f)
    {
      if f >= |files| {
        return false;
      }
      chunks := chunks - {f};
      replicas := map k | k in replicas && k.0 != f :: replicas[k];
      files := files[f := files[f].(alive := false, status := Deleted)];
      return true;
    }

    // ----- the liveness scan ----------------------------------------------------------------------------

    method DesiredNodes() returns (desired: seq<string>)
      ensures desired == Desired(nodes, cfg.replicaNodes)
    {
      desired := [];
      var policy := cfg.replicaNodes;
      for i := 0 to |policy|
        invariant desired + Desired(nodes, policy[i..]) == Desired(nodes, policy)
      {
        assert policy[i..][0] == policy[i] && policy[i..][1..] == policy[i + 1..];
        ghost var before := desired;
        if policy[i] in nodes && nodes[policy[i]] {
          desired := desired + [policy[i]];
          assert before + ([policy[i]] + Desired(nodes, policy[i + 1..])) == desired + Desired(nodes, policy[i + 1..]);
        } else {
          assert [] + Desired(nodes, policy[i + 1..]) == Desired(nodes, policy[i + 1..]);
        }
      }
    }

    /** The replica table after the first `n` files have been scanned. */
    ghost predicate RowsScanned(h: Hub, n: nat, cutoff: int, rows: map<(nat, string), Replica>) {
      && rows.Keys == h.replicas.Keys
      && forall k: (nat, string) :: k in h.replicas ==>
        rows[k] == if k.0 < n && ReplicaExpired(h, k, cutoff) then h.replicas[k].(healthy := false) else h.replicas[k]
    }

    /** Marks the outdated replicas of one file; `rows` is the session's view of the replica table. */
    method ScanReplicasOf(f: nat, cutoff: int, rows: map<(nat, string), Replica>) returns (scanned: map<(nat, string), Replica>)
      requires f < |files| && files[f].status != Superseded && RowsScanned(State(), f, cutoff, rows)
      ensures RowsScanned(State(), f + 1, cutoff, scanned)
    {
      scanned := rows;
      var rest := set k: (nat, string) | k in rows && k.0 == f;
      while rest != {}
        invariant rest <= rows.Keys == scanned.Keys
        invariant forall k: (nat, string) :: k in rest ==> k.0 == f && scanned[k] == rows[k]
        invariant forall k: (nat, string) :: k in rows && k !in rest ==>
          scanned[k] == if k.0 == f && rows[k].lastSeen < cutoff then rows[k].(healthy := false) else rows[k]
        decreases |rest|
      {
        var k :| k in rest;
        if rows[k].lastSeen < cutoff && rows[k].healthy {
          scanned := scanned[k := rows[k].(healthy := false)];
        }
        rest := rest - {k};
      }
    }

    lemma RowsScannedEnds(h: Hub, cutoff: int, rows: map<(nat, string), Replica>)
      ensures RowsScanned(h, 0, cutoff, h.replicas)
      ensures RowsScanned(h, |h.files|, cutoff, rows) ==> rows == ScanReplicas(h, cutoff)
    {}

    lemma RowsScannedSkip(h: Hub, f: nat, cutoff: int, rows: map<(nat, string), Replica>)
      requires f < |h.files| && h.files[f].status == Superseded && RowsScanned(h, f, cutoff, rows)
      ensures RowsScanned(h, f + 1, cutoff, rows)
    {}

    method RepairOf(f: nat, node: string) returns (added: seq<Task>)
      requires f < |files|
      ensures added == if Lacks(State(), f, node) then [NewTask(RepairKey(State(), f, node), RepairReplica(f, files[f].hash, node))] else []
    {
      if (f, node) in replicas && replicas[(f, node)].healthy {
        return [];
      }
      var key := ReplicaRepair(f, files[f].hash, node);
      var task := LookUpTask(key);
      if task.Some? {
        return [];
      }
      return [NewTask(key, RepairReplica(f, files[f].hash, node))];
    }

    method RepairsOf(f: nat, desired: seq<string>) returns (added: seq<Task>)
      requires f < |files|
      ensures added == RepairsFor(State(), f, desired)
    {
      added := [];
      assert desired[0..] == desired;
      for i := 0 to |desired|
        invariant Queueing(State(), f, desired, i, added)
      {
        var repair := RepairOf(f, desired[i]);
        QueuedNext(State(), f, desired, i, added, repair);
        added := added + repair;
      }
      assert desired[|desired|..] == [] && added + [] == added;
    }

    /** The repairs queued for the first `i` nodes, and those still to come. */
    ghost predicate Queueing(h: Hub, f: nat, desired: seq<string>, i: nat, added: seq<Task>) {
      f < |h.files| && i <= |desired| && added + RepairsFor(h, f, desired[i..]) == RepairsFor(h, f, desired)
    }

    lemma QueuedNext(h: Hub, f: nat, desired: seq<string>, i: nat, added: seq<Task>, repair: seq<Task>)
      requires i < |desired| && Queueing(h, f, desired, i, added)
      requires repair == if Lacks(h, f, desired[i]) then [NewTask(RepairKey(h, f, desired[i]), RepairReplica(f, h.files[f].hash, desired[i]))] else []
      ensures Queueing(h, f, desired, i + 1, added + repair)
    {
      var rest := RepairsFor(h, f, desired[i + 1..]);
      assert desired[i..][0] == desired[i] && desired[i..][1..] == desired[i + 1..];
      assert RepairsFor(h, f, desired[i..]) == repair + rest;
      assert added + (repair + rest) == (added + repair) + rest;
    }

    /** One record's part of the scan; superseded records are not looked at. */
    method ScanRecord(f: nat, cutoff: int) returns (record: FileRecord)
      requires f < |files| && files[f].status != Superseded
      ensures record == ScanFile(files[f], cutoff)
    {
      record := files[f];
      if record.lastSeen < cutoff {
        if record.alive || record.status != Missing {
          record := record.(alive := false, status := Missing);
        }
      } else if !record.alive {
        record := record.(alive := true);
        if record.status == Missing {
          record := record.(status := Reported);
        }
      }
    }

    /** What the session holds after the first `n` files: records, replica rows and new tasks. */
    ghost predicate Scanned(h: Hub, n: nat, cutoff: int, desired: seq<string>,
                            records: seq<FileRecord>, rows: map<(nat, string), Replica>, added: seq<Task>)
    {
      && n <= |h.files| && RecordsScanned(h.files, n, cutoff, records)
      && RowsScanned(h, n, cutoff, rows)
      && added == Repairs(h, n, cutoff, desired)
    }

    ghost predicate RecordsScanned(files: seq<FileRecord>, n: nat, cutoff: int, records: seq<FileRecord>) {
      && n <= |files| == |records|
      && (forall j :: 0 <= j < n ==> records[j] == ScanFile(files[j], cutoff))
      && (forall j :: n <= j < |files| ==> records[j] == files[j])
    }

    /** One file of the pass. */
    method ScanNext(f: nat, cutoff: int, desired: seq<string>,
                    records: seq<FileRecord>, rows: map<(nat, string), Replica>, added: seq<Task>)
      returns (records': seq<FileRecord>, rows': map<(nat, string), Replica>, added': seq<Task>)
      requires f < |files| && Scanned(State(), f, cutoff, desired, records, rows, added)
      ensures Scanned(State(), f + 1, cutoff, desired, records', rows', added')
    {
      records', rows', added' := records, rows, added;
      if files[f].status == Superseded {
        RowsScannedSkip(State(), f, cutoff, rows);
        return;
      }
      var record := ScanRecord(f, cutoff);
      records' := records[f := record];
      rows' := ScanReplicasOf(f, cutoff, rows);
      if record.alive {
        var repairs := RepairsOf(f, desired);
        added' := added + repairs;
      }
    }

    /** The pass over all files, in the session and not yet committed. */
    method ScanAll(cutoff: int, desired: seq<string>)
      returns (records: seq<FileRecord>, rows: map<(nat, string), Replica>, added: seq<Task>)
      ensures records == ScanFiles(files, cutoff)
      ensures rows == ScanReplicas(State(), cutoff)
      ensures added == Repairs(State(), |files|, cutoff, desired)
    {
      records, rows, added := files, replicas, [];
      RowsScannedEnds(State(), cutoff, rows);
      for f := 0 to |files|
        invariant Scanned(State(), f, cutoff, desired, records, rows, added)
      {
        records, rows, added := ScanNext(f, cutoff, desired, records, rows, added);
      }
      RowsScannedEnds(State(), cutoff, rows);
    }

    method ReconcileFileLiveness() returns (ok: bool)
      modifies `files, `replicas, `tasks
      ensures Outcome(State(), ok) == Reconcile(cfg, old(State()))
    {
      var cutoff := now - cfg.missingAfter;
      var desired := DesiredNodes();
      var records, rows, added := ScanAll(cutoff, desired);
      if !DistinctKeys(added) {
        return false;  // the unique index on the key rejects the commit
      }
      files, replicas, tasks := records, rows, tasks + added;
      return true;
    }
  }
}
