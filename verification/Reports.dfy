/** What a report leaves of the tables, row by row, and how long a reported file stays alive. */
module Reports {
  import opened Wrappers
  import opened Rows
  import opened Tasks
  import opened Files
  import opened Executors
  import opened Runs
  import TaskTables
  import Lineage
  import Versions

  predicate IsRecord(h: Hub, f: nat, path: string, hash: string) {
    f < |h.files| && h.files[f].path == path && h.files[f].hash == hash
  }

  ghost predicate TaskIs(h: Hub, key: TaskKey, status: TaskStatus) {
    exists t :: 0 <= t < |h.tasks| && h.tasks[t].key == key && h.tasks[t].status == status
  }

  ghost predicate NoTask(h: Hub, key: TaskKey) {
    forall t :: 0 <= t < |h.tasks| ==> h.tasks[t].key != key
  }

  lemma {:induction false} RecordIsUnique(files: seq<FileRecord>, path: string, hash: string, f: nat)
    requires Versions.Numbered(files) && f < |files| && files[f].path == path && files[f].hash == hash
    ensures FindFile(files, path, hash) == Some(f)
  {
    var known := FindFile(files, path, hash);
    assert known.Some?;
    assert files[known.value].path == files[f].path && files[known.value].hash == files[f].hash;
  }

  lemma StatusByRows(h: Hub, key: TaskKey, status: TaskStatus)
    requires TaskTables.UniqueKeys(h.tasks)
    ensures TaskStatusOf(h.tasks, key) == Some(status) <==> TaskIs(h, key, status)
    ensures TaskStatusOf(h.tasks, key) == None <==> NoTask(h, key)
  {
    if t :| 0 <= t < |h.tasks| && h.tasks[t].key == key && h.tasks[t].status == status {
      TaskTables.FindTaskIs(h.tasks, t);
    }
  }

  // ----- a report of a known version --------------------------------------------------------------

  /** What the record's status becomes: by its parse task, then its register task, then itself. */
  ghost predicate StatusFollows(h: Hub, f: nat, after: FileStatus)
    requires f < |h.files|
  {
    var status, hash := h.files[f].status, h.files[f].hash;
    && (TaskIs(h, FileParse(f, hash), Success) ==> after == Parsed)
    && (!TaskIs(h, FileParse(f, hash), Success) && TaskIs(h, FileRegister(f, hash), Success) && status != Parsing && status != ParseFailed ==>
        after == Registered)
    && (!TaskIs(h, FileParse(f, hash), Success) && (!TaskIs(h, FileRegister(f, hash), Success) || status == Parsing || status == ParseFailed) ==>
        after == if status == Registered || status == Parsing || status == Parsed then status else Reported)
  }

  /** The register task of a record that is not settled: created if there is none, pending again and
      audited if it has failed, left alone otherwise. */
  ghost predicate RegisterFollows(h: Hub, h': Hub, f: nat)
    requires f < |h.files|
  {
    var key := FileRegister(f, h.files[f].hash);
    && (NoTask(h, key) ==>
        h'.tasks == h.tasks + [Task(key, RegisterFile(f, h.files[f].hash), Pending, 0, None, None)] && h'.audit == h.audit)
    && (forall t :: 0 <= t < |h.tasks| && h.tasks[t].key == key ==>
        if h.tasks[t].status == Failed then h'.tasks == h.tasks[t := h.tasks[t].(status := Pending)] && h'.audit == h.audit + [TaskRequeued(t)]
        else h'.tasks == h.tasks && h'.audit == h.audit)
  }

  lemma RereportFollows(h: Hub, node: string, f: nat)
    requires TaskTables.UniqueKeys(h.tasks) && f < |h.files|
    ensures var h' := Rereport(h, node, f);
      && h' == h.(files := h'.files, tasks := h'.tasks, audit := h'.audit, replicas := h'.replicas)
      && h'.files == h.files[f := h.files[f].(source := node, alive := true, lastSeen := h.now, status := h'.files[f].status)]
      && h'.replicas == h.replicas[(f, node) := Replica(h.files[f].hash, true, h.now)]
      && StatusFollows(h, f, h'.files[f].status)
      && (if h'.files[f].status != Reported then h'.tasks == h.tasks && h'.audit == h.audit else RegisterFollows(h, h', f))
  {
    var register, parse := FileRegister(f, h.files[f].hash), FileParse(f, h.files[f].hash);
    StatusByRows(h, register, Success);
    StatusByRows(h, parse, Success);
    RegisterRow(h, node, f);
  }

  lemma RegisterRow(h: Hub, node: string, f: nat)
    requires TaskTables.UniqueKeys(h.tasks) && f < |h.files|
    ensures var h' := Rereport(h, node, f);
      if Settled(h'.files[f].status) then h'.tasks == h.tasks && h'.audit == h.audit else RegisterFollows(h, h', f)
  {
    var key := FileRegister(f, h.files[f].hash);
    forall t | 0 <= t < |h.tasks| && h.tasks[t].key == key ensures FindTask(h.tasks, key) == Some(t) {
      TaskTables.FindTaskIs(h.tasks, t);
    }
  }

  /** From every reachable state: a report of a known version makes its record live, seen now and at
      that node, with a healthy replica there, and brings status and register task up to date. */
  lemma KnownReportRefreshes(cfg: Config, events: seq<Event>, node: string, path: string, hash: string, f: nat)
    requires IsRecord(Run(cfg, Init, events).hub, f, path, hash)
    ensures var w := Run(cfg, Init, events); var h, h' := w.hub, Step(cfg, w, Report(node, path, hash)).hub;
      && h' == h.(files := h'.files, tasks := h'.tasks, audit := h'.audit, replicas := h'.replicas)
      && |h'.files| == |h.files| && (forall g :: 0 <= g < |h.files| && g != f ==> h'.files[g] == h.files[g])
      && h'.files[f] == h.files[f].(source := node, alive := true, lastSeen := h.now, status := h'.files[f].status)
      && h'.replicas == h.replicas[(f, node) := Replica(hash, true, h.now)]
      && StatusFollows(h, f, h'.files[f].status)
      && (if h'.files[f].status != Reported then h'.tasks == h.tasks && h'.audit == h.audit else RegisterFollows(h, h', f))
  {
    var h := Run(cfg, Init, events).hub;
    TaskTables.RunKeepsTable(cfg, Init, events);
    Versions.RunKeepsNumbered(cfg, Init, events);
    RecordIsUnique(h.files, path, hash, f);
    RereportFollows(h, node, f);
  }

  // ----- a report of a new version -------------------------------------------------------------------

  /** A report of content that is new for its path appends a live record with a pending register task
      and a healthy replica, supersedes the path's live records and leaves all others alone. */
  lemma NewReportRegisters(cfg: Config, w: World, node: string, path: string, hash: string)
    requires forall f :: !IsRecord(w.hub, f, path, hash)
    ensures var h, h' := w.hub, Step(cfg, w, Report(node, path, hash)).hub; var n := |h.files|;
      && h' == h.(files := h'.files, tasks := h'.tasks, replicas := h'.replicas)
      && |h'.files| == n + 1
      && h'.files[n] == FileRecord(path, hash, node, Reported, true, h.now, h'.files[n].version)
      && (forall g :: 0 <= g < n ==>
          h'.files[g] == if h.files[g].path == path && h.files[g].alive then h.files[g].(alive := false, status := Superseded) else h.files[g])
      && h'.tasks == h.tasks + [Task(FileRegister(n, hash), RegisterFile(n, hash), Pending, 0, None, None)]
      && h'.replicas == h.replicas[(n, node) := Replica(hash, true, h.now)]
  {
    var known := FindFile(w.hub.files, path, hash);
    assert known.Some? ==> IsRecord(w.hub, known.value, path, hash);
  }

  // ----- a reported file stays alive ------------------------------------------------------------------

  /** A live record that was seen at `since` or later. */
  predicate Current(h: Hub, f: nat, since: int) {
    f < |h.files| && h.files[f].alive && h.files[f].status != Superseded && h.files[f].lastSeen >= since
  }

  /** Nothing deletes the record or reports other content for its path. */
  predicate Undisturbed(events: seq<Event>, f: nat, path: string, hash: string) {
    forall i :: 0 <= i < |events| ==>
      events[i] != Delete(f) && !(events[i].Report? && events[i].path == path && events[i].hash != hash)
  }

  lemma StepKeepsCurrent(cfg: Config, w: World, ev: Event, f: nat, since: int)
    requires Current(w.hub, f, since) && since <= w.hub.now <= since + cfg.missingAfter && ev != Delete(f)
    requires ev.Report? && ev.path == w.hub.files[f].path ==> ev.hash == w.hub.files[f].hash
    ensures var h' := Step(cfg, w, ev).hub; Current(h', f, since)
  {
    if ev.Upload? || ev.Finish? || ev.PipelineStep? {
      Versions.StepOnlyStatus(cfg, w, ev);
    } else if ev.Report? {
      ReportKeepsCurrent(w.hub, ev.node, ev.path, ev.hash, f, since);
    } else if !ev.Scan? && !ev.Delete? {
      assert Step(cfg, w, ev).hub.files == w.hub.files;
    }
  }

  lemma ReportKeepsCurrent(h: Hub, node: string, path: string, hash: string, f: nat, since: int)
    requires Current(h, f, since) && since <= h.now && (path == h.files[f].path ==> hash == h.files[f].hash)
    ensures Current(ReportFile(h, node, path, hash), f, since)
  {}

  function Elapsed(events: seq<Event>): nat {
    if events == [] then 0 else (if events[0].Tick? then events[0].elapsed else 0) + Elapsed(events[1..])
  }

  lemma ClockIsElapsed(cfg: Config, w: World, ev: Event)
    ensures Step(cfg, w, ev).hub.now == w.hub.now + if ev.Tick? then ev.elapsed else 0
  {
    match ev
    case Upload(_, _, _, _) => Versions.StepOnlyStatus(cfg, w, ev);
    case Finish(_, _) => Versions.StepOnlyStatus(cfg, w, ev);
    case PipelineStep(_, _) => Versions.StepOnlyStatus(cfg, w, ev);
    case _ =>
  }

  lemma {:induction false} RunKeepsCurrent(cfg: Config, w: World, events: seq<Event>, f: nat, since: int)
    requires Current(w.hub, f, since) && since <= w.hub.now && w.hub.now + Elapsed(events) <= since + cfg.missingAfter
    requires Undisturbed(events, f, w.hub.files[f].path, w.hub.files[f].hash)
    ensures Current(Run(cfg, w, events).hub, f, since)
    decreases |events|
  {
    if events != [] {
      StepKeepsCurrent(cfg, w, events[0], f, since);
      ClockIsElapsed(cfg, w, events[0]);
      Lineage.StepKeepsVersions(cfg, w, events[0]);
      assert forall i :: 0 <= i < |events[1..]| ==> events[1..][i] == events[i + 1];
      RunKeepsCurrent(cfg, Step(cfg, w, events[0]), events[1..], f, since);
    }
  }

  /** A reported version stays alive for `missingAfter` from its report, whatever scans, workers,
      nodes and other reports do, unless it is deleted or other content is reported for its path. */
  lemma ReportedStaysAlive(cfg: Config, events: seq<Event>, node: string, path: string, hash: string, later: seq<Event>, f: nat)
    requires var h := Step(cfg, Run(cfg, Init, events), Report(node, path, hash)).hub; IsRecord(h, f, path, hash)
    requires Elapsed(later) <= cfg.missingAfter && Undisturbed(later, f, path, hash)
    ensures var h' := Run(cfg, Step(cfg, Run(cfg, Init, events), Report(node, path, hash)), later).hub;
      f < |h'.files| && h'.files[f].alive && h'.files[f].status != Superseded
  {
    var w := Run(cfg, Init, events);
    var w' := Step(cfg, w, Report(node, path, hash));
    if IsRecord(w.hub, f, path, hash) {
      KnownReportRefreshes(cfg, events, node, path, hash, f);
    } else {
      Versions.RunKeepsNumbered(cfg, Init, events);
      Versions.StepKeepsNumbered(cfg, w, Report(node, path, hash));
      NewReportIsLast(cfg, w, node, path, hash, f);
    }
    RunKeepsCurrent(cfg, w', later, f, w.hub.now);
  }

  lemma NewReportIsLast(cfg: Config, w: World, node: string, path: string, hash: string, f: nat)
    requires Versions.Numbered(w.hub.files) && !IsRecord(w.hub, f, path, hash)
    requires IsRecord(Step(cfg, w, Report(node, path, hash)).hub, f, path, hash)
    ensures var h' := Step(cfg, w, Report(node, path, hash)).hub; h'.now == w.hub.now && Current(h', f, w.hub.now)
  {
    var known := FindFile(w.hub.files, path, hash);
    assert known.None?;
  }

  /** And a scan later than that finds an unreported one missing. */
  lemma UnreportedGoesMissing(cfg: Config, w: World, f: nat)
    requires f < |w.hub.files| && w.hub.files[f].status != Superseded && Reconcile(cfg, w.hub).ok
    ensures var r, r' := w.hub.files[f], Step(cfg, w, Scan).hub.files[f];
      && (r.lastSeen < w.hub.now - cfg.missingAfter ==> r' == r.(alive := false, status := Missing))
      && (r.lastSeen >= w.hub.now - cfg.missingAfter && r.alive ==> r' == r)
      && (r.lastSeen >= w.hub.now - cfg.missingAfter && !r.alive ==>
          r' == r.(alive := true, status := if r.status == Missing then Reported else r.status))
  {}

  /** A scan marks exactly the replica rows of current versions that have not been seen for too long,
      and touches nothing but records, replica rows and new tasks. */
  lemma ScanMarksReplicas(cfg: Config, w: World)
    requires Reconcile(cfg, w.hub).ok
    ensures var h, w' := w.hub, Step(cfg, w, Scan); var h' := w'.hub;
      && w' == w.(hub := h.(files := h'.files, replicas := h'.replicas, tasks := h'.tasks))
      && |h'.files| == |h.files| && h.tasks <= h'.tasks && h'.replicas.Keys == h.replicas.Keys
      && forall f: nat, node: string :: (f, node) in h.replicas ==>
        var before, row := h.replicas[(f, node)], h'.replicas[(f, node)];
        row == if f < |h.files| && h.files[f].status != Superseded && before.lastSeen < h.now - cfg.missingAfter
               then before.(healthy := false) else before
  {}
}
