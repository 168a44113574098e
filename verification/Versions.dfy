/** File versions and liveness over whole runs. */
module Versions {
  import opened Wrappers
  import opened Rows
  import opened Tasks
  import opened Commands
  import opened Files
  import opened Executors
  import opened Runs
  import opened Lineage

  // ----- versions are 1..n ---------------------------------------------------------------------

  function VersionCount(files: seq<FileRecord>, path: string): nat {
    if files == [] then 0
    else VersionCount(files[..|files| - 1], path) + (if files[|files| - 1].path == path then 1 else 0)
  }

  /** The i-th report of new content for a path got version i, and no two have the same hash. */
  ghost predicate Numbered(files: seq<FileRecord>) {
    && (forall f :: 0 <= f < |files| ==> files[f].version == VersionCount(files[..f + 1], files[f].path))
    && (forall f, g :: 0 <= f < g < |files| && files[f].path == files[g].path ==> files[f].hash != files[g].hash)
  }

  lemma CountSameVersions(a: seq<FileRecord>, b: seq<FileRecord>, path: string)
    requires SameVersions(a, b)
    ensures VersionCount(a, path) == VersionCount(b, path)
  {
    if a != [] {
      CountSameVersions(a[..|a| - 1], b[..|b| - 1], path);
    }
  }

  lemma NumberedSameVersions(a: seq<FileRecord>, b: seq<FileRecord>)
    requires SameVersions(a, b) && Numbered(a)
    ensures Numbered(b)
  {
    forall f | 0 <= f < |b| ensures b[f].version == VersionCount(b[..f + 1], b[f].path) {
      CountSameVersions(a[..f + 1], b[..f + 1], b[f].path);
    }
  }

  lemma CountIsMonotone(files: seq<FileRecord>, n: nat, path: string)
    requires n <= |files|
    ensures VersionCount(files[..n], path) <= VersionCount(files, path)
  {
    if n < |files| {
      assert files[..|files| - 1][..n] == files[..n];
      CountIsMonotone(files[..|files| - 1], n, path);
    } else {
      assert files[..n] == files;
    }
  }

  lemma NumberedPrefix(files: seq<FileRecord>, n: nat)
    requires Numbered(files) && n <= |files|
    ensures Numbered(files[..n])
  {
    forall f | 0 <= f < n ensures files[..n][f].version == VersionCount(files[..n][..f + 1], files[..n][f].path) {
      assert files[..n][..f + 1] == files[..f + 1];
    }
  }

  lemma {:induction false} NewestIsCount(files: seq<FileRecord>, path: string)
    requires Numbered(files)
    ensures NewestVersion(files, path) == VersionCount(files, path)
    decreases |files|
  {
    if files != [] {
      var last := |files| - 1;
      NumberedPrefix(files, last);
      NewestIsCount(files[..last], path);
      assert files[..last + 1] == files;
      if files[last].path == path {
        assert files[last].version == VersionCount(files, path);
      }
    }
  }

  ghost predicate HasVersion(files: seq<FileRecord>, path: string, v: nat) {
    exists f :: 0 <= f < |files| && files[f].path == path && files[f].version == v
  }

  /** Every number from 1 to the count is the version of exactly one record. */
  lemma {:induction false} VersionExists(files: seq<FileRecord>, path: string, v: nat)
    requires Numbered(files) && 1 <= v <= VersionCount(files, path)
    ensures HasVersion(files, path, v)
    decreases |files|
  {
    var last := |files| - 1;
    NumberedPrefix(files, last);
    assert files[..last + 1] == files;
    if files[last].path == path && v == VersionCount(files, path) {
      assert files[last].version == v;
    } else {
      VersionExists(files[..last], path, v);
      var f :| 0 <= f < last && files[..last][f].path == path && files[..last][f].version == v;
      assert files[f].path == path && files[f].version == v;
    }
  }

  lemma LaterIsNewer(files: seq<FileRecord>, f: nat, g: nat)
    requires Numbered(files) && f < g < |files| && files[f].path == files[g].path
    ensures files[f].version < files[g].version
  {
    assert files[..g + 1][..f + 1] == files[..f + 1] && files[..g + 1][..g] == files[..g] && files[..g][..f + 1] == files[..f + 1];
    CountIsMonotone(files[..g], f + 1, files[f].path);
  }

  lemma AppendedIsNumbered(files: seq<FileRecord>, r: FileRecord)
    requires Numbered(files) && r.version == VersionCount(files, r.path) + 1
    requires forall f :: 0 <= f < |files| && files[f].path == r.path ==> files[f].hash != r.hash
    ensures Numbered(files + [r])
  {
    var files' := files + [r];
    assert files'[..|files|] == files && files'[..|files| + 1] == files';
    forall f | 0 <= f < |files'| ensures files'[f].version == VersionCount(files'[..f + 1], files'[f].path) {
      if f < |files| {
        assert files'[..f + 1] == files[..f + 1];
      }
    }
  }

  lemma ReportKeepsNumbered(h: Hub, node: string, path: string, hash: string)
    requires Numbered(h.files)
    ensures Numbered(ReportFile(h, node, path, hash).files)
  {
    var files' := ReportFile(h, node, path, hash).files;
    if FindFile(h.files, path, hash).Some? {
      NumberedSameVersions(h.files, files');
    } else {
      var superseded := Supersede(h.files, path);
      NumberedSameVersions(h.files, superseded);
      NewestIsCount(h.files, path);
      CountSameVersions(h.files, superseded, path);
      AppendedIsNumbered(superseded, files'[|h.files|]);
    }
  }

  lemma StepKeepsNumbered(cfg: Config, w: World, ev: Event)
    requires Numbered(w.hub.files)
    ensures Numbered(Step(cfg, w, ev).hub.files)
  {
    if ev.Report? {
      ReportKeepsNumbered(w.hub, ev.node, ev.path, ev.hash);
    } else {
      StepKeepsVersions(cfg, w, ev);
      NumberedSameVersions(w.hub.files, Step(cfg, w, ev).hub.files);
    }
  }

  lemma {:induction false} RunKeepsNumbered(cfg: Config, w: World, events: seq<Event>)
    requires Numbered(w.hub.files)
    ensures Numbered(Run(cfg, w, events).hub.files)
    decreases |events|
  {
    if events != [] {
      StepKeepsNumbered(cfg, w, events[0]);
      RunKeepsNumbered(cfg, Step(cfg, w, events[0]), events[1..]);
    }
  }

  /** In every run the versions of a path with n records are exactly 1 to n, each once, in order of
      arrival and with distinct hashes. */
  lemma VersionsAreOneToN(cfg: Config, events: seq<Event>, path: string)
    ensures var files := Run(cfg, Init, events).hub.files; var n := VersionCount(files, path);
      && (forall f :: 0 <= f < |files| && files[f].path == path ==> 1 <= files[f].version <= n)
      && (forall v :: 1 <= v <= n ==> HasVersion(files, path, v))
      && (forall f, g :: 0 <= f < g < |files| && files[f].path == files[g].path == path ==>
          files[f].version < files[g].version && files[f].hash != files[g].hash)
  {
    var files := Run(cfg, Init, events).hub.files;
    RunKeepsNumbered(cfg, Init, events);
    forall f | 0 <= f < |files| && files[f].path == path ensures 1 <= files[f].version <= VersionCount(files, path) {
      CountIsMonotone(files, f + 1, path);
      assert files[..f + 1][..f] == files[..f];
    }
    forall v | 1 <= v <= VersionCount(files, path) ensures HasVersion(files, path, v) {
      VersionExists(files, path, v);
    }
    forall f, g | 0 <= f < g < |files| && files[f].path == files[g].path == path ensures files[f].version < files[g].version {
      LaterIsNewer(files, f, g);
    }
  }

  // ----- one live version ---------------------------------------------------------------------------

  predicate Newest(files: seq<FileRecord>, f: nat)
    requires f < |files|
  {
    forall g :: f < g < |files| ==> files[g].path != files[f].path
  }

  predicate Aged(cfg: Config, h: Hub, r: FileRecord) {
    r.lastSeen < h.now - cfg.missingAfter
  }

  /** A live record is the newest of its path; any other is superseded or out of date. */
  ghost predicate OneLive(cfg: Config, h: Hub) {
    forall f :: 0 <= f < |h.files| ==>
      if h.files[f].alive then Newest(h.files, f) else h.files[f].status == Superseded || Aged(cfg, h, h.files[f])
  }

  /** The file whose status a finishing executor overwrites. */
  function WorkTarget(cfg: Config, h: Hub, work: Work, delivery: Delivery): Option<nat> {
    match work
    case RegisterFile(f, hash) => if SameVersion(h, f, hash) then Some(f) else None
    case ParseFile(f, hash, content) =>
      if Parsable(cfg, h, f, hash, content).Ok? || (delivery == Poll && SameVersion(h, f, hash)) then Some(f) else None
    case _ => None
  }

  function NodeTarget(cfg: Config, h: Hub, work: Work, stage: Node): Option<nat> {
    if !work.RunPipeline? then None
    else if stage == RegisterNode && SameVersion(h, work.fileId, work.fileHash) then Some(work.fileId)
    else if stage == ParseNode && Parsable(cfg, h, work.fileId, work.fileHash, work.content).Ok? then Some(work.fileId)
    else None
  }

  /** The file whose status a step overwrites, as its input and the rows it reads tell beforehand. */
  function StatusTarget(cfg: Config, w: World, ev: Event): Option<nat> {
    match ev
    case Upload(f, node, hash, content) => if QueueParse(cfg, w.hub, f, node, hash, content).ok then Some(f) else None
    case Finish(e, _) =>
      if IsOpen(w, e) then WorkTarget(cfg, w.hub, w.hub.tasks[w.execs[e].task].work, w.execs[e].delivery) else None
    case PipelineStep(e, stage) =>
      if IsOpen(w, e) then NodeTarget(cfg, w.hub, w.hub.tasks[w.execs[e].task].work, stage) else None
    case _ => None
  }

  /** No report of an older version's hash, no deletion of a record still in date, and no status
      write on a superseded record that is still in date. */
  predicate KeepsHistory(cfg: Config, w: World, ev: Event) {
    var h := w.hub;
    match ev
    case Report(_, path, hash) => var f := FindFile(h.files, path, hash); f.Some? ==> Newest(h.files, f.value)
    case Delete(f) => f < |h.files| ==> Aged(cfg, h, h.files[f])
    case _ =>
      var f := StatusTarget(cfg, w, ev);
      f.Some? && f.value < |h.files| && h.files[f.value].status == Superseded && !h.files[f.value].alive ==> Aged(cfg, h, h.files[f.value])
  }

  lemma ReportOneLive(cfg: Config, h: Hub, node: string, path: string, hash: string)
    requires OneLive(cfg, h)
    ensures var f := FindFile(h.files, path, hash);
      OneLive(cfg, ReportFile(h, node, path, hash)) <==> (f.Some? ==> Newest(h.files, f.value))
  {
    var h' := ReportFile(h, node, path, hash);
    var known := FindFile(h.files, path, hash);
    if known.Some? {
      var f := known.value;
      assert h'.files[f].alive;
      if Newest(h.files, f) {
        forall g | 0 <= g < |h'.files|
          ensures if h'.files[g].alive then Newest(h'.files, g) else h'.files[g].status == Superseded || Aged(cfg, h', h'.files[g]) {}
      } else {
        var g :| f < g < |h.files| && h.files[g].path == h.files[f].path;
        assert h'.files[g].path == h'.files[f].path;
        assert !Newest(h'.files, f);
      }
    } else {
      forall g | 0 <= g < |h'.files|
        ensures if h'.files[g].alive then Newest(h'.files, g) else h'.files[g].status == Superseded || Aged(cfg, h', h'.files[g])
      {
        if g < |h.files| && h'.files[g].alive {
          assert Newest(h.files, g);
        }
      }
    }
  }

  /** The records as one status write leaves them. */
  ghost predicate OnlyStatus(a: seq<FileRecord>, b: seq<FileRecord>, target: Option<nat>) {
    && |a| == |b|
    && (forall f :: 0 <= f < |a| ==> b[f] == a[f] || (target == Some(f) && b[f] == a[f].(status := b[f].status)))
    && (target.Some? ==> target.value < |b| && b[target.value].status != Superseded)
  }

  lemma StatusOneLive(cfg: Config, h: Hub, h': Hub, target: Option<nat>)
    requires OneLive(cfg, h) && h'.now == h.now && OnlyStatus(h.files, h'.files, target)
    ensures OneLive(cfg, h') <==>
      (target.Some? && h.files[target.value].status == Superseded && !h.files[target.value].alive ==> Aged(cfg, h, h.files[target.value]))
  {
    forall f | 0 <= f < |h.files| ensures Newest(h.files, f) ==> Newest(h'.files, f) {}
    if target.Some? && h.files[target.value].status == Superseded && !h.files[target.value].alive && !Aged(cfg, h, h.files[target.value]) {
      assert !h'.files[target.value].alive;
    }
  }

  lemma ExecuteOnlyStatus(cfg: Config, h: Hub, t: nat, foreignOk: bool)
    requires t < |h.tasks|
    ensures var o := Execute(cfg, h, t, foreignOk); var work := h.tasks[t].work;
      && o.hub.now == h.now
      && OnlyStatus(h.files, o.hub.files, if o.ok && (work.RegisterFile? || work.ParseFile?) then Some(work.fileId) else None)
      && (work.RegisterFile? ==> o.ok == SameVersion(h, work.fileId, work.fileHash))
      && (work.ParseFile? ==> o.ok == Parsable(cfg, h, work.fileId, work.fileHash, work.content).Ok?)
  {}

  lemma FinishOnlyStatus(cfg: Config, h: Hub, t: nat, delivery: Delivery, foreignOk: bool)
    requires t < |h.tasks|
    ensures var h' := FinishTask(cfg, h, t, delivery, foreignOk);
      h'.now == h.now && OnlyStatus(h.files, h'.files, WorkTarget(cfg, h, h.tasks[t].work, delivery))
  {
    ExecuteKeepsTask(cfg, h, t, foreignOk);
    ExecuteOnlyStatus(cfg, h, t, foreignOk);
    var o, work := Execute(cfg, h, t, foreignOk), h.tasks[t].work;
    assert !o.ok ==> o.hub == h;
    var h' := FinishTask(cfg, h, t, delivery, foreignOk);
    if !o.ok && delivery == Poll && work.ParseFile? && SameVersion(h, work.fileId, work.fileHash) {
      assert h'.files == h.files[work.fileId := h.files[work.fileId].(status := ParseFailed)];
    } else {
      assert h'.files == o.hub.files;
    }
  }

  lemma UploadOnlyStatus(cfg: Config, h: Hub, f: nat, node: string, hash: string, content: string)
    ensures var o := QueueParse(cfg, h, f, node, hash, content);
      o.hub.now == h.now && OnlyStatus(h.files, o.hub.files, if o.ok then Some(f) else None)
  {}

  lemma NodeOnlyStatus(cfg: Config, h: Hub, work: Work, stage: Node)
    requires work.RunPipeline?
    ensures var h' := RunNode(cfg, h, stage, work.fileId, work.fileHash, work.content).hub;
      h'.now == h.now && OnlyStatus(h.files, h'.files, NodeTarget(cfg, h, work, stage))
  {}

  lemma StepOnlyStatus(cfg: Config, w: World, ev: Event)
    requires ev.Upload? || ev.Finish? || ev.PipelineStep?
    ensures var h' := Step(cfg, w, ev).hub; h'.now == w.hub.now && OnlyStatus(w.hub.files, h'.files, StatusTarget(cfg, w, ev))
  {
    if ev.Upload? {
      UploadOnlyStatus(cfg, w.hub, ev.file, ev.node, ev.hash, ev.content);
    } else if ev.Finish? && IsOpen(w, ev.exec) {
      FinishOnlyStatus(cfg, w.hub, w.execs[ev.exec].task, w.execs[ev.exec].delivery, ev.foreignOk);
    } else if ev.PipelineStep? && IsOpen(w, ev.exec) {
      var work := w.hub.tasks[w.execs[ev.exec].task].work;
      if work.RunPipeline? {
        NodeOnlyStatus(cfg, w.hub, work, ev.stage);
      }
    }
  }

  lemma ScanOneLive(cfg: Config, h: Hub)
    requires OneLive(cfg, h)
    ensures OneLive(cfg, Reconcile(cfg, h).hub)
  {
    var h' := Reconcile(cfg, h).hub;
    forall f | 0 <= f < |h'.files| && h'.files[f].alive ensures Newest(h'.files, f) {
      assert Newest(h.files, f);
    }
  }

  lemma StatusStepIff(cfg: Config, w: World, ev: Event)
    requires OneLive(cfg, w.hub) && (ev.Upload? || ev.Finish? || ev.PipelineStep?)
    ensures OneLive(cfg, Step(cfg, w, ev).hub) <==> KeepsHistory(cfg, w, ev)
  {
    StepOnlyStatus(cfg, w, ev);
    StatusOneLive(cfg, w.hub, Step(cfg, w, ev).hub, StatusTarget(cfg, w, ev));
  }

  lemma OtherStepsOneLive(cfg: Config, w: World, ev: Event)
    requires OneLive(cfg, w.hub)
    requires !ev.Upload? && !ev.Finish? && !ev.PipelineStep? && !ev.Report? && !ev.Delete? && !ev.Scan?
    ensures OneLive(cfg, Step(cfg, w, ev).hub) && KeepsHistory(cfg, w, ev)
  {
    var h' := Step(cfg, w, ev).hub;
    assert h'.files == w.hub.files && h'.now >= w.hub.now;
    SameFilesOneLive(cfg, w.hub, h');
  }

  /** From a state with one live version per path, a step leads to such a state exactly when it
      keeps the history. */
  lemma OneLiveStepIff(cfg: Config, w: World, ev: Event)
    requires OneLive(cfg, w.hub)
    ensures OneLive(cfg, Step(cfg, w, ev).hub) <==> KeepsHistory(cfg, w, ev)
  {
    if ev.Upload? || ev.Finish? || ev.PipelineStep? {
      StatusStepIff(cfg, w, ev);
    } else if ev.Report? {
      ReportOneLive(cfg, w.hub, ev.node, ev.path, ev.hash);
    } else if ev.Scan? {
      ScanOneLive(cfg, w.hub);
    } else if ev.Delete? {
      DeleteOneLive(cfg, w.hub, ev.file);
    } else {
      OtherStepsOneLive(cfg, w, ev);
    }
  }

  lemma DeleteOneLive(cfg: Config, h: Hub, f: nat)
    requires OneLive(cfg, h)
    ensures OneLive(cfg, DeleteFile(h, f).hub) <==> (f < |h.files| ==> Aged(cfg, h, h.files[f]))
  {
    var h' := DeleteFile(h, f).hub;
    if f < |h.files| {
      assert !h'.files[f].alive && h'.files[f].status == Deleted;
      forall g | 0 <= g < |h.files| ensures Newest(h.files, g) ==> Newest(h'.files, g) {}
    }
  }

  lemma SameFilesOneLive(cfg: Config, h: Hub, h': Hub)
    requires OneLive(cfg, h) && h'.files == h.files && h.now <= h'.now
    ensures OneLive(cfg, h')
  {}

  predicate HistoryKept(cfg: Config, w: World, events: seq<Event>)
    decreases |events|
  {
    events == [] || (KeepsHistory(cfg, w, events[0]) && HistoryKept(cfg, Step(cfg, w, events[0]), events[1..]))
  }

  lemma {:induction false} RunOneLive(cfg: Config, w: World, events: seq<Event>)
    requires OneLive(cfg, w.hub) && HistoryKept(cfg, w, events)
    ensures OneLive(cfg, Run(cfg, w, events).hub)
    decreases |events|
  {
    if events != [] {
      OneLiveStepIff(cfg, w, events[0]);
      RunOneLive(cfg, Step(cfg, w, events[0]), events[1..]);
    }
  }

  /** While the history is kept, at most one record of a path is alive, and it is the one with the
      highest version. */
  lemma OneLiveVersion(cfg: Config, events: seq<Event>, f: nat, g: nat)
    requires HistoryKept(cfg, Init, events)
    requires var files := Run(cfg, Init, events).hub.files;
      f < |files| && g < |files| && f != g && files[f].path == files[g].path && files[f].alive
    ensures var files := Run(cfg, Init, events).hub.files; !files[g].alive && files[g].version < files[f].version
  {
    var h := Run(cfg, Init, events).hub;
    RunOneLive(cfg, Init, events);
    RunKeepsNumbered(cfg, Init, events);
    assert Newest(h.files, f);
    LaterIsNewer(h.files, g, f);
    assert !Newest(h.files, g);
  }

  /** A superseded record is never served as alive. */
  ghost predicate NoLiveSuperseded(files: seq<FileRecord>) {
    forall f :: 0 <= f < |files| && files[f].alive ==> files[f].status != Superseded
  }

  lemma StepKeepsNoLiveSuperseded(cfg: Config, w: World, ev: Event)
    requires NoLiveSuperseded(w.hub.files)
    ensures NoLiveSuperseded(Step(cfg, w, ev).hub.files)
  {
    if ev.Upload? || ev.Finish? || ev.PipelineStep? {
      StepOnlyStatus(cfg, w, ev);
    }
  }

  lemma {:induction false} RunKeepsNoLiveSuperseded(cfg: Config, w: World, events: seq<Event>)
    requires NoLiveSuperseded(w.hub.files)
    ensures NoLiveSuperseded(Run(cfg, w, events).hub.files)
    decreases |events|
  {
    if events != [] {
      StepKeepsNoLiveSuperseded(cfg, w, events[0]);
      RunKeepsNoLiveSuperseded(cfg, Step(cfg, w, events[0]), events[1..]);
    }
  }

  // ----- the three ways to lose the one live version ---------------------------------------------

  ghost predicate BothAlive(h: Hub) {
    |h.files| == 2 && h.files[0].path == h.files[1].path && h.files[0].alive && h.files[1].alive
  }

  /** Two versions of one path, the older one superseded, all at time 0 and without nodes. */
  ghost predicate TwoVersions(h: Hub, status: FileStatus) {
    && h.now == 0 && h.nodes == map[] && |h.files| == 2
    && h.files[0].path == h.files[1].path == "p" && h.files[0].hash == "h1" && h.files[1].hash == "h2"
    && h.files[0].status == status && !h.files[0].alive && h.files[0].lastSeen == 0
    && h.files[1].status == Reported && h.files[1].alive && h.files[1].lastSeen == 0
  }

  const FIRST := Report("n", "p", "h1")
  const SECOND := Report("n", "p", "h2")

  lemma FirstReport(cfg: Config)
    ensures var w := Step(cfg, Init, FIRST); var r := w.hub.files[0];
      && |w.hub.files| == 1 && r.path == "p" && r.hash == "h1" && r.alive && r.lastSeen == 0 && w.hub.now == 0 && w.hub.nodes == map[]
      && w.execs == [] && |w.hub.tasks| == 1 && w.hub.tasks[0] == NewTask(FileRegister(0, "h1"), RegisterFile(0, "h1"))
  {
    assert FindFile([], "p", "h1") == None;
  }

  lemma SecondReport(cfg: Config, w: World, status: FileStatus)
    requires |w.hub.files| == 1 && w.hub.files[0].path == "p" && w.hub.files[0].hash == "h1" && w.hub.files[0].lastSeen == 0
    requires w.hub.now == 0 && w.hub.nodes == map[]
    requires status == if w.hub.files[0].alive then Superseded else w.hub.files[0].status
    ensures TwoVersions(Step(cfg, w, SECOND).hub, status) && Step(cfg, w, SECOND).execs == w.execs
  {
    assert FindFile(w.hub.files, "p", "h2") == None;
  }

  lemma DesiredOfNone(policy: seq<string>)
    ensures Desired(map[], policy) == []
  {}

  lemma NoRepairsWanted(h: Hub, n: nat, cutoff: int)
    requires n <= |h.files|
    ensures Repairs(h, n, cutoff, []) == []
  {}

  lemma ScanRevives(cfg: Config, w: World, status: FileStatus)
    requires TwoVersions(w.hub, status) && status != Superseded
    ensures BothAlive(Step(cfg, w, Scan).hub)
  {
    DesiredOfNone(cfg.replicaNodes);
    NoRepairsWanted(w.hub, 2, w.hub.now - cfg.missingAfter);
  }

  /** Reporting an older hash again revives it beside the newer version. */
  lemma OlderHashRevives(cfg: Config)
    ensures BothAlive(Run(cfg, Init, [FIRST, SECOND, FIRST]).hub)
  {
    FirstReport(cfg);
    var w1 := Step(cfg, Init, FIRST);
    SecondReport(cfg, w1, Superseded);
    var w2 := Step(cfg, w1, SECOND);
    assert FindFile(w2.hub.files, "p", "h1") == Some(0) by {
      assert w2.hub.files[..1][..0] == [];
      assert FindFile(w2.hub.files[..1], "p", "h1") == Some(0);
    }
    ThreeSteps(cfg, Init, FIRST, SECOND, FIRST, []);
    assert [FIRST, SECOND, FIRST] + [] == [FIRST, SECOND, FIRST];
  }

  /** A register task that runs late overwrites the superseded status, and the scan revives the record. */
  lemma LateRegisterRevives(cfg: Config)
    ensures BothAlive(Run(cfg, Init, [FIRST, CeleryDelivery(0, "w"), SECOND, Finish(0, true), Scan]).hub)
  {
    FirstReport(cfg);
    var w1 := Step(cfg, Init, FIRST);
    var w2 := Step(cfg, w1, CeleryDelivery(0, "w"));
    SecondReport(cfg, w2, Superseded);
    var w3 := Step(cfg, w2, SECOND);
    assert IsOpen(w3, 0) && w3.hub.tasks[0].work == RegisterFile(0, "h1");
    var w4 := Step(cfg, w3, Finish(0, true));
    ScanRevives(cfg, w4, Registered);
    ThreeSteps(cfg, Init, FIRST, CeleryDelivery(0, "w"), SECOND, [Finish(0, true), Scan]);
    RunCons(cfg, w3, Finish(0, true), [Scan]);
    RunCons(cfg, w4, Scan, []);
    assert [FIRST, CeleryDelivery(0, "w"), SECOND] + [Finish(0, true), Scan] ==
      [FIRST, CeleryDelivery(0, "w"), SECOND, Finish(0, true), Scan];
    assert [Finish(0, true)] + [Scan] == [Finish(0, true), Scan] && [Scan] + [] == [Scan];
  }

  /** A deleted record is not superseded by the next report, and the scan revives it too. */
  lemma DeletedRevives(cfg: Config)
    ensures BothAlive(Run(cfg, Init, [FIRST, Delete(0), SECOND, Scan]).hub)
  {
    FirstReport(cfg);
    var w1 := Step(cfg, Init, FIRST);
    var w2 := Step(cfg, w1, Delete(0));
    SecondReport(cfg, w2, Deleted);
    var w3 := Step(cfg, w2, SECOND);
    ScanRevives(cfg, w3, Deleted);
    ThreeSteps(cfg, Init, FIRST, Delete(0), SECOND, [Scan]);
    RunCons(cfg, w3, Scan, []);
    assert [FIRST, Delete(0), SECOND] + [Scan] == [FIRST, Delete(0), SECOND, Scan] && [Scan] + [] == [Scan];
  }
}
