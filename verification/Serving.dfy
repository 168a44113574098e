/** From an upload to the download and the search: what the workers make of a text, and what they serve. */
module Serving {
  import opened Wrappers
  import opened Rows
  import opened Tasks
  import opened Files
  import opened Executors
  import opened Runs
  import opened Lineage
  import TextSplit
  import Search
  import SearchRuns
  import TaskTables
  import Recovery

  // ----- embeddings belong to their own text ----------------------------------------------------

  predicate IsOwn(cfg: Config, row: Chunk) {
    row.embedding.Some? ==> row.embedding == Some(cfg.embed(row.content))
  }

  ghost predicate RowsAreOwn(cfg: Config, rows: seq<Chunk>) {
    forall i :: 0 <= i < |rows| ==> IsOwn(cfg, rows[i])
  }

  ghost predicate EmbeddingsAreOwn(cfg: Config, h: Hub) {
    forall f :: f in h.chunks ==> RowsAreOwn(cfg, h.chunks[f])
  }

  lemma EmbeddedAreOwn(cfg: Config, h: Hub, f: nat, hash: string)
    requires EmbeddingsAreOwn(cfg, h)
    ensures EmbeddingsAreOwn(cfg, h.(chunks := h.chunks[f := EmbedRows(cfg, ChunksOf(h, f), hash)]))
  {
    var rows := EmbedRows(cfg, ChunksOf(h, f), hash);
    forall i | 0 <= i < |rows| ensures IsOwn(cfg, rows[i]) {
      assert RowsAreOwn(cfg, ChunksOf(h, f)) && IsOwn(cfg, ChunksOf(h, f)[i]);
    }
  }

  lemma StoredAreOwn(cfg: Config, h: Hub, f: nat, pieces: seq<string>)
    requires EmbeddingsAreOwn(cfg, h) && f < |h.files|
    ensures EmbeddingsAreOwn(cfg, StoreChunks(cfg, h, f, pieces))
  {}

  lemma ExecutedAreOwn(cfg: Config, h: Hub, t: nat, foreignOk: bool)
    requires EmbeddingsAreOwn(cfg, h) && t < |h.tasks|
    ensures EmbeddingsAreOwn(cfg, Execute(cfg, h, t, foreignOk).hub)
  {
    var work := h.tasks[t].work;
    if work.ParseFile? {
      if Parsable(cfg, h, work.fileId, work.fileHash, work.content).Ok? {
        StoredAreOwn(cfg, h, work.fileId, Parsable(cfg, h, work.fileId, work.fileHash, work.content).value);
      }
    } else if work.EmbedFile? {
      EmbeddedAreOwn(cfg, h, work.fileId, work.fileHash);
    } else {
      ExecuteKeepsChunks(cfg, h, t, foreignOk);
    }
  }

  lemma NodeOwn(cfg: Config, h: Hub, node: Node, f: nat, hash: string, content: Option<string>)
    requires EmbeddingsAreOwn(cfg, h)
    ensures EmbeddingsAreOwn(cfg, RunNode(cfg, h, node, f, hash, content).hub)
  {
    if node == ParseNode && Parsable(cfg, h, f, hash, content).Ok? {
      StoredAreOwn(cfg, h, f, Parsable(cfg, h, f, hash, content).value);
    }
    EmbeddedAreOwn(cfg, h, f, hash);
  }

  lemma HitsKeepOwn(cfg: Config, h: Hub, returned: set<(nat, nat)>)
    requires EmbeddingsAreOwn(cfg, h)
    ensures EmbeddingsAreOwn(cfg, RecordHits(h, returned))
  {
    var h' := RecordHits(h, returned);
    forall f | f in h'.chunks ensures RowsAreOwn(cfg, h'.chunks[f]) {
      forall i | 0 <= i < |h'.chunks[f]| ensures IsOwn(cfg, h'.chunks[f][i]) {
        assert IsOwn(cfg, h.chunks[f][i]);
      }
    }
  }

  lemma StepKeepsOwn(cfg: Config, w: World, ev: Event)
    requires EmbeddingsAreOwn(cfg, w.hub)
    ensures EmbeddingsAreOwn(cfg, Step(cfg, w, ev).hub)
  {
    match ev
    case Finish(e, foreignOk) =>
      if IsOpen(w, e) {
        ExecutedAreOwn(cfg, w.hub, w.execs[e].task, foreignOk);
        FinishKeepsVersions(cfg, w.hub, w.execs[e].task, w.execs[e].delivery, foreignOk);
      }
    case PipelineStep(e, stage) =>
      if IsOpen(w, e) && w.hub.tasks[w.execs[e].task].work.RunPipeline? {
        var work := w.hub.tasks[w.execs[e].task].work;
        NodeOwn(cfg, w.hub, stage, work.fileId, work.fileHash, work.content);
      }
    case Search(returned) => HitsKeepOwn(cfg, w.hub, returned);
    case _ => OthersKeepOwn(cfg, w, ev);
  }

  lemma OthersKeepOwn(cfg: Config, w: World, ev: Event)
    requires EmbeddingsAreOwn(cfg, w.hub) && !ev.Finish? && !ev.PipelineStep? && !ev.Search?
    ensures EmbeddingsAreOwn(cfg, Step(cfg, w, ev).hub)
  {}

  lemma {:induction false} RunKeepsOwn(cfg: Config, w: World, events: seq<Event>)
    requires EmbeddingsAreOwn(cfg, w.hub)
    ensures EmbeddingsAreOwn(cfg, Run(cfg, w, events).hub)
    decreases |events|
  {
    if events != [] {
      StepKeepsOwn(cfg, w, events[0]);
      RunKeepsOwn(cfg, Step(cfg, w, events[0]), events[1..]);
    }
  }

  predicate IsCandidateOf(row: Chunk, hash: string, c: Search.Candidate) {
    row.index == c.index && row.fileHash == hash && row.hits == c.hits && row.embedding.Some? && row.embedding.value.vector == c.vector
  }

  lemma {:induction false} RowIsCandidate(f: nat, rows: seq<Chunk>, hash: string, admits: SearchRuns.Filter, i: nat, c: Search.Candidate)
    requires i < |rows| && IsCandidateOf(rows[i], hash, c) && c.file == f && admits(f, c.index)
    ensures c in SearchRuns.RowsFor(f, rows, hash, admits)
    decreases |rows|
  {
    if i < |rows| - 1 {
      assert rows[..|rows| - 1][i] == rows[i];
      RowIsCandidate(f, rows[..|rows| - 1], hash, admits, i, c);
    }
  }

  lemma {:induction false} CandidateAdmitted(h: Hub, admits: SearchRuns.Filter, n: nat, f: nat, i: nat, c: Search.Candidate)
    requires f < n <= |h.files| && h.files[f].alive && c.file == f && admits(f, c.index)
    requires i < |ChunksOf(h, f)| && IsCandidateOf(ChunksOf(h, f)[i], h.files[f].hash, c)
    ensures c in SearchRuns.CandidatesTo(h, admits, n)
  {
    if f == n - 1 {
      RowIsCandidate(f, ChunksOf(h, f), h.files[f].hash, admits, i, c);
    } else {
      CandidateAdmitted(h, admits, n - 1, f, i, c);
    }
  }

  /** A search ranks exactly the embedded rows of live records' own versions that the filter admits. */
  lemma RankedIff(h: Hub, admits: SearchRuns.Filter, c: Search.Candidate)
    ensures c in SearchRuns.Candidates(h, admits) <==>
      && c.file < |h.files| && h.files[c.file].alive && admits(c.file, c.index)
      && exists i :: 0 <= i < |ChunksOf(h, c.file)| && IsCandidateOf(ChunksOf(h, c.file)[i], h.files[c.file].hash, c)
  {
    if c in SearchRuns.Candidates(h, admits) {
      CandidateIsRowOf(h, admits, |h.files|, c);
      SearchRuns.CandidateRow(h, admits, |h.files|, c);
    }
    if c.file < |h.files| && h.files[c.file].alive && admits(c.file, c.index) {
      if i :| 0 <= i < |ChunksOf(h, c.file)| && IsCandidateOf(ChunksOf(h, c.file)[i], h.files[c.file].hash, c) {
        CandidateAdmitted(h, admits, |h.files|, c.file, i, c);
      }
    }
  }

  lemma {:induction false} CandidateIsRow(f: nat, rows: seq<Chunk>, hash: string, admits: SearchRuns.Filter, c: Search.Candidate)
    requires c in SearchRuns.RowsFor(f, rows, hash, admits)
    ensures c.file == f
    ensures exists i :: 0 <= i < |rows| && IsCandidateOf(rows[i], hash, c)
  {
    var last := |rows| - 1;
    if c in SearchRuns.RowsFor(f, rows[..last], hash, admits) {
      CandidateIsRow(f, rows[..last], hash, admits, c);
      var i :| 0 <= i < last && IsCandidateOf(rows[..last][i], hash, c);
      assert IsCandidateOf(rows[i], hash, c);
    } else {
      assert IsCandidateOf(rows[last], hash, c);
    }
  }

  lemma {:induction false} CandidateIsRowOf(h: Hub, admits: SearchRuns.Filter, n: nat, c: Search.Candidate)
    requires n <= |h.files| && c in SearchRuns.CandidatesTo(h, admits, n)
    ensures c.file < n && h.files[c.file].alive
    ensures exists i :: 0 <= i < |ChunksOf(h, c.file)| && IsCandidateOf(ChunksOf(h, c.file)[i], h.files[c.file].hash, c)
  {
    var f := n - 1;
    if c in SearchRuns.CandidatesTo(h, admits, f) {
      CandidateIsRowOf(h, admits, f, c);
    } else {
      CandidateIsRow(f, ChunksOf(h, f), h.files[f].hash, admits, c);
    }
  }

  /** The piece of a recorded text that a vector belongs to. */
  ghost predicate IsVectorOf(cfg: Config, content: string, index: nat, vector: seq<real>)
    requires cfg.parseChunkChars > 0
  {
    var pieces := TextSplit.SplitText(content, cfg.parseChunkChars);
    index < |pieces| && vector == cfg.embed(pieces[index]).vector
  }

  /** In every run a search ranks each chunk by the embedding of the chunk's own text, which is a
      piece of a text with the hash of a live record. */
  lemma RankedByOwnText(cfg: Config, events: seq<Event>, admits: SearchRuns.Filter, c: Search.Candidate)
    requires c in SearchRuns.Candidates(Run(cfg, Init, events).hub, admits)
    ensures var h := Run(cfg, Init, events).hub;
      && c.file < |h.files| && h.files[c.file].alive && cfg.parseChunkChars > 0
      && exists content :: cfg.sha(content) == h.files[c.file].hash && IsVectorOf(cfg, content, c.index, c.vector)
  {
    var h := Run(cfg, Init, events).hub;
    CandidateIsRowOf(h, admits, |h.files|, c);
    var i :| 0 <= i < |ChunksOf(h, c.file)| && IsCandidateOf(ChunksOf(h, c.file)[i], h.files[c.file].hash, c);
    RunKeepsOwn(cfg, Init, events);
    assert RowsAreOwn(cfg, ChunksOf(h, c.file)) && IsOwn(cfg, ChunksOf(h, c.file)[i]);
    ChunkLineage(cfg, events, c.file);
    var content :| RowsOf(cfg, ChunksOf(h, c.file), h.files[c.file].hash, content);
    assert IsVectorOf(cfg, content, c.index, c.vector);
  }

  // ----- what a finish makes of a text -------------------------------------------------------------

  lemma ChunksNeedInk(text: string, m: nat)
    requires m > 0
    ensures TextSplit.SplitText(text, m) == [] <==> TextSplit.Ink(text) == ""
  {
    TextSplit.GatewayKeepsEveryCharacter(text, m);
    TextSplit.InkOfParagraphs(text);
    TextSplit.ParagraphsAreParagraphs(text);
    var ps := TextSplit.Paragraphs(text);
    if ps != [] {
      assert TextSplit.IsParagraph(ps[0]);
      TextSplit.InkConcat(ps[0], TextSplit.Flat(ps[1..]));
    }
  }

  /** What the source asks of a text before it touches a row, and that it has something to chunk. */
  predicate CanParse(cfg: Config, h: Hub, f: nat, hash: string, content: Option<string>) {
    && f < |h.files| && h.files[f].hash == hash && content.Some? && cfg.sha(content.value) == hash
    && cfg.parseChunkChars > 0 && TextSplit.Ink(content.value) != ""
  }

  lemma ParsableIff(cfg: Config, h: Hub, f: nat, hash: string, content: Option<string>)
    ensures Parsable(cfg, h, f, hash, content).Ok? <==> CanParse(cfg, h, f, hash, content)
  {
    if content.Some? && cfg.parseChunkChars > 0 {
      ChunksNeedInk(content.value, cfg.parseChunkChars);
    }
  }

  ghost predicate NotYetEmbedded(rows: seq<Chunk>) {
    forall i :: 0 <= i < |rows| ==> rows[i].embedding == None && rows[i].hits == 0
  }

  /** The task row after its finish. */
  predicate FinishedAs(before: Task, after: Task, status: TaskStatus) {
    after == before.(status := status, claimedAt := None, claimedBy := None)
  }

  /** A finish after a success only settles the task row. */
  lemma FinishOk(cfg: Config, h: Hub, t: nat, delivery: Delivery, foreignOk: bool)
    requires t < |h.tasks| && Execute(cfg, h, t, foreignOk).ok
    ensures var o := Execute(cfg, h, t, foreignOk).hub; var outcome := if h.tasks[t].work.RepairReplica? then Waiting else Success;
      && h.tasks <= o.tasks
      && FinishTask(cfg, h, t, delivery, foreignOk) ==
         o.(tasks := o.tasks[t := h.tasks[t].(status := outcome, claimedAt := None, claimedBy := None)], audit := o.audit + [TaskFinished(t, outcome)])
  {
    ExecuteKeepsTask(cfg, h, t, foreignOk);
  }

  lemma ParseStores(cfg: Config, h: Hub, f: nat, hash: string, content: Option<string>)
    requires CanParse(cfg, h, f, hash, content)
    ensures var o := ExecuteParse(cfg, h, f, hash, content);
      && o.ok && o.hub == h.(chunks := o.hub.chunks, files := o.hub.files, tasks := o.hub.tasks)
      && f in o.hub.chunks && o.hub.chunks == h.chunks[f := o.hub.chunks[f]]
      && RowsOf(cfg, o.hub.chunks[f], hash, content.value) && NotYetEmbedded(o.hub.chunks[f])
      && o.hub.files == h.files[f := h.files[f].(status := Parsed)]
  {
    ParsableIff(cfg, h, f, hash, content);
  }

  lemma ParseLeavesEmbedTask(cfg: Config, h: Hub, f: nat, hash: string, content: Option<string>)
    requires ExecuteParse(cfg, h, f, hash, content).ok
    ensures var tasks' := ExecuteParse(cfg, h, f, hash, content).hub.tasks; var key := FileEmbed(f, hash);
      && (exists u :: 0 <= u < |tasks'| && tasks'[u].key == key)
      && (FindTask(h.tasks, key).None? ==> tasks' == h.tasks + [Task(key, EmbedFile(f, hash), Pending, 0, None, None)])
  {
    var tasks' := ExecuteParse(cfg, h, f, hash, content).hub.tasks;
    var known := FindTask(h.tasks, FileEmbed(f, hash));
    if known.Some? {
      assert tasks'[known.value].key == FileEmbed(f, hash);
    } else {
      assert tasks'[|h.tasks|].key == FileEmbed(f, hash);
    }
  }

  /** A finishing parse task with the text of its recorded version, not blank, replaces the rows of its
      file by those of the text, and the version has an embed task. */
  lemma ParseFinishStores(cfg: Config, w: World, e: nat, foreignOk: bool)
    requires IsOpen(w, e) && w.hub.tasks[w.execs[e].task].work.ParseFile?
    requires var work := w.hub.tasks[w.execs[e].task].work; CanParse(cfg, w.hub, work.fileId, work.fileHash, work.content)
    ensures var h, h' := w.hub, Step(cfg, w, Finish(e, foreignOk)).hub; var t := w.execs[e].task; var work := h.tasks[t].work;
      && t < |h'.tasks| && FinishedAs(h.tasks[t], h'.tasks[t], Success) && h'.audit == h.audit + [TaskFinished(t, Success)]
      && work.fileId in h'.chunks && h'.chunks == h.chunks[work.fileId := h'.chunks[work.fileId]]
      && RowsOf(cfg, h'.chunks[work.fileId], work.fileHash, work.content.value) && NotYetEmbedded(h'.chunks[work.fileId])
      && h'.files == h.files[work.fileId := h.files[work.fileId].(status := Parsed)]
    ensures var h, h' := w.hub, Step(cfg, w, Finish(e, foreignOk)).hub; var t := w.execs[e].task;
      var key := FileEmbed(h.tasks[t].work.fileId, h.tasks[t].work.fileHash);
      && (exists u :: 0 <= u < |h'.tasks| && h'.tasks[u].key == key)
      && (FindTask(h.tasks, key).None? ==>
          h'.tasks == h.tasks[t := h'.tasks[t]] + [Task(key, EmbedFile(key.fileId, key.fileHash), Pending, 0, None, None)])
  {
    var h, t := w.hub, w.execs[e].task;
    var work := h.tasks[t].work;
    ParseStores(cfg, h, work.fileId, work.fileHash, work.content);
    FinishOk(cfg, h, t, w.execs[e].delivery, foreignOk);
    EmbedTaskThere(cfg, h, t, w.execs[e].delivery, foreignOk);
  }

  /** With any other text it fails: no chunk row is touched, and only the poller marks the record. */
  lemma ParseFinishFails(cfg: Config, w: World, e: nat, foreignOk: bool)
    requires IsOpen(w, e) && w.hub.tasks[w.execs[e].task].work.ParseFile?
    requires var work := w.hub.tasks[w.execs[e].task].work; !CanParse(cfg, w.hub, work.fileId, work.fileHash, work.content)
    ensures var h, h' := w.hub, Step(cfg, w, Finish(e, foreignOk)).hub; var t := w.execs[e].task; var work := h.tasks[t].work;
      && |h'.tasks| == |h.tasks| && FinishedAs(h.tasks[t], h'.tasks[t], Failed) && h'.audit == h.audit + [TaskFinished(t, Failed)]
      && h' == h.(tasks := h.tasks[t := h'.tasks[t]], audit := h'.audit, files := h'.files)
      && h'.files == if w.execs[e].delivery == Poll && work.fileId < |h.files| && h.files[work.fileId].hash == work.fileHash
                     then h.files[work.fileId := h.files[work.fileId].(status := ParseFailed)] else h.files
  {
    var work := w.hub.tasks[w.execs[e].task].work;
    ParsableIff(cfg, w.hub, work.fileId, work.fileHash, work.content);
  }

  lemma EmbedTaskThere(cfg: Config, h: Hub, t: nat, delivery: Delivery, foreignOk: bool)
    requires t < |h.tasks| && h.tasks[t].work.ParseFile? && Execute(cfg, h, t, foreignOk).ok
    ensures var h' := FinishTask(cfg, h, t, delivery, foreignOk); var key := FileEmbed(h.tasks[t].work.fileId, h.tasks[t].work.fileHash);
      && (exists u :: 0 <= u < |h'.tasks| && h'.tasks[u].key == key)
      && (FindTask(h.tasks, key).None? ==>
          h'.tasks == h.tasks[t := h'.tasks[t]] + [Task(key, EmbedFile(key.fileId, key.fileHash), Pending, 0, None, None)])
  {
    var h' := FinishTask(cfg, h, t, delivery, foreignOk);
    var o, work := Execute(cfg, h, t, foreignOk), h.tasks[t].work;
    FinishOk(cfg, h, t, delivery, foreignOk);
    ParseLeavesEmbedTask(cfg, h, work.fileId, work.fileHash, work.content);
    var u :| 0 <= u < |o.hub.tasks| && o.hub.tasks[u].key == FileEmbed(work.fileId, work.fileHash);
    assert h'.tasks[u].key == FileEmbed(work.fileId, work.fileHash);
  }

  /** A finishing embed task embeds exactly the rows of its version, each by its own text, and fails
      when the version is not recorded or has no rows. */
  lemma EmbedFinishIff(cfg: Config, w: World, e: nat, foreignOk: bool)
    requires IsOpen(w, e) && w.hub.tasks[w.execs[e].task].work.EmbedFile?
    ensures var h, h' := w.hub, Step(cfg, w, Finish(e, foreignOk)).hub; var t := w.execs[e].task;
      var f, hash := h.tasks[t].work.fileId, h.tasks[t].work.fileHash; var rows := ChunksOf(h, f);
      && |h'.tasks| == |h.tasks|
      && if f < |h.files| && h.files[f].hash == hash && (exists i :: 0 <= i < |rows| && rows[i].fileHash == hash) then
           && FinishedAs(h.tasks[t], h'.tasks[t], Success) && f in h'.chunks && h'.chunks == h.chunks[f := h'.chunks[f]] && h'.files == h.files
           && |h'.chunks[f]| == |rows|
           && forall i :: 0 <= i < |rows| ==>
             h'.chunks[f][i] == if rows[i].fileHash == hash then rows[i].(embedding := Some(cfg.embed(rows[i].content))) else rows[i]
         else FinishedAs(h.tasks[t], h'.tasks[t], Failed) && h'.chunks == h.chunks && h'.files == h.files
  {
    var h, t := w.hub, w.execs[e].task;
    RowsThereIff(ChunksOf(h, h.tasks[t].work.fileId), h.tasks[t].work.fileHash);
  }

  lemma {:induction false} RowsThereIff(rows: seq<Chunk>, hash: string)
    ensures RowsWithHash(rows, hash) != [] <==> exists i :: 0 <= i < |rows| && rows[i].fileHash == hash
    decreases |rows|
  {
    if rows != [] {
      RowsThereIff(rows[1..], hash);
      if RowsWithHash(rows[1..], hash) != [] {
        var i :| 0 <= i < |rows[1..]| && rows[1..][i].fileHash == hash;
        assert rows[i + 1].fileHash == hash;
      }
      if i :| 0 < i < |rows| && rows[i].fileHash == hash {
        assert rows[1..][i - 1].fileHash == hash;
      }
    }
  }

  // ----- from the upload to the download and the search ---------------------------------------------

  /** An upload by the node that reported the version, with a text of the version's hash, queues the
      version's parse task if there is none, requeues a failed one, and marks the record; any other
      upload changes nothing. */
  lemma UploadQueuesIff(cfg: Config, w: World, f: nat, node: string, hash: string, content: string)
    ensures var h, h' := w.hub, Step(cfg, w, Upload(f, node, hash, content)).hub;
      if f < |h.files| && h.files[f].source == node && h.files[f].hash == hash && cfg.sha(content) == hash then
        && h' == h.(tasks := h'.tasks, files := h'.files)
        && h'.files == h.files[f := h.files[f].(status := if h.files[f].status == Parsed then Parsed else Parsing)]
        && ((forall t :: 0 <= t < |h.tasks| ==> h.tasks[t].key != FileParse(f, hash)) ==>
            h'.tasks == h.tasks + [Task(FileParse(f, hash), ParseFile(f, hash, Some(content)), Pending, 0, None, None)])
        && (forall t :: 0 <= t < |h.tasks| && h.tasks[t].key == FileParse(f, hash) && TaskTables.UniqueKeys(h.tasks) ==>
            h'.tasks == if h.tasks[t].status == Failed then h.tasks[t := h.tasks[t].(status := Pending)] else h.tasks)
      else h' == h
  {
    forall t | 0 <= t < |w.hub.tasks| && w.hub.tasks[t].key == FileParse(f, hash) && TaskTables.UniqueKeys(w.hub.tasks)
      ensures FindTask(w.hub.tasks, FileParse(f, hash)) == Some(t)
    {
      TaskTables.FindTaskIs(w.hub.tasks, t);
    }
  }

  predicate IsNew(tasks: seq<Task>, key: TaskKey) {
    forall t :: 0 <= t < |tasks| ==> tasks[t].key != key
  }

  /** A claimed delivery, with what the later steps read of it. */
  lemma Delivered(cfg: Config, w: World, t: nat, worker: string) returns (w': World)
    requires t < |w.hub.tasks| && w.hub.tasks[t].status == Pending
    ensures w' == Step(cfg, w, CeleryDelivery(t, worker))
    ensures |w'.execs| == |w.execs| + 1 && IsOpen(w', |w.execs|) && w'.execs[|w.execs|].task == t
    ensures w'.hub == w.hub.(tasks := w'.hub.tasks, audit := w'.hub.audit) && |w'.hub.tasks| == |w.hub.tasks|
    ensures forall i :: 0 <= i < |w.hub.tasks| ==> w'.hub.tasks[i].key == w.hub.tasks[i].key && w'.hub.tasks[i].work == w.hub.tasks[i].work
    ensures forall i :: 0 <= i < |w.hub.tasks| && i != t ==> w'.hub.tasks[i] == w.hub.tasks[i]
    ensures forall key :: IsNew(w.hub.tasks, key) ==> IsNew(w'.hub.tasks, key)
  {
    w' := Step(cfg, w, CeleryDelivery(t, worker));
    Recovery.DeliveryClaimsIff(cfg, w, t, worker);
  }

  /** The rows of one text, every one embedded by itself. */
  ghost predicate Served(cfg: Config, h: Hub, f: nat, content: string) {
    && f < |h.files| && h.files[f].alive && h.files[f].status == Parsed
    && RowsOf(cfg, ChunksOf(h, f), h.files[f].hash, content)
    && forall i :: 0 <= i < |ChunksOf(h, f)| ==> ChunksOf(h, f)[i].embedding == Some(cfg.embed(ChunksOf(h, f)[i].content))
  }

  /** Upload, parse and embed a version that has neither task yet: the two deliveries and finishes leave
      exactly the text's chunks, each embedded by its own text, and both tasks successful. */
  lemma UploadedTextIsServed(cfg: Config, w: World, f: nat, node: string, content: string, a: string, b: string)
    requires f < |w.hub.files| && w.hub.files[f].alive && w.hub.files[f].source == node && w.hub.files[f].hash == cfg.sha(content)
    requires cfg.parseChunkChars > 0 && TextSplit.Ink(content) != ""
    requires IsNew(w.hub.tasks, FileParse(f, cfg.sha(content))) && IsNew(w.hub.tasks, FileEmbed(f, cfg.sha(content)))
    ensures var t, e := |w.hub.tasks|, |w.execs|;
      var events := [Upload(f, node, cfg.sha(content), content), CeleryDelivery(t, a), Finish(e, true), CeleryDelivery(t + 1, b), Finish(e + 1, true)];
      var h' := Run(cfg, w, events).hub;
      && |h'.tasks| == t + 2 && h'.tasks[t].status == Success && h'.tasks[t + 1].status == Success
      && Served(cfg, h', f, content)
  {
    var hash, t, e := cfg.sha(content), |w.hub.tasks|, |w.execs|;
    var w1 := Uploaded1(cfg, w, f, node, content);
    var w2 := Delivered(cfg, w1, t, a);
    var w3 := Parsed3(cfg, w2, e, f, hash, content);
    var w4 := Delivered(cfg, w3, t + 1, b);
    var w5 := Embedded5(cfg, w4, e + 1, f, content);
    FiveSteps(cfg, w, Upload(f, node, hash, content), CeleryDelivery(t, a), Finish(e, true), CeleryDelivery(t + 1, b), Finish(e + 1, true));
  }

  lemma Uploaded1(cfg: Config, w: World, f: nat, node: string, content: string) returns (w': World)
    requires f < |w.hub.files| && w.hub.files[f].alive && w.hub.files[f].source == node && w.hub.files[f].hash == cfg.sha(content)
    requires IsNew(w.hub.tasks, FileParse(f, cfg.sha(content))) && IsNew(w.hub.tasks, FileEmbed(f, cfg.sha(content)))
    ensures w' == Step(cfg, w, Upload(f, node, cfg.sha(content), content)) && w'.execs == w.execs && |w'.hub.tasks| == |w.hub.tasks| + 1
    ensures var u := w'.hub.tasks[|w.hub.tasks|]; u.status == Pending && u.work == ParseFile(f, cfg.sha(content), Some(content))
    ensures IsNew(w'.hub.tasks, FileEmbed(f, cfg.sha(content)))
    ensures |w'.hub.files| == |w.hub.files| && w'.hub.files[f].alive && w'.hub.files[f].hash == w.hub.files[f].hash
  {
    w' := Step(cfg, w, Upload(f, node, cfg.sha(content), content));
    UploadQueuesIff(cfg, w, f, node, cfg.sha(content), content);
  }

  lemma FiveSteps(cfg: Config, w: World, a: Event, b: Event, c: Event, d: Event, e: Event)
    ensures Run(cfg, w, [a, b, c, d, e]) == Step(cfg, Step(cfg, Step(cfg, Step(cfg, Step(cfg, w, a), b), c), d), e)
  {
    var w3 := Step(cfg, Step(cfg, Step(cfg, w, a), b), c);
    ThreeSteps(cfg, w, a, b, c, [d, e]);
    RunCons(cfg, w3, d, [e]);
    RunCons(cfg, Step(cfg, w3, d), e, []);
    assert [a, b, c] + [d, e] == [a, b, c, d, e] && [d] + [e] == [d, e] && [e] + [] == [e];
  }

  lemma Parsed3(cfg: Config, w: World, e: nat, f: nat, hash: string, content: string) returns (w': World)
    requires IsOpen(w, e) && w.hub.tasks[w.execs[e].task].work == ParseFile(f, hash, Some(content))
    requires CanParse(cfg, w.hub, f, hash, Some(content)) && w.hub.files[f].alive && IsNew(w.hub.tasks, FileEmbed(f, hash))
    requires w.execs[e].task == |w.hub.tasks| - 1
    ensures w' == Step(cfg, w, Finish(e, true)) && |w'.execs| == |w.execs| && |w'.hub.tasks| == |w.hub.tasks| + 1
    ensures w'.hub.tasks[|w.hub.tasks| - 1].status == Success
    ensures var u := w'.hub.tasks[|w.hub.tasks|]; u.status == Pending && u.work == EmbedFile(f, hash)
    ensures f < |w'.hub.files| && w'.hub.files[f] == w.hub.files[f].(status := Parsed) && RowsOf(cfg, ChunksOf(w'.hub, f), hash, content)
  {
    w' := Step(cfg, w, Finish(e, true));
    ParseFinishStores(cfg, w, e, true);
    NewIsNotFound(w.hub.tasks, FileEmbed(f, hash));
  }

  lemma NewIsNotFound(tasks: seq<Task>, key: TaskKey)
    requires IsNew(tasks, key)
    ensures FindTask(tasks, key).None?
  {}

  lemma Embedded5(cfg: Config, w: World, e: nat, f: nat, content: string) returns (w': World)
    requires IsOpen(w, e) && f < |w.hub.files| && w.hub.tasks[w.execs[e].task].work == EmbedFile(f, w.hub.files[f].hash)
    requires w.hub.files[f].alive && w.hub.files[f].status == Parsed && RowsOf(cfg, ChunksOf(w.hub, f), w.hub.files[f].hash, content)
    ensures w' == Step(cfg, w, Finish(e, true)) && |w'.hub.tasks| == |w.hub.tasks|
    ensures w'.hub.tasks[w.execs[e].task].status == Success && Served(cfg, w'.hub, f, content)
    ensures forall i :: 0 <= i < |w.hub.tasks| && i != w.execs[e].task ==> w'.hub.tasks[i] == w.hub.tasks[i]
  {
    w' := Step(cfg, w, Finish(e, true));
    EmbedFinishIff(cfg, w, e, true);
    OthersUntouched(cfg, w, e, true);
    var rows := ChunksOf(w.hub, f);
    assert rows[0].fileHash == w.hub.files[f].hash;
    ServedThen(cfg, w.hub, w'.hub, f, content);
  }

  lemma OthersUntouched(cfg: Config, w: World, e: nat, foreignOk: bool)
    requires IsOpen(w, e) && w.hub.tasks[w.execs[e].task].work.EmbedFile?
    ensures var h, h' := w.hub, Step(cfg, w, Finish(e, foreignOk)).hub;
      |h'.tasks| == |h.tasks| && forall i :: 0 <= i < |h.tasks| && i != w.execs[e].task ==> h'.tasks[i] == h.tasks[i]
  {}

  lemma ServedThen(cfg: Config, h: Hub, h': Hub, f: nat, content: string)
    requires f < |h.files| && h.files[f].alive && h.files[f].status == Parsed && h'.files == h.files && f in h'.chunks
    requires var rows, rows' := ChunksOf(h, f), h'.chunks[f];
      && RowsOf(cfg, rows, h.files[f].hash, content) && |rows'| == |rows|
      && forall i :: 0 <= i < |rows| ==>
        rows'[i] == if rows[i].fileHash == h.files[f].hash then rows[i].(embedding := Some(cfg.embed(rows[i].content))) else rows[i]
    ensures Served(cfg, h', f, content)
  {
    EmbeddedRows(cfg, ChunksOf(h, f), h'.chunks[f], h.files[f].hash, content);
  }

  lemma EmbeddedRows(cfg: Config, rows: seq<Chunk>, rows': seq<Chunk>, hash: string, content: string)
    requires RowsOf(cfg, rows, hash, content) && |rows'| == |rows|
    requires forall i :: 0 <= i < |rows| ==>
      rows'[i] == if rows[i].fileHash == hash then rows[i].(embedding := Some(cfg.embed(rows[i].content))) else rows[i]
    ensures RowsOf(cfg, rows', hash, content)
    ensures forall i :: 0 <= i < |rows'| ==> rows'[i].embedding == Some(cfg.embed(rows'[i].content))
  {
    forall i | 0 <= i < |rows'| ensures SameText(rows[i], rows'[i]) && rows'[i].embedding == Some(cfg.embed(rows'[i].content)) {}
  }

  /** What is served so is downloaded whole, and every chunk of it is ranked by its own embedding. */
  lemma ServedIsFound(cfg: Config, h: Hub, f: nat, content: string, admits: SearchRuns.Filter, i: nat)
    requires Served(cfg, h, f, content) && i < |ChunksOf(h, f)| && admits(f, i)
    ensures cfg.parseChunkChars > 0
    ensures var pieces := TextSplit.SplitText(content, cfg.parseChunkChars);
      && Gateway(h, f) == Some(TextSplit.Join(pieces)) && |pieces| == |ChunksOf(h, f)|
      && Search.Candidate(f, i, cfg.embed(pieces[i]).vector, ChunksOf(h, f)[i].hits) in SearchRuns.Candidates(h, admits)
  {
    var rows, hash := ChunksOf(h, f), h.files[f].hash;
    var pieces := TextSplit.SplitText(content, cfg.parseChunkChars);
    RowsAreSelected(rows, hash);
    assert RowsWithHash(rows, hash) == pieces;
    var c := Search.Candidate(f, i, cfg.embed(pieces[i]).vector, rows[i].hits);
    assert IsCandidateOf(rows[i], hash, c);
    RankedIff(h, admits, c);
  }

  /** A download has a body exactly for a live version that is not superseded and has rows of its own. */
  lemma GatewayServesIff(h: Hub, f: nat)
    ensures Gateway(h, f).Some? <==>
      && f < |h.files| && h.files[f].alive && h.files[f].status != Superseded
      && exists i :: 0 <= i < |ChunksOf(h, f)| && ChunksOf(h, f)[i].fileHash == h.files[f].hash
  {
    if f < |h.files| {
      RowsThereIff(ChunksOf(h, f), h.files[f].hash);
    }
  }
}
