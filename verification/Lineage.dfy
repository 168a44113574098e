/** Which text the chunk rows of a file hold, in every reachable state. */
module Lineage {
  import opened Wrappers
  import opened Rows
  import opened Tasks
  import opened Commands
  import opened Files
  import opened Executors
  import opened Runs
  import TextSplit

  /** The rows are those of one text whose hash is the record's: all of them, in order, tagged with that hash. */
  ghost predicate RowsOf(cfg: Config, rows: seq<Chunk>, hash: string, content: string) {
    && cfg.parseChunkChars > 0 && cfg.sha(content) == hash
    && var pieces := TextSplit.SplitText(content, cfg.parseChunkChars);
    && pieces != [] && |rows| == |pieces|
    && forall i :: 0 <= i < |rows| ==>
      rows[i].index == i && rows[i].content == pieces[i] && rows[i].contentHash == cfg.sha(pieces[i]) && rows[i].fileHash == hash
  }

  ghost predicate ChunksTraced(cfg: Config, h: Hub) {
    forall f :: f in h.chunks ==> f < |h.files| && exists content :: RowsOf(cfg, h.chunks[f], h.files[f].hash, content)
  }

  /** Paths, hashes and version numbers, which no operation changes once they are written. */
  ghost predicate SameVersions(a: seq<FileRecord>, b: seq<FileRecord>) {
    |a| == |b| && forall f :: 0 <= f < |a| ==> a[f].path == b[f].path && a[f].hash == b[f].hash && a[f].version == b[f].version
  }

  /** Records are never removed and keep their path and hash. */
  ghost predicate IdentitiesKept(a: seq<FileRecord>, b: seq<FileRecord>) {
    |a| <= |b| && forall f :: 0 <= f < |a| ==> b[f].path == a[f].path && b[f].hash == a[f].hash
  }

  /** Chunk rows that may have been embedded, counted as hits or deleted as a whole. */
  ghost predicate RowsKept(a: map<nat, seq<Chunk>>, b: map<nat, seq<Chunk>>) {
    forall f :: f in b ==>
      && f in a && |b[f]| == |a[f]|
      && forall i :: 0 <= i < |a[f]| ==> SameText(a[f][i], b[f][i])
  }

  predicate SameText(a: Chunk, b: Chunk) {
    a.index == b.index && a.content == b.content && a.contentHash == b.contentHash && a.fileHash == b.fileHash
  }

  // ----- single operations ----------------------------------------------------------------

  lemma KeptIsTraced(cfg: Config, h: Hub, h': Hub)
    requires ChunksTraced(cfg, h) && IdentitiesKept(h.files, h'.files) && RowsKept(h.chunks, h'.chunks)
    ensures ChunksTraced(cfg, h')
  {
    forall f | f in h'.chunks ensures f < |h'.files| && exists c :: RowsOf(cfg, h'.chunks[f], h'.files[f].hash, c) {
      var c :| RowsOf(cfg, h.chunks[f], h.files[f].hash, c);
      forall i | 0 <= i < |h'.chunks[f]| ensures SameText(h.chunks[f][i], h'.chunks[f][i]) {}
      assert RowsOf(cfg, h'.chunks[f], h'.files[f].hash, c);
    }
  }

  lemma StoreIsTraced(cfg: Config, h: Hub, f: nat, hash: string, content: Option<string>)
    requires ChunksTraced(cfg, h) && Parsable(cfg, h, f, hash, content).Ok?
    ensures ChunksTraced(cfg, StoreChunks(cfg, h, f, Parsable(cfg, h, f, hash, content).value))
  {
    var pieces := Parsable(cfg, h, f, hash, content).value;
    var rows := ChunkRows(cfg, hash, pieces);
    assert RowsOf(cfg, rows, hash, content.value);
    StoredIsTraced(cfg, h, f, pieces, content.value);
  }

  lemma StoredIsTraced(cfg: Config, h: Hub, f: nat, pieces: seq<string>, content: string)
    requires ChunksTraced(cfg, h) && f < |h.files|
    requires RowsOf(cfg, ChunkRows(cfg, h.files[f].hash, pieces), h.files[f].hash, content)
    ensures ChunksTraced(cfg, StoreChunks(cfg, h, f, pieces))
  {
    var h' := StoreChunks(cfg, h, f, pieces);
    forall x | x in h'.chunks ensures x < |h'.files| && exists c :: RowsOf(cfg, h'.chunks[x], h'.files[x].hash, c) {
      if x == f {
        assert RowsOf(cfg, h'.chunks[x], h'.files[x].hash, content);
      } else {
        var c :| RowsOf(cfg, h.chunks[x], h.files[x].hash, c);
        assert RowsOf(cfg, h'.chunks[x], h'.files[x].hash, c);
      }
    }
  }

  lemma ExecuteKeepsVersions(cfg: Config, h: Hub, t: nat, foreignOk: bool)
    requires t < |h.tasks|
    ensures SameVersions(h.files, Execute(cfg, h, t, foreignOk).hub.files)
  {
    match h.tasks[t].work
    case ParseFile(f, hash, content) => ExecuteParseKeepsVersions(cfg, h, f, hash, content);
    case RepairReplica(f, hash, node) => assert ExecuteRepair(h, t, f, hash, node).hub.files == h.files;
    case _ =>
  }

  lemma ExecuteParseKeepsVersions(cfg: Config, h: Hub, f: nat, hash: string, content: Option<string>)
    ensures SameVersions(h.files, ExecuteParse(cfg, h, f, hash, content).hub.files)
  {}

  lemma ExecuteKeepsRows(cfg: Config, h: Hub, t: nat, foreignOk: bool)
    requires t < |h.tasks| && !h.tasks[t].work.ParseFile?
    ensures RowsKept(h.chunks, Execute(cfg, h, t, foreignOk).hub.chunks)
  {
    if h.tasks[t].work.EmbedFile? {
      EmbedKeepsRows(cfg, h, h.tasks[t].work.fileId, h.tasks[t].work.fileHash);
    } else {
      ExecuteKeepsChunks(cfg, h, t, foreignOk);
    }
  }

  lemma EmbedKeepsRows(cfg: Config, h: Hub, f: nat, hash: string)
    ensures RowsKept(h.chunks, ExecuteEmbed(cfg, h, f, hash).hub.chunks)
  {}

  lemma ExecuteKeepsChunks(cfg: Config, h: Hub, t: nat, foreignOk: bool)
    requires t < |h.tasks| && !h.tasks[t].work.ParseFile? && !h.tasks[t].work.EmbedFile?
    ensures Execute(cfg, h, t, foreignOk).hub.chunks == h.chunks
  {}

  lemma ExecuteIsTraced(cfg: Config, h: Hub, t: nat, foreignOk: bool)
    requires ChunksTraced(cfg, h) && t < |h.tasks|
    ensures ChunksTraced(cfg, Execute(cfg, h, t, foreignOk).hub)
  {
    var work := h.tasks[t].work;
    ExecuteKeepsVersions(cfg, h, t, foreignOk);
    if work.ParseFile? {
      if Parsable(cfg, h, work.fileId, work.fileHash, work.content).Ok? {
        StoreIsTraced(cfg, h, work.fileId, work.fileHash, work.content);
        var stored := StoreChunks(cfg, h, work.fileId, Parsable(cfg, h, work.fileId, work.fileHash, work.content).value);
        KeptIsTraced(cfg, stored, ExecuteParse(cfg, h, work.fileId, work.fileHash, work.content).hub);
      }
    } else {
      ExecuteKeepsRows(cfg, h, t, foreignOk);
      KeptIsTraced(cfg, h, Execute(cfg, h, t, foreignOk).hub);
    }
  }

  lemma FinishKeepsVersions(cfg: Config, h: Hub, t: nat, delivery: Delivery, foreignOk: bool)
    requires t < |h.tasks|
    ensures SameVersions(h.files, FinishTask(cfg, h, t, delivery, foreignOk).files)
    ensures SameVersions(Execute(cfg, h, t, foreignOk).hub.files, FinishTask(cfg, h, t, delivery, foreignOk).files)
    ensures FinishTask(cfg, h, t, delivery, foreignOk).chunks == Execute(cfg, h, t, foreignOk).hub.chunks
  {
    ExecuteKeepsTask(cfg, h, t, foreignOk);
    ExecuteKeepsVersions(cfg, h, t, foreignOk);
  }

  lemma NodeKeepsVersions(cfg: Config, h: Hub, node: Node, f: nat, hash: string, content: Option<string>)
    ensures SameVersions(h.files, RunNode(cfg, h, node, f, hash, content).hub.files)
    ensures node != ParseNode ==> RowsKept(h.chunks, RunNode(cfg, h, node, f, hash, content).hub.chunks)
  {}

  lemma NodeIsTraced(cfg: Config, h: Hub, node: Node, f: nat, hash: string, content: Option<string>)
    requires ChunksTraced(cfg, h)
    ensures ChunksTraced(cfg, RunNode(cfg, h, node, f, hash, content).hub)
  {
    if node != ParseNode {
      NodeKeepsVersions(cfg, h, node, f, hash, content);
      KeptIsTraced(cfg, h, RunNode(cfg, h, node, f, hash, content).hub);
    } else if content.Some? && Parsable(cfg, h, f, hash, content).Ok? {
      StoreIsTraced(cfg, h, f, hash, content);
    }
  }

  lemma FinishStepKeepsVersions(cfg: Config, w: World, e: nat, foreignOk: bool)
    ensures SameVersions(w.hub.files, Step(cfg, w, Finish(e, foreignOk)).hub.files)
  {
    if IsOpen(w, e) {
      FinishKeepsVersions(cfg, w.hub, w.execs[e].task, w.execs[e].delivery, foreignOk);
    }
  }

  lemma PipelineStepKeepsVersions(cfg: Config, w: World, e: nat, stage: Node)
    ensures SameVersions(w.hub.files, Step(cfg, w, PipelineStep(e, stage)).hub.files)
  {
    if IsOpen(w, e) && w.hub.tasks[w.execs[e].task].work.RunPipeline? {
      var work := w.hub.tasks[w.execs[e].task].work;
      NodeKeepsVersions(cfg, w.hub, stage, work.fileId, work.fileHash, work.content);
    }
  }

  lemma ReportKeepsIdentities(h: Hub, node: string, path: string, hash: string)
    ensures IdentitiesKept(h.files, ReportFile(h, node, path, hash).files)
  {}

  lemma UploadKeepsVersions(cfg: Config, h: Hub, f: nat, node: string, hash: string, content: string)
    ensures SameVersions(h.files, QueueParse(cfg, h, f, node, hash, content).hub.files)
  {}

  lemma DeleteKeepsVersions(h: Hub, f: nat)
    ensures SameVersions(h.files, DeleteFile(h, f).hub.files)
  {}

  lemma ScanKeepsVersions(cfg: Config, h: Hub)
    ensures SameVersions(h.files, Reconcile(cfg, h).hub.files)
  {}

  /** Only a report of new content adds a record, and nothing rewrites one's identity. */
  lemma StepKeepsVersions(cfg: Config, w: World, ev: Event)
    ensures !ev.Report? ==> SameVersions(w.hub.files, Step(cfg, w, ev).hub.files)
    ensures IdentitiesKept(w.hub.files, Step(cfg, w, ev).hub.files)
  {
    match ev
    case Finish(e, foreignOk) => FinishStepKeepsVersions(cfg, w, e, foreignOk);
    case PipelineStep(e, stage) => PipelineStepKeepsVersions(cfg, w, e, stage);
    case Report(node, path, hash) => ReportKeepsIdentities(w.hub, node, path, hash);
    case Upload(f, node, hash, content) => UploadKeepsVersions(cfg, w.hub, f, node, hash, content);
    case Delete(f) => DeleteKeepsVersions(w.hub, f);
    case Scan => ScanKeepsVersions(cfg, w.hub);
    case _ => assert Step(cfg, w, ev).hub.files == w.hub.files;
  }

  lemma OtherStepsKeepRows(cfg: Config, w: World, ev: Event)
    requires !ev.Finish? && !ev.PipelineStep?
    ensures RowsKept(w.hub.chunks, Step(cfg, w, ev).hub.chunks)
  {
    if ev.Search? {
      HitsKeepRows(w.hub, ev.returned);
    }
  }

  lemma HitsKeepRows(h: Hub, returned: set<(nat, nat)>)
    ensures RowsKept(h.chunks, RecordHits(h, returned).chunks)
  {}

  lemma StepIsTraced(cfg: Config, w: World, ev: Event)
    requires ChunksTraced(cfg, w.hub)
    ensures ChunksTraced(cfg, Step(cfg, w, ev).hub)
  {
    StepKeepsVersions(cfg, w, ev);
    if ev.Finish? && IsOpen(w, ev.exec) {
      var t, delivery := w.execs[ev.exec].task, w.execs[ev.exec].delivery;
      ExecuteIsTraced(cfg, w.hub, t, ev.foreignOk);
      FinishKeepsVersions(cfg, w.hub, t, delivery, ev.foreignOk);
      KeptIsTraced(cfg, Execute(cfg, w.hub, t, ev.foreignOk).hub, FinishTask(cfg, w.hub, t, delivery, ev.foreignOk));
    } else if ev.PipelineStep? && IsOpen(w, ev.exec) {
      var work := w.hub.tasks[w.execs[ev.exec].task].work;
      if work.RunPipeline? {
        NodeIsTraced(cfg, w.hub, ev.stage, work.fileId, work.fileHash, work.content);
      }
    } else if !ev.Finish? && !ev.PipelineStep? {
      OtherStepsKeepRows(cfg, w, ev);
      KeptIsTraced(cfg, w.hub, Step(cfg, w, ev).hub);
    }
  }

  lemma {:induction false} RunIsTraced(cfg: Config, w: World, events: seq<Event>)
    requires ChunksTraced(cfg, w.hub)
    ensures ChunksTraced(cfg, Run(cfg, w, events).hub)
    decreases |events|
  {
    if events != [] {
      StepIsTraced(cfg, w, events[0]);
      RunIsTraced(cfg, Step(cfg, w, events[0]), events[1..]);
    }
  }

  // ----- the theorems -------------------------------------------------------------------------

  /** In every reachable state the chunk rows of a file are none, or exactly the chunks of one text
      with the record's hash, numbered from 0 and tagged with that hash. */
  lemma ChunkLineage(cfg: Config, events: seq<Event>, f: nat)
    requires ChunksOf(Run(cfg, Init, events).hub, f) != []
    ensures var h := Run(cfg, Init, events).hub;
      f < |h.files| && exists content :: RowsOf(cfg, ChunksOf(h, f), h.files[f].hash, content)
  {
    RunIsTraced(cfg, Init, events);
  }

  lemma RowsAreSelected(rows: seq<Chunk>, hash: string)
    requires forall i :: 0 <= i < |rows| ==> rows[i].fileHash == hash
    ensures |RowsWithHash(rows, hash)| == |rows|
    ensures forall i :: 0 <= i < |rows| ==> RowsWithHash(rows, hash)[i] == rows[i].content
  {}

  /** In every reachable state the gateway serves only the recorded version: the body is the
      reassembly of the text with the record's hash and has all its non-whitespace characters. */
  lemma GatewayServesTheRecordedText(cfg: Config, events: seq<Event>, f: nat)
    requires Gateway(Run(cfg, Init, events).hub, f).Some?
    ensures var h := Run(cfg, Init, events).hub; var body := Gateway(h, f).value;
      && cfg.parseChunkChars > 0 && f < |h.files| && h.files[f].alive
      && exists content :: cfg.sha(content) == h.files[f].hash
           && body == TextSplit.Join(TextSplit.SplitText(content, cfg.parseChunkChars))
           && TextSplit.Ink(body) == TextSplit.Ink(content)
  {
    var h := Run(cfg, Init, events).hub;
    ChunkLineage(cfg, events, f);
    var rows, hash := ChunksOf(h, f), h.files[f].hash;
    var content :| RowsOf(cfg, rows, hash, content);
    RowsAreSelected(rows, hash);
    assert RowsWithHash(rows, hash) == TextSplit.SplitText(content, cfg.parseChunkChars);
    TextSplit.GatewayKeepsEveryCharacter(content, cfg.parseChunkChars);
  }

  /** With a collision-free hash there is only one such text. */
  lemma GatewayServesOnlyTheRecordedText(cfg: Config, events: seq<Event>, f: nat, content: string)
    requires forall a, b :: cfg.sha(a) == cfg.sha(b) ==> a == b
    requires var h := Run(cfg, Init, events).hub; Gateway(h, f).Some? && f < |h.files| && cfg.sha(content) == h.files[f].hash
    ensures cfg.parseChunkChars > 0
    ensures var body := Gateway(Run(cfg, Init, events).hub, f).value;
      && body == TextSplit.Join(TextSplit.SplitText(content, cfg.parseChunkChars))
      && TextSplit.Ink(body) == TextSplit.Ink(content)
  {
    GatewayServesTheRecordedText(cfg, events, f);
  }
}
