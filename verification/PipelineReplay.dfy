/** Replaying the pipeline after a partial run. */
module PipelineReplay {
  import opened Wrappers
  import opened Rows
  import opened Tasks
  import opened Files
  import opened Executors

  /** Settings under which the embedding service may answer differently. */
  ghost predicate SameButEmbedding(a: Config, b: Config) {
    b == a.(embed := b.embed)
  }

  /** The orchestrator: with the graph package, a graph run that got through `reached` nodes and
      then failed, whatever the reason, is followed by a full sequential run.  `later` is `cfg`
      with the answers the embedding service gives by then. */
  function RunFilePipeline(cfg: Config, later: Config, h: Hub, f: nat, hash: string, content: Option<string>,
                           graph: bool, reached: nat, graphFails: bool): Outcome
    requires reached <= |PIPELINE|
  {
    if !graph then RunNodes(cfg, h, PIPELINE, f, hash, content)
    else
      var o := RunNodes(cfg, h, PIPELINE[..reached], f, hash, content);
      if o.ok && reached == |PIPELINE| && !graphFails then o
      else RunNodes(later, o.hub, PIPELINE, f, hash, content)
  }

  // ----- each node on the state another node left ------------------------------------------

  lemma RegisterIsDone(h: Hub, f: nat, hash: string)
    requires SameVersion(h, f, hash)
    requires var s := h.files[f].status; s == Parsed || s == Parsing || s == ParseFailed || s == Registered
    ensures RunRegisterNode(h, f, hash) == Outcome(h, true)
  {
    if h.files[f].status == Registered {
      assert h.files[f := h.files[f].(status := Registered)] == h.files;
    }
  }

  lemma RegisterLeaves(h: Hub, f: nat, hash: string)
    requires RunRegisterNode(h, f, hash).ok
    ensures SameVersion(RunRegisterNode(h, f, hash).hub, f, hash)
    ensures var s := RunRegisterNode(h, f, hash).hub.files[f].status; s == Parsed || s == Parsing || s == ParseFailed || s == Registered
  {}

  lemma StoreAgain(cfg: Config, h: Hub, h': Hub, f: nat, pieces: seq<string>)
    requires f < |h.files|
    requires var h2 := StoreChunks(cfg, h, f, pieces);
      h'.files == h2.files && f in h'.chunks && h'.chunks == h2.chunks[f := h'.chunks[f]]
    ensures StoreChunks(cfg, h', f, pieces) == h'.(chunks := StoreChunks(cfg, h, f, pieces).chunks)
  {
    assert h'.files[f := h'.files[f].(status := Parsed)] == h'.files;
  }

  /** Parsing again brings back the rows parsing wrote, whatever embedding has done to them since. */
  lemma ParseAgain(cfg: Config, h: Hub, h': Hub, f: nat, hash: string, content: Option<string>)
    requires content.Some? && RunParseNode(cfg, h, f, hash, content).ok
    requires var h2 := RunParseNode(cfg, h, f, hash, content).hub;
      h'.files == h2.files && f in h'.chunks && h'.chunks == h2.chunks[f := h'.chunks[f]]
    ensures RunParseNode(cfg, h', f, hash, content) ==
      Outcome(h'.(chunks := RunParseNode(cfg, h, f, hash, content).hub.chunks), true)
  {
    StoreAgain(cfg, h, h', f, Parsable(cfg, h, f, hash, content).value);
    assert Parsable(cfg, h', f, hash, content) == Parsable(cfg, h, f, hash, content);
  }

  lemma EmbedAgain(cfg: Config, h: Hub, f: nat, hash: string)
    ensures RunEmbedNode(cfg, h, f, hash).ok
    ensures var h3 := RunEmbedNode(cfg, h, f, hash).hub;
      && RunEmbedNode(cfg, h3, f, hash) == Outcome(h3, true)
      && h3 == h.(chunks := h3.chunks)
      && (f in h.chunks ==> f in h3.chunks && h3.chunks == h.chunks[f := h3.chunks[f]])
  {
    var h3 := RunEmbedNode(cfg, h, f, hash).hub;
    if HasRows(h, f, hash) {
      var rows := ChunksOf(h, f);
      EmbedKeepsSelection(cfg, rows, hash);
      assert EmbedRows(cfg, EmbedRows(cfg, rows, hash), hash) == EmbedRows(cfg, rows, hash);
      assert h3.chunks[f := EmbedRows(cfg, ChunksOf(h3, f), hash)] == h3.chunks;
    } else if f in h.chunks {
      assert h.chunks == h.chunks[f := h.chunks[f]];
    }
  }

  lemma {:induction false} EmbedKeepsSelection(cfg: Config, rows: seq<Chunk>, hash: string)
    ensures RowsWithHash(EmbedRows(cfg, rows, hash), hash) == RowsWithHash(rows, hash)
    decreases |rows|
  {
    if rows != [] {
      EmbedKeepsSelection(cfg, rows[1..], hash);
      assert EmbedRows(cfg, rows, hash)[1..] == EmbedRows(cfg, rows[1..], hash);
    }
  }

  /** The repair tasks are looked up by key, so nothing is left to add. */
  lemma ReplicaAgain(cfg: Config, h: Hub, f: nat, hash: string)
    requires RunReplicaNode(cfg, h, f, hash).ok
    ensures var h4 := RunReplicaNode(cfg, h, f, hash).hub;
      RunReplicaNode(cfg, h4, f, hash) == Outcome(h4, true) && h4 == h.(tasks := h4.tasks)
  {
    var h4 := RunReplicaNode(cfg, h, f, hash).hub;
    NothingToAdd(h, h4, f, hash, cfg.replicaNodes, PipelineRepairs(h, f, hash, cfg.replicaNodes));
    assert h4.tasks + [] == h4.tasks;
  }

  lemma {:induction false} NothingToAdd(h: Hub, h': Hub, f: nat, hash: string, policy: seq<string>, added: seq<Task>)
    requires h'.tasks == h.tasks + added
    requires forall i :: 0 <= i < |PipelineRepairs(h, f, hash, policy)| ==> PipelineRepairs(h, f, hash, policy)[i] in added
    ensures PipelineRepairs(h', f, hash, policy) == []
    decreases |policy|
  {
    if policy != [] {
      var key := ReplicaRepair(f, hash, policy[0]);
      var all, rest := PipelineRepairs(h, f, hash, policy), PipelineRepairs(h, f, hash, policy[1..]);
      forall i | 0 <= i < |rest| ensures rest[i] in added {
        assert rest[i] == all[i + |all| - |rest|];
      }
      NothingToAdd(h, h', f, hash, policy[1..], added);
      if FindTask(h.tasks, key).None? {
        assert all[0] in added;
        var i :| 0 <= i < |added| && added[i] == all[0];
        assert h'.tasks[|h.tasks| + i].key == key;
      } else {
        assert h'.tasks[FindTask(h.tasks, key).value].key == key;
      }
    }
  }

  // ----- any prefix, then everything -----------------------------------------------------------

  /** The first `n` nodes, one after another. */
  function Staged(cfg: Config, h: Hub, n: nat, f: nat, hash: string, content: Option<string>): Outcome
    requires n <= |PIPELINE|
  {
    if n == 0 then Outcome(h, true)
    else
      var o := Staged(cfg, h, n - 1, f, hash, content);
      if o.ok then RunNode(cfg, o.hub, PIPELINE[n - 1], f, hash, content) else o
  }

  lemma {:induction false} RunPrefix(cfg: Config, h: Hub, n: nat, f: nat, hash: string, content: Option<string>)
    requires n <= |PIPELINE|
    ensures RunNodes(cfg, h, PIPELINE[..n], f, hash, content) == Staged(cfg, h, n, f, hash, content)
    decreases n
  {
    if n > 0 {
      RunPrefix(cfg, h, n - 1, f, hash, content);
      RunSnoc(cfg, h, PIPELINE[..n - 1], PIPELINE[n - 1], f, hash, content);
      assert PIPELINE[..n - 1] + [PIPELINE[n - 1]] == PIPELINE[..n];
    }
  }

  lemma {:induction false} RunSnoc(cfg: Config, h: Hub, nodes: seq<Node>, last: Node, f: nat, hash: string, content: Option<string>)
    ensures var o := RunNodes(cfg, h, nodes, f, hash, content);
      RunNodes(cfg, h, nodes + [last], f, hash, content) == if o.ok then RunNode(cfg, o.hub, last, f, hash, content) else o
    decreases |nodes|
  {
    if nodes == [] {
      assert ([] + [last])[1..] == [];
    } else {
      assert (nodes + [last])[1..] == nodes[1..] + [last];
      var o := RunNode(cfg, h, nodes[0], f, hash, content);
      if o.ok {
        RunSnoc(cfg, o.hub, nodes[1..], last, f, hash, content);
      }
    }
  }

  /** The whole pipeline, node by node. */
  function Whole(cfg: Config, h: Hub, f: nat, hash: string, content: Option<string>): Outcome {
    var o1 := RunRegisterNode(h, f, hash);
    if !o1.ok then o1
    else
      var o2 := RunParseNode(cfg, o1.hub, f, hash, content);
      if !o2.ok then o2
      else RunReplicaNode(cfg, RunEmbedNode(cfg, o2.hub, f, hash).hub, f, hash)
  }

  lemma RunNodesIsWhole(cfg: Config, h: Hub, f: nat, hash: string, content: Option<string>)
    ensures RunNodes(cfg, h, PIPELINE, f, hash, content) == Whole(cfg, h, f, hash, content)
  {
    RunPrefixes(cfg, h, f, hash, content);
  }

  lemma RunPrefixes(cfg: Config, h: Hub, f: nat, hash: string, content: Option<string>)
    ensures var o1 := RunRegisterNode(h, f, hash);
      var o2 := if o1.ok then RunParseNode(cfg, o1.hub, f, hash, content) else o1;
      var o3 := if o2.ok then RunEmbedNode(cfg, o2.hub, f, hash) else o2;
      && RunNodes(cfg, h, PIPELINE[..0], f, hash, content) == Outcome(h, true)
      && RunNodes(cfg, h, PIPELINE[..1], f, hash, content) == o1
      && RunNodes(cfg, h, PIPELINE[..2], f, hash, content) == o2
      && RunNodes(cfg, h, PIPELINE[..3], f, hash, content) == o3
      && RunNodes(cfg, h, PIPELINE[..4], f, hash, content) == RunNodes(cfg, h, PIPELINE, f, hash, content)
         == if o3.ok then RunReplicaNode(cfg, o3.hub, f, hash) else o3
  {
    var o1 := RunRegisterNode(h, f, hash);
    var o2 := if o1.ok then RunParseNode(cfg, o1.hub, f, hash, content) else o1;
    assert Staged(cfg, h, 1, f, hash, content) == o1 by {
      assert Staged(cfg, h, 0, f, hash, content) == Outcome(h, true);
    }
    assert Staged(cfg, h, 2, f, hash, content) == o2;
    assert Staged(cfg, h, 3, f, hash, content) == if o2.ok then RunEmbedNode(cfg, o2.hub, f, hash) else o2;
    forall n | 0 <= n <= 4 {
      RunPrefix(cfg, h, n, f, hash, content);
    }
    assert PIPELINE[..4] == PIPELINE;
  }

  /** From any state the pipeline passes through, running it all again ends where it would have. */
  lemma WholeAfterRegister(cfg: Config, h: Hub, f: nat, hash: string, content: Option<string>)
    ensures Whole(cfg, RunRegisterNode(h, f, hash).hub, f, hash, content) == Whole(cfg, h, f, hash, content)
  {
    if RunRegisterNode(h, f, hash).ok {
      RegisterLeaves(h, f, hash);
      RegisterIsDone(RunRegisterNode(h, f, hash).hub, f, hash);
    }
  }

  /** `h'` is what a run after a successful parse may have made of the parsed state `h2`. */
  ghost predicate PastParse(h2: Hub, h': Hub, f: nat) {
    && h'.files == h2.files && h' == h2.(chunks := h'.chunks, tasks := h'.tasks)
    && (f in h2.chunks <==> f in h'.chunks)
    && (f in h2.chunks ==> h'.chunks == h2.chunks[f := h'.chunks[f]])
    && (f !in h2.chunks ==> h'.chunks == h2.chunks)
  }

  lemma WholeAfterParse(cfg: Config, h: Hub, h': Hub, f: nat, hash: string, content: Option<string>)
    requires RunRegisterNode(h, f, hash).ok && RunParseNode(cfg, RunRegisterNode(h, f, hash).hub, f, hash, content).ok
    requires PastParse(RunParseNode(cfg, RunRegisterNode(h, f, hash).hub, f, hash, content).hub, h', f)
    ensures var h2 := RunParseNode(cfg, RunRegisterNode(h, f, hash).hub, f, hash, content).hub;
      Whole(cfg, h', f, hash, content) ==
      RunReplicaNode(cfg, RunEmbedNode(cfg, if content.None? then h' else h2.(tasks := h'.tasks), f, hash).hub, f, hash)
  {
    var h1 := RunRegisterNode(h, f, hash).hub;
    var h2 := RunParseNode(cfg, h1, f, hash, content).hub;
    RegisterLeaves(h, f, hash);
    RegisterIsDone(h', f, hash);
    if content.Some? {
      ParseAgain(cfg, h1, h', f, hash, content);
      assert h'.(chunks := h2.chunks) == h2.(tasks := h'.tasks);
    }
  }

  lemma EmbedIgnoresTasks(cfg: Config, h: Hub, tasks: seq<Task>, f: nat, hash: string)
    ensures RunEmbedNode(cfg, h.(tasks := tasks), f, hash).hub == RunEmbedNode(cfg, h, f, hash).hub.(tasks := tasks)
  {}

  // ----- a second run whose embedding service answers differently ----------------------------------

  lemma ParseIgnoresEmbedding(a: Config, b: Config, h: Hub, f: nat, hash: string, content: Option<string>)
    requires SameButEmbedding(a, b)
    ensures RunParseNode(b, h, f, hash, content) == RunParseNode(a, h, f, hash, content)
  {
    assert Parsable(b, h, f, hash, content) == Parsable(a, h, f, hash, content);
    forall hash, pieces ensures ChunkRows(b, hash, pieces) == ChunkRows(a, hash, pieces) {}
  }

  lemma EmbedOver(a: Config, b: Config, h: Hub, f: nat, hash: string)
    ensures RunEmbedNode(b, RunEmbedNode(a, h, f, hash).hub, f, hash) == RunEmbedNode(b, h, f, hash)
  {
    if HasRows(h, f, hash) {
      var rows := ChunksOf(h, f);
      EmbedKeepsSelection(a, rows, hash);
      assert EmbedRows(b, EmbedRows(a, rows, hash), hash) == EmbedRows(b, rows, hash);
    }
  }

  lemma {:induction false} RepairsIgnoreChunks(h: Hub, h': Hub, f: nat, hash: string, policy: seq<string>)
    requires h'.tasks == h.tasks
    ensures PipelineRepairs(h', f, hash, policy) == PipelineRepairs(h, f, hash, policy)
    decreases |policy|
  {
    if policy != [] {
      RepairsIgnoreChunks(h, h', f, hash, policy[1..]);
    }
  }

  lemma ReplicaIgnoresChunks(a: Config, b: Config, h: Hub, h': Hub, f: nat, hash: string)
    requires SameButEmbedding(a, b) && h' == h.(chunks := h'.chunks)
    ensures var o := RunReplicaNode(a, h, f, hash);
      RunReplicaNode(b, h', f, hash) == Outcome(o.hub.(chunks := h'.chunks), o.ok)
  {
    RepairsIgnoreChunks(h, h', f, hash, a.replicaNodes);
  }

  lemma WholeAfterEmbed(a: Config, b: Config, h: Hub, f: nat, hash: string, content: Option<string>)
    requires SameButEmbedding(a, b) && RunRegisterNode(h, f, hash).ok
    requires RunParseNode(b, RunRegisterNode(h, f, hash).hub, f, hash, content).ok
    ensures var h2 := RunParseNode(b, RunRegisterNode(h, f, hash).hub, f, hash, content).hub;
      var h3 := RunEmbedNode(a, h2, f, hash).hub;
      && Whole(b, h2, f, hash, content) == Whole(b, h, f, hash, content)
      && Whole(b, h3, f, hash, content) == Whole(b, h, f, hash, content)
  {
    var h2 := RunParseNode(b, RunRegisterNode(h, f, hash).hub, f, hash, content).hub;
    var h3 := RunEmbedNode(a, h2, f, hash).hub;
    EmbedAgain(a, h2, f, hash);
    EmbedOver(a, b, h2, f, hash);
    assert f in h2.chunks ==> h2.chunks == h2.chunks[f := h2.chunks[f]];
    WholeAfterParse(b, h, h2, f, hash, content);
    WholeAfterParse(b, h, h3, f, hash, content);
    assert h2.(tasks := h2.tasks) == h2;
  }

  lemma WholeAfterReplica(a: Config, b: Config, h: Hub, f: nat, hash: string, content: Option<string>)
    requires SameButEmbedding(a, b) && RunRegisterNode(h, f, hash).ok
    requires RunParseNode(b, RunRegisterNode(h, f, hash).hub, f, hash, content).ok
    requires var h2 := RunParseNode(b, RunRegisterNode(h, f, hash).hub, f, hash, content).hub;
      RunReplicaNode(a, RunEmbedNode(a, h2, f, hash).hub, f, hash).ok
    ensures var h2 := RunParseNode(b, RunRegisterNode(h, f, hash).hub, f, hash, content).hub;
      Whole(b, RunReplicaNode(a, RunEmbedNode(a, h2, f, hash).hub, f, hash).hub, f, hash, content) == Whole(b, h, f, hash, content)
  {
    var h2 := RunParseNode(b, RunRegisterNode(h, f, hash).hub, f, hash, content).hub;
    var h3 := RunEmbedNode(a, h2, f, hash).hub;
    var h4 := RunReplicaNode(a, h3, f, hash).hub;
    var k3 := RunEmbedNode(b, h2, f, hash).hub;
    EmbedAgain(a, h2, f, hash);
    EmbedAgain(b, h2, f, hash);
    EmbedOver(a, b, h2, f, hash);
    WholeAfterParse(b, h, h4, f, hash, content);
    EmbedIgnoresTasks(b, h2, h4.tasks, f, hash);
    EmbedIgnoresTasks(b, h3, h4.tasks, f, hash);
    assert h3.(tasks := h4.tasks) == h4;
    ReplicaIgnoresChunks(a, b, h3, k3, f, hash);
    ReplicaAgain(b, k3, f, hash);
    assert k3.(tasks := h4.tasks) == RunReplicaNode(b, k3, f, hash).hub;
  }

  /** Running any prefix of the pipeline and then all of it leaves the records, chunks, embeddings and
      tasks of one full run, and raises exactly when that does; a prefix may itself stop at a raise.
      The full run is the second one's: what the embedding service answered before does not matter. */
  lemma ReplayIsHarmless(a: Config, b: Config, h: Hub, n: nat, f: nat, hash: string, content: Option<string>)
    requires n <= |PIPELINE| && SameButEmbedding(a, b)
    ensures RunNodes(b, RunNodes(a, h, PIPELINE[..n], f, hash, content).hub, PIPELINE, f, hash, content) ==
            RunNodes(b, h, PIPELINE, f, hash, content)
  {
    var h' := RunNodes(a, h, PIPELINE[..n], f, hash, content).hub;
    RunNodesIsWhole(b, h, f, hash, content);
    RunNodesIsWhole(b, h', f, hash, content);
    RunPrefixes(a, h, f, hash, content);
    assert n == 0 || n == 1 || n == 2 || n == 3 || n == 4;
    var o1 := RunRegisterNode(h, f, hash);
    if o1.ok {
      WholeAfterRegister(b, h, f, hash, content);
      ParseIgnoresEmbedding(a, b, o1.hub, f, hash, content);
      var o2 := RunParseNode(b, o1.hub, f, hash, content);
      if o2.ok {
        EmbedAgain(a, o2.hub, f, hash);
        WholeAfterEmbed(a, b, h, f, hash, content);
        if RunReplicaNode(a, RunEmbedNode(a, o2.hub, f, hash).hub, f, hash).ok {
          WholeAfterReplica(a, b, h, f, hash, content);
        }
      }
    }
  }

  /** So every orchestration mode, and the fallback after a graph run that failed anywhere, leaves
      one full run: of the graph if it ended well, else of the run that came last. */
  lemma OrchestrationModesAgree(cfg: Config, later: Config, h: Hub, f: nat, hash: string, content: Option<string>,
                                graph: bool, reached: nat, graphFails: bool)
    requires reached <= |PIPELINE| && SameButEmbedding(cfg, later)
    ensures var endedWell := reached == |PIPELINE| && !graphFails && RunNodes(cfg, h, PIPELINE, f, hash, content).ok;
      RunFilePipeline(cfg, later, h, f, hash, content, graph, reached, graphFails) ==
        RunNodes(if graph && !endedWell then later else cfg, h, PIPELINE, f, hash, content)
  {
    ReplayIsHarmless(cfg, later, h, reached, f, hash, content);
    assert PIPELINE[..|PIPELINE|] == PIPELINE;
  }
}
