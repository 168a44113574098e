/** Search on the center's tables: which rows are ranked, what a search changes, and what repeating it returns. */
module SearchRuns {
  import opened Wrappers
  import opened Rows
  import opened Files
  import opened Search
  import opened Centers
  import opened Similarity
  import Lineage
  import Runs
  import TextSplit

  /** Which chunks of which files a search lets through: the files of the wanted category, and the
      rows whose stored vector can be read. */
  type Filter = (nat, nat) -> bool

  predicate Ranked(f: nat, row: Chunk, hash: string, admits: Filter) {
    row.fileHash == hash && row.embedding.Some? && admits(f, row.index)
  }

  /** A file's rows of the given version that carry an embedding and are let through. */
  function RowsFor(f: nat, rows: seq<Chunk>, hash: string, admits: Filter): seq<Candidate> {
    if rows == [] then []
    else
      var row := rows[|rows| - 1];
      RowsFor(f, rows[..|rows| - 1], hash, admits)
        + (if Ranked(f, row, hash, admits) then [Candidate(f, row.index, row.embedding.value.vector, row.hits)] else [])
  }

  /** The rows a search ranks, of the first `n` files. */
  function CandidatesTo(h: Hub, admits: Filter, n: nat): seq<Candidate>
    requires n <= |h.files|
  {
    if n == 0 then []
    else
      CandidatesTo(h, admits, n - 1) + (if h.files[n - 1].alive then RowsFor(n - 1, ChunksOf(h, n - 1), h.files[n - 1].hash, admits) else [])
  }

  function Candidates(h: Hub, admits: Filter): seq<Candidate> {
    CandidatesTo(h, admits, |h.files|)
  }

  function SearchOnce(b: Boost, query: seq<real>, admits: Filter, k: nat, h: Hub): Hub {
    RecordHits(h, KeysOf(Top(b, query, Candidates(h, admits), k)))
  }

  function SearchTimes(b: Boost, query: seq<real>, admits: Filter, k: nat, h: Hub, times: nat): Hub {
    if times == 0 then h else SearchOnce(b, query, admits, k, SearchTimes(b, query, admits, k, h, times - 1))
  }

  // ----- counting hits is bumping candidates ------------------------------------------------

  function Hit(f: nat, rows: seq<Chunk>, returned: set<(nat, nat)>): seq<Chunk> {
    seq(|rows|, i requires 0 <= i < |rows| => if (f, rows[i].index) in returned then rows[i].(hits := rows[i].hits + 1) else rows[i])
  }

  lemma BumpConcat(a: seq<Candidate>, c: seq<Candidate>, s: set<(nat, nat)>)
    ensures Bump(a + c, s) == Bump(a, s) + Bump(c, s)
  {}

  lemma {:induction false} RowsForHit(f: nat, rows: seq<Chunk>, hash: string, admits: Filter, s: set<(nat, nat)>)
    ensures RowsFor(f, Hit(f, rows, s), hash, admits) == Bump(RowsFor(f, rows, hash, admits), s)
  {
    if rows != [] {
      var before, row := rows[..|rows| - 1], rows[|rows| - 1];
      RowsForHit(f, before, hash, admits, s);
      assert Hit(f, rows, s)[..|rows| - 1] == Hit(f, before, s);
      var last := if Ranked(f, row, hash, admits) then [Candidate(f, row.index, row.embedding.value.vector, row.hits)] else [];
      BumpConcat(RowsFor(f, before, hash, admits), last, s);
    }
  }

  lemma {:induction false} HitsAreBumps(h: Hub, admits: Filter, s: set<(nat, nat)>, n: nat)
    requires n <= |h.files|
    ensures CandidatesTo(RecordHits(h, s), admits, n) == Bump(CandidatesTo(h, admits, n), s)
  {
    if n > 0 {
      HitsAreBumps(h, admits, s, n - 1);
      var f := n - 1;
      assert ChunksOf(RecordHits(h, s), f) == Hit(f, ChunksOf(h, f), s);
      RowsForHit(f, ChunksOf(h, f), h.files[f].hash, admits, s);
      var last := if h.files[f].alive then RowsFor(f, ChunksOf(h, f), h.files[f].hash, admits) else [];
      BumpConcat(CandidatesTo(h, admits, f), last, s);
    }
  }

  lemma {:induction false} SearchesAreRepeated(b: Boost, query: seq<real>, admits: Filter, k: nat, h: Hub, times: nat)
    ensures Candidates(SearchTimes(b, query, admits, k, h, times), admits) == Repeated(b, query, Candidates(h, admits), k, times)
    ensures SearchTimes(b, query, admits, k, h, times).files == h.files
  {
    if times > 0 {
      SearchesAreRepeated(b, query, admits, k, h, times - 1);
      var before := SearchTimes(b, query, admits, k, h, times - 1);
      HitsAreBumps(before, admits, KeysOf(Top(b, query, Candidates(before, admits), k)), |h.files|);
    }
  }

  // ----- candidates have distinct keys ---------------------------------------------------------

  lemma {:induction false} RowKeys(f: nat, rows: seq<Chunk>, hash: string, admits: Filter)
    requires forall i :: 0 <= i < |rows| ==> rows[i].index == i
    ensures DistinctCandidates(RowsFor(f, rows, hash, admits))
    ensures forall c :: c in RowsFor(f, rows, hash, admits) ==> c.file == f && c.index < |rows|
  {
    if rows != [] {
      RowKeys(f, rows[..|rows| - 1], hash, admits);
    }
  }

  lemma {:induction false} CandidateKeys(h: Hub, admits: Filter, n: nat)
    requires n <= |h.files|
    requires forall f :: f in h.chunks ==> forall i :: 0 <= i < |h.chunks[f]| ==> h.chunks[f][i].index == i
    ensures DistinctCandidates(CandidatesTo(h, admits, n))
    ensures forall c :: c in CandidatesTo(h, admits, n) ==> c.file < n
  {
    if n > 0 {
      CandidateKeys(h, admits, n - 1);
      RowKeys(n - 1, ChunksOf(h, n - 1), h.files[n - 1].hash, admits);
    }
  }

  lemma ReachableKeys(cfg: Config, events: seq<Runs.Event>, admits: Filter)
    ensures DistinctCandidates(Candidates(Runs.Run(cfg, Runs.Init, events).hub, admits))
  {
    var h := Runs.Run(cfg, Runs.Init, events).hub;
    Lineage.RunIsTraced(cfg, Runs.Init, events);
    forall f | f in h.chunks ensures forall i :: 0 <= i < |h.chunks[f]| ==> h.chunks[f][i].index == i {
      var content :| Lineage.RowsOf(cfg, h.chunks[f], h.files[f].hash, content);
    }
    CandidateKeys(h, admits, |h.files|);
  }

  /** From every reachable state of the center, repeating a query any number of times returns the
      same set of chunks each time, unless boosting is on with a negative weight. */
  lemma SearchIsStableUnderFeedback(cfg: Config, events: seq<Runs.Event>, b: Boost, query: seq<real>, admits: Filter, k: nat, times: nat)
    requires IsRoot(b.root) && IsLog(b.log1p) && (!b.enabled || b.weight >= 0.0)
    ensures var h := Runs.Run(cfg, Runs.Init, events).hub;
      KeysOf(Top(b, query, Candidates(SearchTimes(b, query, admits, k, h, times), admits), k)) == KeysOf(Top(b, query, Candidates(h, admits), k))
  {
    var h := Runs.Run(cfg, Runs.Init, events).hub;
    ReachableKeys(cfg, events, admits);
    SearchesAreRepeated(b, query, admits, k, h, times);
    RepeatedSearchIsStable(b, query, Candidates(h, admits), k, times);
  }

  lemma {:induction false} RowsForAreRows(f: nat, rows: seq<Chunk>, hash: string, admits: Filter, c: Candidate)
    requires c in RowsFor(f, rows, hash, admits)
    ensures c.file == f && admits(f, c.index) && exists i :: 0 <= i < |rows| && rows[i].index == c.index
  {
    var last := |rows| - 1;
    if c in RowsFor(f, rows[..last], hash, admits) {
      RowsForAreRows(f, rows[..last], hash, admits, c);
      var i :| 0 <= i < last && rows[..last][i].index == c.index;
      assert rows[i].index == c.index;
    } else {
      assert rows[last].index == c.index;
    }
  }

  lemma {:induction false} CandidateRow(h: Hub, admits: Filter, n: nat, c: Candidate)
    requires n <= |h.files| && c in CandidatesTo(h, admits, n)
    ensures c.file < n && h.files[c.file].alive && admits(c.file, c.index)
    ensures exists i :: 0 <= i < |ChunksOf(h, c.file)| && ChunksOf(h, c.file)[i].index == c.index
  {
    var f := n - 1;
    if c in CandidatesTo(h, admits, f) {
      CandidateRow(h, admits, f, c);
    } else {
      RowsForAreRows(f, ChunksOf(h, f), h.files[f].hash, admits, c);
    }
  }

  // ----- hits are what searches have returned ---------------------------------------------------

  /** A search adds one hit to each chunk row it returned and changes nothing else. */
  lemma SearchCountsOnce(cfg: Config, w: Runs.World, returned: set<(nat, nat)>)
    ensures var h, w' := w.hub, Runs.Step(cfg, w, Runs.Search(returned)); var h' := w'.hub;
      && w' == w.(hub := h.(chunks := h'.chunks)) && h'.chunks.Keys == h.chunks.Keys
      && (forall f :: f in h.chunks ==> |h'.chunks[f]| == |h.chunks[f]|)
      && (forall f, i :: f in h.chunks && 0 <= i < |h.chunks[f]| ==>
          h'.chunks[f][i] == h.chunks[f][i].(hits := h.chunks[f][i].hits + if (f, h.chunks[f][i].index) in returned then 1 else 0))
  {}

  function SearchEvents(results: seq<set<(nat, nat)>>): seq<Runs.Event> {
    if results == [] then [] else [Runs.Search(results[0])] + SearchEvents(results[1..])
  }

  /** In how many of the results a chunk is. */
  function Returns(results: seq<set<(nat, nat)>>, key: (nat, nat)): nat {
    if results == [] then 0 else (if key in results[0] then 1 else 0) + Returns(results[1..], key)
  }

  /** After any searches a row's hits have grown by the number of results it was in. */
  lemma {:induction false} HitsAreReturns(cfg: Config, w: Runs.World, results: seq<set<(nat, nat)>>, f: nat, i: nat)
    requires f in w.hub.chunks && i < |w.hub.chunks[f]|
    ensures var h' := Runs.Run(cfg, w, SearchEvents(results)).hub; var row := w.hub.chunks[f][i];
      && f in h'.chunks && |h'.chunks[f]| == |w.hub.chunks[f]|
      && h'.chunks[f][i] == row.(hits := row.hits + Returns(results, (f, row.index)))
    decreases |results|
  {
    if results != [] {
      SearchCountsOnce(cfg, w, results[0]);
      HitsAreReturns(cfg, Runs.Step(cfg, w, Runs.Search(results[0])), results[1..], f, i);
      Runs.RunCons(cfg, w, Runs.Search(results[0]), SearchEvents(results[1..]));
    }
  }

  /** In every reachable state each row a search ranks is a chunk of one text that has the hash of
      its record, the record is alive, and the filter lets the chunk through. */
  lemma SearchSeesTheRecordedText(cfg: Config, events: seq<Runs.Event>, admits: Filter, c: Candidate)
    requires c in Candidates(Runs.Run(cfg, Runs.Init, events).hub, admits)
    ensures var h := Runs.Run(cfg, Runs.Init, events).hub;
      && c.file < |h.files| && h.files[c.file].alive && admits(c.file, c.index) && c.index < |ChunksOf(h, c.file)|
      && exists content :: Lineage.RowsOf(cfg, ChunksOf(h, c.file), h.files[c.file].hash, content)
  {
    var h := Runs.Run(cfg, Runs.Init, events).hub;
    CandidateRow(h, admits, |h.files|, c);
    Lineage.ChunkLineage(cfg, events, c.file);
    var content :| Lineage.RowsOf(cfg, ChunksOf(h, c.file), h.files[c.file].hash, content);
    var i :| 0 <= i < |ChunksOf(h, c.file)| && ChunksOf(h, c.file)[i].index == c.index;
  }

  // ----- the search itself -------------------------------------------------------------------------

  predicate IsBlank(text: string) {
    TextSplit.Strip(text) == ""
  }

  method SearchKnowledge(db: Center, b: Boost, text: string, admits: Filter, k: nat) returns (r: Result<seq<Scored>>)
    modifies db`chunks
    ensures IsBlank(text) ==> r == Raised && db.State() == old(db.State())
    ensures !IsBlank(text) ==>
      var query := db.cfg.embed(text).vector;
      r == Ok(Top(b, query, Candidates(old(db.State()), admits), k)) && db.State() == SearchOnce(b, query, admits, k, old(db.State()))
    ensures r.Ok? && IsRoot(b.root) && DistinctCandidates(Candidates(old(db.State()), admits)) ==>
      NearestReturned(b, db.cfg.embed(text).vector, Candidates(old(db.State()), admits), KeysOf(r.value))
  {
    if IsBlank(text) {
      return Raised;
    }
    var query := db.cfg.embed(text).vector;
    var rows := Candidates(db.State(), admits);
    var scored := [];
    for i := 0 to |rows|
      invariant scored == ScoreAll(b, query, rows[..i])
    {
      assert rows[..i + 1] == rows[..i] + [rows[i]];
      var base := Cosine(b.root, query, rows[i].vector);
      scored := scored + [Scored(Boosted(b, base, rows[i].hits), rows[i])];
    }
    assert rows[..|rows|] == rows;
    var hits := Take(Sort(scored), k);
    if IsRoot(b.root) && DistinctCandidates(rows) {
      ReturnedAreNearest(b, query, rows, k);
    }
    db.chunks := RecordHits(db.State(), KeysOf(hits)).chunks;
    return Ok(hits);
  }
}
