/**
 The edge agent's offline upload queue: an entry is a data file written first and a JSON file
 written second; flushing uploads an entry and removes the JSON file first and the data file second.
 Writers and flushers run side by side, any file operation may be the last one before a crash,
 and a file whose writing was cut short is torn and does not parse.
 */
module OfflineQueue {
  import opened Wrappers

  datatype Item = Item(name: string, category: string, sha256: string, syncDify: bool, dataFile: string)

  datatype File<T> = Torn | Whole(content: T)

  /** The `.json` and the `.data` files of the queue directory, by id. */
  datatype Disk = Disk(json: map<string, File<Item>>, data: map<string, File<string>>)

  datatype Entry = Entry(item: Item, bytes: string)

  datatype Phase = WritingData | DataWritten | WritingJson

  /** A flusher between reading an entry and removing its files. */
  datatype Flusher = Holding(id: string, entry: Entry) | RemovingJson(id: string, entry: Entry) | RemovingData(id: string, entry: Entry)

  /** `started`, `completed`, `accepted` and `stuck` record what has happened: which ids writers
      took, which enqueues returned, what both center calls accepted, and which JSON files could
      not be removed. */
  datatype World = World(disk: Disk, writers: map<string, Phase>, flushers: map<nat, Flusher>,
                         started: map<string, Entry>, completed: set<string>, accepted: set<Entry>, stuck: set<string>)

  const Init := World(Disk(map[], map[]), map[], map[], map[], {}, {}, {})

  datatype Event =
    | CreateData(id: string, entry: Entry)
    | FinishData(id: string)
    | CreateJson(id: string)
    | FinishJson(id: string)
    | WriterEnds(id: string)  // with an error, or in a crash
    | Pick(p: nat, id: string)
    | Upload(p: nat, ok: bool)
    | RemoveJson(p: nat, ok: bool)
    | RemoveData(p: nat, ok: bool)
    | FlusherEnds(p: nat)

  function BytesOf(file: File<string>): string {
    if file.Whole? then file.content else ""
  }

  predicate Readable(d: Disk, id: string) {
    id in d.json && d.json[id].Whole? && d.json[id].content.dataFile in d.data
  }

  function EntryAt(d: Disk, id: string): Entry
    requires Readable(d, id)
  {
    Entry(d.json[id].content, BytesOf(d.data[d.json[id].content.dataFile]))
  }

  function Step(w: World, ev: Event): World {
    var d := w.disk;
    match ev
    case CreateData(id, entry) =>
      if id in w.started then w
      else w.(disk := d.(data := d.data[id := Torn]), writers := w.writers[id := WritingData],
              started := w.started[id := entry.(item := entry.item.(dataFile := id))])
    case FinishData(id) =>
      if id !in w.writers || w.writers[id] != WritingData || id !in w.started then w
      else w.(disk := d.(data := d.data[id := Whole(w.started[id].bytes)]), writers := w.writers[id := DataWritten])
    case CreateJson(id) =>
      if id !in w.writers || w.writers[id] != DataWritten then w
      else w.(disk := d.(json := d.json[id := Torn]), writers := w.writers[id := WritingJson])
    case FinishJson(id) =>
      if id !in w.writers || w.writers[id] != WritingJson || id !in w.started then w
      else w.(disk := d.(json := d.json[id := Whole(w.started[id].item)]), writers := w.writers - {id}, completed := w.completed + {id})
    case WriterEnds(id) => w.(writers := w.writers - {id})
    case Pick(p, id) =>
      if p in w.flushers || !Readable(d, id) then w
      else w.(flushers := w.flushers[p := Holding(id, EntryAt(d, id))])
    case Upload(p, ok) =>
      if p !in w.flushers || !w.flushers[p].Holding? then w
      else if !ok then w.(flushers := w.flushers - {p})
      else w.(flushers := w.flushers[p := RemovingJson(w.flushers[p].id, w.flushers[p].entry)], accepted := w.accepted + {w.flushers[p].entry})
    case RemoveJson(p, ok) =>
      if p !in w.flushers || !w.flushers[p].RemovingJson? then w
      else
        var id := w.flushers[p].id;
        w.(disk := if ok then d.(json := d.json - {id}) else d,
           stuck := if ok then w.stuck else w.stuck + {id},
           flushers := w.flushers[p := RemovingData(id, w.flushers[p].entry)])
    case RemoveData(p, ok) =>
      if p !in w.flushers || !w.flushers[p].RemovingData? then w
      else w.(disk := if ok then d.(data := d.data - {w.flushers[p].entry.item.dataFile}) else d, flushers := w.flushers - {p})
    case FlusherEnds(p) => w.(flushers := w.flushers - {p})
  }

  function Run(w: World, events: seq<Event>): World
    decreases |events|
  {
    if events == [] then w else Run(Step(w, events[0]), events[1..])
  }

  // ----- the invariant ----------------------------------------------------------------------

  /** What the two files of an id can be. */
  ghost predicate IdHolds(w: World, id: string)
    requires id in w.started
  {
    var d, entry := w.disk, w.started[id];
    && entry.item.dataFile == id
    && (id in d.json && d.json[id].Whole? ==> d.json[id].content == entry.item && id in w.completed)
    && (id in d.data && d.data[id].Whole? ==> d.data[id].content == entry.bytes)
    && (id in d.json && id in d.data ==> d.data[id].Whole?)
    && (id in d.json && id !in d.data ==> id in w.stuck && entry in w.accepted)
    && (id in w.completed && entry !in w.accepted ==> id in d.json && d.json[id].Whole? && id in d.data)
    && (id in w.completed && id in d.json ==> d.json[id].Whole?)
    && (id in w.writers ==> id !in w.completed && id in d.data && (w.writers[id] != WritingData ==> d.data[id].Whole?))
    && (id in w.writers && w.writers[id] != WritingJson ==> id !in d.json)
  }

  /** What a flusher holds. */
  ghost predicate FlusherHolds(w: World, f: Flusher) {
    && f.id in w.started && f.id in w.completed && f.entry == w.started[f.id]
    && (!f.Holding? ==> f.entry in w.accepted)
    && (f.RemovingData? ==> f.id !in w.disk.json || f.id in w.stuck)
  }

  ghost predicate Invariant(w: World) {
    && w.disk.json.Keys <= w.started.Keys && w.disk.data.Keys <= w.started.Keys
    && w.writers.Keys <= w.started.Keys && w.completed <= w.started.Keys
    && (forall id :: id in w.started ==> IdHolds(w, id))
    && (forall p :: p in w.flushers ==> FlusherHolds(w, w.flushers[p]))
    && (forall e :: e in w.accepted ==> FromCompleted(w, e))
  }

  ghost predicate FromCompleted(w: World, e: Entry) {
    e.item.dataFile in w.completed && e.item.dataFile in w.started && w.started[e.item.dataFile] == e
  }

  /** A step that touches the files of one id, whose flushers and acceptance it leaves alone. */
  lemma OneIdStep(w: World, w': World, id: string)
    requires Invariant(w)
    requires w'.flushers == w.flushers && w'.accepted == w.accepted && w'.stuck == w.stuck
    requires forall x :: x != id ==> SameId(w, w', x)
    requires id in w'.started && IdHolds(w', id) && (id in w.started ==> w'.started[id] == w.started[id] && (id in w.completed ==> id in w'.completed))
    requires id !in w.started || id !in w.completed || (id in w'.disk.json <==> id in w.disk.json)
    ensures Invariant(w')
  {
    forall x | x in w'.started ensures IdHolds(w', x) {
      if x != id {
        assert SameId(w, w', x) && IdHolds(w, x);
      }
    }
    forall p | p in w'.flushers ensures FlusherHolds(w', w'.flushers[p]) {
      assert FlusherHolds(w, w.flushers[p]) && (w.flushers[p].id != id ==> SameId(w, w', w.flushers[p].id));
    }
    forall e | e in w'.accepted ensures FromCompleted(w', e) {
      assert FromCompleted(w, e) && (e.item.dataFile != id ==> SameId(w, w', e.item.dataFile));
    }
    forall x | x in w'.disk.json || x in w'.disk.data || x in w'.writers || x in w'.completed ensures x in w'.started {
      assert x != id ==> SameId(w, w', x);
    }
  }

  predicate SameId(w: World, w': World, x: string) {
    && (x in w'.started <==> x in w.started) && (x in w.started ==> w'.started[x] == w.started[x])
    && (x in w'.completed <==> x in w.completed)
    && (x in w'.disk.json <==> x in w.disk.json) && (x in w.disk.json ==> w'.disk.json[x] == w.disk.json[x])
    && (x in w'.disk.data <==> x in w.disk.data) && (x in w.disk.data ==> w'.disk.data[x] == w.disk.data[x])
    && (x in w'.writers <==> x in w.writers) && (x in w.writers ==> w'.writers[x] == w.writers[x])
  }

  lemma CreateDataStep(w: World, id: string, entry: Entry)
    requires Invariant(w)
    ensures Invariant(Step(w, CreateData(id, entry)))
  {
    if id !in w.started {
      OneIdStep(w, Step(w, CreateData(id, entry)), id);
    }
  }

  lemma FinishDataStep(w: World, id: string)
    requires Invariant(w)
    ensures Invariant(Step(w, FinishData(id)))
  {
    if id in w.writers && w.writers[id] == WritingData {
      assert IdHolds(w, id);
      OneIdStep(w, Step(w, FinishData(id)), id);
    }
  }

  lemma CreateJsonStep(w: World, id: string)
    requires Invariant(w)
    ensures Invariant(Step(w, CreateJson(id)))
  {
    if id in w.writers && w.writers[id] == DataWritten {
      assert IdHolds(w, id);
      OneIdStep(w, Step(w, CreateJson(id)), id);
    }
  }

  lemma FinishJsonStep(w: World, id: string)
    requires Invariant(w)
    ensures Invariant(Step(w, FinishJson(id)))
  {
    if id in w.writers && w.writers[id] == WritingJson {
      assert IdHolds(w, id);
      OneIdStep(w, Step(w, FinishJson(id)), id);
    }
  }

  lemma WriterEndsStep(w: World, id: string)
    requires Invariant(w)
    ensures Invariant(Step(w, WriterEnds(id)))
  {
    if id in w.writers {
      assert IdHolds(w, id);
      OneIdStep(w, Step(w, WriterEnds(id)), id);
    }
  }

  lemma PickStep(w: World, ev: Event)
    requires Invariant(w) && (ev.Pick? || ev.FlusherEnds?)
    ensures Invariant(Step(w, ev))
  {
    var w' := Step(w, ev);
    forall id | id in w'.started ensures IdHolds(w', id) {
      assert IdHolds(w, id);
    }
    if ev.Pick? && Readable(w.disk, ev.id) {
      assert IdHolds(w, ev.id);
    }
    forall p | p in w'.flushers ensures FlusherHolds(w', w'.flushers[p]) {
      assert p in w.flushers ==> FlusherHolds(w, w.flushers[p]);
    }
    forall e | e in w'.accepted ensures FromCompleted(w', e) {
      assert FromCompleted(w, e);
    }
  }

  lemma UploadStep(w: World, ev: Event)
    requires Invariant(w) && ev.Upload?
    ensures Invariant(Step(w, ev))
  {
    var w' := Step(w, ev);
    FlusherIds(w);
    assert w'.accepted >= w.accepted && w'.disk == w.disk && w'.started == w.started && w'.writers == w.writers;
    forall id | id in w'.started ensures IdHolds(w', id) {
      assert IdHolds(w, id);
    }
    forall p | p in w'.flushers ensures FlusherHolds(w', w'.flushers[p]) {
      assert p in w.flushers ==> FlusherHolds(w, w.flushers[p]);
    }
    forall e | e in w'.accepted ensures FromCompleted(w', e) {
      assert e in w.accepted ==> FromCompleted(w, e);
    }
  }

  lemma RemoveJsonStep(w: World, p: nat, ok: bool)
    requires Invariant(w)
    ensures Invariant(Step(w, RemoveJson(p, ok)))
  {
    var w' := Step(w, RemoveJson(p, ok));
    if w' != w {
      FlusherIds(w);
      assert FlusherHolds(w, w.flushers[p]);
      forall id | id in w'.started ensures IdHolds(w', id) {
        assert IdHolds(w, id);
      }
      forall e | e in w'.accepted ensures FromCompleted(w', e) {
        assert FromCompleted(w, e);
      }
    }
  }

  lemma RemoveDataStep(w: World, p: nat, ok: bool)
    requires Invariant(w)
    ensures Invariant(Step(w, RemoveData(p, ok)))
  {
    var w' := Step(w, RemoveData(p, ok));
    if w' != w {
      FlusherIds(w);
      assert FlusherHolds(w, w.flushers[p]);
      forall id | id in w'.started ensures IdHolds(w', id) {
        assert IdHolds(w, id);
      }
      forall e | e in w'.accepted ensures FromCompleted(w', e) {
        assert FromCompleted(w, e);
      }
    }
  }

  lemma FlusherIds(w: World)
    requires Invariant(w)
    ensures forall p :: p in w.flushers ==> w.flushers[p].entry.item.dataFile == w.flushers[p].id && FlusherHolds(w, w.flushers[p])
  {
    forall p | p in w.flushers ensures w.flushers[p].entry.item.dataFile == w.flushers[p].id {
      assert FlusherHolds(w, w.flushers[p]);
      assert IdHolds(w, w.flushers[p].id);
    }
  }

  lemma {:induction false} RunKeeps(w: World, events: seq<Event>)
    requires Invariant(w)
    ensures Invariant(Run(w, events))
    decreases |events|
  {
    if events != [] {
      match events[0] {
        case Pick(_, _) => PickStep(w, events[0]);
        case Upload(_, _) => UploadStep(w, events[0]);
        case RemoveJson(p, ok) => RemoveJsonStep(w, p, ok);
        case RemoveData(p, ok) => RemoveDataStep(w, p, ok);
        case FlusherEnds(_) => PickStep(w, events[0]);
        case CreateData(id, entry) => CreateDataStep(w, id, entry);
        case FinishData(id) => FinishDataStep(w, id);
        case CreateJson(id) => CreateJsonStep(w, id);
        case FinishJson(id) => FinishJsonStep(w, id);
        case WriterEnds(id) => WriterEndsStep(w, id);
      }
      RunKeeps(Step(w, events[0]), events[1..]);
    }
  }

  // ----- crash safety ------------------------------------------------------------------------------

  /** At every point of every run an enqueue that returned is still queued, whole and readable, or
      both center calls have accepted it. */
  lemma NothingIsLost(events: seq<Event>, id: string)
    requires id in Run(Init, events).completed
    ensures var w := Run(Init, events);
      && id in w.started
      && ((Readable(w.disk, id) && EntryAt(w.disk, id) == w.started[id]) || w.started[id] in w.accepted)
  {
    RunKeeps(Init, events);
    assert IdHolds(Run(Init, events), id);
  }

  /** At every point of every run a JSON file has its data file, unless its entry was accepted and
      its removal failed. */
  lemma EntriesHaveTheirData(events: seq<Event>, id: string)
    requires id in Run(Init, events).disk.json
    ensures var w := Run(Init, events); id in w.disk.data || (id in w.stuck && id in w.started && w.started[id] in w.accepted)
  {
    RunKeeps(Init, events);
    assert IdHolds(Run(Init, events), id);
  }

  /** What the center accepts is what some enqueue that returned had been given. */
  lemma OnlyWholeEntriesAreUploaded(events: seq<Event>, e: Entry)
    requires e in Run(Init, events).accepted
    ensures FromCompleted(Run(Init, events), e)
  {
    RunKeeps(Init, events);
  }

  /** Both removals ignore errors: afterwards the JSON file is left without its data exactly when
      removing it failed and removing the data did not. */
  lemma LeftWithoutDataIff(events: seq<Event>, p: nat, jsonOk: bool, dataOk: bool)
    requires var w := Run(Init, events);
      p in w.flushers && w.flushers[p].RemovingJson? && w.flushers[p].id in w.disk.json && w.flushers[p].id in w.disk.data
    ensures var w := Run(Init, events);
      var id := w.flushers[p].id;
      var d := Step(Step(w, RemoveJson(p, jsonOk)), RemoveData(p, dataOk)).disk;
      (id in d.json && id !in d.data) <==> (!jsonOk && dataOk)
  {
    RunKeeps(Init, events);
    FlusherIds(Run(Init, events));
  }

  // ----- one flush, undisturbed -----------------------------------------------------------------------

  /** What can go wrong during a flush: entries that cannot be read, entries the center does not
      accept, and files that cannot be removed. */
  datatype Faults = Faults(unreadable: set<string>, refused: set<string>, jsonStuck: set<string>, dataStuck: set<string>)

  datatype Flush = Flush(disk: Disk, uploaded: seq<Entry>, failed: bool)

  predicate Taken(d: Disk, f: Faults, id: string) {
    Readable(d, id) && id !in f.unreadable
  }

  function Removed(d: Disk, f: Faults, id: string): Disk
    requires Readable(d, id)
  {
    var dataFile := d.json[id].content.dataFile;
    Disk(if id in f.jsonStuck then d.json else d.json - {id}, if id in f.dataStuck then d.data else d.data - {dataFile})
  }

  /** The entries in name order: unreadable ones are passed over, and a refused one ends the flush. */
  function FlushFrom(d: Disk, names: seq<string>, f: Faults): Flush
    decreases |names|
  {
    if names == [] then Flush(d, [], false)
    else if !Taken(d, f, names[0]) then FlushFrom(d, names[1..], f)
    else if names[0] in f.refused then Flush(d, [], true)
    else
      var rest := FlushFrom(Removed(d, f, names[0]), names[1..], f);
      rest.(uploaded := [EntryAt(d, names[0])] + rest.uploaded)
  }

  /** Every JSON file names its own data file. */
  ghost predicate Tidy(d: Disk) {
    forall id :: id in d.json && d.json[id].Whole? ==> d.json[id].content.dataFile == id
  }

  lemma RunsAreTidy(events: seq<Event>)
    ensures Tidy(Run(Init, events).disk)
  {
    RunKeeps(Init, events);
    var w := Run(Init, events);
    forall id | id in w.disk.json && w.disk.json[id].Whole? ensures w.disk.json[id].content.dataFile == id {
      assert IdHolds(w, id);
    }
  }

  predicate Distinct(names: seq<string>) {
    forall i, j :: 0 <= i < j < |names| ==> names[i] != names[j]
  }

  predicate Stops(d: Disk, f: Faults, id: string) {
    Taken(d, f, id) && id in f.refused
  }

  /** `k` names come before the first that stops the flush. */
  ghost predicate StopsAt(d: Disk, names: seq<string>, f: Faults, k: nat) {
    && k <= |names| && (forall i :: 0 <= i < k ==> !Stops(d, f, names[i])) && (k < |names| ==> Stops(d, f, names[k]))
  }

  /** The entries that can be read, in order. */
  function TakenEntries(d: Disk, names: seq<string>, f: Faults): seq<Entry> {
    if names == [] then []
    else (if Taken(d, f, names[0]) then [EntryAt(d, names[0])] else []) + TakenEntries(d, names[1..], f)
  }

  predicate FlushedAway(d: Disk, names: seq<string>, f: Faults, id: string) {
    id in names && Taken(d, f, id)
  }

  lemma RemovingOne(d: Disk, f: Faults, id: string, names: seq<string>)
    requires Tidy(d) && Taken(d, f, id) && id !in names
    ensures var d' := Removed(d, f, id);
      && Tidy(d')
      && (forall x :: x != id ==> (x in d'.json <==> x in d.json) && (x in d'.data <==> x in d.data))
      && (forall x :: x != id && x in d.json ==> d'.json[x] == d.json[x])
      && (forall x :: x != id && x in d.data ==> d'.data[x] == d.data[x])
      && (forall x :: x != id ==> (Taken(d', f, x) <==> Taken(d, f, x)) && (Taken(d, f, x) ==> EntryAt(d', x) == EntryAt(d, x)))
      && TakenEntries(d', names, f) == TakenEntries(d, names, f)
  {
    var d' := Removed(d, f, id);
    forall x | x != id ensures (Taken(d', f, x) <==> Taken(d, f, x)) && (Taken(d, f, x) ==> EntryAt(d', x) == EntryAt(d, x)) {
    }
    SameTaken(d, d', names, f);
  }

  lemma {:induction false} SameTaken(d: Disk, d': Disk, names: seq<string>, f: Faults)
    requires forall x :: x in names ==> (Taken(d', f, x) <==> Taken(d, f, x)) && (Taken(d, f, x) ==> EntryAt(d', x) == EntryAt(d, x))
    ensures TakenEntries(d', names, f) == TakenEntries(d, names, f)
  {
    if names != [] {
      assert forall x :: x in names[1..] ==> x in names;
      SameTaken(d, d', names[1..], f);
    }
  }

  /** A flush fails exactly when an entry it reaches is refused.  By then it has uploaded, in name
      order, exactly the readable entries before it, and removed their files as far as they can be
      removed; every other file is as it was. */
  lemma {:induction false} FlushStopsAtTheRefused(d: Disk, names: seq<string>, f: Faults, k: nat)
    requires Tidy(d) && Distinct(names) && StopsAt(d, names, f, k)
    ensures var r := FlushFrom(d, names, f);
      && (r.failed <==> k < |names|)
      && r.uploaded == TakenEntries(d, names[..k], f)
      && (forall id :: id in r.disk.json <==> id in d.json && (FlushedAway(d, names[..k], f, id) ==> id in f.jsonStuck))
      && (forall id :: id in r.disk.data <==> id in d.data && (FlushedAway(d, names[..k], f, id) ==> id in f.dataStuck))
      && (forall id :: id in r.disk.json ==> r.disk.json[id] == d.json[id])
      && (forall id :: id in r.disk.data ==> r.disk.data[id] == d.data[id])
    decreases |names|
  {
    if names != [] {
      var rest := names[1..];
      if k == 0 {
        assert names[..0] == [];
      } else {
        assert names[..k][0] == names[0] && names[..k][1..] == rest[..k - 1];
        assert names[..k] == [names[0]] + rest[..k - 1];
        assert !Stops(d, f, names[0]);
        forall i | 0 <= i < k - 1 ensures !Stops(d, f, rest[i]) {
          assert rest[i] == names[i + 1];
        }
        if Taken(d, f, names[0]) {
          var d' := Removed(d, f, names[0]);
          RemovingOne(d, f, names[0], rest[..k - 1]);
          FlushStopsAtTheRefused(d', rest, f, k - 1);
        } else {
          FlushStopsAtTheRefused(d, rest, f, k - 1);
        }
      }
    }
  }

  // ----- an undisturbed flush is a run of the steps above ------------------------------------------------

  function FlushEvents(d: Disk, names: seq<string>, f: Faults, p: nat): seq<Event>
    decreases |names|
  {
    if names == [] then []
    else if !Taken(d, f, names[0]) then FlushEvents(d, names[1..], f, p)
    else if names[0] in f.refused then [Pick(p, names[0]), Upload(p, false)]
    else EntryEvents(f, names[0], p) + FlushEvents(Removed(d, f, names[0]), names[1..], f, p)
  }

  function EntryEvents(f: Faults, id: string, p: nat): seq<Event> {
    [Pick(p, id), Upload(p, true), RemoveJson(p, id !in f.jsonStuck), RemoveData(p, id !in f.dataStuck)]
  }

  lemma {:induction false} RunConcat(w: World, a: seq<Event>, b: seq<Event>)
    ensures Run(w, a + b) == Run(Run(w, a), b)
    decreases |a|
  {
    if a == [] {
      assert [] + b == b;
    } else {
      assert (a + b)[0] == a[0] && (a + b)[1..] == a[1..] + b;
      RunConcat(Step(w, a[0]), a[1..], b);
    }
  }

  lemma TwoSteps(w: World, a: Event, b: Event)
    ensures Run(w, [a, b]) == Step(Step(w, a), b)
  {
    assert [a, b][1..] == [b] && [b][1..] == [];
    var w2 := Step(Step(w, a), b);
    assert Run(w2, []) == w2;
  }

  lemma FourSteps(w: World, a: Event, b: Event, c: Event, d: Event)
    ensures Run(w, [a, b, c, d]) == Step(Step(Step(Step(w, a), b), c), d)
  {
    assert [a, b] + [c, d] == [a, b, c, d];
    RunConcat(w, [a, b], [c, d]);
    TwoSteps(w, a, b);
    TwoSteps(Step(Step(w, a), b), c, d);
  }

  lemma OneEntry(w: World, f: Faults, id: string, p: nat)
    requires p !in w.flushers && Readable(w.disk, id)
    ensures var w' := Run(w, EntryEvents(f, id, p));
      && w'.disk == Removed(w.disk, f, id) && w'.flushers == w.flushers
      && w'.accepted == w.accepted + {EntryAt(w.disk, id)}
  {
    var es := EntryEvents(f, id, p);
    FourSteps(w, es[0], es[1], es[2], es[3]);
    assert Run(w, es).flushers == w.flushers;
  }

  function SetOf(entries: seq<Entry>): set<Entry> {
    set e | e in entries
  }

  lemma {:induction false} FlushIsARun(w: World, names: seq<string>, f: Faults, p: nat)
    requires p !in w.flushers
    ensures var w', r := Run(w, FlushEvents(w.disk, names, f, p)), FlushFrom(w.disk, names, f);
      w'.disk == r.disk && w'.flushers == w.flushers && w'.accepted == w.accepted + SetOf(r.uploaded)
    decreases |names|
  {
    if names == [] {
    } else if !Taken(w.disk, f, names[0]) {
      FlushIsARun(w, names[1..], f, p);
    } else if names[0] in f.refused {
      TwoSteps(w, Pick(p, names[0]), Upload(p, false));
      assert Step(Step(w, Pick(p, names[0])), Upload(p, false)).flushers == w.flushers;
    } else {
      var es := EntryEvents(f, names[0], p);
      var w1 := Run(w, es);
      OneEntry(w, f, names[0], p);
      FlushIsARun(w1, names[1..], f, p);
      RunConcat(w, es, FlushEvents(w1.disk, names[1..], f, p));
      var r := FlushFrom(w1.disk, names[1..], f);
      assert SetOf([EntryAt(w.disk, names[0])] + r.uploaded) == {EntryAt(w.disk, names[0])} + SetOf(r.uploaded);
    }
  }

  // ----- an enqueue ------------------------------------------------------------------------------------------

  /** How far an enqueue gets before an error. */
  datatype Progress = NoDirectory | DataCutShort | JsonCutShort | Queued

  function Enqueued(d: Disk, id: string, entry: Entry, progress: Progress): Disk {
    match progress
    case NoDirectory => d
    case DataCutShort => d.(data := d.data[id := Torn])
    case JsonCutShort => Disk(d.json[id := Torn], d.data[id := Whole(entry.bytes)])
    case Queued => Disk(d.json[id := Whole(entry.item.(dataFile := id))], d.data[id := Whole(entry.bytes)])
  }

  function EnqueueEvents(id: string, entry: Entry, progress: Progress): seq<Event> {
    match progress
    case NoDirectory => []
    case DataCutShort => [CreateData(id, entry), WriterEnds(id)]
    case JsonCutShort => [CreateData(id, entry), FinishData(id), CreateJson(id), WriterEnds(id)]
    case Queued => [CreateData(id, entry), FinishData(id), CreateJson(id), FinishJson(id)]
  }

  lemma EnqueueIsARun(w: World, id: string, entry: Entry, progress: Progress)
    requires id !in w.started && id !in w.completed
    ensures var w' := Run(w, EnqueueEvents(id, entry, progress));
      && w'.disk == Enqueued(w.disk, id, entry, progress)
      && (progress.Queued? <==> id in w'.completed)
      && w'.accepted == w.accepted
  {
    var es := EnqueueEvents(id, entry, progress);
    match progress {
      case NoDirectory =>
      case DataCutShort => TwoSteps(w, es[0], es[1]);
      case _ =>
        FourSteps(w, es[0], es[1], es[2], es[3]);
        EnqueueSteps(w, id, entry, es[3]);
    }
  }

  lemma EnqueueSteps(w: World, id: string, entry: Entry, last: Event)
    requires id !in w.started && id !in w.completed && (last == WriterEnds(id) || last == FinishJson(id))
    ensures var w' := Step(Step(Step(Step(w, CreateData(id, entry)), FinishData(id)), CreateJson(id)), last);
      && w'.disk == Enqueued(w.disk, id, entry, if last.FinishJson? then Queued else JsonCutShort)
      && (last.FinishJson? <==> id in w'.completed)
      && w'.accepted == w.accepted
  {
    var w1 := Step(w, CreateData(id, entry));
    assert w1.writers[id] == WritingData && w1.started[id] == entry.(item := entry.item.(dataFile := id));
    var w2 := Step(w1, FinishData(id));
    assert w2.disk.data == w.disk.data[id := Whole(entry.bytes)];
  }

  // ----- the operations on the directory ---------------------------------------------------------------------

  class QueueDir {
    var json: map<string, File<Item>>
    var data: map<string, File<string>>

    constructor ()
      ensures State() == Disk(map[], map[])
    {
      json, data := map[], map[];
    }

    function State(): Disk
      reads this
    {
      Disk(json, data)
    }

    method OfflineEnqueue(id: string, name: string, category: string, sha256: string, syncDify: bool, bytes: string, progress: Progress)
      returns (ok: bool)
      modifies this
      ensures State() == Enqueued(old(State()), id, Entry(Item(name, category, sha256, syncDify, id), bytes), progress)
      ensures ok <==> progress.Queued?
    {
      if progress.NoDirectory? {
        return false;
      }
      var item := Item(name, category, sha256, syncDify, id);
      data := data[id := Torn];
      if progress.DataCutShort? {
        return false;
      }
      data := data[id := Whole(bytes)];
      json := json[id := Torn];
      if progress.JsonCutShort? {
        return false;
      }
      json := json[id := Whole(item)];
      return true;
    }

    /** The directory is listed in name order; without one there is nothing to do, and one that
        cannot be read fails the flush.  `answered` is the file id in the center's answer, 0 if none. */
    method FlushOfflineQueue(listing: Listing, f: Faults, answered: Entry -> nat)
      returns (flushed: nat, failed: bool, ingests: seq<nat>, ghost uploaded: seq<Entry>)
      modifies this
      ensures Flush(State(), uploaded, failed) == FlushListed(old(State()), listing, f)
      ensures flushed == |uploaded| && ingests == IngestsOf(uploaded, answered)
    {
      flushed, failed, ingests, uploaded := 0, false, [], [];
      if !listing.Listed? {
        return flushed, listing.Unreadable?, [], [];
      }
      ghost var d0 := State();
      var names := listing.names;
      assert names[0..] == names;
      for i := 0 to |names|
        invariant flushed == |uploaded| && ingests == IngestsOf(uploaded, answered)
        invariant Ahead(uploaded, FlushFrom(State(), names[i..], f)) == FlushFrom(d0, names, f)
      {
        var id := names[i];
        assert names[i..][0] == id && names[i..][1..] == names[i + 1..];
        ghost var d := State();
        if id !in json || json[id].Torn? || id in f.unreadable {
          continue;
        }
        var item := json[id].content;
        if item.dataFile !in data {
          continue;
        }
        if id in f.refused {
          assert uploaded + [] == uploaded;
          return flushed, true, ingests, uploaded;
        }
        var entry := EntryAt(State(), id);
        UploadsOne(uploaded, FlushFrom(Removed(d, f, id), names[i + 1..], f), entry, answered);
        uploaded := uploaded + [entry];
        if item.syncDify && answered(entry) > 0 {
          ingests := ingests + [answered(entry)];
        }
        if id !in f.jsonStuck {
          json := json - {id};
        }
        if id !in f.dataStuck {
          data := data - {item.dataFile};
        }
        flushed := flushed + 1;
      }
      assert names[|names|..] == [] && uploaded + [] == uploaded;
    }
  }

  datatype Listing = NoQueue | Unreadable | Listed(names: seq<string>)

  function FlushListed(d: Disk, listing: Listing, f: Faults): Flush {
    match listing
    case NoQueue => Flush(d, [], false)
    case Unreadable => Flush(d, [], true)
    case Listed(names) => FlushFrom(d, names, f)
  }

  /** The Dify requests that follow the uploads: one for each that asked for it and got a file id. */
  function IngestsOf(uploaded: seq<Entry>, answered: Entry -> nat): seq<nat> {
    if uploaded == [] then []
    else
      var e := uploaded[|uploaded| - 1];
      IngestsOf(uploaded[..|uploaded| - 1], answered) + (if e.item.syncDify && answered(e) > 0 then [answered(e)] else [])
  }

  lemma UploadsOne(uploaded: seq<Entry>, rest: Flush, entry: Entry, answered: Entry -> nat)
    ensures Ahead(uploaded, rest.(uploaded := [entry] + rest.uploaded)) == Ahead(uploaded + [entry], rest)
    ensures IngestsOf(uploaded + [entry], answered) ==
      IngestsOf(uploaded, answered) + (if entry.item.syncDify && answered(entry) > 0 then [answered(entry)] else [])
  {
    assert uploaded + ([entry] + rest.uploaded) == (uploaded + [entry]) + rest.uploaded;
    assert (uploaded + [entry])[..|uploaded|] == uploaded;
  }

  /** A flush that has already uploaded some entries. */
  function Ahead(uploaded: seq<Entry>, f: Flush): Flush {
    f.(uploaded := uploaded + f.uploaded)
  }
}
