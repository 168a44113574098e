/**
 The post-commit outbox: hooks around a database session note which task rows a transaction
 inserted or moved to pending, and publish them once the transaction has committed.
 The session keeps SQLAlchemy's bookkeeping: new objects, an identity map, and for each status
 attribute whether it is expired, loaded, or changed since the last flush.
 */
module Outbox {
  import opened Wrappers
  import opened Rows

  datatype Attr = Expired | Loaded(value: TaskStatus) | Changed(was: Option<TaskStatus>, value: TaskStatus)

  datatype TaskObj = Transient(status: TaskStatus) | Persistent(row: nat, attr: Attr)

  /** `table` is what the transaction sees; `pending` and `ids` are the two entries the hooks
      keep in the session's info dictionary. */
  datatype Session = Session(committed: map<nat, TaskStatus>, table: map<nat, TaskStatus>,
                             objs: map<nat, TaskObj>, identity: map<nat, nat>,
                             pending: set<nat>, ids: set<nat>)

  const EmptySession := Session(map[], map[], map[], map[], {}, {})

  // ----- object states -----------------------------------------------------------------------

  predicate HasChanges(attr: Attr) {
    attr.Changed? && attr.was != Some(attr.value)
  }

  function Assigned(attr: Attr, value: TaskStatus): Attr {
    match attr
    case Expired => Changed(None, value)  // written without having been read
    case Loaded(was) => Changed(Some(was), value)
    case Changed(was, _) => Changed(was, value)
  }

  function AddObject(s: Session, o: nat, status: TaskStatus): Session {
    if o in s.objs then s else s.(objs := s.objs[o := Transient(status)])
  }

  /** Reading a row's status through the session: into a new object, or refreshing an expired one. */
  function ReadRow(s: Session, o: nat, row: nat): Session {
    if row !in s.table then s
    else if row in s.identity then
      var known := s.identity[row];
      if known in s.objs && s.objs[known].Persistent? && s.objs[known].attr.Expired?
      then s.(objs := s.objs[known := Persistent(row, Loaded(s.table[row]))]) else s
    else if o in s.objs then s
    else s.(objs := s.objs[o := Persistent(row, Loaded(s.table[row]))], identity := s.identity[row := o])
  }

  function SetStatus(s: Session, o: nat, value: TaskStatus): Session {
    if o !in s.objs then s
    else match s.objs[o]
      case Transient(_) => s.(objs := s.objs[o := Transient(value)])
      case Persistent(row, attr) => s.(objs := s.objs[o := Persistent(row, Assigned(attr, value))])
  }

  // ----- the hooks ------------------------------------------------------------------------------

  /** What the hook before a flush picks up. */
  predicate Collects(obj: TaskObj) {
    match obj
    case Transient(_) => true
    case Persistent(_, attr) => HasChanges(attr) && attr.value == Pending
  }

  function Collect(s: Session): Session {
    s.(pending := s.pending + set o | o in s.objs && Collects(s.objs[o]))
  }

  function RowsOf(objs: map<nat, TaskObj>, pending: set<nat>): set<nat> {
    set o | o in pending && o in objs && objs[o].Persistent? :: objs[o].row
  }

  function Materialize(s: Session): Session {
    s.(ids := s.ids + RowsOf(s.objs, s.pending))
  }

  function Discard(s: Session): Session {
    s.(pending := {}, ids := {})
  }

  // ----- flush, commit, rollback ------------------------------------------------------------------

  predicate OneRowEach(rows: map<nat, nat>) {
    forall r, q :: r in rows && q in rows && rows[r] == rows[q] ==> r == q
  }

  /** The database gives every new object a row id it has not used. */
  predicate Assigns(s: Session, rows: map<nat, nat>) {
    && rows.Keys !! s.table.Keys
    && (forall r :: r in rows ==> rows[r] in s.objs && s.objs[rows[r]].Transient?)
    && (forall o :: o in s.objs && s.objs[o].Transient? ==> o in rows.Values)
    && OneRowEach(rows)
  }

  function RowGiven(rows: map<nat, nat>, o: nat): (r: nat)
    requires o in rows.Values && OneRowEach(rows)
    ensures r in rows && rows[r] == o
  {
    var r :| r in rows && rows[r] == o;
    r
  }

  function WrittenRow(s: Session, rows: map<nat, nat>, row: nat): TaskStatus
    requires Assigns(s, rows) && (row in rows || row in s.table)
  {
    if row in rows then s.objs[rows[row]].status
    else if row in s.identity && s.identity[row] in s.objs && s.objs[s.identity[row]].Persistent?
            && s.objs[s.identity[row]].attr.Changed? then s.objs[s.identity[row]].attr.value
    else s.table[row]
  }

  function WrittenObj(rows: map<nat, nat>, o: nat, obj: TaskObj): TaskObj
    requires OneRowEach(rows) && (obj.Transient? ==> o in rows.Values)
  {
    match obj
    case Transient(status) => Persistent(RowGiven(rows, o), Loaded(status))
    case Persistent(row, attr) => if attr.Changed? then Persistent(row, Loaded(attr.value)) else obj
  }

  /** The INSERTs and UPDATEs of a flush. */
  function Write(s: Session, rows: map<nat, nat>): Session
    requires Assigns(s, rows)
  {
    s.(table := map r | r in s.table.Keys + rows.Keys :: WrittenRow(s, rows, r),
       objs := map o | o in s.objs :: WrittenObj(rows, o, s.objs[o]),
       identity := s.identity + rows)
  }

  function Rollback(s: Session): Session {
    var kept := map o | o in s.objs && s.objs[o].Persistent? && s.objs[o].row in s.committed :: Persistent(s.objs[o].row, Expired);
    Discard(s.(table := s.committed, objs := kept,
               identity := map r | r in s.identity && r in s.committed :: s.identity[r]))
  }

  /** A flush that fails, here one without an assignment of row ids, rolls the transaction back. */
  function Flush(s: Session, rows: Option<map<nat, nat>>): Flushed {
    if rows.None? || !Assigns(s, rows.value) then Flushed(Rollback(Collect(s)), false)
    else Flushed(Materialize(Write(Collect(s), rows.value)), true)
  }

  datatype Flushed = Flushed(session: Session, ok: bool)

  function Expire(obj: TaskObj): TaskObj {
    if obj.Persistent? then Persistent(obj.row, Expired) else obj
  }

  datatype Commitment = Commitment(session: Session, ok: bool, published: set<nat>)

  /** A commit flushes, commits, and only then publishes what the flushes noted. */
  function Commit(s: Session, rows: Option<map<nat, nat>>, ok: bool): Commitment {
    var flushed := Flush(s, rows);
    if !flushed.ok then Commitment(flushed.session, false, {})
    else if !ok then Commitment(Rollback(flushed.session), false, {})
    else
      var f := flushed.session;
      Commitment(Discard(Settled(f)), true, f.ids)
  }

  /** After a commit what was flushed is committed, and every attribute has expired. */
  function Settled(f: Session): Session {
    f.(committed := f.table, objs := map o | o in f.objs :: Expire(f.objs[o]))
  }

  // ----- runs ------------------------------------------------------------------------------------------

  datatype Event =
    | Add(o: nat, status: TaskStatus)
    | Read(o: nat, row: nat)
    | Assign(o: nat, value: TaskStatus)
    | FlushNow(rows: Option<map<nat, nat>>)
    | CommitNow(rows: Option<map<nat, nat>>, ok: bool)
    | RollbackNow

  /** The rows a flush inserted or moved to pending, told from the table alone. */
  function Moved(before: map<nat, TaskStatus>, after: map<nat, TaskStatus>): set<nat> {
    set r | r in after && (r !in before || (before[r] != Pending && after[r] == Pending))
  }

  /** An unread write of pending over a row that is pending already. */
  predicate IsSurplus(s: Session, o: nat) {
    o in s.objs && s.objs[o].Persistent? && s.objs[o].attr == Changed(None, Pending)
    && s.objs[o].row in s.table && s.table[s.objs[o].row] == Pending
  }

  function Surplus(s: Session): set<nat> {
    set o | o in s.objs && IsSurplus(s, o) :: s.objs[o].row
  }

  /** The session; for each commit what it published, what it owed by the tables alone, and the
      surplus rows its flushes met; and what the transaction in progress owes and has met so far. */
  datatype History = History(session: Session, published: seq<set<nat>>, owed: seq<set<nat>>, surplus: seq<set<nat>>,
                             due: set<nat>, met: set<nat>)

  const NoHistory := History(EmptySession, [], [], [], {}, {})

  function Step(h: History, ev: Event): History {
    var s := h.session;
    match ev
    case Add(o, status) => h.(session := AddObject(s, o, status))
    case Read(o, row) => h.(session := ReadRow(s, o, row))
    case Assign(o, value) => h.(session := SetStatus(s, o, value))
    case FlushNow(rows) =>
      var f := Flush(s, rows);
      if f.ok then h.(session := f.session, due := h.due + Moved(s.table, f.session.table), met := h.met + Surplus(s))
      else h.(session := f.session, due := {}, met := {})
    case CommitNow(rows, ok) =>
      var c := Commit(s, rows, ok);
      if c.ok
      then History(c.session, h.published + [c.published], h.owed + [h.due + Moved(s.table, c.session.table)],
                   h.surplus + [h.met + Surplus(s)], {}, {})
      else h.(session := c.session, due := {}, met := {})
    case RollbackNow => h.(session := Rollback(s), due := {}, met := {})
  }

  function Run(h: History, events: seq<Event>): History
    decreases |events|
  {
    if events == [] then h else Run(Step(h, events[0]), events[1..])
  }

  // ----- the invariant ----------------------------------------------------------------------------------

  /** An object and its row agree on what was last read or written. */
  predicate Tracks(s: Session, o: nat)
    requires o in s.objs
  {
    match s.objs[o]
    case Transient(_) => true
    case Persistent(row, attr) =>
      && row in s.table && row in s.identity && s.identity[row] == o
      && (attr.Loaded? ==> attr.value == s.table[row])
      && (attr.Changed? && attr.was.Some? ==> attr.was.value == s.table[row])
  }

  /** Objects and rows belong together one to one. */
  ghost predicate Tracking(s: Session) {
    && (forall o :: o in s.objs ==> Tracks(s, o))
    && (forall r :: r in s.identity ==> IsRow(s, s.identity[r], r))
  }

  predicate IsRow(s: Session, o: nat, r: nat) {
    o in s.objs && s.objs[o].Persistent? && s.objs[o].row == r
  }

  /** What earlier flushes of the transaction picked up has its row ids noted. */
  ghost predicate Noted(s: Session) {
    forall o :: o in s.pending ==> o in s.objs && s.objs[o].Persistent? && s.objs[o].row in s.ids
  }

  /** No status is overwritten unread. */
  ghost predicate ReadBeforeWrite(s: Session) {
    forall o :: o in s.objs && s.objs[o].Persistent? && s.objs[o].attr.Changed? ==> s.objs[o].attr.was.Some?
  }

  /** An assignment to a status that has expired and has not been read again. */
  predicate IsBlind(s: Session, ev: Event) {
    ev.Assign? && ev.o in s.objs && s.objs[ev.o].Persistent? && s.objs[ev.o].attr.Expired?
  }

  predicate NeverBlind(h: History, events: seq<Event>)
    decreases |events|
  {
    events == [] || (!IsBlind(h.session, events[0]) && NeverBlind(Step(h, events[0]), events[1..]))
  }

  /** What is noted and published is what is owed together with the surplus. */
  ghost predicate Balanced(h: History) {
    && Tracking(h.session) && Noted(h.session) && h.session.ids == h.due + h.met
    && |h.published| == |h.owed| == |h.surplus|
    && (forall k :: 0 <= k < |h.owed| ==> h.published[k] == h.owed[k] + h.surplus[k])
  }

  ghost predicate NoSurplus(h: History) {
    ReadBeforeWrite(h.session) && h.met == {} && forall k :: 0 <= k < |h.surplus| ==> h.surplus[k] == {}
  }

  // ----- a flush ---------------------------------------------------------------------------------------------

  lemma WriteKeepsTracking(s: Session, rows: map<nat, nat>)
    requires Tracking(s) && Assigns(s, rows)
    ensures Tracking(Write(s, rows)) && ReadBeforeWrite(Write(s, rows))
  {
    var t := Write(s, rows);
    forall o | o in t.objs ensures Tracks(t, o) {
      WriteTracks(s, rows, o);
    }
    forall r | r in t.identity ensures IsRow(t, t.identity[r], r) {
      if r in rows {
        WriteTracks(s, rows, rows[r]);
      } else {
        assert IsRow(s, s.identity[r], r);
      }
    }
  }

  lemma WriteTracks(s: Session, rows: map<nat, nat>, o: nat)
    requires Tracking(s) && Assigns(s, rows) && o in s.objs
    ensures var t := Write(s, rows);
      && Tracks(t, o) && t.objs[o].Persistent? && !t.objs[o].attr.Changed?
      && (forall r :: r in rows && rows[r] == o ==> t.objs[o].row == r)
  {
    assert Tracks(s, o);
    var t := Write(s, rows);
    match s.objs[o]
    case Transient(status) =>
      var r := RowGiven(rows, o);
      assert t.table[r] == WrittenRow(s, rows, r);
    case Persistent(row, attr) =>
      assert row !in rows;
      assert t.table[row] == WrittenRow(s, rows, row);
  }

  function Collected(s: Session): set<nat> {
    set o | o in s.objs && Collects(s.objs[o])
  }

  /** The rows of the objects a flush's hook collects are the rows the flush moves, and the surplus. */
  lemma CollectedIsMovedAndSurplus(s: Session, rows: map<nat, nat>)
    requires Tracking(s) && Assigns(s, rows)
    ensures RowsOf(Write(s, rows).objs, Collected(s)) == Moved(s.table, Write(s, rows).table) + Surplus(s)
    ensures Moved(s.table, Write(s, rows).table) !! Surplus(s)
  {
    var t := Write(s, rows);
    forall r | r in Moved(s.table, t.table) ensures r in RowsOf(t.objs, Collected(s)) {
      assert t.table[r] == WrittenRow(s, rows, r);
      if r in rows {
        WriteTracks(s, rows, rows[r]);
        assert rows[r] in Collected(s);
      } else {
        MovedRow(s, rows, r);
        assert s.identity[r] in Collected(s);
      }
    }
    forall r | r in Surplus(s) ensures r in RowsOf(t.objs, Collected(s)) {
      var o :| o in s.objs && IsSurplus(s, o) && s.objs[o].row == r;
      assert o in Collected(s) && t.objs[o] == WrittenObj(rows, o, s.objs[o]);
    }
    forall r | r in RowsOf(t.objs, Collected(s)) ensures r in Moved(s.table, t.table) + Surplus(s) {
      var o :| o in Collected(s) && o in t.objs && t.objs[o].Persistent? && t.objs[o].row == r;
      CollectedRow(s, rows, o);
    }
  }

  /** A flush's hook picks up exactly the rows the flush inserts or moves to pending, if and only if
      no object it meets has had pending written, unread, over a row that is pending already. */
  lemma MovedIsCollectedIff(s: Session, rows: map<nat, nat>)
    requires Tracking(s) && Assigns(s, rows)
    ensures Moved(s.table, Write(s, rows).table) <= RowsOf(Write(s, rows).objs, Collected(s))
    ensures Moved(s.table, Write(s, rows).table) == RowsOf(Write(s, rows).objs, Collected(s)) <==>
      (forall o :: o in s.objs && s.objs[o].Persistent? && s.objs[o].attr == Changed(None, Pending) ==>
        s.objs[o].row in s.table && s.table[s.objs[o].row] != Pending)
  {
    CollectedIsMovedAndSurplus(s, rows);
    forall o | o in s.objs ensures Tracks(s, o) {}
    if o :| o in s.objs && IsSurplus(s, o) {
      assert s.objs[o].row in Surplus(s);
    } else {
      assert Surplus(s) == {};
    }
  }

  lemma MovedRow(s: Session, rows: map<nat, nat>, r: nat)
    requires Tracking(s) && Assigns(s, rows) && r in s.table && r !in rows
    requires s.table[r] != Pending && WrittenRow(s, rows, r) == Pending
    ensures r in s.identity && IsRow(s, s.identity[r], r) && Collects(s.objs[s.identity[r]])
    ensures IsRow(Write(s, rows), s.identity[r], r)
  {
    assert IsRow(s, s.identity[r], r);
    assert Tracks(s, s.identity[r]);
  }

  lemma CollectedRow(s: Session, rows: map<nat, nat>, o: nat)
    requires Tracking(s) && Assigns(s, rows) && o in s.objs && Collects(s.objs[o])
    ensures var t := Write(s, rows);
      o in t.objs && t.objs[o].Persistent? && t.objs[o].row in Moved(s.table, t.table) + Surplus(s)
  {
    var t := Write(s, rows);
    WriteTracks(s, rows, o);
    assert Tracks(s, o);
    var r := t.objs[o].row;
    assert t.table[r] == WrittenRow(s, rows, r);
    if IsSurplus(s, o) {
      assert r in Surplus(s);
    }
  }

  /** The hooks only touch their own two entries. */
  lemma FlushIsWrite(s: Session, rows: map<nat, nat>)
    requires Assigns(s, rows)
    ensures Flush(s, Some(rows)) ==
      Flushed(Write(s, rows).(pending := s.pending + Collected(s),
                              ids := s.ids + RowsOf(Write(s, rows).objs, s.pending + Collected(s))), true)
  {
    var c := Collect(s);
    var t := Write(s, rows);
    assert Assigns(c, rows);
    forall r | r in s.table.Keys + rows.Keys ensures WrittenRow(c, rows, r) == WrittenRow(s, rows, r) {}
    assert Write(c, rows).table == t.table;
    assert Write(c, rows).objs == t.objs;
  }

  lemma TrackingIgnoresNotes(s: Session, t: Session)
    requires Tracking(s) && t == s.(pending := t.pending, ids := t.ids)
    ensures Tracking(t)
  {
    forall o | o in t.objs ensures Tracks(t, o) {
      assert Tracks(s, o);
    }
    forall r | r in t.identity ensures IsRow(t, t.identity[r], r) {
      assert IsRow(s, s.identity[r], r);
    }
  }

  /** Objects noted earlier keep their rows, so their ids are noted already. */
  lemma NotedRowsStay(s: Session, rows: map<nat, nat>)
    requires Noted(s) && Assigns(s, rows)
    ensures RowsOf(Write(s, rows).objs, s.pending) <= s.ids
  {
    var t := Write(s, rows);
    forall r | r in RowsOf(t.objs, s.pending) ensures r in s.ids {
      var o :| o in s.pending && o in t.objs && t.objs[o].Persistent? && t.objs[o].row == r;
      assert s.objs[o].row in s.ids;
    }
  }

  lemma RowsOfUnion(objs: map<nat, TaskObj>, a: set<nat>, b: set<nat>)
    ensures RowsOf(objs, a + b) == RowsOf(objs, a) + RowsOf(objs, b)
  {}

  lemma EverythingIsNoted(s: Session, rows: map<nat, nat>)
    requires Tracking(s) && Noted(s) && Assigns(s, rows)
    ensures Noted(Flush(s, Some(rows)).session)
  {
    FlushIsWrite(s, rows);
    var f := Flush(s, Some(rows)).session;
    forall o | o in f.pending ensures o in f.objs && f.objs[o].Persistent? && f.objs[o].row in f.ids {
      WriteTracks(s, rows, o);
      assert f.objs[o].row in RowsOf(f.objs, f.pending);
    }
  }

  /** A flush notes the rows of what its hook collected, and nothing else. */
  lemma FlushNotes(s: Session, rows: map<nat, nat>)
    requires Tracking(s) && Noted(s) && Assigns(s, rows)
    ensures var f := Flush(s, Some(rows));
      && f.ok && Tracking(f.session) && Noted(f.session) && ReadBeforeWrite(f.session)
      && f.session.committed == s.committed && f.session.table == Write(s, rows).table
      && f.session.ids == s.ids + RowsOf(Write(s, rows).objs, Collected(s))
  {
    FlushIsWrite(s, rows);
    WriteKeepsTracking(s, rows);
    TrackingIgnoresNotes(Write(s, rows), Flush(s, Some(rows)).session);
    EverythingIsNoted(s, rows);
    NotedRowsStay(s, rows);
    RowsOfUnion(Write(s, rows).objs, s.pending, Collected(s));
  }

  // ----- runs keep the invariants ------------------------------------------------------------------------------

  lemma RollbackKeeps(s: Session)
    requires Tracking(s)
    ensures var t := Rollback(s); Tracking(t) && Noted(t) && ReadBeforeWrite(t) && t.ids == {} && t.table == s.committed
  {
    var t := Rollback(s);
    forall o | o in t.objs ensures Tracks(t, o) {
      assert Tracks(s, o);
    }
    forall r | r in t.identity ensures IsRow(t, t.identity[r], r) {
      assert IsRow(s, s.identity[r], r);
    }
  }

  /** What one flush adds to the notes against what it moves. */
  lemma FlushOwes(s: Session, rows: map<nat, nat>)
    requires Tracking(s) && Noted(s) && Assigns(s, rows)
    ensures var f := Flush(s, Some(rows)).session;
      && Tracking(f) && Noted(f) && ReadBeforeWrite(f) && Flush(s, Some(rows)).ok
      && f.ids == s.ids + Moved(s.table, f.table) + Surplus(s)
  {
    FlushNotes(s, rows);
    CollectedIsMovedAndSurplus(s, rows);
  }

  lemma FailedFlush(s: Session, rows: Option<map<nat, nat>>)
    requires Tracking(s) && (rows.None? || !Assigns(s, rows.value))
    ensures var f := Flush(s, rows); !f.ok && Tracking(f.session) && Noted(f.session) && ReadBeforeWrite(f.session) && f.session.ids == {}
  {
    TrackingIgnoresNotes(s, Collect(s));
    RollbackKeeps(Collect(s));
  }

  lemma SettledKeeps(f: Session)
    requires Tracking(f)
    ensures var t := Discard(Settled(f)); Tracking(t) && Noted(t) && ReadBeforeWrite(t) && t.ids == {} && t.table == f.table
  {
    var t := Discard(Settled(f));
    forall o | o in t.objs ensures Tracks(t, o) {
      assert Tracks(f, o);
    }
    forall r | r in t.identity ensures IsRow(t, t.identity[r], r) {
      assert IsRow(f, f.identity[r], r);
    }
  }

  lemma CommitOwes(s: Session, rows: Option<map<nat, nat>>, ok: bool)
    requires Tracking(s) && Noted(s)
    ensures var c := Commit(s, rows, ok);
      && Tracking(c.session) && Noted(c.session) && ReadBeforeWrite(c.session) && c.session.ids == {}
      && (c.ok ==> c.published == s.ids + Moved(s.table, c.session.table) + Surplus(s))
      && (!c.ok ==> c.published == {})
  {
    if rows.None? || !Assigns(s, rows.value) {
      FailedFlush(s, rows);
    } else {
      var f := Flush(s, rows).session;
      FlushOwes(s, rows.value);
      if ok {
        SettledKeeps(f);
      } else {
        RollbackKeeps(f);
      }
    }
  }

  lemma AddKeeps(s: Session, o: nat, status: TaskStatus)
    requires Tracking(s) && Noted(s)
    ensures var t := AddObject(s, o, status);
      Tracking(t) && Noted(t) && (ReadBeforeWrite(s) ==> ReadBeforeWrite(t)) && t.ids == s.ids
  {
    var t := AddObject(s, o, status);
    forall x | x in t.objs ensures Tracks(t, x) {
      assert x in s.objs ==> Tracks(s, x);
    }
    forall r | r in t.identity ensures IsRow(t, t.identity[r], r) {
      assert IsRow(s, s.identity[r], r);
    }
  }

  lemma ReadKeeps(s: Session, o: nat, row: nat)
    requires Tracking(s) && Noted(s)
    ensures var t := ReadRow(s, o, row);
      Tracking(t) && Noted(t) && (ReadBeforeWrite(s) ==> ReadBeforeWrite(t)) && t.ids == s.ids
  {
    var t := ReadRow(s, o, row);
    forall x | x in t.objs ensures Tracks(t, x) {
      assert x in s.objs ==> Tracks(s, x);
    }
    forall r | r in t.identity ensures IsRow(t, t.identity[r], r) {
      assert r in s.identity ==> IsRow(s, s.identity[r], r);
    }
  }

  lemma SetKeeps(s: Session, o: nat, value: TaskStatus)
    requires Tracking(s) && Noted(s)
    ensures var t := SetStatus(s, o, value);
      && Tracking(t) && Noted(t) && t.ids == s.ids
      && (ReadBeforeWrite(s) && !IsBlind(s, Assign(o, value)) ==> ReadBeforeWrite(t))
  {
    if o in s.objs {
      var obj := if s.objs[o].Transient? then Transient(value) else Persistent(s.objs[o].row, Assigned(s.objs[o].attr, value));
      assert SetStatus(s, o, value) == s.(objs := s.objs[o := obj]);
      assert Tracks(s, o);
      ObjectSet(s, o, obj);
    }
  }

  /** An object changes but stays what it is of. */
  lemma ObjectSet(s: Session, o: nat, obj: TaskObj)
    requires Tracking(s) && Noted(s) && o in s.objs && (s.objs[o].Persistent? <==> obj.Persistent?)
    requires obj.Persistent? ==> obj.row == s.objs[o].row
    requires Tracks(s.(objs := s.objs[o := obj]), o)
    ensures var t := s.(objs := s.objs[o := obj]);
      && Tracking(t) && Noted(t)
      && (ReadBeforeWrite(s) && (obj.Persistent? && obj.attr.Changed? ==> obj.attr.was.Some?) ==> ReadBeforeWrite(t))
  {
    var t := s.(objs := s.objs[o := obj]);
    forall x | x in t.objs ensures Tracks(t, x) {
      assert x != o ==> Tracks(s, x);
    }
    forall r | r in t.identity ensures IsRow(t, t.identity[r], r) {
      assert IsRow(s, s.identity[r], r);
    }
  }

  lemma StepKeeps(h: History, ev: Event)
    requires Balanced(h)
    ensures Balanced(Step(h, ev))
  {
    match ev
    case FlushNow(rows) =>
      if rows.None? || !Assigns(h.session, rows.value) { FailedFlush(h.session, rows); } else { FlushOwes(h.session, rows.value); }
    case CommitNow(rows, ok) => CommitOwes(h.session, rows, ok);
    case RollbackNow => RollbackKeeps(h.session);
    case Add(o, status) => AddKeeps(h.session, o, status);
    case Read(o, row) => ReadKeeps(h.session, o, row);
    case Assign(o, value) => SetKeeps(h.session, o, value);
  }

  /** A step that overwrites no expired status meets no surplus. */
  lemma StepMeetsNone(h: History, ev: Event)
    requires Balanced(h) && NoSurplus(h) && !IsBlind(h.session, ev)
    ensures NoSurplus(Step(h, ev))
  {
    assert Surplus(h.session) == {};
    match ev
    case FlushNow(rows) =>
      if rows.None? || !Assigns(h.session, rows.value) { FailedFlush(h.session, rows); } else { FlushOwes(h.session, rows.value); }
    case CommitNow(rows, ok) => CommitOwes(h.session, rows, ok);
    case RollbackNow => RollbackKeeps(h.session);
    case Add(o, status) => AddKeeps(h.session, o, status);
    case Read(o, row) => ReadKeeps(h.session, o, row);
    case Assign(o, value) => SetKeeps(h.session, o, value);
  }

  lemma {:induction false} RunKeeps(h: History, events: seq<Event>)
    requires Balanced(h)
    ensures Balanced(Run(h, events))
    ensures NoSurplus(h) && NeverBlind(h, events) ==> NoSurplus(Run(h, events))
    decreases |events|
  {
    if events != [] {
      StepKeeps(h, events[0]);
      if NoSurplus(h) && NeverBlind(h, events) {
        StepMeetsNone(h, events[0]);
      }
      RunKeeps(Step(h, events[0]), events[1..]);
    }
  }

  // ----- the theorems ---------------------------------------------------------------------------------------------

  /** In every run each commit publishes exactly the rows its flushes inserted or moved to pending,
      and the surplus they met; nothing of a rolled back transaction, nothing of an earlier one. */
  lemma PublishedIsOwedAndSurplus(events: seq<Event>)
    ensures var h := Run(NoHistory, events);
      && |h.published| == |h.owed| == |h.surplus|
      && forall k :: 0 <= k < |h.owed| ==> h.published[k] == h.owed[k] + h.surplus[k]
  {
    RunKeeps(NoHistory, events);
  }

  /** So nothing is forgotten, and publication is exact if and only if every surplus row a
      transaction met is one that it inserted or moved to pending as well. */
  lemma PublishedIsOwedIff(events: seq<Event>)
    ensures var h := Run(NoHistory, events);
      && |h.published| == |h.owed| == |h.surplus|
      && (forall k :: 0 <= k < |h.owed| ==> h.owed[k] <= h.published[k])
      && (h.published == h.owed <==> forall k :: 0 <= k < |h.owed| ==> h.surplus[k] <= h.owed[k])
  {
    RunKeeps(NoHistory, events);
    var h := Run(NoHistory, events);
    if h.published == h.owed {
      forall k | 0 <= k < |h.owed| ensures h.surplus[k] <= h.owed[k] {
        assert h.published[k] == h.owed[k] + h.surplus[k];
      }
    } else if forall k :: 0 <= k < |h.owed| ==> h.surplus[k] <= h.owed[k] {
      forall k | 0 <= k < |h.owed| ensures h.published[k] == h.owed[k] {}
    }
  }

  /** Callers that read a status before they overwrite it never meet any. */
  lemma ReadingFirstIsExact(events: seq<Event>)
    requires NeverBlind(NoHistory, events)
    ensures var h := Run(NoHistory, events); h.published == h.owed
  {
    RunKeeps(NoHistory, events);
    PublishedIsOwedIff(events);
  }

  // ----- the input on which it is not exact -----------------------------------------------------------------

  /** A session right after a commit: nothing new, nothing changed, nothing noted. */
  ghost predicate Fresh(s: Session) {
    s.ids == {} && forall o :: o in s.objs ==> s.objs[o].Persistent? && !s.objs[o].attr.Changed?
  }

  /** Every commit that succeeds leaves such a session behind. */
  lemma CommitIsFresh(s: Session, rows: Option<map<nat, nat>>, ok: bool)
    requires Tracking(s) && Noted(s)
    ensures Commit(s, rows, ok).ok ==> Fresh(Commit(s, rows, ok).session)
  {
    CommitOwes(s, rows, ok);
    if Commit(s, rows, ok).ok {
      FlushIsWrite(s, rows.value);
      forall o | o in s.objs ensures Write(s, rows.value).objs[o].Persistent? {
        WriteTracks(s, rows.value, o);
      }
    }
  }

  lemma BlindTable(s: Session, o: nat)
    requires Tracking(s) && Fresh(s) && o in s.objs && s.objs[o].attr.Expired? && s.table[s.objs[o].row] == Pending
    ensures var t := SetStatus(s, o, Pending);
      Assigns(t, map[]) && Surplus(t) == {s.objs[o].row} && Moved(t.table, Write(t, map[]).table) == {}
  {
    var t := SetStatus(s, o, Pending);
    assert Tracks(s, o) && IsSurplus(t, o);
    forall x | x in t.objs && IsSurplus(t, x) ensures x == o {}
    forall r | r in t.table ensures WrittenRow(t, map[], r) == t.table[r] {
      if r in t.identity && t.identity[r] == o {
        assert IsRow(s, o, r);
      }
    }
  }

  lemma CommitTable(s: Session, rows: map<nat, nat>)
    requires Tracking(s) && Noted(s) && Assigns(s, rows)
    ensures Commit(s, Some(rows), true).ok && Commit(s, Some(rows), true).session.table == Write(s, rows).table
  {
    FlushNotes(s, rows);
  }

  lemma BlindCommit(s: Session, o: nat)
    requires Tracking(s) && Noted(s) && Fresh(s) && o in s.objs && s.objs[o].attr.Expired? && s.table[s.objs[o].row] == Pending
    ensures var t := SetStatus(s, o, Pending); var c := Commit(t, Some(map[]), true);
      c.ok && c.published == {s.objs[o].row} && Moved(t.table, c.session.table) == {}
  {
    var t := SetStatus(s, o, Pending);
    SetKeeps(s, o, Pending);
    BlindTable(s, o);
    CommitTable(t, map[]);
    CommitOwes(t, Some(map[]), true);
  }

  /** After any commit: writing pending, unread, to a task that is pending publishes it once more. */
  lemma BlindWritePublishesAgain(h: History, o: nat)
    requires Balanced(h) && Fresh(h.session)
    requires o in h.session.objs && h.session.objs[o].attr.Expired? && h.session.table[h.session.objs[o].row] == Pending
    ensures var h' := Step(Step(h, Assign(o, Pending)), CommitNow(Some(map[]), true));
      h'.published == h.published + [{h.session.objs[o].row}] && h'.owed == h.owed + [{}]
  {
    BlindCommit(h.session, o);
    assert h.due + {} == {};
  }
}
