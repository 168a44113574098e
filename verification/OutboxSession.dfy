/** The session hooks as the program runs them, on the session's own dictionary and set. */
module OutboxSessions {
  import opened Wrappers
  import opened Rows
  import opened Outbox

  // ----- what a session does when Celery is disabled --------------------------------------------

  predicate CanFlush(s: Session, rows: Option<map<nat, nat>>) {
    rows.Some? && Assigns(s, rows.value)
  }

  function UnhookedFlush(s: Session, rows: Option<map<nat, nat>>): Session {
    if CanFlush(s, rows) then Write(s, rows.value) else Rollback(s)
  }

  /** The hooks change nothing but their own notes, and a commit leaves none of those. */
  lemma HooksOnlyNote(s: Session, rows: Option<map<nat, nat>>, ok: bool)
    ensures Flush(s, rows).session.(pending := s.pending, ids := s.ids) ==
      UnhookedFlush(s, rows).(pending := s.pending, ids := s.ids)
    ensures CanFlush(s, rows) && ok ==> Commit(s, rows, ok).session == Discard(Settled(UnhookedFlush(s, rows)))
    ensures CanFlush(s, rows) && !ok ==> Commit(s, rows, ok).session == Rollback(UnhookedFlush(s, rows))
    ensures !CanFlush(s, rows) ==> Commit(s, rows, ok).session == UnhookedFlush(s, rows)
    ensures Commit(s, rows, ok).ok == (CanFlush(s, rows) && ok)
  {
    assert Rollback(Collect(s)) == Rollback(s);
    if CanFlush(s, rows) {
      FlushIsWrite(s, rows.value);
    } else if rows.Some? {
      assert !Assigns(Collect(s), rows.value);
    }
  }

  class TaskSession {
    const celeryEnabled: bool
    var committed: map<nat, TaskStatus>
    var table: map<nat, TaskStatus>
    var objs: map<nat, TaskObj>
    var identity: map<nat, nat>
    var pending: set<nat>  // the dictionary of collected task objects
    var ids: set<nat>      // the set of task ids to publish
    var sent: seq<nat>     // the ids handed to the broker

    constructor (celeryEnabled: bool)
      ensures this.celeryEnabled == celeryEnabled && State() == EmptySession && sent == []
    {
      this.celeryEnabled := celeryEnabled;
      committed, table, objs, identity, pending, ids, sent := map[], map[], map[], map[], {}, {}, [];
    }

    function State(): Session
      reads this
    {
      Session(committed, table, objs, identity, pending, ids)
    }

    /** Before a flush. */
    method CollectNewTasks()
      modifies `pending
      ensures State() == if celeryEnabled then Collect(old(State())) else old(State())
    {
      if !celeryEnabled {
        return;
      }
      ghost var before := pending;
      var todo := objs.Keys;
      while todo != {}
        invariant todo <= objs.Keys
        invariant pending == before + set o | o in objs && o !in todo && Collects(objs[o])
        decreases |todo|
      {
        var o :| o in todo;
        todo := todo - {o};
        match objs[o] {
          case Transient(_) => pending := pending + {o};
          case Persistent(_, attr) =>
            if HasChanges(attr) && attr.value == Pending {
              pending := pending + {o};
            }
        }
      }
    }

    /** After a flush, when new rows have their ids. */
    method MaterializeTaskIds()
      modifies `ids
      ensures State() == if celeryEnabled then Materialize(old(State())) else old(State())
    {
      if !celeryEnabled {
        return;
      }
      ghost var before := ids;
      var todo := pending;
      while todo != {}
        invariant todo <= pending
        invariant ids == before + RowsOf(objs, pending - todo)
        decreases |todo|
      {
        var o :| o in todo;
        ghost var done := pending - todo;
        todo := todo - {o};
        assert pending - todo == done + {o};
        RowsOfUnion(objs, done, {o});
        if o in objs && objs[o].Persistent? {
          ids := ids + {objs[o].row};
        }
      }
      assert pending - {} == pending;
    }

    /** After a commit: every noted id goes to the broker once, if there is one. */
    method PublishAfterCommit()
      modifies `pending, `ids, `sent
      ensures State() == Discard(old(State()))
      ensures old(sent) <= sent
      ensures multiset(sent[|old(sent)|..]) == if celeryEnabled then multiset(old(ids)) else multiset{}
    {
      var popped := ids;
      ids, pending := {}, {};
      var batch := SendAll(popped);
      sent := sent + batch;
      assert sent[|old(sent)|..] == batch;
    }

    /** Publishes a set of ids, one after another. */
    method SendAll(popped: set<nat>) returns (batch: seq<nat>)
      ensures multiset(batch) == if celeryEnabled then multiset(popped) else multiset{}
    {
      batch := [];
      var rest := popped;
      while rest != {}
        invariant rest <= popped
        invariant multiset(batch) == if celeryEnabled then multiset(popped - rest) else multiset{}
        decreases |rest|
      {
        var id :| id in rest;
        assert popped - (rest - {id}) == (popped - rest) + {id};
        rest := rest - {id};
        if celeryEnabled {
          batch := batch + [id];
        }
      }
      assert popped - {} == popped;
    }

    /** After a rollback. */
    method DiscardUncommittedTasks()
      modifies `pending, `ids
      ensures State() == Discard(old(State()))
    {
      ids := {};
      pending := {};
    }

    method RollbackSession()
      modifies `table, `objs, `identity, `pending, `ids
      ensures State() == Rollback(old(State()))
    {
      objs := map o | o in objs && objs[o].Persistent? && objs[o].row in committed :: Persistent(objs[o].row, Expired);
      identity := map r | r in identity && r in committed :: identity[r];
      table := committed;
      DiscardUncommittedTasks();
    }

    /** Without Celery the hooks of a flush do nothing: it writes, or rolls back, and notes nothing. */
    method FlushSession(rows: Option<map<nat, nat>>) returns (ok: bool)
      modifies `table, `objs, `identity, `pending, `ids
      ensures celeryEnabled ==> State() == Flush(old(State()), rows).session && ok == Flush(old(State()), rows).ok
      ensures !celeryEnabled ==> State() == UnhookedFlush(old(State()), rows) && ok == CanFlush(old(State()), rows)
    {
      CollectNewTasks();
      if rows.None? || !Assigns(State(), rows.value) {
        RollbackSession();
        return false;
      }
      var written := Write(State(), rows.value);
      table, objs, identity := written.table, written.objs, written.identity;
      MaterializeTaskIds();
      return true;
    }

    /** What reaches the broker is the published set of the specification, each id once; without
        Celery the tables and objects end up the same and nothing reaches it. */
    method CommitSession(rows: Option<map<nat, nat>>, canCommit: bool) returns (ok: bool)
      modifies this
      ensures State() == Commit(old(State()), rows, canCommit).session && ok == Commit(old(State()), rows, canCommit).ok
      ensures old(sent) <= sent
      ensures multiset(sent[|old(sent)|..]) ==
        if celeryEnabled then multiset(Commit(old(State()), rows, canCommit).published) else multiset{}
    {
      HooksOnlyNote(State(), rows, canCommit);
      ok := FlushSession(rows);
      if !ok {
        assert sent[|old(sent)|..] == [];
        return;
      }
      if !canCommit {
        RollbackSession();
        assert sent[|old(sent)|..] == [];
        return false;
      }
      committed := table;
      objs := map o | o in objs :: Expire(objs[o]);
      PublishAfterCommit();
    }
  }
}
