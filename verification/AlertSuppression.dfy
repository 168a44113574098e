/**
 Suppression of repeats under every interleaving of fires and cycles: which steps keep the rows'
 knowledge of their last success, and that while every step does, successes keep their distance.
 */
module AlertSuppression {
  import opened Wrappers
  import opened Alerting
  import opened AlertRuns

  /** A row knows its last success, and is marked sent or past the window since then. */
  predicate KnowsSuccess(cfg: Config, now: int, row: Delivery, last: Option<int>) {
    && row.sentAt == last
    && (last.Some? ==> last.value <= now && (row.status == Sent || now >= last.value + cfg.window))
    && (row.status == Sent ==> last.Some?)
  }

  predicate PastWindow(cfg: Config, now: int, row: Delivery) {
    row.sentAt.Some? ==> now >= row.sentAt.value + cfg.window
  }

  predicate RowKnows(cfg: Config, w: World, d: nat)
    requires d < |w.s.deliveries|
  {
    KnowsSuccess(cfg, w.s.now, Committed(w, d), LastSuccess(w.s.log, d))
  }

  /** A success in the open cycle came after the window of the one before. */
  predicate SucceededLater(cfg: Config, x: Done) {
    x.result.status == Sent && x.loaded.sentAt.Some? ==>
      x.result.sentAt.Some? && x.result.sentAt.value >= x.loaded.sentAt.value + cfg.window
  }

  ghost predicate CyclePastWindow(cfg: Config, now: int, c: Cycle) {
    && (forall i :: 0 <= i < |c.todo| ==> PastWindow(cfg, now, c.todo[i].loaded))
    && (forall d :: d in c.done ==> PastWindow(cfg, now, c.done[d].loaded) && SucceededLater(cfg, c.done[d]))
  }

  /** Every row knows its last success, the open cycle's results included. */
  ghost predicate Knows(cfg: Config, w: World) {
    && (forall d :: 0 <= d < |w.s.deliveries| ==> RowKnows(cfg, w, d))
    && (forall d :: d >= |w.s.deliveries| ==> LastSuccess(w.s.log, d) == None)
    && (w.cycle.Some? ==> CyclePastWindow(cfg, w.s.now, w.cycle.value))
  }

  /** A row whose success the window still covers. */
  predicate InWindow(cfg: Config, s: Alerts, d: nat) {
    && d < |s.deliveries| && s.deliveries[d].status == Sent
    && s.deliveries[d].sentAt.Some? && s.now < s.deliveries[d].sentAt.value + cfg.window
  }

  /** No fire resets a row that was sent within the window after the fire had read it, and no cycle
      is lost after a success. */
  predicate KeepsKnowledge(cfg: Config, w: World, ev: Event) {
    match ev
    case CommitFire(k) =>
      k in w.fires && !Refused(cfg, w.s, w.fires[k]) ==>
        forall d :: d in ResetsOf(cfg, w.fires[k]) ==> !InWindow(cfg, w.s, d)
    case LoseCycle =>
      w.cycle.Some? ==> forall d :: d in w.cycle.value.done ==>
        w.cycle.value.done[d].result.sentAt == w.cycle.value.done[d].loaded.sentAt
    case _ => true
  }

  // ----- one row ---------------------------------------------------------------------------------------

  lemma {:induction false} ResetsKeepSuccess(log: seq<Entry>, resets: seq<nat>, d: nat)
    ensures LastSuccess(log + ResetEntries(resets), d) == LastSuccess(log, d)
    decreases |resets|
  {
    if resets == [] {
      assert log + [] == log;
    } else {
      var last := |resets| - 1;
      ResetsKeepSuccess(log, resets[..last], d);
      LogSnoc(log + ResetEntries(resets[..last]), Reset(resets[last]), d);
      assert log + ResetEntries(resets) == log + ResetEntries(resets[..last]) + [Reset(resets[last])];
    }
  }

  lemma FiredRowKnowsIff(cfg: Config, w: World, f: Firing, d: nat)
    requires Wired(cfg, w) && Knows(cfg, w) && FireIsWired(w.s, f) && d < |w.s.deliveries|
    ensures var t := Fired(cfg, w.s, f);
      RowKnows(cfg, w.(s := t), d) <==> !(d in ResetsOf(cfg, f) && InWindow(cfg, w.s, d))
  {
    var t := Fired(cfg, w.s, f);
    ResetsKeepSuccess(w.s.log, ResetsOf(cfg, f), d);
    assert t.deliveries[d] == FiredRow(cfg, w.s, f, d) && RowKnows(cfg, w, d);
    if d in ResetsOf(cfg, f) {
      ResetsNeedIt(cfg, f.rows, f.at, f.found.value, cfg.channels, d);
    }
    if w.cycle.Some? && d in w.cycle.value.done {
      assert DoneIsWired(cfg, w.s, w.cycle.value, d);
    }
  }

  lemma AdditionsAreNew(rows: seq<Delivery>, now: int, alert: nat, channels: seq<string>)
    ensures forall i :: 0 <= i < |AddedRows(rows, now, alert, channels)| ==>
      var row := AddedRows(rows, now, alert, channels)[i]; row.status == Pending && row.attempts == 0 && row.sentAt == None
  {}

  lemma FiredKnowsIff(cfg: Config, w: World, f: Firing)
    requires Wired(cfg, w) && Knows(cfg, w) && FireIsWired(w.s, f)
    ensures Knows(cfg, w.(s := Fired(cfg, w.s, f))) <==> forall d :: d in ResetsOf(cfg, f) ==> !InWindow(cfg, w.s, d)
  {
    var w' := w.(s := Fired(cfg, w.s, f));
    forall d | 0 <= d < |w.s.deliveries|
      ensures RowKnows(cfg, w', d) <==> !(d in ResetsOf(cfg, f) && InWindow(cfg, w.s, d))
    {
      FiredRowKnowsIff(cfg, w, f, d);
    }
    AdditionsAreNew(if f.found.None? then [] else f.rows, w.s.now, AlertOf(w.s, f), cfg.channels);
    forall d: nat | d >= |w.s.deliveries| ensures LastSuccess(w'.s.log, d) == None {
      ResetsKeepSuccess(w.s.log, ResetsOf(cfg, f), d);
    }
    if w.cycle.Some? {
      forall d | d in w.cycle.value.done ensures d < |w.s.deliveries| {
        assert DoneIsWired(cfg, w.s, w.cycle.value, d);
      }
    }
    assert forall d :: |w.s.deliveries| <= d < |w'.s.deliveries| ==> RowKnows(cfg, w', d);
  }

  lemma LostRowKnowsIff(cfg: Config, w: World, d: nat)
    requires Wired(cfg, w) && Knows(cfg, w) && d < |w.s.deliveries| && w.cycle.Some?
    ensures RowKnows(cfg, w.(cycle := None), d) <==>
      (d in w.cycle.value.done ==> w.cycle.value.done[d].result.sentAt == w.cycle.value.done[d].loaded.sentAt)
  {
    assert RowKnows(cfg, w, d);
    if d in w.cycle.value.done {
      assert DoneIsWired(cfg, w.s, w.cycle.value, d);
    }
  }

  lemma LostKnowsIff(cfg: Config, w: World)
    requires Wired(cfg, w) && Knows(cfg, w) && w.cycle.Some?
    ensures Knows(cfg, w.(cycle := None)) <==> KeepsKnowledge(cfg, w, LoseCycle)
  {
    forall d | 0 <= d < |w.s.deliveries|
      ensures RowKnows(cfg, w.(cycle := None), d) <==>
        (d in w.cycle.value.done ==> w.cycle.value.done[d].result.sentAt == w.cycle.value.done[d].loaded.sentAt)
    {
      LostRowKnowsIff(cfg, w, d);
    }
    forall d | d in w.cycle.value.done ensures d < |w.s.deliveries| {
      assert DoneIsWired(cfg, w.s, w.cycle.value, d);
    }
  }

  // ----- sends -----------------------------------------------------------------------------------------

  lemma KnowsLater(cfg: Config, now: int, row: Delivery, later: int, row': Delivery, last: Option<int>)
    requires KnowsSuccess(cfg, now, row, last) && now <= later && row'.status == row.status && row'.sentAt == row.sentAt
    ensures KnowsSuccess(cfg, later, row', last)
  {}

  lemma OtherRowIsSame(cfg: Config, w: World, t: Try, d: nat)
    requires w.cycle.Some? && w.cycle.value.todo != [] && d < |w.s.deliveries| && d != w.cycle.value.todo[0].row
    ensures var w' := Dealt(cfg, w, w.cycle.value, t);
      && w'.s.deliveries == w.s.deliveries && w.s.now <= w'.s.now
      && Committed(w', d).status == Committed(w, d).status && Committed(w', d).sentAt == Committed(w, d).sentAt
      && Committed(w', d).attempts == Committed(w, d).attempts
      && LastSuccess(w'.s.log, d) == LastSuccess(w.s.log, d) && TriesSinceReset(w'.s.log, d) == TriesSinceReset(w.s.log, d)
  {
    LogSnoc(w.s.log, Send(w.cycle.value.todo[0].row, w.s.now + t.takes, t.ok), d);
  }

  lemma OtherRowKnows(cfg: Config, w: World, t: Try, d: nat)
    requires Knows(cfg, w) && w.cycle.Some? && w.cycle.value.todo != [] && d < |w.s.deliveries|
    requires d != w.cycle.value.todo[0].row
    ensures RowKnows(cfg, Dealt(cfg, w, w.cycle.value, t), d)
  {
    assert RowKnows(cfg, w, d);
    OtherRowIsSame(cfg, w, t, d);
    var w' := Dealt(cfg, w, w.cycle.value, t);
    KnowsLater(cfg, w.s.now, Committed(w, d), w'.s.now, Committed(w', d), LastSuccess(w.s.log, d));
  }

  lemma DealtRowKnows(cfg: Config, w: World, t: Try)
    requires Wired(cfg, w) && Knows(cfg, w) && w.cycle.Some? && w.cycle.value.todo != []
    ensures var d := w.cycle.value.todo[0].row; d < |w.s.deliveries| && RowKnows(cfg, Dealt(cfg, w, w.cycle.value, t), d)
  {
    var p := w.cycle.value.todo[0];
    assert TodoIsWired(cfg, w.s, w.cycle.value, 0) && RowKnows(cfg, w, p.row);
    LogSnoc(w.s.log, Send(p.row, w.s.now + t.takes, t.ok), p.row);
  }

  lemma DealtKnows(cfg: Config, w: World, t: Try)
    requires Wired(cfg, w) && Knows(cfg, w) && w.cycle.Some? && w.cycle.value.todo != []
    ensures Knows(cfg, Dealt(cfg, w, w.cycle.value, t))
  {
    var c := w.cycle.value;
    var w' := Dealt(cfg, w, c, t);
    assert TodoIsWired(cfg, w.s, c, 0);
    forall d | 0 <= d < |w.s.deliveries| ensures RowKnows(cfg, w', d) {
      if d == c.todo[0].row {
        DealtRowKnows(cfg, w, t);
      } else {
        OtherRowKnows(cfg, w, t, d);
      }
    }
    forall d: nat | d >= |w.s.deliveries| ensures LastSuccess(w'.s.log, d) == None {
      LogSnoc(w.s.log, Send(c.todo[0].row, w.s.now + t.takes, t.ok), d);
    }
  }

  /** A send comes after the window, whatever it ends in. */
  lemma DealtIsSpaced(cfg: Config, w: World, t: Try)
    requires Wired(cfg, w) && Knows(cfg, w) && AllSpaced(cfg, w.s.log) && w.cycle.Some? && w.cycle.value.todo != []
    ensures AllSpaced(cfg, Dealt(cfg, w, w.cycle.value, t).s.log)
  {
    var p := w.cycle.value.todo[0];
    var e := Send(p.row, w.s.now + t.takes, t.ok);
    assert TodoIsWired(cfg, w.s, w.cycle.value, 0) && RowKnows(cfg, w, p.row);
    assert (w.s.log + [e])[..|w.s.log|] == w.s.log;
    PrefixesKept(cfg, w.s.log, e);
  }

  lemma {:induction false} ResetsAreSpaced(cfg: Config, log: seq<Entry>, resets: seq<nat>)
    requires AllSpaced(cfg, log)
    ensures AllSpaced(cfg, log + ResetEntries(resets))
    decreases |resets|
  {
    if resets == [] {
      assert log + [] == log;
    } else {
      var last := |resets| - 1;
      ResetsAreSpaced(cfg, log, resets[..last]);
      PrefixesKept(cfg, log + ResetEntries(resets[..last]), Reset(resets[last]));
      assert log + ResetEntries(resets) == log + ResetEntries(resets[..last]) + [Reset(resets[last])];
    }
  }

  /** For any window at all, a cycle may be lost if and only if none of its sends succeeded. */
  lemma LosesNoSuccessIff(cfg: Config, w: World)
    requires Wired(cfg, w) && Knows(cfg, w) && w.cycle.Some? && cfg.window >= 1
    ensures KeepsKnowledge(cfg, w, LoseCycle) <==> forall d :: d in w.cycle.value.done ==> w.cycle.value.done[d].result.status != Sent
  {
    forall d | d in w.cycle.value.done
      ensures w.cycle.value.done[d].result.sentAt == w.cycle.value.done[d].loaded.sentAt <==> w.cycle.value.done[d].result.status != Sent
    {
      assert DoneIsWired(cfg, w.s, w.cycle.value, d);
    }
  }

  /** A fire whose rows are as it read them resets none within the window. */
  lemma UnchangedRowsMayBeReset(cfg: Config, w: World, k: nat)
    requires Wired(cfg, w) && k in w.fires
    requires forall d :: d in ResetsOf(cfg, w.fires[k]) ==> d < |w.s.deliveries| && d < |w.fires[k].rows| && w.s.deliveries[d] == w.fires[k].rows[d]
    ensures KeepsKnowledge(cfg, w, CommitFire(k))
  {
    var f := w.fires[k];
    forall d | d in ResetsOf(cfg, f) ensures !InWindow(cfg, w.s, d) {
      ResetsNeedIt(cfg, f.rows, f.at, f.found.value, cfg.channels, d);
    }
  }

  // ----- steps and runs --------------------------------------------------------------------------------

  lemma CommittedStays(cfg: Config, w: World)
    requires w.cycle.Some? && w.cycle.value.todo == [] && Knows(cfg, w)
    ensures Knows(cfg, Step(cfg, w, CommitCycle))
  {
    var w' := Step(cfg, w, CommitCycle);
    forall d | 0 <= d < |w.s.deliveries| ensures RowKnows(cfg, w', d) {
      assert RowKnows(cfg, w, d) && w'.s.deliveries[d] == Committed(w, d);
    }
  }

  lemma BegunKnows(cfg: Config, w: World, limit: nat)
    requires w.cycle.None? && Knows(cfg, w)
    ensures Knows(cfg, w.(cycle := Some(Begun(cfg, w.s, limit))))
  {
    var c := Begun(cfg, w.s, limit);
    SelectIsInRange(cfg, w.s.deliveries, c.cutoff, limit, 0);
    forall d | 0 <= d < |w.s.deliveries| ensures RowKnows(cfg, w.(cycle := Some(c)), d) {
      assert RowKnows(cfg, w, d);
    }
    forall i | 0 <= i < |c.todo| ensures PastWindow(cfg, w.s.now, c.todo[i].loaded) {
      assert RowKnows(cfg, w, c.todo[i].row);
    }
  }

  lemma LaterKnows(cfg: Config, w: World, elapsed: nat)
    requires Knows(cfg, w)
    ensures Knows(cfg, Step(cfg, w, Tick(elapsed)))
  {
    forall d | 0 <= d < |w.s.deliveries| ensures RowKnows(cfg, Step(cfg, w, Tick(elapsed)), d) {
      assert RowKnows(cfg, w, d);
    }
  }

  lemma OthersKnow(cfg: Config, w: World, ev: Event)
    requires Knows(cfg, w) && (ev.ReadFire? || ev.DropFire? || ev.Resolves? || ev.Acknowledges?)
    ensures Knows(cfg, Step(cfg, w, ev))
  {
    forall d | 0 <= d < |w.s.deliveries| ensures RowKnows(cfg, Step(cfg, w, ev), d) {
      assert RowKnows(cfg, w, d);
    }
  }

  lemma CommitFireIff(cfg: Config, w: World, k: nat)
    requires Wired(cfg, w) && Knows(cfg, w)
    ensures Knows(cfg, Step(cfg, w, CommitFire(k))) <==> KeepsKnowledge(cfg, w, CommitFire(k))
  {
    if k in w.fires {
      var dropped := w.(fires := w.fires - {k});
      forall d | 0 <= d < |w.s.deliveries| ensures RowKnows(cfg, dropped, d) {
        assert RowKnows(cfg, w, d);
      }
      if !Refused(cfg, w.s, w.fires[k]) {
        FiredKnowsIff(cfg, dropped, w.fires[k]);
      }
    }
  }

  /** Exactly which steps leave every row knowing its last success. */
  lemma KnowledgeStepIff(cfg: Config, w: World, ev: Event)
    requires Wired(cfg, w) && Knows(cfg, w)
    ensures Knows(cfg, Step(cfg, w, ev)) <==> KeepsKnowledge(cfg, w, ev)
  {
    match ev
    case Tick(elapsed) => LaterKnows(cfg, w, elapsed);
    case CommitFire(k) => CommitFireIff(cfg, w, k);
    case BeginCycle(limit) =>
      if w.cycle.None? {
        BegunKnows(cfg, w, limit);
      }
    case DealNext(t) =>
      if w.cycle.Some? && w.cycle.value.todo != [] {
        DealtKnows(cfg, w, t);
      }
    case CommitCycle =>
      if w.cycle.Some? && w.cycle.value.todo == [] {
        CommittedStays(cfg, w);
      }
    case LoseCycle =>
      if w.cycle.Some? {
        LostKnowsIff(cfg, w);
      }
    case _ => OthersKnow(cfg, w, ev);
  }

  lemma StepIsSpaced(cfg: Config, w: World, ev: Event)
    requires Wired(cfg, w) && Knows(cfg, w) && AllSpaced(cfg, w.s.log)
    ensures AllSpaced(cfg, Step(cfg, w, ev).s.log)
  {
    match ev
    case CommitFire(k) =>
      if k in w.fires && !Refused(cfg, w.s, w.fires[k]) {
        ResetsAreSpaced(cfg, w.s.log, ResetsOf(cfg, w.fires[k]));
      }
    case DealNext(t) =>
      if w.cycle.Some? && w.cycle.value.todo != [] {
        DealtIsSpaced(cfg, w, t);
      }
    case _ =>
  }

  predicate KnowledgeKept(cfg: Config, w: World, events: seq<Event>)
    decreases |events|
  {
    events == [] || (KeepsKnowledge(cfg, w, events[0]) && KnowledgeKept(cfg, Step(cfg, w, events[0]), events[1..]))
  }

  lemma {:induction false} RunKnows(cfg: Config, w: World, events: seq<Event>)
    requires Wired(cfg, w) && Knows(cfg, w) && AllSpaced(cfg, w.s.log) && KnowledgeKept(cfg, w, events)
    ensures var w' := Run(cfg, w, events); Wired(cfg, w') && Knows(cfg, w') && AllSpaced(cfg, w'.s.log)
    decreases |events|
  {
    if events != [] {
      StepStaysWired(cfg, w, events[0]);
      KnowledgeStepIff(cfg, w, events[0]);
      StepIsSpaced(cfg, w, events[0]);
      RunKnows(cfg, Step(cfg, w, events[0]), events[1..]);
    }
  }

  /** In every run that resets no row within its window and loses no cycle after a success, two
      consecutive successful sends of one alert on one channel are at least the window apart,
      whatever fires overlap the cycles and whatever failures, resolutions and resets lie between. */
  lemma SuccessesAreSpaced(cfg: Config, events: seq<Event>, n: nat)
    requires KnowledgeKept(cfg, Init, events)
    requires var log := Run(cfg, Init, events).s.log;
      n < |log| && log[n].Send? && log[n].ok && LastSuccess(log[..n], log[n].delivery).Some?
    ensures var log := Run(cfg, Init, events).s.log; log[n].at >= LastSuccess(log[..n], log[n].delivery).value + cfg.window
  {
    RunKnows(cfg, Init, events);
    assert Spaced(cfg, Run(cfg, Init, events).s.log, n);
  }
}
