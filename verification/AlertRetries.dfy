/**
 Retries under every interleaving of fires and cycles: which steps keep status, attempts and the
 tries since the last reset together, and the limits that hold even when they do not.
 */
module AlertRetries {
  import opened Wrappers
  import opened Alerting
  import opened AlertRuns
  import opened AlertSuppression
  import opened AlertRepeats

  /** Which attempts go with a status. */
  predicate StatusFits(cfg: Config, row: Delivery) {
    match row.status
    case Pending => row.attempts == 0
    case Failed => 1 <= row.attempts < cfg.retryMax
    case DeadLetter => row.attempts == if cfg.retryMax > 0 then cfg.retryMax else 0
    case Sent => 1 <= row.attempts <= cfg.retryMax
    case Suppressed => row.attempts < cfg.retryMax
  }

  predicate RowFits(cfg: Config, w: World, d: nat)
    requires d < |w.s.deliveries|
  {
    && StatusFits(cfg, w.s.deliveries[d]) && StatusFits(cfg, Committed(w, d))
    && Committed(w, d).attempts == TriesSinceReset(w.s.log, d)
  }

  ghost predicate CycleFits(cfg: Config, c: Cycle) {
    && (forall i :: 0 <= i < |c.todo| ==> StatusFits(cfg, c.todo[i].loaded))
    && (forall d :: d in c.done ==> StatusFits(cfg, c.done[d].loaded))
  }

  /** Status and attempts fit together, and attempts are the tries since the last reset. */
  ghost predicate Fits(cfg: Config, w: World) {
    && (forall d :: 0 <= d < |w.s.deliveries| ==> RowFits(cfg, w, d))
    && (forall d :: d >= |w.s.deliveries| ==> TriesSinceReset(w.s.log, d) == 0)
    && (w.cycle.Some? ==> CycleFits(cfg, w.cycle.value))
  }

  predicate TriedInCycle(w: World, d: nat) {
    w.cycle.Some? && d in w.cycle.value.done && WasTried(w.cycle.value.done[d])
  }

  /** A reset of row `d` leaves no attempts: it writes the column or the column is 0, and the open
      cycle will not overwrite it. */
  predicate Clears(w: World, f: Firing, d: nat) {
    d < |f.rows| && d < |w.s.deliveries| ==>
      (f.rows[d].attempts != 0 || w.s.deliveries[d].attempts == 0) && !TriedInCycle(w, d)
  }

  /** No row is tried after a fire has reset it under the cycle, no fire resets what the open cycle
      has tried or has not read the attempts of, and no cycle is lost after a try. */
  predicate KeepsFit(cfg: Config, w: World, ev: Event) {
    match ev
    case CommitFire(k) =>
      k in w.fires && !Refused(cfg, w.s, w.fires[k]) ==> forall d :: d in ResetsOf(cfg, w.fires[k]) ==> Clears(w, w.fires[k], d)
    case DealNext(t) =>
      w.cycle.Some? && w.cycle.value.todo != [] && Sends(cfg, w.s, w.cycle.value.todo[0])
      && w.cycle.value.todo[0].row < |w.s.deliveries| ==>
        w.s.deliveries[w.cycle.value.todo[0].row].attempts == w.cycle.value.todo[0].loaded.attempts
    case LoseCycle => LosesNoTry(w)
    case _ => true
  }

  predicate LosesNoTry(w: World) {
    w.cycle.Some? ==> forall d :: d in w.cycle.value.done ==> !WasTried(w.cycle.value.done[d])
  }

  // ----- fires -------------------------------------------------------------------------------------------

  lemma {:induction false} ResetsClearTries(log: seq<Entry>, resets: seq<nat>, d: nat)
    ensures TriesSinceReset(log + ResetEntries(resets), d) == if d in resets then 0 else TriesSinceReset(log, d)
    ensures LastTry(log + ResetEntries(resets), d) == if d in resets then None else LastTry(log, d)
    decreases |resets|
  {
    if resets == [] {
      assert log + [] == log;
    } else {
      var last := |resets| - 1;
      ResetsClearTries(log, resets[..last], d);
      LogSnoc(log + ResetEntries(resets[..last]), Reset(resets[last]), d);
      assert log + ResetEntries(resets) == log + ResetEntries(resets[..last]) + [Reset(resets[last])];
      assert resets == resets[..last] + [resets[last]];
    }
  }

  lemma FiredRowFitsIff(cfg: Config, w: World, f: Firing, d: nat)
    requires Wired(cfg, w) && Fits(cfg, w) && FireIsWired(w.s, f) && d < |w.s.deliveries|
    ensures RowFits(cfg, w.(s := Fired(cfg, w.s, f)), d) <==> (d in ResetsOf(cfg, f) ==> Clears(w, f, d))
  {
    var t := Fired(cfg, w.s, f);
    ResetsClearTries(w.s.log, ResetsOf(cfg, f), d);
    assert t.deliveries[d] == FiredRow(cfg, w.s, f, d) && RowFits(cfg, w, d);
    if d in ResetsOf(cfg, f) {
      ResetsNeedIt(cfg, f.rows, f.at, f.found.value, cfg.channels, d);
    }
    if w.cycle.Some? && d in w.cycle.value.done {
      assert DoneIsWired(cfg, w.s, w.cycle.value, d);
    }
  }

  lemma FiredFitsIff(cfg: Config, w: World, f: Firing)
    requires Wired(cfg, w) && Fits(cfg, w) && FireIsWired(w.s, f)
    ensures Fits(cfg, w.(s := Fired(cfg, w.s, f))) <==> forall d :: d in ResetsOf(cfg, f) ==> Clears(w, f, d)
  {
    var w' := w.(s := Fired(cfg, w.s, f));
    forall d | 0 <= d < |w.s.deliveries| ensures RowFits(cfg, w', d) <==> (d in ResetsOf(cfg, f) ==> Clears(w, f, d)) {
      FiredRowFitsIff(cfg, w, f, d);
    }
    AdditionsAreNew(if f.found.None? then [] else f.rows, w.s.now, AlertOf(w.s, f), cfg.channels);
    forall d: nat | d >= |w.s.deliveries| ensures TriesSinceReset(w'.s.log, d) == 0 {
      ResetsClearTries(w.s.log, ResetsOf(cfg, f), d);
    }
    if w.cycle.Some? {
      forall d | d in w.cycle.value.done ensures d < |w.s.deliveries| {
        assert DoneIsWired(cfg, w.s, w.cycle.value, d);
      }
    }
    assert forall d :: |w.s.deliveries| <= d < |w'.s.deliveries| ==> RowFits(cfg, w', d);
  }

  // ----- sends ---------------------------------------------------------------------------------------------

  lemma SameFit(cfg: Config, a: Delivery, b: Delivery)
    requires a.status == b.status && a.attempts == b.attempts
    ensures StatusFits(cfg, a) == StatusFits(cfg, b)
  {}

  lemma OtherRowFits(cfg: Config, w: World, t: Try, d: nat)
    requires Fits(cfg, w) && w.cycle.Some? && w.cycle.value.todo != [] && d < |w.s.deliveries|
    requires d != w.cycle.value.todo[0].row
    ensures RowFits(cfg, Dealt(cfg, w, w.cycle.value, t), d)
  {
    assert RowFits(cfg, w, d);
    OtherRowIsSame(cfg, w, t, d);
    SameFit(cfg, Committed(w, d), Committed(Dealt(cfg, w, w.cycle.value, t), d));
  }

  lemma DealtRowFitsIff(cfg: Config, w: World, t: Try)
    requires Wired(cfg, w) && Fits(cfg, w) && w.cycle.Some? && w.cycle.value.todo != []
    ensures var d := w.cycle.value.todo[0].row;
      d < |w.s.deliveries| && (RowFits(cfg, Dealt(cfg, w, w.cycle.value, t), d) <==> KeepsFit(cfg, w, DealNext(t)))
  {
    var p := w.cycle.value.todo[0];
    assert TodoIsWired(cfg, w.s, w.cycle.value, 0) && RowFits(cfg, w, p.row);
    LogSnoc(w.s.log, Send(p.row, w.s.now + t.takes, t.ok), p.row);
  }

  lemma DealtFitsIff(cfg: Config, w: World, t: Try)
    requires Wired(cfg, w) && Fits(cfg, w) && w.cycle.Some? && w.cycle.value.todo != []
    ensures Fits(cfg, Dealt(cfg, w, w.cycle.value, t)) <==> KeepsFit(cfg, w, DealNext(t))
  {
    var p := w.cycle.value.todo[0];
    var w' := Dealt(cfg, w, w.cycle.value, t);
    DealtRowFitsIff(cfg, w, t);
    forall d | 0 <= d < |w.s.deliveries| && d != p.row ensures RowFits(cfg, w', d) {
      OtherRowFits(cfg, w, t, d);
    }
    forall d: nat | d >= |w.s.deliveries| ensures TriesSinceReset(w'.s.log, d) == 0 {
      LogSnoc(w.s.log, Send(p.row, w.s.now + t.takes, t.ok), d);
    }
  }

  // ----- the other steps -----------------------------------------------------------------------------------

  lemma LostRowFitsIff(cfg: Config, w: World, d: nat)
    requires Wired(cfg, w) && Fits(cfg, w) && d < |w.s.deliveries| && w.cycle.Some?
    ensures RowFits(cfg, w.(cycle := None), d) <==> !TriedInCycle(w, d)
  {
    assert RowFits(cfg, w, d);
    if d in w.cycle.value.done {
      assert DoneIsWired(cfg, w.s, w.cycle.value, d);
    }
  }

  lemma LostFitsIff(cfg: Config, w: World)
    requires Wired(cfg, w) && Fits(cfg, w) && w.cycle.Some?
    ensures Fits(cfg, w.(cycle := None)) <==> LosesNoTry(w)
  {
    forall d | 0 <= d < |w.s.deliveries| ensures RowFits(cfg, w.(cycle := None), d) <==> !TriedInCycle(w, d) {
      LostRowFitsIff(cfg, w, d);
    }
    forall d | d in w.cycle.value.done ensures d < |w.s.deliveries| {
      assert DoneIsWired(cfg, w.s, w.cycle.value, d);
    }
    if d :| d in w.cycle.value.done && WasTried(w.cycle.value.done[d]) {
      assert TriedInCycle(w, d);
    }
  }

  lemma CommittedFits(cfg: Config, w: World)
    requires w.cycle.Some? && w.cycle.value.todo == [] && Fits(cfg, w)
    ensures Fits(cfg, Step(cfg, w, CommitCycle))
  {
    var w' := Step(cfg, w, CommitCycle);
    forall d | 0 <= d < |w.s.deliveries| ensures RowFits(cfg, w', d) {
      assert RowFits(cfg, w, d) && w'.s.deliveries[d] == Committed(w, d);
    }
  }

  lemma BegunFits(cfg: Config, w: World, limit: nat)
    requires w.cycle.None? && Fits(cfg, w)
    ensures Fits(cfg, w.(cycle := Some(Begun(cfg, w.s, limit))))
  {
    var c := Begun(cfg, w.s, limit);
    SelectIsInRange(cfg, w.s.deliveries, c.cutoff, limit, 0);
    forall d | 0 <= d < |w.s.deliveries| ensures RowFits(cfg, w.(cycle := Some(c)), d) {
      assert RowFits(cfg, w, d);
    }
    forall i | 0 <= i < |c.todo| ensures StatusFits(cfg, c.todo[i].loaded) {
      assert RowFits(cfg, w, c.todo[i].row);
    }
  }

  lemma OthersFit(cfg: Config, w: World, ev: Event)
    requires Fits(cfg, w) && (ev.Tick? || ev.ReadFire? || ev.DropFire? || ev.Resolves? || ev.Acknowledges?)
    ensures Fits(cfg, Step(cfg, w, ev))
  {
    forall d | 0 <= d < |w.s.deliveries| ensures RowFits(cfg, Step(cfg, w, ev), d) {
      assert RowFits(cfg, w, d);
    }
  }

  lemma CommitFireFitsIff(cfg: Config, w: World, k: nat)
    requires Wired(cfg, w) && Fits(cfg, w)
    ensures Fits(cfg, Step(cfg, w, CommitFire(k))) <==> KeepsFit(cfg, w, CommitFire(k))
  {
    if k in w.fires {
      var dropped := w.(fires := w.fires - {k});
      forall d | 0 <= d < |w.s.deliveries| ensures RowFits(cfg, dropped, d) {
        assert RowFits(cfg, w, d);
      }
      if !Refused(cfg, w.s, w.fires[k]) {
        FiredFitsIff(cfg, dropped, w.fires[k]);
        forall d ensures Clears(dropped, w.fires[k], d) == Clears(w, w.fires[k], d) {}
      }
    }
  }

  /** Exactly which steps leave every row's status, attempts and tries together. */
  lemma FitStepIff(cfg: Config, w: World, ev: Event)
    requires Wired(cfg, w) && Fits(cfg, w)
    ensures Fits(cfg, Step(cfg, w, ev)) <==> KeepsFit(cfg, w, ev)
  {
    match ev
    case CommitFire(k) => CommitFireFitsIff(cfg, w, k);
    case BeginCycle(limit) =>
      if w.cycle.None? {
        BegunFits(cfg, w, limit);
      }
    case DealNext(t) =>
      if w.cycle.Some? && w.cycle.value.todo != [] {
        DealtFitsIff(cfg, w, t);
      }
    case CommitCycle =>
      if w.cycle.Some? && w.cycle.value.todo == [] {
        CommittedFits(cfg, w);
      }
    case LoseCycle =>
      if w.cycle.Some? {
        LostFitsIff(cfg, w);
      }
    case _ => OthersFit(cfg, w, ev);
  }

  /** A row that a fire has reset under the cycle, and whose send then fails within the limit: it is
      committed pending, with the attempts of before the reset and one more. */
  lemma ResetUnderTheCycle(cfg: Config, w: World, t: Try)
    requires Wired(cfg, w) && w.cycle.Some? && w.cycle.value.todo != []
    requires var p := w.cycle.value.todo[0];
      && Sends(cfg, w.s, p) && !t.ok && p.loaded.status == Failed && p.loaded.attempts + 1 < cfg.retryMax
      && p.row < |w.s.deliveries| && w.s.deliveries[p.row].status == Pending
    ensures var p := w.cycle.value.todo[0]; var row := Committed(Dealt(cfg, w, w.cycle.value, t), p.row);
      row.status == Pending && row.attempts == p.loaded.attempts + 1
  {
    assert TodoIsWired(cfg, w.s, w.cycle.value, 0);
  }

  predicate FitKept(cfg: Config, w: World, events: seq<Event>)
    decreases |events|
  {
    events == [] || (KeepsFit(cfg, w, events[0]) && FitKept(cfg, Step(cfg, w, events[0]), events[1..]))
  }

  lemma {:induction false} RunFits(cfg: Config, w: World, events: seq<Event>)
    requires Wired(cfg, w) && Fits(cfg, w) && FitKept(cfg, w, events)
    ensures Fits(cfg, Run(cfg, w, events))
    decreases |events|
  {
    if events != [] {
      StepStaysWired(cfg, w, events[0]);
      FitStepIff(cfg, w, events[0]);
      RunFits(cfg, Step(cfg, w, events[0]), events[1..]);
    }
  }

  /** Then a pending row has no attempts, a failed one fewer than the limit and a dead letter exactly
      as many, and with no cycle open a row's attempts are its tries since its last reset. */
  lemma AttemptsFitStatus(cfg: Config, events: seq<Event>, d: nat)
    requires FitKept(cfg, Init, events) && d < |Run(cfg, Init, events).s.deliveries|
    ensures var w := Run(cfg, Init, events); var row := w.s.deliveries[d];
      && (w.cycle.None? ==> row.attempts == TriesSinceReset(w.s.log, d))
      && (row.status == Pending ==> row.attempts == 0)
      && (row.status == Failed ==> 1 <= row.attempts < cfg.retryMax)
      && (row.status == DeadLetter ==> row.attempts == if cfg.retryMax > 0 then cfg.retryMax else 0)
      && (row.status == Sent ==> 1 <= row.attempts <= cfg.retryMax)
  {
    RunFits(cfg, Init, events);
    assert RowFits(cfg, Run(cfg, Init, events), d);
  }

  // ----- the limits, whatever fires overlap ----------------------------------------------------------------

  /** A row has at least the attempts of its tries since the last reset, in the session while the
      open cycle has tried it; it was touched no earlier than it was tried; a failed row has tries left. */
  predicate RowIsBounded(cfg: Config, w: World, d: nat)
    requires d < |w.s.deliveries|
  {
    var row := w.s.deliveries[d];
    var tries, last := TriesSinceReset(w.s.log, d), LastTry(w.s.log, d);
    && (row.status == Failed ==> row.attempts < cfg.retryMax)
    && (last.Some? <==> tries > 0)
    && (last.Some? ==> last.value <= w.s.now)
    && (if TriedInCycle(w, d) then tries <= w.cycle.value.done[d].result.attempts
        else tries <= row.attempts && (last.Some? ==> last.value <= row.updatedAt))
  }

  /** A row still to be dealt with has not been tried since the cycle read it. */
  predicate TodoIsBounded(cfg: Config, s: Alerts, p: Picked) {
    var last := LastTry(s.log, p.row);
    && (last.Some? ==> last.value <= p.loaded.updatedAt)
    && (p.loaded.status == Failed ==> p.loaded.attempts < cfg.retryMax)
  }

  ghost predicate Bounded(cfg: Config, w: World) {
    && (forall d :: 0 <= d < |w.s.deliveries| ==> RowIsBounded(cfg, w, d))
    && (forall d :: d >= |w.s.deliveries| ==> TriesSinceReset(w.s.log, d) == 0 && LastTry(w.s.log, d) == None)
    && (w.cycle.Some? ==> forall i :: 0 <= i < |w.cycle.value.todo| ==> TodoIsBounded(cfg, w.s, w.cycle.value.todo[i]))
    && (w.cycle.Some? ==> forall d :: d in w.cycle.value.done ==> LeavesTries(cfg, w.cycle.value.done[d]))
  }

  predicate LeavesTries(cfg: Config, x: Done) {
    && (x.loaded.status == Failed ==> x.loaded.attempts < cfg.retryMax)
    && (x.result.status == Failed ==> x.result.attempts < cfg.retryMax)
  }

  lemma FiredIsBounded(cfg: Config, w: World, f: Firing)
    requires Wired(cfg, w) && Bounded(cfg, w)
    ensures Bounded(cfg, w.(s := Fired(cfg, w.s, f)))
  {
    var w' := w.(s := Fired(cfg, w.s, f));
    forall d: nat
      ensures TriesSinceReset(w'.s.log, d) == if d in ResetsOf(cfg, f) then 0 else TriesSinceReset(w.s.log, d)
      ensures LastTry(w'.s.log, d) == if d in ResetsOf(cfg, f) then None else LastTry(w.s.log, d)
    {
      ResetsClearTries(w.s.log, ResetsOf(cfg, f), d);
    }
    forall d | 0 <= d < |w.s.deliveries| ensures RowIsBounded(cfg, w', d) {
      FiredRowIsBounded(cfg, w, f, d);
    }
    if w.cycle.Some? {
      forall d | d in w.cycle.value.done ensures d < |w.s.deliveries| {
        assert DoneIsWired(cfg, w.s, w.cycle.value, d);
      }
      forall i | 0 <= i < |w.cycle.value.todo| ensures TodoIsBounded(cfg, w'.s, w.cycle.value.todo[i]) {
        assert TodoIsBounded(cfg, w.s, w.cycle.value.todo[i]);
      }
    }
    AdditionsAreNew(if f.found.None? then [] else f.rows, w.s.now, AlertOf(w.s, f), cfg.channels);
    assert forall d :: |w.s.deliveries| <= d < |w'.s.deliveries| ==> RowIsBounded(cfg, w', d);
  }

  lemma FiredRowIsBounded(cfg: Config, w: World, f: Firing, d: nat)
    requires Bounded(cfg, w) && d < |w.s.deliveries|
    ensures RowIsBounded(cfg, w.(s := Fired(cfg, w.s, f)), d)
  {
    var t := Fired(cfg, w.s, f);
    ResetsClearTries(w.s.log, ResetsOf(cfg, f), d);
    assert t.deliveries[d] == FiredRow(cfg, w.s, f, d) && RowIsBounded(cfg, w, d);
    if d in ResetsOf(cfg, f) {
      ResetsNeedIt(cfg, f.rows, f.at, f.found.value, cfg.channels, d);
    }
  }

  lemma DealtRowIsBounded(cfg: Config, w: World, t: Try)
    requires Wired(cfg, w) && Bounded(cfg, w) && w.cycle.Some? && w.cycle.value.todo != []
    ensures var d := w.cycle.value.todo[0].row; var w' := Dealt(cfg, w, w.cycle.value, t);
      d < |w.s.deliveries| && RowIsBounded(cfg, w', d) && LeavesTries(cfg, w'.cycle.value.done[d])
  {
    var p := w.cycle.value.todo[0];
    assert TodoIsWired(cfg, w.s, w.cycle.value, 0) && TodoIsBounded(cfg, w.s, p) && RowIsBounded(cfg, w, p.row);
    LogSnoc(w.s.log, Send(p.row, w.s.now + t.takes, t.ok), p.row);
  }

  lemma OtherRowIsBounded(cfg: Config, w: World, t: Try, d: nat)
    requires Bounded(cfg, w) && w.cycle.Some? && w.cycle.value.todo != [] && d < |w.s.deliveries|
    requires d != w.cycle.value.todo[0].row
    ensures RowIsBounded(cfg, Dealt(cfg, w, w.cycle.value, t), d)
  {
    assert RowIsBounded(cfg, w, d);
    LogSnoc(w.s.log, Send(w.cycle.value.todo[0].row, w.s.now + t.takes, t.ok), d);
  }

  lemma DealtIsBounded(cfg: Config, w: World, t: Try)
    requires Wired(cfg, w) && Bounded(cfg, w) && w.cycle.Some? && w.cycle.value.todo != []
    ensures Bounded(cfg, Dealt(cfg, w, w.cycle.value, t))
  {
    var c := w.cycle.value;
    var w' := Dealt(cfg, w, c, t);
    DealtRowIsBounded(cfg, w, t);
    forall d | 0 <= d < |w.s.deliveries| && d != c.todo[0].row ensures RowIsBounded(cfg, w', d) {
      OtherRowIsBounded(cfg, w, t, d);
    }
    forall d: nat | d >= |w.s.deliveries| ensures TriesSinceReset(w'.s.log, d) == 0 && LastTry(w'.s.log, d) == None {
      LogSnoc(w.s.log, Send(c.todo[0].row, w.s.now + t.takes, t.ok), d);
    }
    forall i | 0 <= i < |w'.cycle.value.todo| ensures TodoIsBounded(cfg, w'.s, w'.cycle.value.todo[i]) {
      assert TodoIsBounded(cfg, w.s, c.todo[i + 1]) && c.todo[i + 1].row != c.todo[0].row;
      LogSnoc(w.s.log, Send(c.todo[0].row, w.s.now + t.takes, t.ok), c.todo[i + 1].row);
    }
  }

  /** A send comes after the backoff and is within the limit. */
  lemma DealtIsLimited(cfg: Config, w: World, t: Try)
    requires Wired(cfg, w) && Bounded(cfg, w) && AllLimited(cfg, w.s.log) && w.cycle.Some? && w.cycle.value.todo != []
    ensures AllLimited(cfg, Dealt(cfg, w, w.cycle.value, t).s.log)
  {
    var p := w.cycle.value.todo[0];
    var e := Send(p.row, w.s.now + t.takes, t.ok);
    if Sends(cfg, w.s, p) {
      assert TodoIsWired(cfg, w.s, w.cycle.value, 0) && TodoIsBounded(cfg, w.s, p) && RowIsBounded(cfg, w, p.row);
      assert (w.s.log + [e])[..|w.s.log|] == w.s.log && (w.s.log + [e])[..|w.s.log| + 1] == w.s.log + [e];
      LogSnoc(w.s.log, e, p.row);
      PrefixesKept(cfg, w.s.log, e);
    }
  }

  lemma {:induction false} ResetsAreLimited(cfg: Config, log: seq<Entry>, resets: seq<nat>)
    requires AllLimited(cfg, log)
    ensures AllLimited(cfg, log + ResetEntries(resets))
    decreases |resets|
  {
    if resets == [] {
      assert log + [] == log;
    } else {
      var last := |resets| - 1;
      ResetsAreLimited(cfg, log, resets[..last]);
      PrefixesKept(cfg, log + ResetEntries(resets[..last]), Reset(resets[last]));
      assert log + ResetEntries(resets) == log + ResetEntries(resets[..last]) + [Reset(resets[last])];
    }
  }

  lemma CommittedIsBounded(cfg: Config, w: World)
    requires Wired(cfg, w) && Bounded(cfg, w) && w.cycle.Some? && w.cycle.value.todo == []
    ensures Bounded(cfg, Step(cfg, w, CommitCycle))
  {
    var w' := Step(cfg, w, CommitCycle);
    forall d | 0 <= d < |w.s.deliveries| ensures RowIsBounded(cfg, w', d) {
      assert RowIsBounded(cfg, w, d) && w'.s.deliveries[d] == Committed(w, d);
      if d in w.cycle.value.done {
        assert DoneIsWired(cfg, w.s, w.cycle.value, d);
      }
    }
  }

  lemma BegunIsBounded(cfg: Config, w: World, limit: nat)
    requires w.cycle.None? && Bounded(cfg, w)
    ensures Bounded(cfg, w.(cycle := Some(Begun(cfg, w.s, limit))))
  {
    var c := Begun(cfg, w.s, limit);
    SelectIsInRange(cfg, w.s.deliveries, c.cutoff, limit, 0);
    forall d | 0 <= d < |w.s.deliveries| ensures RowIsBounded(cfg, w.(cycle := Some(c)), d) {
      assert RowIsBounded(cfg, w, d);
    }
    forall i | 0 <= i < |c.todo| ensures TodoIsBounded(cfg, w.s, c.todo[i]) {
      assert RowIsBounded(cfg, w, c.todo[i].row);
    }
  }

  lemma OthersAreBounded(cfg: Config, w: World, ev: Event)
    requires Bounded(cfg, w)
    requires ev.Tick? || ev.ReadFire? || ev.DropFire? || ev.Resolves? || ev.Acknowledges? || (ev.LoseCycle? && LosesNoTry(w))
    ensures Bounded(cfg, Step(cfg, w, ev))
  {
    var w' := Step(cfg, w, ev);
    forall d | 0 <= d < |w.s.deliveries| ensures RowIsBounded(cfg, w', d) {
      assert RowIsBounded(cfg, w, d);
    }
    if w'.cycle.Some? {
      forall i | 0 <= i < |w'.cycle.value.todo| ensures TodoIsBounded(cfg, w'.s, w'.cycle.value.todo[i]) {
        assert TodoIsBounded(cfg, w.s, w.cycle.value.todo[i]);
      }
    }
  }

  lemma CommitFireIsBounded(cfg: Config, w: World, k: nat)
    requires Wired(cfg, w) && Bounded(cfg, w) && AllLimited(cfg, w.s.log)
    ensures var w' := Step(cfg, w, CommitFire(k)); Bounded(cfg, w') && AllLimited(cfg, w'.s.log)
  {
    if k in w.fires {
      OthersAreBounded(cfg, w, DropFire(k));
      if !Refused(cfg, w.s, w.fires[k]) {
        FiredIsBounded(cfg, w.(fires := w.fires - {k}), w.fires[k]);
        ResetsAreLimited(cfg, w.s.log, ResetsOf(cfg, w.fires[k]));
      }
    }
  }

  lemma StepIsLimited(cfg: Config, w: World, ev: Event)
    requires Wired(cfg, w) && Bounded(cfg, w) && AllLimited(cfg, w.s.log) && (ev.LoseCycle? ==> LosesNoTry(w))
    ensures var w' := Step(cfg, w, ev); Bounded(cfg, w') && AllLimited(cfg, w'.s.log)
  {
    match ev
    case CommitFire(k) => CommitFireIsBounded(cfg, w, k);
    case BeginCycle(limit) =>
      if w.cycle.None? {
        BegunIsBounded(cfg, w, limit);
      }
    case DealNext(t) =>
      if w.cycle.Some? && w.cycle.value.todo != [] {
        DealtIsBounded(cfg, w, t);
        DealtIsLimited(cfg, w, t);
      }
    case CommitCycle =>
      if w.cycle.Some? && w.cycle.value.todo == [] {
        CommittedIsBounded(cfg, w);
      }
    case _ => OthersAreBounded(cfg, w, ev);
  }

  predicate NoTryIsLost(cfg: Config, w: World, events: seq<Event>)
    decreases |events|
  {
    events == [] || ((events[0].LoseCycle? ==> LosesNoTry(w)) && NoTryIsLost(cfg, Step(cfg, w, events[0]), events[1..]))
  }

  lemma {:induction false} RunIsLimited(cfg: Config, w: World, events: seq<Event>)
    requires Wired(cfg, w) && Bounded(cfg, w) && AllLimited(cfg, w.s.log) && NoTryIsLost(cfg, w, events)
    ensures AllLimited(cfg, Run(cfg, w, events).s.log)
    decreases |events|
  {
    if events != [] {
      StepStaysWired(cfg, w, events[0]);
      StepIsLimited(cfg, w, events[0]);
      RunIsLimited(cfg, Step(cfg, w, events[0]), events[1..]);
    }
  }

  /** In every run that loses no cycle after a try, a row has between two resets at most as many
      sends as the limit, each later than the backoff after the one before, whatever fires overlap. */
  lemma RetriesAreLimited(cfg: Config, events: seq<Event>, n: nat)
    requires NoTryIsLost(cfg, Init, events)
    requires var log := Run(cfg, Init, events).s.log; n < |log| && log[n].Send?
    ensures var log := Run(cfg, Init, events).s.log; var d := log[n].delivery;
      && TriesSinceReset(log[..n + 1], d) <= cfg.retryMax
      && (LastTry(log[..n], d).Some? ==> log[n].at > LastTry(log[..n], d).value + cfg.backoff)
  {
    RunIsLimited(cfg, Init, events);
    assert Limited(cfg, Run(cfg, Init, events).s.log, n);
  }

  /** Every try a lost cycle had of a row that nothing else has touched: the next cycle may try the
      row again inside the backoff. */
  lemma LostTryMayRepeat(cfg: Config, w: World, d: nat) returns (events: seq<Event>)
    requires Wired(cfg, w) && w.cycle.Some? && d in w.cycle.value.done && d < |w.s.deliveries|
    requires TriedInCycle(w, d) && w.s.deliveries[d] == w.cycle.value.done[d].loaded && MayNotify(w.s, w.s.deliveries[d])
    requires LastTry(w.s.log, d).Some? && w.s.now <= LastTry(w.s.log, d).value + cfg.backoff
    ensures var w' := Run(cfg, Step(cfg, w, LoseCycle), events);
      |w'.s.log| > 0 && w'.s.log[|w'.s.log| - 1] == Send(d, w.s.now, true) && !Limited(cfg, w'.s.log, |w'.s.log| - 1)
    ensures forall ev :: ev in events ==> ev.BeginCycle? || ev.DealNext?
  {
    assert DoneIsWired(cfg, w.s, w.cycle.value, d);
    events := EligibleMayBeSent(cfg, Step(cfg, w, LoseCycle), d);
  }
}
