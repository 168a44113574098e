/**
 Fires and cycles that do not overlap: whole fires and whole cycles are runs of the finer steps,
 they break none of the rules, and so nothing that the rules are for.
 */
module AlertSerial {
  import opened Wrappers
  import opened Alerting
  import opened AlertRuns
  import opened AlertSuppression
  import opened AlertRepeats
  import opened AlertRetries

  /** The foreign key of the delivery rows. */
  ghost predicate AlertsExist(s: Alerts) {
    forall d :: 0 <= d < |s.deliveries| ==> s.deliveries[d].alert < |s.alerts|
  }

  lemma RunTwo(cfg: Config, w: World, a: Event, b: Event)
    ensures Run(cfg, w, [a, b]) == Step(cfg, Step(cfg, w, a), b)
  {
    assert [a, b][1..] == [b] && [b][1..] == [];
    assert Run(cfg, Step(cfg, w, a), [b]) == Step(cfg, Step(cfg, w, a), b);
  }

  // ----- a whole fire --------------------------------------------------------------------------------

  lemma {:induction false} ResetEntriesCons(d: nat, resets: seq<nat>)
    ensures ResetEntries([d] + resets) == [Reset(d)] + ResetEntries(resets)
    decreases |resets|
  {
    if resets == [] {
      assert [d][..0] == [] && [d] + [] == [d];
    } else {
      var last := |resets| - 1;
      assert ([d] + resets)[..|resets|] == [d] + resets[..last];
      ResetEntriesCons(d, resets[..last]);
    }
  }

  /** The loop over the channels resets in place the rows `Resets` lists. */
  lemma {:induction false} EnsureIsResets(cfg: Config, s: Alerts, alert: nat, channels: seq<string>)
    ensures var s' := EnsureExisting(cfg, s, alert, channels); var resets := Resets(cfg, s.deliveries, s.now, alert, channels);
      && |s'.deliveries| == |s.deliveries| && s' == s.(deliveries := s'.deliveries, log := s.log + ResetEntries(resets))
      && forall d :: 0 <= d < |s.deliveries| ==>
        s'.deliveries[d] == if d in resets then ResetRow(s.now, s.deliveries[d]) else s.deliveries[d]
    decreases |channels|
  {
    if channels == [] {
      assert s.log + [] == s.log;
    } else {
      var s1 := EnsureChannel(cfg, s, alert, channels[0]);
      EnsureIsResets(cfg, s1, alert, channels[1..]);
      var found := FindDelivery(s.deliveries, alert, channels[0]);
      if found.Some? && NeedsReset(cfg, s.now, s.deliveries[found.value]) {
        var rest := Resets(cfg, s1.deliveries, s.now, alert, channels[1..]);
        ResetEntriesCons(found.value, rest);
        assert s.log + [Reset(found.value)] + ResetEntries(rest) == s.log + ([Reset(found.value)] + ResetEntries(rest));
      }
    }
  }

  lemma {:induction false} NothingToReset(cfg: Config, rows: seq<Delivery>, at: int, alert: nat, channels: seq<string>)
    requires forall d :: 0 <= d < |rows| ==> rows[d].alert != alert
    ensures Resets(cfg, rows, at, alert, channels) == []
    decreases |channels|
  {
    if channels != [] {
      NothingToReset(cfg, rows, at, alert, channels[1..]);
    }
  }

  lemma {:induction false} NewAlertAdds(rows: seq<Delivery>, now: int, alert: nat, channels: seq<string>)
    requires forall d :: 0 <= d < |rows| ==> rows[d].alert != alert
    ensures AddedRows(rows, now, alert, channels) == AddedRows([], now, alert, channels)
    decreases |channels|
  {
    if channels != [] {
      NewAlertAdds(rows, now, alert, channels[1..]);
    }
  }

  lemma {:induction false} AddedAreMissing(rows: seq<Delivery>, now: int, alert: nat, channels: seq<string>)
    ensures forall i :: 0 <= i < |AddedRows(rows, now, alert, channels)| ==>
      var row := AddedRows(rows, now, alert, channels)[i]; row.alert == alert && FindDelivery(rows, alert, row.channel).None?
    decreases |channels|
  {
    if channels != [] {
      AddedAreMissing(rows, now, alert, channels[1..]);
    }
  }

  /** Nothing can refuse a fire that has just read but a repeated channel. */
  lemma RefusedAtOnceIff(cfg: Config, s: Alerts, fingerprint: string)
    requires AlertsExist(s)
    ensures var f := ReadAlert(s, fingerprint);
      && Additions(cfg, s, f) == AddedRows(s.deliveries, s.now, AlertOf(s, f), cfg.channels)
      && (Refused(cfg, s, f) <==> !DistinctRows(Additions(cfg, s, f)))
  {
    var f := ReadAlert(s, fingerprint);
    if f.found.None? {
      NewAlertAdds(s.deliveries, s.now, |s.alerts|, cfg.channels);
    }
    AddedAreMissing(s.deliveries, s.now, AlertOf(s, f), cfg.channels);
  }

  lemma FiredAtOnce(cfg: Config, s: Alerts, fingerprint: string)
    requires AlertsExist(s)
    ensures var f := ReadAlert(s, fingerprint); var ensured := EnsureExisting(cfg, s, AlertOf(s, f), cfg.channels);
      Fired(cfg, s, f) == ensured.(alerts := FiredAlerts(s, f), deliveries := ensured.deliveries + Additions(cfg, s, f))
  {
    var f := ReadAlert(s, fingerprint);
    var ensured := EnsureExisting(cfg, s, AlertOf(s, f), cfg.channels);
    EnsureIsResets(cfg, s, AlertOf(s, f), cfg.channels);
    if f.found.None? {
      NothingToReset(cfg, s.deliveries, s.now, |s.alerts|, cfg.channels);
    }
    assert Resets(cfg, s.deliveries, s.now, AlertOf(s, f), cfg.channels) == ResetsOf(cfg, f);
    forall d | 0 <= d < |s.deliveries| ensures ensured.deliveries[d] == FiredRow(cfg, s, f, d) {
      if d in ResetsOf(cfg, f) {
        ResetsNeedIt(cfg, f.rows, f.at, f.found.value, cfg.channels, d);
      }
    }
  }

  lemma {:induction false} EnsureIgnoresAlerts(cfg: Config, s: Alerts, alerts: seq<Alert>, alert: nat, channels: seq<string>)
    ensures EnsureExisting(cfg, s.(alerts := alerts), alert, channels) == EnsureExisting(cfg, s, alert, channels).(alerts := alerts)
    decreases |channels|
  {
    if channels != [] {
      assert EnsureChannel(cfg, s.(alerts := alerts), alert, channels[0]) == EnsureChannel(cfg, s, alert, channels[0]).(alerts := alerts);
      EnsureIgnoresAlerts(cfg, EnsureChannel(cfg, s, alert, channels[0]), alerts, alert, channels[1..]);
    }
  }

  /** A fire that commits at the moment it reads is a whole fire. */
  lemma FireIsItsParts(cfg: Config, w: World, k: nat, fingerprint: string)
    requires AlertsExist(w.s) && k !in w.fires
    ensures Run(cfg, w, [ReadFire(k, fingerprint), CommitFire(k)]) == w.(s := Fire(cfg, w.s, fingerprint))
  {
    RunTwo(cfg, w, ReadFire(k, fingerprint), CommitFire(k));
    var w1 := Step(cfg, w, ReadFire(k, fingerprint));
    var f := ReadAlert(w.s, fingerprint);
    assert w1.fires - {k} == w.fires;
    RefusedAtOnceIff(cfg, w.s, fingerprint);
    FiredAtOnce(cfg, w.s, fingerprint);
    EnsureIgnoresAlerts(cfg, w.s, FiredAlerts(w.s, f), AlertOf(w.s, f), cfg.channels);
  }

  // ----- a whole cycle -----------------------------------------------------------------------------------

  function Deals(tries: seq<Try>, n: nat): seq<Event>
    decreases n
  {
    if n == 0 then [] else [DealNext(TryAt(tries, 0))] + Deals(if tries == [] then [] else tries[1..], n - 1)
  }

  /** The open cycle against the specified one that stamps its rows with `end` as it goes. */
  ghost predicate Matches(w: World, s: Alerts, end: int) {
    && w.cycle.Some? && s.now == w.s.now && s.alerts == w.s.alerts && s.log == w.s.log && |s.deliveries| == |w.s.deliveries|
    && (forall d :: 0 <= d < |s.deliveries| ==> s.deliveries[d] == Stamped(w, d, end))
    && (forall i :: 0 <= i < |w.cycle.value.todo| ==>
      var p := w.cycle.value.todo[i]; p.row < |w.s.deliveries| && p.row !in w.cycle.value.done && p.loaded == w.s.deliveries[p.row])
    && (forall i, j :: 0 <= i < j < |w.cycle.value.todo| ==> w.cycle.value.todo[i].row != w.cycle.value.todo[j].row)
    && (forall d :: d in w.cycle.value.done ==> d < |w.s.deliveries| && IsUncommitted(w.cycle.value.done[d], w.s.deliveries[d]))
  }

  predicate IsUncommitted(x: Done, row: Delivery) {
    && x.loaded == row && x.result != row
    && x.result == row.(status := x.result.status, attempts := x.result.attempts, sentAt := x.result.sentAt)
  }

  function Stamped(w: World, d: nat, end: int): Delivery
    requires w.cycle.Some? && d < |w.s.deliveries|
  {
    if d in w.cycle.value.done then w.cycle.value.done[d].result.(updatedAt := end) else w.s.deliveries[d]
  }

  lemma DealMatches(cfg: Config, w: World, s: Alerts, t: Try, end: int)
    requires Matches(w, s, end) && w.cycle.value.todo != []
    requires IsOpen(w.cycle.value.todo[0].loaded)
    ensures var w' := Dealt(cfg, w, w.cycle.value, t);
      && Matches(w', Attempt(cfg, s, w.cycle.value.todo[0].row, t, end), end)
      && w'.s.deliveries == w.s.deliveries && w'.fires == w.fires && w'.cycle.value.todo == w.cycle.value.todo[1..]
    ensures OrderlyStep(cfg, w, DealNext(t))
  {
    var c := w.cycle.value;
    var w' := Dealt(cfg, w, c, t);
    var p := c.todo[0];
    assert s.deliveries[p.row] == Stamped(w, p.row, end);
    forall d | 0 <= d < |s.deliveries| && d != p.row ensures Stamped(w', d, end) == Stamped(w, d, end) {}
    forall i | 0 <= i < |w'.cycle.value.todo| ensures w'.cycle.value.todo[i] == c.todo[i + 1] {}
  }

  predicate IsOpen(row: Delivery) {
    row.status == Pending || row.status == Failed
  }

  function RowsTodo(todo: seq<Picked>): (rows: seq<nat>)
    ensures |rows| == |todo| && forall i :: 0 <= i < |todo| ==> rows[i] == todo[i].row
  {
    if todo == [] then [] else [todo[0].row] + RowsTodo(todo[1..])
  }

  lemma DealsCons(cfg: Config, w: World, tries: seq<Try>)
    requires w.cycle.Some? && w.cycle.value.todo != []
    ensures var todo := w.cycle.value.todo; var w1 := Dealt(cfg, w, w.cycle.value, TryAt(tries, 0));
      var events := Deals(tries, |todo|); var rest := Deals(if tries == [] then [] else tries[1..], |todo| - 1);
      && Run(cfg, w, events) == Run(cfg, w1, rest) && RowsTodo(todo)[0] == todo[0].row && RowsTodo(todo)[1..] == RowsTodo(todo[1..])
      && (OrderlyStep(cfg, w, DealNext(TryAt(tries, 0))) && Orderly(cfg, w1, rest) ==> Orderly(cfg, w, events))
  {
    var events := Deals(tries, |w.cycle.value.todo|);
    assert events[0] == DealNext(TryAt(tries, 0)) && events[1..] == Deals(if tries == [] then [] else tries[1..], |w.cycle.value.todo| - 1);
    assert Step(cfg, w, events[0]) == Dealt(cfg, w, w.cycle.value, TryAt(tries, 0));
  }

  lemma {:induction false} DealsMatch(cfg: Config, w: World, s: Alerts, tries: seq<Try>, end: int)
    requires Matches(w, s, end) && forall i :: 0 <= i < |w.cycle.value.todo| ==> IsOpen(w.cycle.value.todo[i].loaded)
    ensures forall i :: 0 <= i < |w.cycle.value.todo| ==> RowsTodo(w.cycle.value.todo)[i] < |s.deliveries|
    ensures var w' := Run(cfg, w, Deals(tries, |w.cycle.value.todo|));
      && Matches(w', AttemptAll(cfg, s, RowsTodo(w.cycle.value.todo), tries, end), end)
      && w'.cycle.value.todo == [] && w'.fires == w.fires && w'.s.deliveries == w.s.deliveries
    ensures Orderly(cfg, w, Deals(tries, |w.cycle.value.todo|))
    decreases |w.cycle.value.todo|
  {
    var c := w.cycle.value;
    if c.todo != [] {
      DealsCons(cfg, w, tries);
      DealMatches(cfg, w, s, TryAt(tries, 0), end);
      DealsMatch(cfg, Dealt(cfg, w, c, TryAt(tries, 0)), Attempt(cfg, s, c.todo[0].row, TryAt(tries, 0), end),
                 if tries == [] then [] else tries[1..], end);
    }
  }

  // ----- the rules along a run -----------------------------------------------------------------------------

  predicate Orderly(cfg: Config, w: World, events: seq<Event>)
    decreases |events|
  {
    events == [] || (OrderlyStep(cfg, w, events[0]) && Orderly(cfg, Step(cfg, w, events[0]), events[1..]))
  }

  predicate OrderlyStep(cfg: Config, w: World, ev: Event) {
    KeepsKnowledge(cfg, w, ev) && KeepsFit(cfg, w, ev) && (ev.LoseCycle? ==> LosesNoTry(w))
  }

  lemma {:induction false} OrderlyMeans(cfg: Config, w: World, events: seq<Event>)
    requires Orderly(cfg, w, events)
    ensures KnowledgeKept(cfg, w, events) && FitKept(cfg, w, events) && NoTryIsLost(cfg, w, events)
    decreases |events|
  {
    if events != [] {
      OrderlyMeans(cfg, Step(cfg, w, events[0]), events[1..]);
    }
  }

  lemma {:induction false} OrderlyConcat(cfg: Config, w: World, a: seq<Event>, b: seq<Event>)
    requires Orderly(cfg, w, a) && Orderly(cfg, Run(cfg, w, a), b)
    ensures Orderly(cfg, w, a + b)
    decreases |a|
  {
    if a == [] {
      assert a + b == b;
    } else {
      assert (a + b)[0] == a[0] && (a + b)[1..] == a[1..] + b;
      OrderlyConcat(cfg, Step(cfg, w, a[0]), a[1..], b);
    }
  }

  lemma BegunMatches(cfg: Config, w: World, limit: nat, end: int)
    requires w.cycle.None?
    ensures Matches(w.(cycle := Some(Begun(cfg, w.s, limit))), w.s, end)
    ensures RowsTodo(Begun(cfg, w.s, limit).todo) == Select(cfg, w.s.deliveries, w.s.now - cfg.backoff, limit, 0)
    ensures forall i :: 0 <= i < |Begun(cfg, w.s, limit).todo| ==> IsOpen(Begun(cfg, w.s, limit).todo[i].loaded)
  {
    SelectIsInRange(cfg, w.s.deliveries, w.s.now - cfg.backoff, limit, 0);
  }

  lemma CommitMatches(cfg: Config, w: World, s: Alerts, end: int)
    requires Matches(w, s, end) && w.cycle.value.todo == [] && w.s.now == end
    ensures CommittedRows(w) == s.deliveries
  {
    forall d | 0 <= d < |s.deliveries| ensures Committed(w, d) == s.deliveries[d] {
      assert s.deliveries[d] == Stamped(w, d, end);
      if d in w.cycle.value.done {
        assert IsUncommitted(w.cycle.value.done[d], w.s.deliveries[d]);
      }
    }
  }

  function CycleParts(cfg: Config, s: Alerts, limit: nat, tries: seq<Try>, delay: nat): seq<Event> {
    if cfg.notifiers == {} then []
    else [BeginCycle(limit)] + (Deals(tries, |Begun(cfg, s, limit).todo|) + [Tick(delay), CommitCycle])
  }

  /** A cycle that nothing interrupts is a whole cycle. */
  lemma CycleIsItsParts(cfg: Config, w: World, limit: nat, tries: seq<Try>, delay: nat)
    requires w.cycle.None?
    ensures var events := CycleParts(cfg, w.s, limit, tries, delay);
      Run(cfg, w, events) == w.(s := Process(cfg, w.s, limit, tries, delay)) && Orderly(cfg, w, events)
  {
    if cfg.notifiers != {} {
      var picked := Select(cfg, w.s.deliveries, w.s.now - cfg.backoff, limit, 0);
      SelectIsInRange(cfg, w.s.deliveries, w.s.now - cfg.backoff, limit, 0);
      var end := AttemptAll(cfg, w.s, picked, tries, 0).now + delay;
      EndIsTheCommit(cfg, w.s, picked, tries, 0, end);
      BegunRuns(cfg, w, limit, tries, delay, picked, end);
    }
  }

  lemma BegunRuns(cfg: Config, w: World, limit: nat, tries: seq<Try>, delay: nat, picked: seq<nat>, end: int)
    requires w.cycle.None? && cfg.notifiers != {}
    requires picked == Select(cfg, w.s.deliveries, w.s.now - cfg.backoff, limit, 0)
    requires forall i :: 0 <= i < |picked| ==> picked[i] < |w.s.deliveries|
    requires end == AttemptAll(cfg, w.s, picked, tries, end).now + delay
    ensures var events := CycleParts(cfg, w.s, limit, tries, delay);
      Run(cfg, w, events) == w.(s := AttemptAll(cfg, w.s, picked, tries, end).(now := end)) && Orderly(cfg, w, events)
  {
    var w1 := Step(cfg, w, BeginCycle(limit));
    BegunMatches(cfg, w, limit, end);
    DealsMatch(cfg, w1, w.s, tries, end);
    EndOfCycle(cfg, w1, tries, delay, AttemptAll(cfg, w.s, picked, tries, end), end);
    var events := CycleParts(cfg, w.s, limit, tries, delay);
    assert events[0] == BeginCycle(limit) && events[1..] == Deals(tries, |w1.cycle.value.todo|) + [Tick(delay), CommitCycle];
  }

  lemma EndOfCycle(cfg: Config, w: World, tries: seq<Try>, delay: nat, s: Alerts, end: int)
    requires w.cycle.Some? && Orderly(cfg, w, Deals(tries, |w.cycle.value.todo|))
    requires var w' := Run(cfg, w, Deals(tries, |w.cycle.value.todo|));
      Matches(w', s, end) && w'.cycle.value.todo == [] && w'.fires == w.fires && end == s.now + delay
    ensures var events := Deals(tries, |w.cycle.value.todo|) + [Tick(delay), CommitCycle];
      Run(cfg, w, events) == World(s.(now := end), None, w.fires) && Orderly(cfg, w, events)
  {
    var deals, rest := Deals(tries, |w.cycle.value.todo|), [Tick(delay), CommitCycle];
    var w' := Run(cfg, w, deals);
    RunConcat(cfg, w, deals, rest);
    OrderlyConcatEnd(cfg, w, deals, delay);
    var w2 := Step(cfg, w', Tick(delay));
    CommitMatches(cfg, w2, s.(now := end), end);
    RunTwo(cfg, w', Tick(delay), CommitCycle);
  }

  lemma OrderlyConcatEnd(cfg: Config, w: World, deals: seq<Event>, delay: nat)
    requires Orderly(cfg, w, deals)
    ensures Orderly(cfg, w, deals + [Tick(delay), CommitCycle])
  {
    var rest := [Tick(delay), CommitCycle];
    assert rest[1..] == [CommitCycle] && rest[1..][1..] == [];
    var w1 := Run(cfg, w, deals);
    assert Orderly(cfg, Step(cfg, Step(cfg, w1, rest[0]), CommitCycle), []);
    assert Orderly(cfg, Step(cfg, w1, rest[0]), [CommitCycle]);
    OrderlyConcat(cfg, w, deals, rest);
  }

  // ----- runs of whole fires and whole cycles -------------------------------------------------------------

  datatype Whole =
    | Elapses(elapsed: nat)
    | FiresWhole(fingerprint: string)
    | Becomes(alert: nat, resolved: bool)
    | CyclesWhole(limit: nat, tries: seq<Try>, delay: nat)

  function StepWhole(cfg: Config, s: Alerts, ev: Whole): Alerts {
    match ev
    case Elapses(elapsed) => s.(now := s.now + elapsed)
    case FiresWhole(fingerprint) => Fire(cfg, s, fingerprint)
    case Becomes(alert, resolved) => SetStatus(s, alert, if resolved then Resolved else Acknowledged)
    case CyclesWhole(limit, tries, delay) => Process(cfg, s, limit, tries, delay)
  }

  function RunWhole(cfg: Config, s: Alerts, events: seq<Whole>): Alerts
    decreases |events|
  {
    if events == [] then s else RunWhole(cfg, StepWhole(cfg, s, events[0]), events[1..])
  }

  function PartsOf(cfg: Config, s: Alerts, ev: Whole): seq<Event> {
    match ev
    case Elapses(elapsed) => [Tick(elapsed)]
    case FiresWhole(fingerprint) => [ReadFire(0, fingerprint), CommitFire(0)]
    case Becomes(alert, resolved) => [if resolved then Resolves(alert) else Acknowledges(alert)]
    case CyclesWhole(limit, tries, delay) => CycleParts(cfg, s, limit, tries, delay)
  }

  function AtRest(s: Alerts): World {
    World(s, None, map[])
  }

  lemma FireIsOrderly(cfg: Config, s: Alerts, fingerprint: string)
    ensures Orderly(cfg, AtRest(s), [ReadFire(0, fingerprint), CommitFire(0)])
  {
    var events := [ReadFire(0, fingerprint), CommitFire(0)];
    assert events[1..] == [CommitFire(0)] && events[1..][1..] == [];
    var w1 := Step(cfg, AtRest(s), events[0]);
    var f := ReadAlert(s, fingerprint);
    assert w1.fires[0] == f && FireIsWired(s, f);
    forall d | d in ResetsOf(cfg, f) ensures d < |s.deliveries| {
      ResetsNeedIt(cfg, f.rows, f.at, f.found.value, cfg.channels, d);
    }
    UnchangedRowsMayBeReset(cfg, w1, 0);
    assert OrderlyStep(cfg, w1, CommitFire(0));
    assert Orderly(cfg, w1, events[1..]);
  }

  lemma PartsRun(cfg: Config, s: Alerts, ev: Whole)
    requires AlertsExist(s)
    ensures Run(cfg, AtRest(s), PartsOf(cfg, s, ev)) == AtRest(StepWhole(cfg, s, ev)) && Orderly(cfg, AtRest(s), PartsOf(cfg, s, ev))
  {
    match ev
    case FiresWhole(fingerprint) =>
      FireIsItsParts(cfg, AtRest(s), 0, fingerprint);
      FireIsOrderly(cfg, s, fingerprint);
    case CyclesWhole(limit, tries, delay) => CycleIsItsParts(cfg, AtRest(s), limit, tries, delay);
    case _ =>
      var one := PartsOf(cfg, s, ev)[0];
      assert PartsOf(cfg, s, ev)[1..] == [];
      assert Run(cfg, AtRest(s), PartsOf(cfg, s, ev)) == Step(cfg, AtRest(s), one);
  }

  lemma {:induction false} AttemptsKeepAlerts(cfg: Config, s: Alerts, picked: seq<nat>, tries: seq<Try>, end: int)
    requires AlertsExist(s) && forall i :: 0 <= i < |picked| ==> picked[i] < |s.deliveries|
    ensures AlertsExist(AttemptAll(cfg, s, picked, tries, end))
    decreases |picked|
  {
    if picked != [] {
      AttemptsKeepAlerts(cfg, Attempt(cfg, s, picked[0], TryAt(tries, 0), end), picked[1..], if tries == [] then [] else tries[1..], end);
    }
  }

  lemma FireKeepsAlerts(cfg: Config, s: Alerts, fingerprint: string)
    requires AlertsExist(s)
    ensures AlertsExist(Fire(cfg, s, fingerprint))
  {
    var f := ReadAlert(s, fingerprint);
    EnsureIsResets(cfg, s.(alerts := FiredAlerts(s, f)), AlertOf(s, f), cfg.channels);
    AddedAreMissing(s.deliveries, s.now, AlertOf(s, f), cfg.channels);
  }

  lemma StepKeepsAlerts(cfg: Config, s: Alerts, ev: Whole)
    requires AlertsExist(s)
    ensures AlertsExist(StepWhole(cfg, s, ev))
  {
    match ev
    case FiresWhole(fingerprint) => FireKeepsAlerts(cfg, s, fingerprint);
    case CyclesWhole(limit, tries, delay) =>
      if cfg.notifiers != {} {
        var picked := Select(cfg, s.deliveries, s.now - cfg.backoff, limit, 0);
        SelectIsInRange(cfg, s.deliveries, s.now - cfg.backoff, limit, 0);
        AttemptsKeepAlerts(cfg, s, picked, tries, AttemptAll(cfg, s, picked, tries, 0).now + delay);
      }
    case _ =>
  }

  lemma {:induction false} WholeRunIsARun(cfg: Config, s: Alerts, events: seq<Whole>) returns (parts: seq<Event>)
    requires AlertsExist(s)
    ensures Run(cfg, AtRest(s), parts) == AtRest(RunWhole(cfg, s, events)) && Orderly(cfg, AtRest(s), parts)
    decreases |events|
  {
    if events == [] {
      parts := [];
    } else {
      var first := PartsOf(cfg, s, events[0]);
      PartsRun(cfg, s, events[0]);
      StepKeepsAlerts(cfg, s, events[0]);
      var rest := WholeRunIsARun(cfg, StepWhole(cfg, s, events[0]), events[1..]);
      parts := first + rest;
      RunConcat(cfg, AtRest(s), first, rest);
      OrderlyConcat(cfg, AtRest(s), first, rest);
    }
  }

  /** In every run of whole fires and whole cycles, whatever the limits are set to: successes keep
      the window, tries keep the backoff and the limit, and every row's attempts fit its status and
      are its tries since its last reset. */
  lemma SerialRunsKeepEverything(cfg: Config, events: seq<Whole>)
    ensures var s := RunWhole(cfg, NoAlerts, events);
      && AllSpaced(cfg, s.log) && AllLimited(cfg, s.log)
      && forall d :: 0 <= d < |s.deliveries| ==>
        StatusFits(cfg, s.deliveries[d]) && s.deliveries[d].attempts == TriesSinceReset(s.log, d)
  {
    var parts := WholeRunIsARun(cfg, NoAlerts, events);
    OrderlyMeans(cfg, Init, parts);
    RunKnows(cfg, Init, parts);
    RunIsLimited(cfg, Init, parts);
    RunFits(cfg, Init, parts);
    var w := Run(cfg, Init, parts);
    forall d | 0 <= d < |w.s.deliveries|
      ensures StatusFits(cfg, w.s.deliveries[d]) && w.s.deliveries[d].attempts == TriesSinceReset(w.s.log, d)
    {
      assert RowFits(cfg, w, d);
    }
  }
}
