/** Steps that do not keep the rows' knowledge let a later cycle repeat a send too early. */
module AlertRepeats {
  import opened Wrappers
  import opened Alerting
  import opened AlertRuns
  import opened AlertSuppression

  // ----- an eligible row may be sent at once ---------------------------------------------------------

  lemma SelectHasAll(cfg: Config, rows: seq<Delivery>, cutoff: int, limit: nat, i: nat, d: nat)
    requires i <= d < |rows| && Eligible(cfg, rows[d], cutoff) && limit >= |rows| - i
    ensures d in Select(cfg, rows, cutoff, limit, i)
    decreases |rows| - i
  {}

  function Failures(n: nat): seq<Event> {
    if n == 0 then [] else [DealNext(Try(0, false))] + Failures(n - 1)
  }

  lemma FailuresOnlyDeal(n: nat)
    ensures forall ev :: ev in Failures(n) ==> ev.DealNext?
  {}

  lemma {:induction false} RunConcat(cfg: Config, w: World, a: seq<Event>, b: seq<Event>)
    ensures Run(cfg, w, a + b) == Run(cfg, Run(cfg, w, a), b)
    decreases |a|
  {
    if a == [] {
      assert a + b == b;
    } else {
      assert (a + b)[0] == a[0] && (a + b)[1..] == a[1..] + b;
      RunConcat(cfg, Step(cfg, w, a[0]), a[1..], b);
    }
  }

  /** What a row's log says of its sends is not changed by sends of other rows. */
  ghost predicate SameSends(a: seq<Entry>, b: seq<Entry>, d: nat) {
    LastSuccess(a, d) == LastSuccess(b, d) && LastTry(a, d) == LastTry(b, d) && TriesSinceReset(a, d) == TriesSinceReset(b, d)
  }

  lemma {:induction false} DealUpTo(cfg: Config, w: World, n: nat, d: nat)
    requires w.cycle.Some? && n < |w.cycle.value.todo|
    requires forall i :: 0 <= i < n ==> w.cycle.value.todo[i].row != d
    ensures var w' := Run(cfg, w, Failures(n));
      && w'.s == w.s.(log := w'.s.log) && SameSends(w'.s.log, w.s.log, d)
      && w'.cycle.Some? && w'.cycle.value.todo == w.cycle.value.todo[n..]
    decreases n
  {
    if n > 0 {
      var w1 := Step(cfg, w, DealNext(Try(0, false)));
      assert Failures(n)[0] == DealNext(Try(0, false)) && Failures(n)[1..] == Failures(n - 1);
      assert w1.cycle.value.todo == w.cycle.value.todo[1..];
      LogSnoc(w.s.log, Send(w.cycle.value.todo[0].row, w.s.now, false), d);
      DealUpTo(cfg, w1, n - 1, d);
    }
  }

  /** After `events` the last thing logged is a successful send of `d`, now, with nothing of `d`
      logged since `w`. */
  ghost predicate SentAgain(cfg: Config, w: World, events: seq<Event>, d: nat) {
    var w' := Run(cfg, w, events);
    var last := |w'.s.log| - 1;
    last >= 0 && w'.s.log[last] == Send(d, w.s.now, true) && SameSends(w'.s.log[..last], w.s.log, d)
  }

  lemma SendNext(cfg: Config, w: World, d: nat)
    requires w.cycle.Some? && w.cycle.value.todo != [] && w.cycle.value.todo[0].row == d
    requires Sends(cfg, w.s, w.cycle.value.todo[0])
    ensures SentAgain(cfg, w, [DealNext(Try(0, true))], d)
  {
    var ev := DealNext(Try(0, true));
    assert Run(cfg, w, [ev]) == Step(cfg, w, ev) by {
      assert [ev][1..] == [];
    }
    assert (w.s.log + [Send(d, w.s.now, true)])[..|w.s.log|] == w.s.log;
  }

  lemma EligibleIsPicked(cfg: Config, w: World, d: nat) returns (n: nat)
    requires w.cycle.None? && d < |w.s.deliveries| && Eligible(cfg, w.s.deliveries[d], w.s.now - cfg.backoff)
    ensures var w1 := Step(cfg, w, BeginCycle(|w.s.deliveries|));
      && w1.s == w.s && w1.cycle.Some? && n < |w1.cycle.value.todo| && w1.cycle.value.todo[n] == Picked(d, w.s.deliveries[d])
      && forall i :: 0 <= i < n ==> w1.cycle.value.todo[i].row != d
  {
    var rows, cutoff := w.s.deliveries, w.s.now - cfg.backoff;
    var picked := Select(cfg, rows, cutoff, |rows|, 0);
    SelectHasAll(cfg, rows, cutoff, |rows|, 0, d);
    SelectIsInRange(cfg, rows, cutoff, |rows|, 0);
    n :| 0 <= n < |picked| && picked[n] == d;
  }

  lemma SendNth(cfg: Config, w: World, n: nat, d: nat)
    requires w.cycle.Some? && n < |w.cycle.value.todo| && w.cycle.value.todo[n].row == d && Sends(cfg, w.s, w.cycle.value.todo[n])
    requires forall i :: 0 <= i < n ==> w.cycle.value.todo[i].row != d
    ensures SentAgain(cfg, w, Failures(n) + [DealNext(Try(0, true))], d)
  {
    DealUpTo(cfg, w, n, d);
    var w' := Run(cfg, w, Failures(n));
    assert w'.cycle.value.todo[0] == w.cycle.value.todo[n];
    SendNext(cfg, w', d);
    RunConcat(cfg, w, Failures(n), [DealNext(Try(0, true))]);
  }

  /** While no cycle is open, the next one may send any eligible row of an open alert at once. */
  lemma EligibleMayBeSent(cfg: Config, w: World, d: nat) returns (events: seq<Event>)
    requires w.cycle.None? && d < |w.s.deliveries| && Eligible(cfg, w.s.deliveries[d], w.s.now - cfg.backoff)
    requires !IsExhausted(cfg, w.s.deliveries[d]) && MayNotify(w.s, w.s.deliveries[d])
    ensures SentAgain(cfg, w, events, d) && forall ev :: ev in events ==> ev.BeginCycle? || ev.DealNext?
  {
    var n := EligibleIsPicked(cfg, w, d);
    var begin, sends := BeginCycle(|w.s.deliveries|), Failures(n) + [DealNext(Try(0, true))];
    SendNth(cfg, Step(cfg, w, begin), n, d);
    events := [begin] + sends;
    assert events[0] == begin && events[1..] == sends;
    FailuresOnlyDeal(n);
  }

  // ----- so what a lost cycle or a late fire leaves behind may repeat ---------------------------------

  /** The last send of a run is a success of `d` inside the window of the success before it. */
  ghost predicate RepeatsInWindow(cfg: Config, w: World, d: nat) {
    var last := |w.s.log| - 1;
    last >= 0 && w.s.log[last].Send? && w.s.log[last].delivery == d && !Spaced(cfg, w.s.log, last)
  }

  /** Every success a lost cycle had for a row that nothing else has touched: the next cycle may
      send the row again as long as the window lasts. */
  lemma LostSuccessMayRepeat(cfg: Config, w: World, d: nat) returns (events: seq<Event>)
    requires Wired(cfg, w) && Knows(cfg, w) && w.cycle.Some? && d in w.cycle.value.done && d < |w.s.deliveries|
    requires var x := w.cycle.value.done[d];
      x.result.status == Sent && x.result.sentAt.Some? && w.s.now < x.result.sentAt.value + cfg.window && w.s.deliveries[d] == x.loaded
    requires MayNotify(w.s, w.s.deliveries[d])
    ensures RepeatsInWindow(cfg, Run(cfg, Step(cfg, w, LoseCycle), events), d)
    ensures forall ev :: ev in events ==> ev.BeginCycle? || ev.DealNext?
  {
    assert DoneIsWired(cfg, w.s, w.cycle.value, d) && RowKnows(cfg, w, d);
    events := EligibleMayBeSent(cfg, Step(cfg, w, LoseCycle), d);
  }

  /** Every row that a fire resets inside the window: the next cycle may send it again as long as
      the window lasts. */
  lemma LateResetMayRepeat(cfg: Config, w: World, k: nat, d: nat) returns (events: seq<Event>)
    requires Wired(cfg, w) && Knows(cfg, w) && w.cycle.None? && k in w.fires && !Refused(cfg, w.s, w.fires[k])
    requires d in ResetsOf(cfg, w.fires[k]) && InWindow(cfg, w.s, d) && d < |w.fires[k].rows| && w.fires[k].rows[d].attempts != 0
    requires cfg.retryMax >= 1 && w.s.deliveries[d].channel in cfg.notifiers
    requires MayNotify(Step(cfg, w, CommitFire(k)).s, w.s.deliveries[d])
    ensures RepeatsInWindow(cfg, Run(cfg, Step(cfg, w, CommitFire(k)), events), d)
    ensures forall ev :: ev in events ==> ev.BeginCycle? || ev.DealNext?
  {
    var f := w.fires[k];
    var w' := Step(cfg, w, CommitFire(k));
    ResetsNeedIt(cfg, f.rows, f.at, f.found.value, cfg.channels, d);
    ResetsKeepSuccess(w.s.log, ResetsOf(cfg, f), d);
    assert w'.s.deliveries[d] == FiredRow(cfg, w.s, f, d) && RowKnows(cfg, w, d);
    events := EligibleMayBeSent(cfg, w', d);
  }

  // ----- such runs exist ----------------------------------------------------------------------------------

  function OneRow(now: int, row: Delivery, log: seq<Entry>, cycle: Option<Cycle>, fires: map<nat, Firing>): World {
    World(Alerts(now, [Alert("disk", Open)], [row], log), cycle, fires)
  }

  const SendIt: seq<Event> := [BeginCycle(1), DealNext(Try(0, true))]

  lemma FirstFire(cfg: Config)
    requires cfg.channels == ["mail"]
    ensures Run(cfg, Init, [ReadFire(0, "disk"), CommitFire(0)]) == OneRow(0, Delivery(0, "mail", Pending, 0, None, 0), [], None, map[])
  {
    var events := [ReadFire(0, "disk"), CommitFire(0)];
    assert events[1..] == [CommitFire(0)] && events[1..][1..] == [];
    var w1 := Step(cfg, Init, events[0]);
    var f := w1.fires[0];
    assert AddedRows([], 0, 0, cfg.channels) == [Delivery(0, "mail", Pending, 0, None, 0)] by {
      assert cfg.channels[1..] == [];
    }
    assert w1.fires - {0} == map[];
    assert Step(cfg, w1, CommitFire(0)) == OneRow(0, Delivery(0, "mail", Pending, 0, None, 0), [], None, map[]);
  }

  lemma SendsTheRow(cfg: Config, w: World, row: Delivery)
    requires w == OneRow(w.s.now, row, w.s.log, None, w.fires)
    requires row.alert == 0 && Eligible(cfg, row, w.s.now - cfg.backoff) && !IsExhausted(cfg, row)
    ensures Run(cfg, w, SendIt) ==
      OneRow(w.s.now, row, w.s.log + [Send(0, w.s.now, true)],
             Some(Cycle(w.s.now - cfg.backoff, [], map[0 := Done(row, Tried(cfg, row, w.s.now, true))])), w.fires)
  {
    var cutoff := w.s.now - cfg.backoff;
    assert Select(cfg, [row], cutoff, 1, 0) == [0] by {
      assert Select(cfg, [row], cutoff, 0, 1) == [];
    }
    assert SendIt[1..] == [DealNext(Try(0, true))] && SendIt[1..][1..] == [];
    var w1 := Step(cfg, w, BeginCycle(1));
    assert w1.cycle.value.todo == [Picked(0, row)] && w1.cycle.value.todo[1..] == [];
    assert Run(cfg, w, SendIt) == Step(cfg, w1, DealNext(Try(0, true)));
  }

  lemma LosesTheRow(cfg: Config, w: World, row: Delivery)
    requires w == OneRow(w.s.now, row, w.s.log, None, w.fires)
    requires row.alert == 0 && Eligible(cfg, row, w.s.now - cfg.backoff) && !IsExhausted(cfg, row)
    ensures Run(cfg, w, SendIt + [LoseCycle]) == OneRow(w.s.now, row, w.s.log + [Send(0, w.s.now, true)], None, w.fires)
  {
    SendsTheRow(cfg, w, row);
    RunConcat(cfg, w, SendIt, [LoseCycle]);
    var w1 := Run(cfg, w, SendIt);
    assert [LoseCycle][1..] == [] && Run(cfg, w1, [LoseCycle]) == Step(cfg, w1, LoseCycle);
  }

  /** A cycle that dies between a send and its commit: the next one repeats the send at once, for
      every window, backoff and retry limit that allow a send at all. */
  lemma LostCycleRepeatsTheSend(window: nat, retryMax: nat, backoff: nat)
    requires retryMax >= 1
    ensures var cfg := Config(["mail"], {"mail"}, window, retryMax, backoff);
      Run(cfg, Init, [ReadFire(0, "disk"), CommitFire(0)] + ((SendIt + [LoseCycle]) + SendIt)).s.log == [Send(0, 0, true), Send(0, 0, true)]
  {
    var cfg := Config(["mail"], {"mail"}, window, retryMax, backoff);
    var row := Delivery(0, "mail", Pending, 0, None, 0);
    FirstFire(cfg);
    RunConcat(cfg, Init, [ReadFire(0, "disk"), CommitFire(0)], (SendIt + [LoseCycle]) + SendIt);
    SendsAgainAfterLoss(cfg, OneRow(0, row, [], None, map[]), row);
  }

  lemma SendsAgainAfterLoss(cfg: Config, w: World, row: Delivery)
    requires w == OneRow(w.s.now, row, w.s.log, None, w.fires)
    requires row.alert == 0 && Eligible(cfg, row, w.s.now - cfg.backoff) && !IsExhausted(cfg, row)
    ensures Run(cfg, w, (SendIt + [LoseCycle]) + SendIt).s.log == w.s.log + [Send(0, w.s.now, true), Send(0, w.s.now, true)]
  {
    LosesTheRow(cfg, w, row);
    RunConcat(cfg, w, SendIt + [LoseCycle], SendIt);
    SendsTheRow(cfg, Run(cfg, w, SendIt + [LoseCycle]), row);
  }

  lemma CommitsTheRow(cfg: Config, w: World, row: Delivery)
    requires w == OneRow(w.s.now, row, w.s.log, None, w.fires)
    requires row.alert == 0 && Eligible(cfg, row, w.s.now - cfg.backoff) && !IsExhausted(cfg, row) && row.sentAt != Some(w.s.now)
    ensures Run(cfg, w, SendIt + [CommitCycle]) ==
      OneRow(w.s.now, Tried(cfg, row, w.s.now, true).(updatedAt := w.s.now), w.s.log + [Send(0, w.s.now, true)], None, w.fires)
  {
    SendsTheRow(cfg, w, row);
    RunConcat(cfg, w, SendIt, [CommitCycle]);
    var w1 := Run(cfg, w, SendIt);
    assert [CommitCycle][1..] == [] && Run(cfg, w1, [CommitCycle]) == Step(cfg, w1, CommitCycle);
    assert Committed(w1, 0) == Tried(cfg, row, w.s.now, true).(updatedAt := w.s.now);
  }

  lemma ResetsTheRow(cfg: Config, w: World, row: Delivery, f: Firing, k: nat)
    requires cfg.channels == ["mail"] && w == OneRow(w.s.now, row, w.s.log, None, w.fires) && k in w.fires && w.fires[k] == f
    requires row.alert == 0 && row.channel == "mail"
    requires f.found == Some(0) && !f.reopens && |f.rows| == 1 && f.rows[0].alert == 0 && f.rows[0].channel == "mail"
    requires NeedsReset(cfg, f.at, f.rows[0])
    ensures Step(cfg, w, CommitFire(k)) ==
      OneRow(w.s.now, Merge(w.s.now, f.rows[0], ResetRow(f.at, f.rows[0]), row), w.s.log + [Reset(0)], None, w.fires - {k})
  {
    assert cfg.channels[1..] == [];
    assert FindDelivery(f.rows, 0, "mail") == Some(0);
    assert Resets(cfg, f.rows, f.at, 0, cfg.channels) == [0] by {
      assert Resets(cfg, f.rows[0 := ResetRow(f.at, f.rows[0])], f.at, 0, []) == [];
    }
    assert ResetsOf(cfg, f) == [0] && ResetEntries([0]) == [Reset(0)] by {
      assert [0][..0] == [] && ResetEntries([]) == [];
    }
    assert AddedRows(f.rows, w.s.now, 0, cfg.channels) == [];
  }

  /** A fire that commits right after a cycle has sent the row, and the next cycle. */
  lemma SentResetSent(cfg: Config, w: World, row: Delivery, f: Firing)
    requires cfg.channels == ["mail"] && cfg.notifiers == {"mail"} && cfg.retryMax >= 1
    requires w == OneRow(w.s.now, row, w.s.log, None, w.fires) && 2 in w.fires && w.fires[2] == f
    requires row.alert == 0 && row.channel == "mail" && row.status == Pending && row.attempts == 0 && row.sentAt != Some(w.s.now)
    requires f.found == Some(0) && !f.reopens && |f.rows| == 1 && f.rows[0].alert == 0 && f.rows[0].channel == "mail"
    requires NeedsReset(cfg, f.at, f.rows[0]) && f.rows[0].attempts != 0
    ensures Run(cfg, w, (SendIt + [CommitCycle]) + ([CommitFire(2)] + SendIt)).s.log ==
      w.s.log + [Send(0, w.s.now, true), Reset(0), Send(0, w.s.now, true)]
  {
    var end := [CommitFire(2)] + SendIt;
    CommitsTheRow(cfg, w, row);
    RunConcat(cfg, w, SendIt + [CommitCycle], end);
    var w1 := Run(cfg, w, SendIt + [CommitCycle]);
    ResetsTheRow(cfg, w1, w1.s.deliveries[0], f, 2);
    assert end[0] == CommitFire(2) && end[1..] == SendIt;
    var w2 := Step(cfg, w1, CommitFire(2));
    SendsTheRow(cfg, w2, w2.s.deliveries[0]);
  }

  /** Two fires that read the row after its window; the first is committed and sent before the
      second commits: it resets a row sent just now, and the next cycle sends it again at once. */
  lemma LateResetRepeatsTheSend(window: nat, retryMax: nat, backoff: nat)
    requires retryMax >= 1 && window >= 1
    ensures var cfg := Config(["mail"], {"mail"}, window, retryMax, backoff);
      var overlap := [Tick(window), ReadFire(1, "disk"), ReadFire(2, "disk"), CommitFire(1)];
      var events := (SendIt + [CommitCycle]) + (overlap + ((SendIt + [CommitCycle]) + ([CommitFire(2)] + SendIt)));
      Run(cfg, Init, [ReadFire(0, "disk"), CommitFire(0)] + events).s.log ==
        [Send(0, 0, true), Reset(0), Send(0, window, true), Reset(0), Send(0, window, true)]
  {
    var cfg := Config(["mail"], {"mail"}, window, retryMax, backoff);
    var again := (SendIt + [CommitCycle]) + ([CommitFire(2)] + SendIt);
    var overlap := [Tick(window), ReadFire(1, "disk"), ReadFire(2, "disk"), CommitFire(1)];
    FirstFire(cfg);
    RunConcat(cfg, Init, [ReadFire(0, "disk"), CommitFire(0)], (SendIt + [CommitCycle]) + (overlap + again));
    OverlappingResets(cfg);
  }

  lemma OverlappingResets(cfg: Config)
    requires cfg.channels == ["mail"] && cfg.notifiers == {"mail"} && cfg.retryMax >= 1 && cfg.window >= 1
    ensures var w := OneRow(0, Delivery(0, "mail", Pending, 0, None, 0), [], None, map[]);
      var overlap := [Tick(cfg.window), ReadFire(1, "disk"), ReadFire(2, "disk"), CommitFire(1)];
      Run(cfg, w, (SendIt + [CommitCycle]) + (overlap + ((SendIt + [CommitCycle]) + ([CommitFire(2)] + SendIt)))).s.log ==
        [Send(0, 0, true), Reset(0), Send(0, cfg.window, true), Reset(0), Send(0, cfg.window, true)]
  {
    var w := OneRow(0, Delivery(0, "mail", Pending, 0, None, 0), [], None, map[]);
    var overlap := [Tick(cfg.window), ReadFire(1, "disk"), ReadFire(2, "disk"), CommitFire(1)];
    var again := (SendIt + [CommitCycle]) + ([CommitFire(2)] + SendIt);
    var row1 := Delivery(0, "mail", Sent, 1, Some(0), 0);
    var row2 := Delivery(0, "mail", Pending, 0, Some(0), cfg.window);
    CommitsTheRow(cfg, w, w.s.deliveries[0]);
    RunConcat(cfg, w, SendIt + [CommitCycle], overlap + again);
    var w2 := OneRow(0, row1, [Send(0, 0, true)], None, map[]);
    ReadsAndResets(cfg, w2, row1, cfg.window, row2);
    RunConcat(cfg, w2, overlap, again);
    var f := Firing("disk", cfg.window, Some(0), false, [row1]);
    assert w.s.log + [Send(0, 0, true)] == w2.s.log && w2.s.log + [Reset(0)] == [Send(0, 0, true), Reset(0)];
    SentResetSent(cfg, OneRow(cfg.window, row2, [Send(0, 0, true), Reset(0)], None, map[2 := f]), row2, f);
  }

  lemma ReadsAndResets(cfg: Config, w: World, row: Delivery, window: nat, row': Delivery)
    requires cfg.channels == ["mail"] && cfg.window == window >= 1
    requires w == OneRow(0, row, w.s.log, None, map[]) && row == Delivery(0, "mail", Sent, 1, Some(0), 0)
    requires row' == Delivery(0, "mail", Pending, 0, Some(0), window)
    ensures Run(cfg, w, [Tick(window), ReadFire(1, "disk"), ReadFire(2, "disk"), CommitFire(1)]) ==
      OneRow(window, row', w.s.log + [Reset(0)], None, map[2 := Firing("disk", window, Some(0), false, [row])])
  {
    var events := [Tick(window), ReadFire(1, "disk"), ReadFire(2, "disk"), CommitFire(1)];
    var f := Firing("disk", window, Some(0), false, [row]);
    var w1 := OneRow(window, row, w.s.log, None, map[]);
    assert ReadAlert(w1.s, "disk") == f;
    var w2 := OneRow(window, row, w.s.log, None, map[1 := f]);
    var w3 := OneRow(window, row, w.s.log, None, map[1 := f, 2 := f]);
    RunOf4(cfg, w, events);
    assert Step(cfg, w, events[0]) == w1 && Step(cfg, w1, events[1]) == w2 && Step(cfg, w2, events[2]) == w3;
    ResetsTheRow(cfg, w3, row, f, 1);
    assert w3.fires - {1} == map[2 := f];
  }

  lemma RunOf4(cfg: Config, w: World, events: seq<Event>)
    requires |events| == 4
    ensures Run(cfg, w, events) == Step(cfg, Step(cfg, Step(cfg, Step(cfg, w, events[0]), events[1]), events[2]), events[3])
  {
    var w1 := Step(cfg, w, events[0]);
    var w2 := Step(cfg, w1, events[1]);
    assert Run(cfg, w, events) == Run(cfg, w1, events[1..]) && Run(cfg, w1, events[1..]) == Run(cfg, w2, events[2..]) by {
      assert events[1..][1..] == events[2..];
    }
    var w3 := Step(cfg, w2, events[2]);
    assert Run(cfg, w2, events[2..]) == Run(cfg, w3, events[3..]) by {
      assert events[2..][1..] == events[3..];
    }
    assert events[3..] == [events[3]] && events[3..][1..] == [];
    assert Run(cfg, w3, events[3..]) == Run(cfg, Step(cfg, w3, events[3]), []);
  }
}
