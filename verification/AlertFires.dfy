/** What a fire and a delivery cycle leave of each row, told from the row alone. */
module AlertFires {
  import opened Wrappers
  import opened Alerting
  import R = AlertRuns
  import AlertRepeats
  import AlertSerial

  /** The unique index of the delivery rows. */
  ghost predicate UniqueRows(rows: seq<Delivery>) {
    forall i, j :: 0 <= i < j < |rows| ==> rows[i].alert != rows[j].alert || rows[i].channel != rows[j].channel
  }

  ghost predicate DistinctChannels(channels: seq<string>) {
    forall i, j :: 0 <= i < j < |channels| ==> channels[i] != channels[j]
  }

  lemma FindDeliveryIs(rows: seq<Delivery>, d: nat)
    requires UniqueRows(rows) && d < |rows|
    ensures FindDelivery(rows, rows[d].alert, rows[d].channel) == Some(d)
  {}

  // ----- a fire -----------------------------------------------------------------------------------

  /** A row that a new fire makes pending again: one that was given up, parked or failed, or whose
      success lies a window back. */
  predicate IsDue(cfg: Config, now: int, row: Delivery) {
    || row.status in {Failed, DeadLetter, Suppressed}
    || (row.status == Sent && (row.sentAt.Some? ==> now - row.sentAt.value >= cfg.window))
  }

  lemma {:induction false} ResetsIff(cfg: Config, rows: seq<Delivery>, now: int, alert: nat, channels: seq<string>, d: nat)
    requires UniqueRows(rows) && DistinctChannels(channels) && d < |rows|
    ensures d in R.Resets(cfg, rows, now, alert, channels) <==> rows[d].alert == alert && rows[d].channel in channels && IsDue(cfg, now, rows[d])
    decreases |channels|
  {
    if channels != [] {
      var found := FindDelivery(rows, alert, channels[0]);
      assert channels == [channels[0]] + channels[1..];
      if rows[d].alert == alert && rows[d].channel == channels[0] {
        FindDeliveryIs(rows, d);
      }
      if found.Some? && NeedsReset(cfg, now, rows[found.value]) {
        ResetsIff(cfg, rows[found.value := ResetRow(now, rows[found.value])], now, alert, channels[1..], d);
      } else {
        ResetsIff(cfg, rows, now, alert, channels[1..], d);
      }
    }
  }

  lemma {:induction false} AddedIff(rows: seq<Delivery>, now: int, alert: nat, channels: seq<string>, row: Delivery)
    ensures row in AddedRows(rows, now, alert, channels) <==>
      row == Delivery(alert, row.channel, Pending, 0, None, now) && row.channel in channels && FindDelivery(rows, alert, row.channel).None?
    decreases |channels|
  {
    if channels != [] {
      AddedIff(rows, now, alert, channels[1..], row);
      assert channels == [channels[0]] + channels[1..];
    }
  }

  lemma {:induction false} AddedAreDistinct(rows: seq<Delivery>, now: int, alert: nat, channels: seq<string>)
    requires DistinctChannels(channels)
    ensures DistinctRows(AddedRows(rows, now, alert, channels))
    decreases |channels|
  {
    if channels != [] {
      AddedAreDistinct(rows, now, alert, channels[1..]);
      var rest := AddedRows(rows, now, alert, channels[1..]);
      forall i | 0 <= i < |rest| ensures rest[i].channel != channels[0] {
        AddedIff(rows, now, alert, channels[1..], rest[i]);
      }
    }
  }

  /** With distinct channels a fire always commits.  It leaves the alert open if it was resolved or new;
      its rows that are due become pending without attempts, channels without a row get one, and no
      other row changes. */
  lemma FireLeaves(cfg: Config, s: Alerts, fingerprint: string)
    requires DistinctChannels(cfg.channels) && UniqueRows(s.deliveries) && AlertSerial.AlertsExist(s)
    ensures var s' := Fire(cfg, s, fingerprint); var found := FindAlert(s.alerts, fingerprint);
      var alert := if found.Some? then found.value else |s.alerts|;
      && s'.now == s.now && |s.deliveries| <= |s'.deliveries| && alert < |s'.alerts|
      && s'.alerts == (if found.None? then s.alerts + [Alert(fingerprint, Open)]
                       else s.alerts[alert := s.alerts[alert].(status := if s.alerts[alert].status == Resolved then Open else s.alerts[alert].status)])
      && (forall d :: 0 <= d < |s.deliveries| ==>
          s'.deliveries[d] == if s.deliveries[d].alert == alert && s.deliveries[d].channel in cfg.channels && IsDue(cfg, s.now, s.deliveries[d])
                              then s.deliveries[d].(status := Pending, attempts := 0, updatedAt := s.now) else s.deliveries[d])
    ensures var s' := Fire(cfg, s, fingerprint); var found := FindAlert(s.alerts, fingerprint);
      var alert := if found.Some? then found.value else |s.alerts|;
      forall row :: row in s'.deliveries[|s.deliveries|..] <==>
        && row == Delivery(alert, row.channel, Pending, 0, None, s.now) && row.channel in cfg.channels
        && forall d :: 0 <= d < |s.deliveries| ==> s.deliveries[d].alert != alert || s.deliveries[d].channel != row.channel
  {
    var f := R.ReadAlert(s, fingerprint);
    var alert := R.AlertOf(s, f);
    AddedAreDistinct(s.deliveries, s.now, alert, cfg.channels);
    FireIs(cfg, s, fingerprint);
    AlertSerial.EnsureIsResets(cfg, s, alert, cfg.channels);
    forall d | 0 <= d < |s.deliveries|
      ensures d in R.Resets(cfg, s.deliveries, s.now, alert, cfg.channels) <==>
        s.deliveries[d].alert == alert && s.deliveries[d].channel in cfg.channels && IsDue(cfg, s.now, s.deliveries[d])
    {
      ResetsIff(cfg, s.deliveries, s.now, alert, cfg.channels, d);
    }
    forall row: Delivery
      ensures row in AddedRows(s.deliveries, s.now, alert, cfg.channels) <==>
        && row == Delivery(alert, row.channel, Pending, 0, None, s.now) && row.channel in cfg.channels
        && forall d :: 0 <= d < |s.deliveries| ==> s.deliveries[d].alert != alert || s.deliveries[d].channel != row.channel
    {
      AddedIff(s.deliveries, s.now, alert, cfg.channels, row);
      NoRowIff(s.deliveries, alert, row.channel);
    }
    var reset := EnsureExisting(cfg, s, alert, cfg.channels).deliveries;
    assert (reset + AddedRows(s.deliveries, s.now, alert, cfg.channels))[|s.deliveries|..] == AddedRows(s.deliveries, s.now, alert, cfg.channels);
  }

  lemma NoRowIff(rows: seq<Delivery>, alert: nat, channel: string)
    ensures FindDelivery(rows, alert, channel).None? <==> forall d :: 0 <= d < |rows| ==> rows[d].alert != alert || rows[d].channel != channel
  {}

  lemma FireIs(cfg: Config, s: Alerts, fingerprint: string)
    requires DistinctRows(AddedRows(s.deliveries, s.now, R.AlertOf(s, R.ReadAlert(s, fingerprint)), cfg.channels))
    ensures var f := R.ReadAlert(s, fingerprint); var ensured := EnsureExisting(cfg, s, R.AlertOf(s, f), cfg.channels);
      Fire(cfg, s, fingerprint) == ensured.(alerts := R.FiredAlerts(s, f),
        deliveries := ensured.deliveries + AddedRows(s.deliveries, s.now, R.AlertOf(s, f), cfg.channels))
  {
    var f := R.ReadAlert(s, fingerprint);
    AlertSerial.EnsureIgnoresAlerts(cfg, s, R.FiredAlerts(s, f), R.AlertOf(s, f), cfg.channels);
  }

  /** After a fire every row of the alert that is pending without attempts, on a channel that can be
      notified, may be sent at once by the next cycle: rows that were due or are new among them. */
  lemma FiredMayBeSent(cfg: Config, s: Alerts, fingerprint: string, d: nat) returns (events: seq<R.Event>)
    requires DistinctChannels(cfg.channels) && UniqueRows(s.deliveries) && AlertSerial.AlertsExist(s) && cfg.retryMax >= 1
    requires var s' := Fire(cfg, s, fingerprint); d < |s'.deliveries| && s'.deliveries[d].channel in cfg.notifiers
    requires var s' := Fire(cfg, s, fingerprint); s'.deliveries[d].status == Pending && s'.deliveries[d].attempts == 0
    requires FindAlert(Fire(cfg, s, fingerprint).alerts, fingerprint) == Some(Fire(cfg, s, fingerprint).deliveries[d].alert)
    ensures AlertRepeats.SentAgain(cfg, AlertSerial.AtRest(Fire(cfg, s, fingerprint)), events, d)
  {
    var s' := Fire(cfg, s, fingerprint);
    FireLeaves(cfg, s, fingerprint);
    FiredIsOpen(cfg, s, fingerprint);
    events := AlertRepeats.EligibleMayBeSent(cfg, AlertSerial.AtRest(s'), d);
  }

  lemma FiredIsOpen(cfg: Config, s: Alerts, fingerprint: string)
    requires DistinctChannels(cfg.channels) && UniqueRows(s.deliveries) && AlertSerial.AlertsExist(s)
    ensures var alerts := Fire(cfg, s, fingerprint).alerts; var found := FindAlert(alerts, fingerprint);
      found.Some? && found.value < |alerts| && alerts[found.value].status != Resolved
  {
    FireLeaves(cfg, s, fingerprint);
    OpenOnceFired(s.alerts, Fire(cfg, s, fingerprint).alerts, fingerprint);
  }

  lemma OpenOnceFired(before: seq<Alert>, after: seq<Alert>, fingerprint: string)
    requires var found := FindAlert(before, fingerprint);
      if found.None? then after == before + [Alert(fingerprint, Open)]
      else after == before[found.value := before[found.value].(status :=
        if before[found.value].status == Resolved then Open else before[found.value].status)]
    ensures var found := FindAlert(after, fingerprint); found.Some? && found.value < |after| && after[found.value].status != Resolved
  {
    if FindAlert(before, fingerprint).Some? {
      SameFingerprints(before, after, fingerprint);
    } else {
      assert after[..|before|] == before;
    }
  }

  lemma {:induction false} SameFingerprints(a: seq<Alert>, b: seq<Alert>, fingerprint: string)
    requires |a| == |b| && forall i :: 0 <= i < |a| ==> a[i].fingerprint == b[i].fingerprint
    ensures FindAlert(a, fingerprint) == FindAlert(b, fingerprint)
    decreases |a|
  {
    if a != [] {
      SameFingerprints(a[..|a| - 1], b[..|b| - 1], fingerprint);
    }
  }

  // ----- a cycle ------------------------------------------------------------------------------------

  /** A row a cycle at `now` deals with: pending or failed, on a channel that can be notified, and either
      new or left alone for the backoff. */
  predicate IsReady(cfg: Config, now: int, row: Delivery) {
    && row.status in {Pending, Failed} && row.channel in cfg.notifiers
    && ((row.status == Pending && row.attempts == 0) || row.updatedAt < now - cfg.backoff)
  }

  function ReadyBefore(cfg: Config, now: int, rows: seq<Delivery>, n: nat): nat
    requires n <= |rows|
  {
    if n == 0 then 0 else ReadyBefore(cfg, now, rows, n - 1) + if IsReady(cfg, now, rows[n - 1]) then 1 else 0
  }

  lemma {:induction false} ReadyBeforeGrows(cfg: Config, now: int, rows: seq<Delivery>, i: nat, d: nat)
    requires i <= d <= |rows|
    ensures ReadyBefore(cfg, now, rows, i) <= ReadyBefore(cfg, now, rows, d)
    decreases d
  {
    if i < d {
      ReadyBeforeGrows(cfg, now, rows, i, d - 1);
    }
  }

  lemma {:induction false} SelectedIff(cfg: Config, now: int, rows: seq<Delivery>, limit: nat, i: nat, d: nat)
    requires i <= d < |rows|
    ensures d in Select(cfg, rows, now - cfg.backoff, limit, i) <==>
      IsReady(cfg, now, rows[d]) && ReadyBefore(cfg, now, rows, d) - ReadyBefore(cfg, now, rows, i) < limit
    decreases |rows| - i
  {
    ReadyBeforeGrows(cfg, now, rows, i, d);
    if limit > 0 {
      var next := if IsReady(cfg, now, rows[i]) then limit - 1 else limit;
      SelectIsInRange(cfg, rows, now - cfg.backoff, next, i + 1);
      if i < d {
        SelectedIff(cfg, now, rows, next, i + 1, d);
      }
    }
  }

  /** What a cycle makes of a row it deals with. */
  ghost predicate DealtAs(cfg: Config, s: Alerts, before: Delivery, after: Delivery, end: int) {
    var mayNotify := before.alert < |s.alerts| && s.alerts[before.alert].status != Resolved;
    && after == before.(status := after.status, attempts := after.attempts, sentAt := after.sentAt, updatedAt := end)
    && (before.status == Pending && before.attempts >= cfg.retryMax ==> after.status == DeadLetter && after.attempts == before.attempts && after.sentAt == before.sentAt)
    && (!(before.status == Pending && before.attempts >= cfg.retryMax) && !mayNotify ==>
        after.status == Suppressed && after.attempts == before.attempts && after.sentAt == before.sentAt)
    && (!(before.status == Pending && before.attempts >= cfg.retryMax) && mayNotify ==>
        && after.attempts == before.attempts + 1
        && (|| (after.status == Sent && after.sentAt.Some? && s.now <= after.sentAt.value <= end)
            || (after.sentAt == before.sentAt && after.status == if after.attempts < cfg.retryMax then Failed else DeadLetter)))
  }

  lemma AttemptDeals(cfg: Config, s: Alerts, d: nat, t: Try, end: int)
    requires d < |s.deliveries| && s.now <= Attempt(cfg, s, d, t, end).now <= end
    ensures var s' := Attempt(cfg, s, d, t, end); DealtAs(cfg, s, s.deliveries[d], s'.deliveries[d], end) && s'.alerts == s.alerts
  {}

  lemma {:induction false} AttemptsGoOn(cfg: Config, s: Alerts, picked: seq<nat>, tries: seq<Try>, end: int)
    requires forall i :: 0 <= i < |picked| ==> picked[i] < |s.deliveries|
    ensures s.now <= AttemptAll(cfg, s, picked, tries, end).now
    decreases |picked|
  {
    if picked != [] {
      AttemptsGoOn(cfg, Attempt(cfg, s, picked[0], TryAt(tries, 0), end), picked[1..], if tries == [] then [] else tries[1..], end);
    }
  }

  lemma OneAttempt(cfg: Config, s: Alerts, p: nat, t: Try, end: int, d: nat)
    requires p < |s.deliveries| && d < |s.deliveries|
    ensures var s1 := Attempt(cfg, s, p, t, end);
      && |s1.deliveries| == |s.deliveries| && s1.alerts == s.alerts && s.now <= s1.now
      && (d != p ==> s1.deliveries[d] == s.deliveries[d])
  {}

  lemma DealtLater(cfg: Config, s: Alerts, s1: Alerts, before: Delivery, after: Delivery, end: int)
    requires s1.alerts == s.alerts && s.now <= s1.now && DealtAs(cfg, s1, before, after, end)
    ensures DealtAs(cfg, s, before, after, end)
  {}

  lemma {:induction false} AttemptsDeal(cfg: Config, s: Alerts, picked: seq<nat>, tries: seq<Try>, end: int, d: nat)
    requires forall i :: 0 <= i < |picked| ==> picked[i] < |s.deliveries|
    requires forall i, j :: 0 <= i < j < |picked| ==> picked[i] != picked[j]
    requires d < |s.deliveries| && AttemptAll(cfg, s, picked, tries, end).now <= end
    ensures var s' := AttemptAll(cfg, s, picked, tries, end);
      && |s'.deliveries| == |s.deliveries| && s'.alerts == s.alerts
      && (if d in picked then DealtAs(cfg, s, s.deliveries[d], s'.deliveries[d], end) else s'.deliveries[d] == s.deliveries[d])
    decreases |picked|
  {
    if picked != [] {
      var s1 := Attempt(cfg, s, picked[0], TryAt(tries, 0), end);
      var tries1 := if tries == [] then [] else tries[1..];
      AttemptsGoOn(cfg, s1, picked[1..], tries1, end);
      OneAttempt(cfg, s, picked[0], TryAt(tries, 0), end, d);
      AttemptsDeal(cfg, s1, picked[1..], tries1, end, d);
      assert picked == [picked[0]] + picked[1..];
      if d == picked[0] {
        assert d !in picked[1..];
        AttemptDeals(cfg, s, d, TryAt(tries, 0), end);
      } else if d in picked {
        DealtLater(cfg, s, s1, s.deliveries[d], AttemptAll(cfg, s, picked, tries, end).deliveries[d], end);
      }
    }
  }

  /** A cycle deals with a row exactly when the row is ready and fewer than `limit` ready rows come
      before it: it gives up a pending row out of attempts, parks the row of a resolved or missing alert,
      and tries any other once; it leaves all other rows alone. */
  lemma CycleDealsIff(cfg: Config, s: Alerts, limit: nat, tries: seq<Try>, delay: nat, d: nat)
    requires d < |s.deliveries|
    ensures var s' := Process(cfg, s, limit, tries, delay);
      && |s'.deliveries| == |s.deliveries| && s'.alerts == s.alerts
      && if IsReady(cfg, s.now, s.deliveries[d]) && ReadyBefore(cfg, s.now, s.deliveries, d) < limit
         then DealtAs(cfg, s, s.deliveries[d], s'.deliveries[d], s'.now)
         else s'.deliveries[d] == s.deliveries[d]
  {
    if cfg.notifiers != {} {
      var picked := Select(cfg, s.deliveries, s.now - cfg.backoff, limit, 0);
      SelectIsInRange(cfg, s.deliveries, s.now - cfg.backoff, limit, 0);
      SelectedIff(cfg, s.now, s.deliveries, limit, 0, d);
      var end := AttemptAll(cfg, s, picked, tries, 0).now + delay;
      EndIsTheCommit(cfg, s, picked, tries, 0, end);
      AttemptsDeal(cfg, s, picked, tries, end, d);
    }
  }

  // ----- resolved alerts ----------------------------------------------------------------------------

  predicate IsResolved(s: Alerts, a: nat) {
    a < |s.alerts| && s.alerts[a].status == Resolved
  }

  /** Resolving and acknowledging set the status of one alert, unless it is resolved already. */
  lemma StatusIsSet(cfg: Config, w: R.World, a: nat)
    requires a < |w.s.alerts|
    ensures var w' := R.Step(cfg, w, R.Resolves(a)); w' == w.(s := w.s.(alerts := w.s.alerts[a := w.s.alerts[a].(status := Resolved)]))
    ensures var w' := R.Step(cfg, w, R.Acknowledges(a));
      w' == w.(s := w.s.(alerts := w.s.alerts[a := w.s.alerts[a].(status := if IsResolved(w.s, a) then Resolved else Acknowledged)]))
  {}

  predicate NoFires(events: seq<R.Event>) {
    forall i :: 0 <= i < |events| ==> !events[i].CommitFire?
  }

  /** Only a fire reopens a resolved alert. */
  lemma {:induction false} ResolvedUntilFired(cfg: Config, w: R.World, events: seq<R.Event>, a: nat)
    requires IsResolved(w.s, a) && NoFires(events)
    ensures IsResolved(R.Run(cfg, w, events).s, a)
    decreases |events|
  {
    if events != [] {
      assert !events[0].CommitFire?;
      forall i | 0 <= i < |events[1..]| ensures !events[1..][i].CommitFire? {
        assert events[1..][i] == events[i + 1];
      }
      ResolvedUntilFired(cfg, R.Step(cfg, w, events[0]), events[1..], a);
    }
  }
}
