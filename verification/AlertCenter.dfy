/**
 The alert transactions as the program runs them: rows are updated one by one inside a session,
 `updated_at` is stamped when the session flushes at commit, and a refused commit rolls back.
 */
module AlertCenters {
  import opened Wrappers
  import opened Alerting

  datatype Counts = Counts(processed: nat, sent: nat, failed: nat, deadLetter: nat, suppressed: nat)

  /** How many of the picked rows are in `status`. */
  function CountOf(rows: seq<Delivery>, picked: seq<nat>, status: DeliveryStatus): nat
    requires forall i :: 0 <= i < |picked| ==> picked[i] < |rows|
  {
    if picked == [] then 0
    else
      var last := |picked| - 1;
      CountOf(rows, picked[..last], status) + if rows[picked[last]].status == status then 1 else 0
  }

  lemma {:induction false} CountOfIsLocal(a: seq<Delivery>, b: seq<Delivery>, picked: seq<nat>, status: DeliveryStatus)
    requires forall i :: 0 <= i < |picked| ==> picked[i] < |a| && picked[i] < |b| && a[picked[i]] == b[picked[i]]
    ensures CountOf(a, picked, status) == CountOf(b, picked, status)
  {
    if picked != [] {
      CountOfIsLocal(a, b, picked[..|picked| - 1], status);
    }
  }

  /** Processing the next picked row adds one to the count of the status it ends in. */
  lemma CountOfNext(a: seq<Delivery>, b: seq<Delivery>, picked: seq<nat>, i: nat)
    requires i < |picked| && |a| == |b| && (forall k :: 0 <= k < |picked| ==> picked[k] < |a|)
    requires forall k, l :: 0 <= k < l < |picked| ==> picked[k] != picked[l]
    requires forall d :: 0 <= d < |a| && d != picked[i] ==> a[d] == b[d]
    ensures forall status ::
      CountOf(b, picked[..i + 1], status) == CountOf(a, picked[..i], status) + (if b[picked[i]].status == status then 1 else 0)
  {
    assert picked[..i + 1][..i] == picked[..i];
    forall status
      ensures CountOf(b, picked[..i + 1], status) == CountOf(a, picked[..i], status) + if b[picked[i]].status == status then 1 else 0
    {
      CountOfIsLocal(a, b, picked[..i], status);
    }
  }

  function Exhausted(cfg: Config, rows: seq<Delivery>, picked: seq<nat>): nat
    requires forall i :: 0 <= i < |picked| ==> picked[i] < |rows|
  {
    if picked == [] then 0
    else
      var last := |picked| - 1;
      Exhausted(cfg, rows, picked[..last]) + if IsExhausted(cfg, rows[picked[last]]) then 1 else 0
  }

  /** The reported numbers are how many picked rows ended in each status, and every row ended in one. */
  ghost predicate Reports(counts: Counts, rows: seq<Delivery>, picked: seq<nat>)
    requires forall i :: 0 <= i < |picked| ==> picked[i] < |rows|
  {
    && counts.sent == CountOf(rows, picked, Sent) && counts.failed == CountOf(rows, picked, Failed)
    && counts.deadLetter == CountOf(rows, picked, DeadLetter) && counts.suppressed == CountOf(rows, picked, Suppressed)
    && counts.sent + counts.failed + counts.deadLetter + counts.suppressed == |picked|
  }

  function Counted(counts: Counts, status: DeliveryStatus, tried: bool): Counts {
    var c := if tried then counts.(processed := counts.processed + 1) else counts;
    match status
    case Sent => c.(sent := c.sent + 1)
    case Failed => c.(failed := c.failed + 1)
    case DeadLetter => c.(deadLetter := c.deadLetter + 1)
    case _ => c.(suppressed := c.suppressed + 1)
  }

  lemma CountedNext(cfg: Config, rows0: seq<Delivery>, a: seq<Delivery>, b: seq<Delivery>, picked: seq<nat>, i: nat,
                    counts: Counts, tried: bool)
    requires i < |picked| && |a| == |b| == |rows0| && (forall k :: 0 <= k < |picked| ==> picked[k] < |a|)
    requires forall k, l :: 0 <= k < l < |picked| ==> picked[k] != picked[l]
    requires forall d :: 0 <= d < |a| && d != picked[i] ==> a[d] == b[d]
    requires Reports(counts, a, picked[..i]) && counts.processed == i - Exhausted(cfg, rows0, picked[..i])
    requires b[picked[i]].status in {Sent, Failed, DeadLetter, Suppressed} && tried == !IsExhausted(cfg, rows0[picked[i]])
    ensures var c := Counted(counts, b[picked[i]].status, tried);
      Reports(c, b, picked[..i + 1]) && c.processed == i + 1 - Exhausted(cfg, rows0, picked[..i + 1])
  {
    CountOfNext(a, b, picked, i);
    assert picked[..i + 1][..i] == picked[..i];
  }

  predicate IsOpenRow(row: Delivery) {
    row.status == Pending || row.status == Failed
  }

  function Rest(tries: seq<Try>, i: nat): seq<Try> {
    if i < |tries| then tries[i..] else []
  }

  /** After `i` picked rows the cycle has come to `s` and goes on to where it was going. */
  ghost predicate OnTheWay(cfg: Config, s0: Alerts, s: Alerts, picked: seq<nat>, i: nat, tries: seq<Try>, end: int) {
    && i <= |picked| && |s.deliveries| == |s0.deliveries| && (forall k :: 0 <= k < |picked| ==> picked[k] < |s.deliveries|)
    && AttemptAll(cfg, s, picked[i..], Rest(tries, i), end) == AttemptAll(cfg, s0, picked, tries, end)
  }

  lemma StartsOut(cfg: Config, s0: Alerts, picked: seq<nat>, tries: seq<Try>, end: int)
    requires forall k :: 0 <= k < |picked| ==> picked[k] < |s0.deliveries|
    ensures OnTheWay(cfg, s0, s0, picked, 0, tries, end)
  {
    assert picked[0..] == picked && Rest(tries, 0) == tries;
  }

  lemma GoesOn(cfg: Config, s0: Alerts, s: Alerts, picked: seq<nat>, i: nat, tries: seq<Try>, end: int)
    requires OnTheWay(cfg, s0, s, picked, i, tries, end) && i < |picked|
    ensures OnTheWay(cfg, s0, Attempt(cfg, s, picked[i], TryAt(tries, i), end), picked, i + 1, tries, end)
  {
    var rest := Rest(tries, i);
    assert picked[i..][0] == picked[i] && picked[i..][1..] == picked[i + 1..];
    assert TryAt(rest, 0) == TryAt(tries, i) && (if rest == [] then [] else rest[1..]) == Rest(tries, i + 1);
  }

  lemma Arrives(cfg: Config, s0: Alerts, s: Alerts, picked: seq<nat>, tries: seq<Try>, end: int)
    requires OnTheWay(cfg, s0, s, picked, |picked|, tries, end)
    ensures forall k :: 0 <= k < |picked| ==> picked[k] < |s0.deliveries|
    ensures s == AttemptAll(cfg, s0, picked, tries, end)
  {
    assert picked[|picked|..] == [];
  }

  /** After `i` channels the rows `added` and the state `s` are on the way to what they must become. */
  ghost predicate EnsuredTo(cfg: Config, s0: Alerts, s: Alerts, added: seq<Delivery>, alert: nat, i: nat) {
    && i <= |cfg.channels| && SameKeys(s.deliveries, s0.deliveries) && s.now == s0.now
    && EnsureExisting(cfg, s, alert, cfg.channels[i..]) == EnsureExisting(cfg, s0, alert, cfg.channels)
    && added + AddedRows(s0.deliveries, s0.now, alert, cfg.channels[i..]) == AddedRows(s0.deliveries, s0.now, alert, cfg.channels)
  }

  lemma EnsuredNext(cfg: Config, s0: Alerts, s: Alerts, added: seq<Delivery>, alert: nat, i: nat, s': Alerts, more: seq<Delivery>)
    requires EnsuredTo(cfg, s0, s, added, alert, i) && i < |cfg.channels|
    requires s' == EnsureChannel(cfg, s, alert, cfg.channels[i]) && SameKeys(s'.deliveries, s.deliveries)
    requires more == AddedRow(s.deliveries, s.now, alert, cfg.channels[i])
    ensures EnsuredTo(cfg, s0, s', added + more, alert, i + 1)
  {
    var todo := cfg.channels[i..];
    assert todo[0] == cfg.channels[i] && todo[1..] == cfg.channels[i + 1..];
    LookupByKey(s.deliveries, s0.deliveries, alert, cfg.channels[i]);
    var tail := AddedRows(s0.deliveries, s0.now, alert, todo[1..]);
    assert AddedRows(s0.deliveries, s0.now, alert, todo) == more + tail;
    assert added + (more + tail) == (added + more) + tail;
  }

  function AddedRow(rows: seq<Delivery>, now: int, alert: nat, channel: string): seq<Delivery> {
    if FindDelivery(rows, alert, channel).None? then [Delivery(alert, channel, Pending, 0, None, now)] else []
  }

  /** A cycle in its parts: the picked rows, and where they lead. */
  lemma CycleIs(cfg: Config, s: Alerts, limit: nat, tries: seq<Try>, delay: nat, picked: seq<nat>) returns (end: int)
    requires cfg.notifiers != {} && picked == Select(cfg, s.deliveries, s.now - cfg.backoff, limit, 0)
    ensures forall k :: 0 <= k < |picked| ==> picked[k] < |s.deliveries| && IsOpenRow(s.deliveries[picked[k]])
    ensures forall k, l :: 0 <= k < l < |picked| ==> picked[k] != picked[l]
    ensures var spec := AttemptAll(cfg, s, picked, tries, end);
      end == spec.now + delay && Process(cfg, s, limit, tries, delay) == spec.(now := end)
  {
    SelectIsInRange(cfg, s.deliveries, s.now - cfg.backoff, limit, 0);
    end := AttemptAll(cfg, s, picked, tries, 0).now + delay;
    EndIsTheCommit(cfg, s, picked, tries, 0, end);
  }

  /** Stamping the changed rows at the commit is stamping each as it changes. */
  lemma Flushed(s0: Alerts, spec: Alerts, rows: seq<Delivery>, stamped: seq<Delivery>, end: int, picked: seq<nat>)
    requires |rows| == |stamped| == |spec.deliveries| == |s0.deliveries|
    requires forall d :: 0 <= d < |rows| ==> rows[d].(updatedAt := 0) == spec.deliveries[d].(updatedAt := 0)
    requires forall d :: 0 <= d < |rows| ==> rows[d].updatedAt == s0.deliveries[d].updatedAt
    requires forall d :: 0 <= d < |rows| ==> spec.deliveries[d].updatedAt == if d in picked then end else s0.deliveries[d].updatedAt
    requires forall d :: 0 <= d < |rows| ==> stamped[d] == if d in picked then rows[d].(updatedAt := end) else rows[d]
    ensures stamped == spec.deliveries
  {
    forall d | 0 <= d < |rows| ensures stamped[d] == spec.deliveries[d] {
      assert rows[d].(updatedAt := 0) == spec.deliveries[d].(updatedAt := 0);
    }
  }

  lemma {:induction false} StampedCount(a: seq<Delivery>, b: seq<Delivery>, picked: seq<nat>, status: DeliveryStatus)
    requires |a| == |b| && (forall i :: 0 <= i < |picked| ==> picked[i] < |a|)
    requires forall d :: 0 <= d < |a| ==> a[d].status == b[d].status
    ensures CountOf(a, picked, status) == CountOf(b, picked, status)
  {
    if picked != [] {
      StampedCount(a, b, picked[..|picked| - 1], status);
    }
  }

  lemma StampedReports(counts: Counts, a: seq<Delivery>, b: seq<Delivery>, picked: seq<nat>)
    requires |a| == |b| && (forall i :: 0 <= i < |picked| ==> picked[i] < |a|) && Reports(counts, a, picked)
    requires forall d :: 0 <= d < |a| ==> a[d].status == b[d].status
    ensures Reports(counts, b, picked)
  {
    forall status {
      StampedCount(a, b, picked, status);
    }
  }

  ghost predicate SameKeys(a: seq<Delivery>, b: seq<Delivery>) {
    |a| == |b| && forall i :: 0 <= i < |a| ==> a[i].alert == b[i].alert && a[i].channel == b[i].channel
  }

  lemma {:induction false} LookupByKey(a: seq<Delivery>, b: seq<Delivery>, alert: nat, channel: string)
    requires SameKeys(a, b)
    ensures FindDelivery(a, alert, channel) == FindDelivery(b, alert, channel)
  {
    if a != [] {
      LookupByKey(a[..|a| - 1], b[..|b| - 1], alert, channel);
    }
  }

  class AlertCenter {
    const cfg: Config
    var now: int
    var alerts: seq<Alert>
    var deliveries: seq<Delivery>
    ghost var log: seq<Entry>  // what the notifiers and the resets did

    constructor (cfg: Config)
      ensures this.cfg == cfg && State() == NoAlerts
    {
      this.cfg := cfg;
      now, alerts, deliveries, log := 0, [], [], [];
    }

    ghost function State(): Alerts
      reads this
    {
      Alerts(now, alerts, deliveries, log)
    }

    /** One channel: a row for the session to add, or an existing row reset in place. */
    method EnsureRow(alert: nat, channel: string) returns (added: seq<Delivery>)
      modifies `deliveries, `log
      ensures State() == EnsureChannel(cfg, old(State()), alert, channel)
      ensures SameKeys(deliveries, old(deliveries))
      ensures added == AddedRow(old(deliveries), now, alert, channel)
    {
      var found := FindDelivery(deliveries, alert, channel);
      if found.None? {
        return [Delivery(alert, channel, Pending, 0, None, now)];
      }
      var d := found.value;
      var row := deliveries[d];
      if row.status == Failed || row.status == DeadLetter || row.status == Suppressed {
        deliveries := deliveries[d := row.(status := Pending, attempts := 0, updatedAt := now)];
        log := log + [Reset(d)];
      } else if row.status == Sent && !(row.sentAt.Some? && now - row.sentAt.value < cfg.window) {
        deliveries := deliveries[d := row.(status := Pending, attempts := 0, updatedAt := now)];
        log := log + [Reset(d)];
      }
      return [];
    }

    /** Resets the alert's rows in place and returns the rows the session is to add. */
    method EnsureRows(alert: nat) returns (added: seq<Delivery>)
      modifies `deliveries, `log
      ensures State() == EnsureExisting(cfg, old(State()), alert, cfg.channels)
      ensures added == AddedRows(old(deliveries), now, alert, cfg.channels)
    {
      added := [];
      ghost var s0 := State();
      assert cfg.channels[0..] == cfg.channels;
      for i := 0 to |cfg.channels|
        invariant EnsuredTo(cfg, s0, State(), added, alert, i)
      {
        ghost var s := State();
        var more := EnsureRow(alert, cfg.channels[i]);
        EnsuredNext(cfg, s0, s, added, alert, i, State(), more);
        added := added + more;
      }
      assert cfg.channels[|cfg.channels|..] == [] && added + [] == added;
    }

    /** An alert fires: its row is created or reopened, its deliveries are ensured, and the
        transaction commits unless a unique index refuses it. */
    method FireAlert(fingerprint: string) returns (committed: bool)
      modifies `alerts, `deliveries, `log
      ensures State() == Fire(cfg, old(State()), fingerprint)
      ensures !committed ==> State() == old(State())
    {
      var before, rows := alerts, deliveries;
      ghost var entries := log;
      var found := FindAlert(alerts, fingerprint);
      var alert;
      if found.None? {
        alert := |alerts|;
        alerts := alerts + [Alert(fingerprint, Open)];
      } else {
        alert := found.value;
        if alerts[alert].status == Resolved {
          alerts := alerts[alert := alerts[alert].(status := Open)];
        }
      }
      var added := EnsureRows(alert);
      committed := DistinctRows(added);
      if committed {
        deliveries := deliveries + added;
      } else {
        alerts, deliveries, log := before, rows, entries;
      }
    }

    /** One try through a notifier, or parking the row of a resolved alert. */
    method AttemptDelivery(d: nat, t: Try)
      requires d < |deliveries|
      modifies `now, `deliveries, `log
      ensures State() == Deliver(cfg, old(State()), d, t, old(deliveries[d].updatedAt))
    {
      var row := deliveries[d];
      if row.alert >= |alerts| || alerts[row.alert].status == Resolved {
        deliveries := deliveries[d := row.(status := Suppressed)];
        return;
      }
      now := now + t.takes;
      log := log + [Send(d, now, t.ok)];
      row := row.(attempts := row.attempts + 1);
      if t.ok {
        deliveries := deliveries[d := row.(status := Sent, sentAt := Some(now))];
      } else {
        deliveries := deliveries[d := row.(status := if row.attempts < cfg.retryMax then Failed else DeadLetter)];
      }
    }

    /** The session's rows agree with the specified ones, except that those already dealt with
        get their `updated_at` only at the commit. */
    ghost predicate Unflushed(s0: Alerts, spec: Alerts, end: int, done: seq<nat>)
      reads this
    {
      && SameButStamps(State(), spec) && log == spec.log && |spec.deliveries| == |s0.deliveries|
      && (forall d :: 0 <= d < |deliveries| ==> deliveries[d].updatedAt == s0.deliveries[d].updatedAt)
      && (forall d :: 0 <= d < |deliveries| ==> spec.deliveries[d].updatedAt == if d in done then end else s0.deliveries[d].updatedAt)
      && (forall d :: 0 <= d < |deliveries| && d !in done ==> deliveries[d] == s0.deliveries[d])
    }

    /** One picked row: dead, or tried. */
    method ProcessRow(d: nat, t: Try, ghost s0: Alerts, ghost spec: Alerts, ghost end: int, ghost done: seq<nat>)
      returns (tried: bool)
      requires d < |deliveries| && d !in done && Unflushed(s0, spec, end, done)
      requires IsOpenRow(s0.deliveries[d])
      modifies `now, `deliveries, `log
      ensures |deliveries| == old(|deliveries|) && Unflushed(s0, Attempt(cfg, spec, d, t, end), end, done + [d])
      ensures tried == !IsExhausted(cfg, s0.deliveries[d])
      ensures deliveries[d].status in {Sent, Failed, DeadLetter, Suppressed} && (!tried ==> deliveries[d].status == DeadLetter)
      ensures forall x :: 0 <= x < |deliveries| && x != d ==> deliveries[x] == old(deliveries[x])
    {
      assert State().deliveries[d].(updatedAt := 0) == spec.deliveries[d].(updatedAt := 0);
      assert deliveries[d] == s0.deliveries[d] && spec.deliveries[d] == s0.deliveries[d];
      if deliveries[d].status == Pending && deliveries[d].attempts >= cfg.retryMax {
        deliveries := deliveries[d := deliveries[d].(status := DeadLetter)];
        tried := false;
      } else {
        AttemptDelivery(d, t);
        tried := true;
      }
    }

    /** What holds when `i` picked rows are done: `spec` is where the specified cycle stands. */
    ghost predicate Looping(s0: Alerts, spec: Alerts, picked: seq<nat>, i: nat, tries: seq<Try>, end: int, counts: Counts)
      reads this
    {
      && OnTheWay(cfg, s0, spec, picked, i, tries, end)
      && |deliveries| == |s0.deliveries| && Unflushed(s0, spec, end, picked[..i])
      && Reports(counts, deliveries, picked[..i])
      && counts.processed == i - Exhausted(cfg, s0.deliveries, picked[..i])
    }

    method ProcessNext(picked: seq<nat>, i: nat, tries: seq<Try>, counts: Counts, ghost s0: Alerts, ghost spec: Alerts, ghost end: int)
      returns (counts': Counts, ghost spec': Alerts)
      requires Looping(s0, spec, picked, i, tries, end, counts) && i < |picked|
      requires IsOpenRow(s0.deliveries[picked[i]])
      requires forall k, l :: 0 <= k < l < |picked| ==> picked[k] != picked[l]
      modifies `now, `deliveries, `log
      ensures Looping(s0, spec', picked, i + 1, tries, end, counts')
    {
      var d := picked[i];
      ghost var rows := deliveries;
      assert picked[..i + 1] == picked[..i] + [d] && picked[..i + 1][..i] == picked[..i];
      var tried := ProcessRow(d, TryAt(tries, i), s0, spec, end, picked[..i]);
      GoesOn(cfg, s0, spec, picked, i, tries, end);
      spec' := Attempt(cfg, spec, d, TryAt(tries, i), end);
      counts' := Counted(counts, deliveries[d].status, tried);
      CountedNext(cfg, s0.deliveries, rows, deliveries, picked, i, counts, tried);
    }

    /** The loop of a cycle over the picked rows. */
    method ProcessPicked(picked: seq<nat>, tries: seq<Try>, ghost end: int) returns (counts: Counts, ghost spec: Alerts)
      requires forall k :: 0 <= k < |picked| ==> picked[k] < |deliveries| && IsOpenRow(deliveries[picked[k]])
      requires forall k, l :: 0 <= k < l < |picked| ==> picked[k] != picked[l]
      modifies `now, `deliveries, `log
      ensures |deliveries| == old(|deliveries|) && Unflushed(old(State()), spec, end, picked)
      ensures spec == AttemptAll(cfg, old(State()), picked, tries, end)
      ensures Reports(counts, deliveries, picked)
      ensures counts.processed == |picked| - Exhausted(cfg, old(deliveries), picked)
    {
      counts := Counts(0, 0, 0, 0, 0);
      ghost var s0 := State();
      spec := s0;
      StartsOut(cfg, s0, picked, tries, end);
      for i := 0 to |picked|
        invariant Looping(s0, spec, picked, i, tries, end, counts)
      {
        counts, spec := ProcessNext(picked, i, tries, counts, s0, spec, end);
      }
      assert picked[..|picked|] == picked;
      Arrives(cfg, s0, spec, picked, tries, end);
    }

    /** One delivery cycle and what it reports. */
    method ProcessDeliveries(limit: nat, tries: seq<Try>, delay: nat) returns (counts: Counts, picked: seq<nat>)
      modifies `now, `deliveries, `log
      ensures State() == Process(cfg, old(State()), limit, tries, delay)
      ensures picked == if cfg.notifiers == {} then [] else Select(cfg, old(deliveries), old(now) - cfg.backoff, limit, 0)
      ensures |deliveries| == old(|deliveries|) && (forall i :: 0 <= i < |picked| ==> picked[i] < |deliveries|)
      ensures Reports(counts, deliveries, picked)
      ensures counts.processed == |picked| - Exhausted(cfg, old(deliveries), picked)
    {
      counts, picked := Counts(0, 0, 0, 0, 0), [];
      if cfg.notifiers == {} {
        return;
      }
      picked := Select(cfg, deliveries, now - cfg.backoff, limit, 0);
      ghost var s0 := State();
      ghost var end := CycleIs(cfg, s0, limit, tries, delay, picked);
      ghost var spec;
      counts, spec := ProcessPicked(picked, tries, end);
      FlushPicked(picked, delay, counts, s0, spec, end);
    }

    /** The commit of a cycle. */
    method FlushPicked(picked: seq<nat>, delay: nat, ghost counts: Counts, ghost s0: Alerts, ghost spec: Alerts, ghost end: int)
      requires Unflushed(s0, spec, end, picked) && |deliveries| == |s0.deliveries| && end == now + delay
      requires (forall i :: 0 <= i < |picked| ==> picked[i] < |deliveries|) && Reports(counts, deliveries, picked)
      modifies `now, `deliveries
      ensures State() == spec.(now := end)
      ensures |deliveries| == old(|deliveries|) && Reports(counts, deliveries, picked)
    {
      ghost var rows := deliveries;
      now := now + delay;
      StampRows(picked);
      Flushed(s0, spec, rows, deliveries, end, picked);
      StampedReports(counts, rows, deliveries, picked);
    }

    /** The flush at commit stamps every row the session changed. */
    method StampRows(changed: seq<nat>)
      modifies `deliveries
      ensures |deliveries| == old(|deliveries|)
      ensures forall d :: 0 <= d < |deliveries| ==>
        deliveries[d] == if d in changed then old(deliveries[d]).(updatedAt := now) else old(deliveries[d])
    {
      var rows := deliveries;
      for d := 0 to |rows|
        invariant |deliveries| == |rows|
        invariant forall x :: 0 <= x < d ==> deliveries[x] == if x in changed then rows[x].(updatedAt := now) else rows[x]
        invariant forall x :: d <= x < |rows| ==> deliveries[x] == rows[x]
      {
        if d in changed {
          deliveries := deliveries[d := rows[d].(updatedAt := now)];
        }
      }
    }
  }
}
