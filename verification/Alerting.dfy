/**
 Alert delivery: one durable row per alert and channel, retries with backoff, a dead letter
 state, and suppression of repeats.  The log records what the notifiers and the resets did.
 */
module Alerting {
  import opened Wrappers

  datatype AlertStatus = Open | Acknowledged | Resolved

  datatype Alert = Alert(fingerprint: string, status: AlertStatus)

  datatype DeliveryStatus = Pending | Sent | Failed | DeadLetter | Suppressed

  datatype Delivery = Delivery(alert: nat, channel: string, status: DeliveryStatus, attempts: nat,
                               sentAt: Option<int>, updatedAt: int)

  datatype Entry =
    | Send(delivery: nat, at: int, ok: bool)
    | Reset(delivery: nat)

  datatype Alerts = Alerts(now: int, alerts: seq<Alert>, deliveries: seq<Delivery>, log: seq<Entry>)

  const NoAlerts := Alerts(0, [], [], [])

  /** The enabled channels, those with a configured notifier, and the three limits. */
  datatype Config = Config(channels: seq<string>, notifiers: set<string>, window: nat, retryMax: int, backoff: nat)

  datatype Outcome = Outcome(state: Alerts, ok: bool)

  // ----- firing and resolving --------------------------------------------------------------

  function FindAlert(alerts: seq<Alert>, fingerprint: string): (r: Option<nat>)
    ensures r.Some? ==> r.value < |alerts| && alerts[r.value].fingerprint == fingerprint
    ensures r.None? ==> forall i :: 0 <= i < |alerts| ==> alerts[i].fingerprint != fingerprint
  {
    if alerts == [] then None
    else
      var last := |alerts| - 1;
      if alerts[last].fingerprint == fingerprint then Some(last) else FindAlert(alerts[..last], fingerprint)
  }

  function FindDelivery(rows: seq<Delivery>, alert: nat, channel: string): (r: Option<nat>)
    ensures r.Some? ==> r.value < |rows| && rows[r.value].alert == alert && rows[r.value].channel == channel
    ensures r.None? ==> forall i :: 0 <= i < |rows| ==> rows[i].alert != alert || rows[i].channel != channel
  {
    if rows == [] then None
    else
      var last := |rows| - 1;
      if rows[last].alert == alert && rows[last].channel == channel then Some(last) else FindDelivery(rows[..last], alert, channel)
  }

  /** Whether a re-fired alert gets a fresh notification on this row. */
  predicate NeedsReset(cfg: Config, now: int, row: Delivery) {
    match row.status
    case Failed => true
    case DeadLetter => true
    case Suppressed => true
    case Sent => row.sentAt.None? || now - row.sentAt.value >= cfg.window
    case Pending => false
  }

  function ResetRow(now: int, row: Delivery): Delivery {
    row.(status := Pending, attempts := 0, updatedAt := now)
  }

  /** One channel of an alert that has fired: a row the session adds, or the reset of an existing one. */
  function EnsureChannel(cfg: Config, s: Alerts, alert: nat, channel: string): Alerts {
    var found := FindDelivery(s.deliveries, alert, channel);
    if found.None? then s
    else
      var d := found.value;
      if !NeedsReset(cfg, s.now, s.deliveries[d]) then s
      else s.(deliveries := s.deliveries[d := ResetRow(s.now, s.deliveries[d])], log := s.log + [Reset(d)])
  }

  function EnsureExisting(cfg: Config, s: Alerts, alert: nat, channels: seq<string>): Alerts
    decreases |channels|
  {
    if channels == [] then s else EnsureExisting(cfg, EnsureChannel(cfg, s, alert, channels[0]), alert, channels[1..])
  }

  /** The rows for channels the alert has no row for yet; queries do not see rows just added. */
  function AddedRows(rows: seq<Delivery>, now: int, alert: nat, channels: seq<string>): seq<Delivery> {
    if channels == [] then []
    else
      (if FindDelivery(rows, alert, channels[0]).None? then [Delivery(alert, channels[0], Pending, 0, None, now)] else [])
        + AddedRows(rows, now, alert, channels[1..])
  }

  predicate DistinctRows(rows: seq<Delivery>) {
    forall i, j :: 0 <= i < j < |rows| ==> rows[i].channel != rows[j].channel
  }

  /** Two new rows for one channel violate the unique index and roll the transaction back. */
  function EnsureDeliveries(cfg: Config, s: Alerts, alert: nat): Outcome {
    var added := AddedRows(s.deliveries, s.now, alert, cfg.channels);
    var reset := EnsureExisting(cfg, s, alert, cfg.channels);
    Outcome(reset.(deliveries := reset.deliveries + added), DistinctRows(added))
  }

  function Fire(cfg: Config, s: Alerts, fingerprint: string): Alerts {
    var found := FindAlert(s.alerts, fingerprint);
    var alerts :=
      if found.None? then s.alerts + [Alert(fingerprint, Open)]
      else if s.alerts[found.value].status == Resolved then s.alerts[found.value := s.alerts[found.value].(status := Open)]
      else s.alerts;
    var alert := if found.None? then |s.alerts| else found.value;
    var o := EnsureDeliveries(cfg, s.(alerts := alerts), alert);
    if o.ok then o.state else s
  }

  function SetStatus(s: Alerts, alert: nat, status: AlertStatus): Alerts {
    if alert >= |s.alerts| || s.alerts[alert].status == Resolved then s
    else s.(alerts := s.alerts[alert := s.alerts[alert].(status := status)])
  }

  // ----- a delivery cycle -----------------------------------------------------------------------

  predicate Eligible(cfg: Config, row: Delivery, cutoff: int) {
    && (row.status == Pending || row.status == Failed) && row.channel in cfg.notifiers
    && ((row.status == Pending && row.attempts == 0) || row.updatedAt < cutoff)
  }

  /** The first `limit` eligible rows from index `i` on. */
  function Select(cfg: Config, rows: seq<Delivery>, cutoff: int, limit: nat, i: nat): seq<nat>
    decreases |rows| - i
  {
    if i >= |rows| || limit == 0 then []
    else if Eligible(cfg, rows[i], cutoff) then [i] + Select(cfg, rows, cutoff, limit - 1, i + 1)
    else Select(cfg, rows, cutoff, limit, i + 1)
  }

  /** What one send does: how long it takes and whether the notifier accepts. */
  datatype Try = Try(takes: nat, ok: bool)

  function TryAt(tries: seq<Try>, i: nat): Try {
    if i < |tries| then tries[i] else Try(0, false)
  }

  predicate Deliverable(s: Alerts, d: nat)
    requires d < |s.deliveries|
  {
    s.deliveries[d].alert < |s.alerts| && s.alerts[s.deliveries[d].alert].status != Resolved
  }

  /** A pending row out of attempts is given up without a try. */
  predicate IsExhausted(cfg: Config, row: Delivery) {
    row.status == Pending && row.attempts >= cfg.retryMax
  }

  /** What a send that ends at `at` makes of a row. */
  function Tried(cfg: Config, row: Delivery, at: int, ok: bool): Delivery {
    var tried := row.(attempts := row.attempts + 1);
    if ok then tried.(status := Sent, sentAt := Some(at))
    else tried.(status := if tried.attempts < cfg.retryMax then Failed else DeadLetter)
  }

  /** One try through a notifier, or parking the row of a resolved or missing alert. */
  function Deliver(cfg: Config, s: Alerts, d: nat, t: Try, end: int): Alerts
    requires d < |s.deliveries|
  {
    var row := s.deliveries[d].(updatedAt := end);
    if !Deliverable(s, d) then s.(deliveries := s.deliveries[d := row.(status := Suppressed)])
    else
      var at := s.now + t.takes;
      s.(now := at, deliveries := s.deliveries[d := Tried(cfg, row, at, t.ok)], log := s.log + [Send(d, at, t.ok)])
  }

  /** One row of a cycle that commits at `end`. */
  function Attempt(cfg: Config, s: Alerts, d: nat, t: Try, end: int): Alerts
    requires d < |s.deliveries|
  {
    if IsExhausted(cfg, s.deliveries[d])
    then s.(deliveries := s.deliveries[d := s.deliveries[d].(status := DeadLetter, updatedAt := end)])
    else Deliver(cfg, s, d, t, end)
  }

  function AttemptAll(cfg: Config, s: Alerts, picked: seq<nat>, tries: seq<Try>, end: int): Alerts
    requires forall i :: 0 <= i < |picked| ==> picked[i] < |s.deliveries|
    decreases |picked|
  {
    if picked == [] then s
    else AttemptAll(cfg, Attempt(cfg, s, picked[0], TryAt(tries, 0), end), picked[1..], if tries == [] then [] else tries[1..], end)
  }

  lemma SelectIsInRange(cfg: Config, rows: seq<Delivery>, cutoff: int, limit: nat, i: nat)
    ensures forall k :: 0 <= k < |Select(cfg, rows, cutoff, limit, i)| ==>
      i <= Select(cfg, rows, cutoff, limit, i)[k] < |rows| && Eligible(cfg, rows[Select(cfg, rows, cutoff, limit, i)[k]], cutoff)
    ensures forall k, l :: 0 <= k < l < |Select(cfg, rows, cutoff, limit, i)| ==>
      Select(cfg, rows, cutoff, limit, i)[k] != Select(cfg, rows, cutoff, limit, i)[l]
    decreases |rows| - i
  {}

  /** A delivery cycle: rows are picked once, sent one after another, and committed together.
      `delay` separates the last send from the commit. */
  function Process(cfg: Config, s: Alerts, limit: nat, tries: seq<Try>, delay: nat): Alerts {
    if cfg.notifiers == {} then s
    else
      var picked := Select(cfg, s.deliveries, s.now - cfg.backoff, limit, 0);
      SelectIsInRange(cfg, s.deliveries, s.now - cfg.backoff, limit, 0);
      var end := AttemptAll(cfg, s, picked, tries, 0).now + delay;
      AttemptAll(cfg, s, picked, tries, end).(now := end)
  }

  /** How long the sends take does not depend on the commit time they are stamped with. */
  lemma {:induction false} EndIsTheCommit(cfg: Config, s: Alerts, picked: seq<nat>, tries: seq<Try>, a: int, b: int)
    requires forall i :: 0 <= i < |picked| ==> picked[i] < |s.deliveries|
    ensures AttemptAll(cfg, s, picked, tries, a).now == AttemptAll(cfg, s, picked, tries, b).now
    decreases |picked|
  {
    EndIsIgnored(cfg, s, s, picked, tries, a, b);
  }

  ghost predicate SameButStamps(s: Alerts, t: Alerts) {
    && s.now == t.now && s.alerts == t.alerts && |s.deliveries| == |t.deliveries|
    && forall d :: 0 <= d < |s.deliveries| ==> s.deliveries[d].(updatedAt := 0) == t.deliveries[d].(updatedAt := 0)
  }

  lemma {:induction false} EndIsIgnored(cfg: Config, s: Alerts, t: Alerts, picked: seq<nat>, tries: seq<Try>, a: int, b: int)
    requires SameButStamps(s, t) && forall i :: 0 <= i < |picked| ==> picked[i] < |s.deliveries|
    ensures AttemptAll(cfg, s, picked, tries, a).now == AttemptAll(cfg, t, picked, tries, b).now
    decreases |picked|
  {
    if picked != [] {
      var x := TryAt(tries, 0);
      assert s.deliveries[picked[0]].(updatedAt := 0) == t.deliveries[picked[0]].(updatedAt := 0);
      EndIsIgnored(cfg, Attempt(cfg, s, picked[0], x, a), Attempt(cfg, t, picked[0], x, b), picked[1..],
                   if tries == [] then [] else tries[1..], a, b);
    }
  }

  /** A cycle sends nothing for an alert that is resolved, or missing, when it starts. */
  lemma {:induction false} NothingSentForResolved(cfg: Config, s: Alerts, picked: seq<nat>, tries: seq<Try>, end: int, d: nat)
    requires forall i :: 0 <= i < |picked| ==> picked[i] < |s.deliveries|
    requires d < |s.deliveries| && !Deliverable(s, d)
    ensures var s' := AttemptAll(cfg, s, picked, tries, end);
      s.log <= s'.log && forall n :: |s.log| <= n < |s'.log| ==> s'.log[n].delivery != d
    decreases |picked|
  {
    if picked != [] {
      var s1 := Attempt(cfg, s, picked[0], TryAt(tries, 0), end);
      NothingSentForResolved(cfg, s1, picked[1..], if tries == [] then [] else tries[1..], end, d);
      assert s.log <= s1.log && |s1.log| <= |s.log| + 1;
    }
  }

  lemma ResolvedStaysQuiet(cfg: Config, s: Alerts, limit: nat, tries: seq<Try>, delay: nat, d: nat)
    requires d < |s.deliveries| && !Deliverable(s, d)
    ensures var s' := Process(cfg, s, limit, tries, delay);
      s.log <= s'.log && forall n :: |s.log| <= n < |s'.log| ==> s'.log[n].delivery != d
  {
    if cfg.notifiers != {} {
      var cutoff := s.now - cfg.backoff;
      var picked := Select(cfg, s.deliveries, cutoff, limit, 0);
      SelectIsInRange(cfg, s.deliveries, cutoff, limit, 0);
      NothingSentForResolved(cfg, s, picked, tries, AttemptAll(cfg, s, picked, tries, 0).now + delay, d);
    }
  }

  // ----- reading the log -----------------------------------------------------------------------------

  /** When delivery `d` last succeeded. */
  function LastSuccess(log: seq<Entry>, d: nat): Option<int> {
    if log == [] then None
    else
      var e := log[|log| - 1];
      if e.Send? && e.delivery == d && e.ok then Some(e.at) else LastSuccess(log[..|log| - 1], d)
  }

  /** When delivery `d` was last tried since its last reset. */
  function LastTry(log: seq<Entry>, d: nat): Option<int> {
    if log == [] then None
    else
      var e := log[|log| - 1];
      if e.delivery != d then LastTry(log[..|log| - 1], d) else if e.Send? then Some(e.at) else None
  }

  /** How often delivery `d` has been tried since its last reset. */
  function TriesSinceReset(log: seq<Entry>, d: nat): nat {
    if log == [] then 0
    else
      var e := log[|log| - 1];
      if e.delivery != d then TriesSinceReset(log[..|log| - 1], d)
      else if e.Send? then TriesSinceReset(log[..|log| - 1], d) + 1
      else 0
  }

  lemma LogSnoc(log: seq<Entry>, e: Entry, d: nat)
    ensures LastSuccess(log + [e], d) == if e.Send? && e.delivery == d && e.ok then Some(e.at) else LastSuccess(log, d)
    ensures LastTry(log + [e], d) == if e.delivery != d then LastTry(log, d) else if e.Send? then Some(e.at) else None
    ensures TriesSinceReset(log + [e], d) ==
      if e.delivery != d then TriesSinceReset(log, d) else if e.Send? then TriesSinceReset(log, d) + 1 else 0
  {
    assert (log + [e])[..|log|] == log;
  }

  /** The n-th log entry, if it is a successful send, keeps its distance from the success before it. */
  predicate Spaced(cfg: Config, log: seq<Entry>, n: nat)
    requires n < |log|
  {
    var e := log[n];
    var before := if e.Send? then LastSuccess(log[..n], e.delivery) else None;
    e.Send? && e.ok && before.Some? ==> e.at >= before.value + cfg.window
  }

  /** The n-th log entry, if it is a send, comes after the backoff and within the retry limit. */
  predicate Limited(cfg: Config, log: seq<Entry>, n: nat)
    requires n < |log|
  {
    var e := log[n];
    var before := if e.Send? then LastTry(log[..n], e.delivery) else None;
    && (e.Send? && before.Some? ==> e.at > before.value + cfg.backoff)
    && (e.Send? ==> TriesSinceReset(log[..n + 1], e.delivery) <= cfg.retryMax)
  }

  ghost predicate AllSpaced(cfg: Config, log: seq<Entry>) {
    forall n :: 0 <= n < |log| ==> Spaced(cfg, log, n)
  }

  ghost predicate AllLimited(cfg: Config, log: seq<Entry>) {
    forall n :: 0 <= n < |log| ==> Limited(cfg, log, n)
  }

  lemma PrefixesKept(cfg: Config, log: seq<Entry>, e: Entry)
    ensures AllSpaced(cfg, log) && Spaced(cfg, log + [e], |log|) ==> AllSpaced(cfg, log + [e])
    ensures AllLimited(cfg, log) && Limited(cfg, log + [e], |log|) ==> AllLimited(cfg, log + [e])
  {
    forall n | 0 <= n < |log|
      ensures Spaced(cfg, log, n) <==> Spaced(cfg, log + [e], n)
      ensures Limited(cfg, log, n) <==> Limited(cfg, log + [e], n)
    {
      assert (log + [e])[..n] == log[..n] && (log + [e])[..n + 1] == log[..n + 1];
    }
  }
}
