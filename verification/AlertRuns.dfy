/**
 Fires and delivery cycles as they interleave: a fire reads, and commits later; a cycle reads its
 rows, sends them one after another, and commits at the end.  A commit writes only the columns its
 session changed, over whatever the table holds by then.  At most one cycle is open at a time.
 */
module AlertRuns {
  import opened Wrappers
  import opened Alerting

  /** A fire that has read the alert and the delivery rows and has not committed. */
  datatype Firing = Firing(fingerprint: string, at: int, found: Option<nat>, reopens: bool, rows: seq<Delivery>)

  /** A row as a cycle read it; and once it is dealt with, what the cycle's session holds for it. */
  datatype Picked = Picked(row: nat, loaded: Delivery)
  datatype Done = Done(loaded: Delivery, result: Delivery)

  datatype Cycle = Cycle(cutoff: int, todo: seq<Picked>, done: map<nat, Done>)

  datatype World = World(s: Alerts, cycle: Option<Cycle>, fires: map<nat, Firing>)

  const Init := World(NoAlerts, None, map[])

  datatype Event =
    | Tick(elapsed: nat)
    | ReadFire(fire: nat, fingerprint: string)
    | CommitFire(fire: nat)
    | DropFire(fire: nat)
    | Resolves(alert: nat)
    | Acknowledges(alert: nat)
    | BeginCycle(limit: nat)
    | DealNext(try: Try)
    | CommitCycle
    | LoseCycle

  // ----- commits -----------------------------------------------------------------------------

  /** The table's row `current` after a commit, at `now`, of a session that loaded `loaded` and
      made it `changed`.  An UPDATE that does not set `updated_at` itself stamps it with the commit
      (knowledge-hub/app/models.py:184). */
  function Merge(now: int, loaded: Delivery, changed: Delivery, current: Delivery): Delivery {
    if changed == loaded then current
    else
      current.(status := if changed.status != loaded.status then changed.status else current.status,
               attempts := if changed.attempts != loaded.attempts then changed.attempts else current.attempts,
               sentAt := if changed.sentAt != loaded.sentAt then changed.sentAt else current.sentAt,
               updatedAt := if changed.updatedAt != loaded.updatedAt then changed.updatedAt else now)
  }

  /** Row `d` as it would be if the open cycle committed now. */
  function Committed(w: World, d: nat): Delivery
    requires d < |w.s.deliveries|
  {
    if w.cycle.Some? && d in w.cycle.value.done
    then Merge(w.s.now, w.cycle.value.done[d].loaded, w.cycle.value.done[d].result, w.s.deliveries[d])
    else w.s.deliveries[d]
  }

  // ----- fires ----------------------------------------------------------------------------------

  function ReadAlert(s: Alerts, fingerprint: string): Firing {
    var found := FindAlert(s.alerts, fingerprint);
    Firing(fingerprint, s.now, found, found.Some? && s.alerts[found.value].status == Resolved, s.deliveries)
  }

  /** The rows the loop over the channels resets; a row it has reset is pending in the session. */
  function Resets(cfg: Config, rows: seq<Delivery>, at: int, alert: nat, channels: seq<string>): seq<nat>
    decreases |channels|
  {
    if channels == [] then []
    else
      var found := FindDelivery(rows, alert, channels[0]);
      if found.Some? && NeedsReset(cfg, at, rows[found.value])
      then [found.value] + Resets(cfg, rows[found.value := ResetRow(at, rows[found.value])], at, alert, channels[1..])
      else Resets(cfg, rows, at, alert, channels[1..])
  }

  function ResetsOf(cfg: Config, f: Firing): seq<nat> {
    if f.found.None? then [] else Resets(cfg, f.rows, f.at, f.found.value, cfg.channels)
  }

  function AlertOf(s: Alerts, f: Firing): nat {
    if f.found.None? then |s.alerts| else f.found.value
  }

  function Additions(cfg: Config, s: Alerts, f: Firing): seq<Delivery> {
    AddedRows(if f.found.None? then [] else f.rows, s.now, AlertOf(s, f), cfg.channels)
  }

  /** The unique indexes: one alert a fingerprint, one row an alert and channel. */
  predicate Refused(cfg: Config, s: Alerts, f: Firing) {
    var added := Additions(cfg, s, f);
    || !DistinctRows(added)
    || (f.found.None? && FindAlert(s.alerts, f.fingerprint).Some?)
    || exists i :: 0 <= i < |added| && FindDelivery(s.deliveries, added[i].alert, added[i].channel).Some?
  }

  function FiredAlerts(s: Alerts, f: Firing): seq<Alert> {
    if f.found.None? then s.alerts + [Alert(f.fingerprint, Open)]
    else if f.reopens && f.found.value < |s.alerts| then s.alerts[f.found.value := s.alerts[f.found.value].(status := Open)]
    else s.alerts
  }

  /** Row `d` of the table after the fire's UPDATEs. */
  function FiredRow(cfg: Config, s: Alerts, f: Firing, d: nat): Delivery
    requires d < |s.deliveries|
  {
    if d in ResetsOf(cfg, f) && d < |f.rows| then Merge(s.now, f.rows[d], ResetRow(f.at, f.rows[d]), s.deliveries[d])
    else s.deliveries[d]
  }

  function ResetEntries(resets: seq<nat>): seq<Entry> {
    if resets == [] then [] else ResetEntries(resets[..|resets| - 1]) + [Reset(resets[|resets| - 1])]
  }

  function Fired(cfg: Config, s: Alerts, f: Firing): Alerts {
    s.(alerts := FiredAlerts(s, f),
       deliveries := seq(|s.deliveries|, d requires 0 <= d < |s.deliveries| => FiredRow(cfg, s, f, d)) + Additions(cfg, s, f),
       log := s.log + ResetEntries(ResetsOf(cfg, f)))
  }

  // ----- cycles -----------------------------------------------------------------------------------

  function PickedRows(rows: seq<Delivery>, picked: seq<nat>): seq<Picked>
    requires forall i :: 0 <= i < |picked| ==> picked[i] < |rows|
  {
    seq(|picked|, i requires 0 <= i < |picked| => Picked(picked[i], rows[picked[i]]))
  }

  function Begun(cfg: Config, s: Alerts, limit: nat): Cycle {
    var cutoff := s.now - cfg.backoff;
    SelectIsInRange(cfg, s.deliveries, cutoff, limit, 0);
    Cycle(cutoff, PickedRows(s.deliveries, Select(cfg, s.deliveries, cutoff, limit, 0)), map[])
  }

  /** Whether the alert of a row is there and not resolved, by the alert table as it is now. */
  predicate MayNotify(s: Alerts, row: Delivery) {
    row.alert < |s.alerts| && s.alerts[row.alert].status != Resolved
  }

  predicate Sends(cfg: Config, s: Alerts, p: Picked) {
    !IsExhausted(cfg, p.loaded) && MayNotify(s, p.loaded)
  }

  function Result(cfg: Config, s: Alerts, p: Picked, t: Try): Delivery {
    if IsExhausted(cfg, p.loaded) then p.loaded.(status := DeadLetter)
    else if !MayNotify(s, p.loaded) then p.loaded.(status := Suppressed)
    else Tried(cfg, p.loaded, s.now + t.takes, t.ok)
  }

  /** The next picked row: given up, parked, or sent, in the session only. */
  function Dealt(cfg: Config, w: World, c: Cycle, t: Try): World
    requires c.todo != []
  {
    var p := c.todo[0];
    var at := w.s.now + t.takes;
    var s := if Sends(cfg, w.s, p) then w.s.(now := at, log := w.s.log + [Send(p.row, at, t.ok)]) else w.s;
    w.(s := s, cycle := Some(c.(todo := c.todo[1..], done := c.done[p.row := Done(p.loaded, Result(cfg, w.s, p, t))])))
  }

  // ----- runs -----------------------------------------------------------------------------------------

  function Step(cfg: Config, w: World, ev: Event): World {
    match ev
    case Tick(elapsed) => w.(s := w.s.(now := w.s.now + elapsed))
    case ReadFire(k, fingerprint) => if k in w.fires then w else w.(fires := w.fires[k := ReadAlert(w.s, fingerprint)])
    case CommitFire(k) =>
      if k !in w.fires then w
      else if Refused(cfg, w.s, w.fires[k]) then w.(fires := w.fires - {k})
      else w.(s := Fired(cfg, w.s, w.fires[k]), fires := w.fires - {k})
    case DropFire(k) => w.(fires := w.fires - {k})
    case Resolves(alert) => w.(s := SetStatus(w.s, alert, Resolved))
    case Acknowledges(alert) => w.(s := SetStatus(w.s, alert, Acknowledged))
    case BeginCycle(limit) =>
      if w.cycle.Some? || cfg.notifiers == {} then w else w.(cycle := Some(Begun(cfg, w.s, limit)))
    case DealNext(t) =>
      if w.cycle.None? || w.cycle.value.todo == [] then w else Dealt(cfg, w, w.cycle.value, t)
    case CommitCycle =>
      if w.cycle.None? || w.cycle.value.todo != [] then w
      else w.(s := w.s.(deliveries := CommittedRows(w)), cycle := None)
    case LoseCycle => w.(cycle := None)
  }

  function CommittedRows(w: World): seq<Delivery> {
    seq(|w.s.deliveries|, d requires 0 <= d < |w.s.deliveries| => Committed(w, d))
  }

  function Run(cfg: Config, w: World, events: seq<Event>): World
    decreases |events|
  {
    if events == [] then w else Run(cfg, Step(cfg, w, events[0]), events[1..])
  }

  // ----- what always holds ---------------------------------------------------------------------------

  /** While a cycle is open, fires are all that touches the rows it has read. */
  predicate OnlyReset(loaded: Delivery, current: Delivery) {
    && current.sentAt == loaded.sentAt && current.alert == loaded.alert
    && (current.status == loaded.status || current.status == Pending)
    && (current.attempts == loaded.attempts || current.attempts == 0)
  }

  /** What a cycle may make of a row. */
  predicate IsOutcome(cfg: Config, loaded: Delivery, result: Delivery) {
    if IsExhausted(cfg, loaded) then result == loaded.(status := DeadLetter)
    else
      || result == loaded.(status := Suppressed)
      || result == Tried(cfg, loaded, 0, false)
      || (result.sentAt.Some? && result == Tried(cfg, loaded, result.sentAt.value, true))
  }

  predicate WasTried(x: Done) {
    x.result.attempts != x.loaded.attempts
  }

  predicate TodoIsWired(cfg: Config, s: Alerts, c: Cycle, i: nat)
    requires i < |c.todo|
  {
    var p := c.todo[i];
    p.row < |s.deliveries| && p.row !in c.done && Eligible(cfg, p.loaded, c.cutoff) && OnlyReset(p.loaded, s.deliveries[p.row])
  }

  predicate DoneIsWired(cfg: Config, s: Alerts, c: Cycle, d: nat)
    requires d in c.done
  {
    var x := c.done[d];
    && d < |s.deliveries| && Eligible(cfg, x.loaded, c.cutoff) && OnlyReset(x.loaded, s.deliveries[d])
    && IsOutcome(cfg, x.loaded, x.result)
  }

  ghost predicate CycleIsWired(cfg: Config, s: Alerts, c: Cycle) {
    && c.cutoff + cfg.backoff <= s.now
    && (forall i :: 0 <= i < |c.todo| ==> TodoIsWired(cfg, s, c, i))
    && (forall i, j :: 0 <= i < j < |c.todo| ==> c.todo[i].row != c.todo[j].row)
    && (forall d :: d in c.done ==> DoneIsWired(cfg, s, c, d))
  }

  predicate FireIsWired(s: Alerts, f: Firing) {
    |f.rows| <= |s.deliveries| && f.at <= s.now && (f.found.Some? ==> f.found.value < |s.alerts|)
  }

  ghost predicate Wired(cfg: Config, w: World) {
    && (forall k :: k in w.fires ==> FireIsWired(w.s, w.fires[k]))
    && (w.cycle.Some? ==> CycleIsWired(cfg, w.s, w.cycle.value))
  }

  // ----- and is kept by every step ------------------------------------------------------------------

  lemma MergeOnlyResets(now: int, at: int, read: Delivery, loaded: Delivery, current: Delivery)
    requires OnlyReset(loaded, current)
    ensures OnlyReset(loaded, Merge(now, read, ResetRow(at, read), current))
  {}

  lemma {:induction false} ResetsNeedIt(cfg: Config, rows: seq<Delivery>, at: int, alert: nat, channels: seq<string>, d: nat)
    requires d in Resets(cfg, rows, at, alert, channels)
    ensures d < |rows| && NeedsReset(cfg, at, rows[d]) && rows[d].alert == alert
    decreases |channels|
  {
    var found := FindDelivery(rows, alert, channels[0]);
    if found.Some? && NeedsReset(cfg, at, rows[found.value]) {
      var x := found.value;
      if d != x {
        ResetsNeedIt(cfg, rows[x := ResetRow(at, rows[x])], at, alert, channels[1..], d);
      }
    } else {
      ResetsNeedIt(cfg, rows, at, alert, channels[1..], d);
    }
  }

  /** A cycle stays wired while the table grows, time passes, and fires reset rows. */
  lemma CycleStaysWired(cfg: Config, s: Alerts, t: Alerts, c: Cycle)
    requires CycleIsWired(cfg, s, c) && s.now <= t.now && |s.deliveries| <= |t.deliveries|
    requires forall d, l :: 0 <= d < |s.deliveries| && OnlyReset(l, s.deliveries[d]) ==> OnlyReset(l, t.deliveries[d])
    ensures CycleIsWired(cfg, t, c)
  {
    forall i | 0 <= i < |c.todo| ensures TodoIsWired(cfg, t, c, i) {
      assert TodoIsWired(cfg, s, c, i);
    }
    forall d | d in c.done ensures DoneIsWired(cfg, t, c, d) {
      assert DoneIsWired(cfg, s, c, d);
    }
  }

  lemma FiresStayWired(w: World, t: Alerts)
    requires forall k :: k in w.fires ==> FireIsWired(w.s, w.fires[k])
    requires w.s.now <= t.now && |w.s.deliveries| <= |t.deliveries| && |w.s.alerts| <= |t.alerts|
    ensures forall k :: k in w.fires ==> FireIsWired(t, w.fires[k])
  {
    forall k | k in w.fires ensures FireIsWired(t, w.fires[k]) {
      assert FireIsWired(w.s, w.fires[k]);
    }
  }

  lemma FiredStaysWired(cfg: Config, w: World, f: Firing)
    requires Wired(cfg, w)
    ensures var t := Fired(cfg, w.s, f);
      && (forall k :: k in w.fires ==> FireIsWired(t, w.fires[k]))
      && (w.cycle.Some? ==> CycleIsWired(cfg, t, w.cycle.value))
  {
    var s, t := w.s, Fired(cfg, w.s, f);
    FiresStayWired(w, t);
    if w.cycle.Some? {
      forall d, l | 0 <= d < |s.deliveries| && OnlyReset(l, s.deliveries[d]) ensures OnlyReset(l, t.deliveries[d]) {
        assert t.deliveries[d] == FiredRow(cfg, s, f, d);
        if d < |f.rows| {
          MergeOnlyResets(s.now, f.at, f.rows[d], l, s.deliveries[d]);
        }
      }
      CycleStaysWired(cfg, s, t, w.cycle.value);
    }
  }

  lemma BegunIsWired(cfg: Config, s: Alerts, limit: nat)
    ensures CycleIsWired(cfg, s, Begun(cfg, s, limit))
  {
    var c := Begun(cfg, s, limit);
    SelectIsInRange(cfg, s.deliveries, c.cutoff, limit, 0);
    forall i | 0 <= i < |c.todo| ensures TodoIsWired(cfg, s, c, i) {}
  }

  lemma ResultIsOutcome(cfg: Config, s: Alerts, p: Picked, t: Try)
    ensures IsOutcome(cfg, p.loaded, Result(cfg, s, p, t))
  {}

  lemma DealtIsWired(cfg: Config, w: World, t: Try)
    requires Wired(cfg, w) && w.cycle.Some? && w.cycle.value.todo != []
    ensures Wired(cfg, Dealt(cfg, w, w.cycle.value, t))
  {
    var c := w.cycle.value;
    var w' := Dealt(cfg, w, c, t);
    var c' := w'.cycle.value;
    FiresStayWired(w, w'.s);
    ResultIsOutcome(cfg, w.s, c.todo[0], t);
    assert TodoIsWired(cfg, w.s, c, 0);
    forall i | 0 <= i < |c'.todo| ensures TodoIsWired(cfg, w'.s, c', i) {
      assert TodoIsWired(cfg, w.s, c, i + 1);
    }
    forall d | d in c'.done ensures DoneIsWired(cfg, w'.s, c', d) {
      if d != c.todo[0].row {
        assert DoneIsWired(cfg, w.s, c, d);
      }
    }
  }

  lemma StepStaysWired(cfg: Config, w: World, ev: Event)
    requires Wired(cfg, w)
    ensures Wired(cfg, Step(cfg, w, ev))
  {
    match ev
    case CommitFire(k) =>
      if k in w.fires && !Refused(cfg, w.s, w.fires[k]) {
        FiredStaysWired(cfg, w, w.fires[k]);
      }
    case BeginCycle(limit) => BegunIsWired(cfg, w.s, limit);
    case DealNext(t) =>
      if w.cycle.Some? && w.cycle.value.todo != [] {
        DealtIsWired(cfg, w, t);
      }
    case ReadFire(k, fingerprint) =>
    case DropFire(k) =>
    case LoseCycle =>
    case CommitCycle => FiresStayWired(w, Step(cfg, w, ev).s);
    case _ =>
      FiresStayWired(w, Step(cfg, w, ev).s);
      if w.cycle.Some? {
        CycleStaysWired(cfg, w.s, Step(cfg, w, ev).s, w.cycle.value);
      }
  }
}
