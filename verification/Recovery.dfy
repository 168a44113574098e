/**
 Expired leases are recovered: what a poll, a delivery and an edge node's claim make of each row,
 told from the row alone, and how soon an expired task is claimed again.
 */
module Recovery {
  import opened Wrappers
  import opened Rows
  import opened Tasks
  import opened Commands
  import opened Executors
  import opened Runs

  /** A running row whose worker has no lease any more. */
  predicate Expired(cfg: Config, h: Hub, t: nat) {
    t < |h.tasks| && h.tasks[t].status == Running
    && (h.tasks[t].claimedAt.None? || h.tasks[t].claimedAt.value < h.now - cfg.lease)
  }

  /** How often an entry is in the audit. */
  function Times(audit: seq<AuditEntry>, e: AuditEntry): nat {
    if audit == [] then 0 else Times(audit[..|audit| - 1], e) + if audit[|audit| - 1] == e then 1 else 0
  }

  lemma {:induction false} TimesConcat(a: seq<AuditEntry>, b: seq<AuditEntry>, e: AuditEntry)
    ensures Times(a + b, e) == Times(a, e) + Times(b, e)
    decreases |b|
  {
    if b == [] {
      assert a + b == a;
    } else {
      assert (a + b)[..|a + b| - 1] == a + b[..|b| - 1];
      TimesConcat(a, b[..|b| - 1], e);
    }
  }

  lemma TimesSnoc(a: seq<AuditEntry>, x: AuditEntry, e: AuditEntry)
    ensures Times(a + [x], e) == Times(a, e) + if x == e then 1 else 0
  {
    assert (a + [x])[..|a|] == a;
  }

  // ----- a poll ---------------------------------------------------------------------------------

  lemma {:induction false} StaleAuditCounts(tasks: seq<Task>, deadline: int, e: AuditEntry)
    ensures Times(StaleAudit(tasks, deadline), e) == if e.TaskRequeued? && e.task < |tasks| && IsStale(tasks[e.task], deadline) then 1 else 0
  {
    if tasks != [] {
      var last := |tasks| - 1;
      StaleAuditCounts(tasks[..last], deadline, e);
      if IsStale(tasks[last], deadline) {
        TimesSnoc(StaleAudit(tasks[..last], deadline), TaskRequeued(last), e);
      } else {
        assert StaleAudit(tasks[..last], deadline) + [] == StaleAudit(tasks[..last], deadline);
      }
    }
  }

  /** An unlocked pending row with none before it. */
  ghost predicate IsFirstFree(tasks: seq<Task>, locked: set<nat>, t: nat) {
    && t < |tasks| && tasks[t].status == Pending && t !in locked
    && forall i :: 0 <= i < t && tasks[i].status == Pending ==> i in locked
  }

  ghost predicate NoneFree(tasks: seq<Task>, locked: set<nat>) {
    forall i :: 0 <= i < |tasks| && tasks[i].status == Pending ==> i in locked
  }

  lemma FirstPendingIs(tasks: seq<Task>, locked: set<nat>)
    ensures var t := FirstPending(tasks, locked, 0); if t < |tasks| then IsFirstFree(tasks, locked, t) else NoneFree(tasks, locked)
  {}

  lemma FirstFreeIsUnique(tasks: seq<Task>, locked: set<nat>, t: nat, u: nat)
    requires IsFirstFree(tasks, locked, t) && IsFirstFree(tasks, locked, u)
    ensures t == u
  {}

  lemma PollAudit(h: Hub, worker: string, lease: nat, locked: set<nat>, e: AuditEntry)
    ensures var claim := ClaimNext(h, worker, lease, locked);
      && h.audit <= claim.hub.audit
      && Times(claim.hub.audit, e) ==
         Times(h.audit, e)
         + (if e.TaskRequeued? && e.task < |h.tasks| && IsStale(h.tasks[e.task], h.now - lease) then 1 else 0)
         + (if claim.task.Some? && e == TaskClaimed(claim.task.value, worker) then 1 else 0)
  {
    var stale, t := StaleAudit(h.tasks, h.now - lease), FirstPending(h.tasks, locked, 0);
    StaleAuditCounts(h.tasks, h.now - lease, e);
    TimesConcat(h.audit, stale, e);
    TimesSnoc(h.audit + stale, TaskClaimed(t, worker), e);
  }

  /** Every poll, whether it finds work or not, turns every row whose lease has expired into an
      unclaimed pending one and audits that once; it touches no other row but the one it claims. */
  lemma PollRequeuesExpired(cfg: Config, w: World, worker: string, locked: set<nat>, t: nat)
    requires t < |w.hub.tasks|
    ensures var h, h' := w.hub, Step(cfg, w, PollClaim(worker, locked)).hub;
      && |h'.tasks| == |h.tasks| && h' == h.(tasks := h'.tasks, audit := h'.audit) && h.audit <= h'.audit
      && Times(h'.audit, TaskRequeued(t)) == Times(h.audit, TaskRequeued(t)) + (if Expired(cfg, h, t) then 1 else 0)
      && (Expired(cfg, h, t) ==> h'.tasks[t] == h.tasks[t].(status := Pending, claimedAt := None, claimedBy := None))
      && (!Expired(cfg, h, t) && !IsFirstFree(h.tasks, locked, t) ==> h'.tasks[t] == h.tasks[t])
  {
    PollAudit(w.hub, worker, cfg.lease, locked, TaskRequeued(t));
    FirstPendingIs(w.hub.tasks, locked);
  }

  /** A poll claims the first free row, for its worker and from now on. */
  lemma PollClaimsFirstFree(cfg: Config, w: World, worker: string, locked: set<nat>, t: nat)
    requires IsFirstFree(w.hub.tasks, locked, t)
    ensures var w' := Step(cfg, w, PollClaim(worker, locked));
      && |w'.hub.tasks| == |w.hub.tasks| && w'.execs == w.execs + [Execution(t, worker, w.hub.now, Poll, true)]
      && Times(w'.hub.audit, TaskClaimed(t, worker)) == Times(w.hub.audit, TaskClaimed(t, worker)) + 1
      && w'.hub.tasks[t] == w.hub.tasks[t].(status := Running, attempts := w.hub.tasks[t].attempts + 1,
                                            claimedAt := Some(w.hub.now), claimedBy := Some(worker))
  {
    FirstPendingIs(w.hub.tasks, locked);
    FirstFreeIsUnique(w.hub.tasks, locked, t, FirstPending(w.hub.tasks, locked, 0));
    PollAudit(w.hub, worker, cfg.lease, locked, TaskClaimed(t, worker));
  }

  /** And it claims nothing if there is none. */
  lemma PollFindsNothing(cfg: Config, w: World, worker: string, locked: set<nat>)
    requires NoneFree(w.hub.tasks, locked)
    ensures Step(cfg, w, PollClaim(worker, locked)).execs == w.execs
  {
    FirstPendingIs(w.hub.tasks, locked);
  }

  // ----- a delivery -------------------------------------------------------------------------------

  /** A delivered task is claimed exactly when it is pending, or running with an expired lease, which
      is then audited; any other delivery changes nothing. */
  lemma DeliveryClaimsIff(cfg: Config, w: World, t: nat, worker: string)
    ensures var h, w' := w.hub, Step(cfg, w, CeleryDelivery(t, worker));
      if t < |h.tasks| && (h.tasks[t].status == Pending || Expired(cfg, h, t)) then
        && w'.hub == h.(tasks := w'.hub.tasks, audit := w'.hub.audit) && w'.execs == w.execs + [Execution(t, worker, h.now, Celery, true)]
        && w'.hub.tasks == h.tasks[t := h.tasks[t].(status := Running, attempts := h.tasks[t].attempts + 1,
                                                    claimedAt := Some(h.now), claimedBy := Some(worker))]
        && w'.hub.audit == h.audit + (if Expired(cfg, h, t) then [TaskRequeued(t)] else []) + [TaskClaimed(t, worker)]
      else w' == w
  {}

  // ----- an expired task is claimed again -----------------------------------------------------------

  /** Rows among the first `n` that may be claimed before the next: pending ones, and running ones
      claimed before `since`. */
  function Rivals(tasks: seq<Task>, since: int, n: nat): nat
    requires n <= |tasks|
  {
    if n == 0 then 0 else Rivals(tasks, since, n - 1) + if IsRival(tasks[n - 1], since) then 1 else 0
  }

  predicate IsRival(task: Task, since: int) {
    task.status == Pending || (task.status == Running && (task.claimedAt.None? || task.claimedAt.value < since))
  }

  predicate IsFreshlyClaimed(task: Task, since: int) {
    task.status == Running && task.claimedAt.Some? && task.claimedAt.value >= since
  }

  predicate Polling(events: seq<Event>) {
    forall i :: 0 <= i < |events| ==> events[i].Tick? || (events[i].PollClaim? && events[i].locked == {})
  }

  function Polls(events: seq<Event>): nat {
    if events == [] then 0 else (if events[0].PollClaim? then 1 else 0) + Polls(events[1..])
  }

  function Elapsed(events: seq<Event>): nat {
    if events == [] then 0 else (if events[0].Tick? then events[0].elapsed else 0) + Elapsed(events[1..])
  }

  lemma {:induction false} RivalsShrink(a: seq<Task>, b: seq<Task>, since: int, n: nat)
    requires n <= |a| && n <= |b| && forall i :: 0 <= i < n ==> IsRival(b[i], since) ==> IsRival(a[i], since)
    ensures Rivals(b, since, n) <= Rivals(a, since, n)
    ensures (exists i :: 0 <= i < n && IsRival(a[i], since) && !IsRival(b[i], since)) ==> Rivals(b, since, n) < Rivals(a, since, n)
  {
    if n > 0 {
      RivalsShrink(a, b, since, n - 1);
    }
  }

  /** What a poll within the lease of `since` does to row `t` and the rows before it. */
  lemma PollMovesOn(cfg: Config, w: World, worker: string, t: nat, since: int)
    requires t < |w.hub.tasks| && since <= w.hub.now <= since + cfg.lease
    ensures var a, b := w.hub.tasks, Step(cfg, w, PollClaim(worker, {})).hub.tasks;
      && |b| == |a| && Rivals(b, since, t) <= Rivals(a, since, t)
      && (IsFreshlyClaimed(a[t], since) ==> b[t] == a[t])
      && (Expired(cfg, w.hub, t) ==> b[t] == a[t].(status := Pending, claimedAt := None, claimedBy := None))
      && (a[t].status == Pending ==>
          || (IsFreshlyClaimed(b[t], since) && b[t].attempts == a[t].attempts + 1)
          || (b[t] == a[t] && Rivals(b, since, t) < Rivals(a, since, t)))
  {
    var a, b := w.hub.tasks, Step(cfg, w, PollClaim(worker, {})).hub.tasks;
    var u := FirstPending(a, {}, 0);
    FirstPendingIs(a, {});
    if u < |a| {
      PollClaimsFirstFree(cfg, w, worker, {}, u);
    }
    forall i | 0 <= i < |a|
      ensures |b| == |a|
      ensures i != u ==> b[i] == if Expired(cfg, w.hub, i) then a[i].(status := Pending, claimedAt := None, claimedBy := None) else a[i]
    {
      PollRequeuesExpired(cfg, w, worker, {}, i);
    }
    RivalsShrink(a, b, since, t);
    if a[t].status == Pending && u != t {
      assert u < t && IsRival(a[u], since) && !IsRival(b[u], since);
    }
  }

  /** An expired task is claimed again, by some worker, within as many polls as there are rows before
      it that may come first, and two; a pending one within one poll less.  This holds for polls that
      all fall into one lease from now, in which no claimed row expires a second time. */
  lemma {:induction false} ClaimedAgainWithin(cfg: Config, w: World, events: seq<Event>, t: nat, since: int)
    requires Polling(events) && since <= w.hub.now && w.hub.now + Elapsed(events) <= since + cfg.lease && t < |w.hub.tasks|
    requires || IsFreshlyClaimed(w.hub.tasks[t], since)
             || (w.hub.tasks[t].status == Pending && Polls(events) >= Rivals(w.hub.tasks, since, t) + 1)
             || (Expired(cfg, w.hub, t) && Polls(events) >= Rivals(w.hub.tasks, since, t) + 2)
    ensures var h' := Run(cfg, w, events).hub;
      && t < |h'.tasks| && IsFreshlyClaimed(h'.tasks[t], since)
      && h'.tasks[t].attempts == w.hub.tasks[t].attempts + (if IsFreshlyClaimed(w.hub.tasks[t], since) then 0 else 1)
    decreases |events|
  {
    if events != [] {
      var w' := Step(cfg, w, events[0]);
      if events[0].PollClaim? {
        PollMovesOn(cfg, w, events[0].worker, t, since);
      }
      assert forall i :: 0 <= i < |events[1..]| ==> events[1..][i] == events[i + 1];
      ClaimedAgainWithin(cfg, w', events[1..], t, since);
    }
  }

  /** So no expired lease is lost: counted from any state, in which a worker has crashed, say. */
  lemma ExpiredIsRecovered(cfg: Config, w: World, events: seq<Event>, t: nat)
    requires Expired(cfg, w.hub, t) && Polling(events) && Elapsed(events) <= cfg.lease
    requires Polls(events) >= Rivals(w.hub.tasks, w.hub.now, t) + 2
    ensures var h' := Run(cfg, w, events).hub;
      && t < |h'.tasks| && h'.tasks[t].status == Running && h'.tasks[t].attempts == w.hub.tasks[t].attempts + 1
      && h'.tasks[t].claimedAt.Some? && h'.tasks[t].claimedAt.value >= w.hub.now
  {
    ClaimedAgainWithin(cfg, w, events, t, w.hub.now);
  }

  // ----- crashed workers ----------------------------------------------------------------------------

  ghost predicate IsClosed(w: World, e: nat) {
    e < |w.execs| && !w.execs[e].open
  }

  lemma StepKeepsClosed(cfg: Config, w: World, ev: Event, e: nat)
    requires IsClosed(w, e)
    ensures IsClosed(Step(cfg, w, ev), e)
  {}

  lemma {:induction false} RunKeepsClosed(cfg: Config, w: World, events: seq<Event>, e: nat)
    requires IsClosed(w, e)
    ensures IsClosed(Run(cfg, w, events), e)
    decreases |events|
  {
    if events != [] {
      StepKeepsClosed(cfg, w, events[0], e);
      RunKeepsClosed(cfg, Step(cfg, w, events[0]), events[1..], e);
    }
  }

  /** A worker that has crashed, or has finished, commits nothing more for that claim, in any run. */
  lemma EndedNeverCommits(cfg: Config, w: World, last: Event, events: seq<Event>, e: nat, ev: Event)
    requires IsOpen(w, e) && (last == Crash(e) || (last.Finish? && last.exec == e))
    requires (ev.Finish? || ev.PipelineStep? || ev.Crash?) && ev.exec == e
    ensures var after := Run(cfg, Step(cfg, w, last), events); Step(cfg, after, ev) == after
  {
    RunKeepsClosed(cfg, Step(cfg, w, last), events, e);
  }

  // ----- an edge node's claim -------------------------------------------------------------------------

  /** A command the node may be handed: queued, or running with an expired claim. */
  predicate Claimable(cfg: Config, h: Hub, node: string, c: nat) {
    c < |h.commands| && h.commands[c].node == node && (h.commands[c].status == CQueued || ClaimExpired(cfg, h, node, c))
  }

  predicate ClaimExpired(cfg: Config, h: Hub, node: string, c: nat) {
    && c < |h.commands| && h.commands[c].node == node && h.commands[c].status == CRunning
    && h.commands[c].claimedAt.Some? && h.commands[c].claimedAt.value < h.now - cfg.commandLease
  }

  ghost predicate IsFirstClaimable(cfg: Config, h: Hub, node: string, locked: set<nat>, c: nat) {
    Claimable(cfg, h, node, c) && c !in locked && forall i :: 0 <= i < c && Claimable(cfg, h, node, i) ==> i in locked
  }

  lemma {:induction false} ExpiredAuditCounts(commands: seq<Command>, node: string, deadline: int, e: AuditEntry)
    ensures Times(ExpiredAudit(commands, node, deadline), e) ==
      if e.CommandExpired? && e.command < |commands| && IsExpired(commands[e.command], node, deadline) then 1 else 0
  {
    if commands != [] {
      var last := |commands| - 1;
      ExpiredAuditCounts(commands[..last], node, deadline, e);
      var before := ExpiredAudit(commands[..last], node, deadline);
      if IsExpired(commands[last], node, deadline) {
        TimesSnoc(before, CommandExpired(last), e);
      } else {
        assert before + [] == before;
      }
    }
  }

  lemma FirstQueuedIs(cfg: Config, h: Hub, node: string, locked: set<nat>)
    ensures var c := FirstQueued(RequeueExpired(h.commands, node, h.now - cfg.commandLease), node, locked, 0);
      if c < |h.commands| then IsFirstClaimable(cfg, h, node, locked, c)
      else forall i :: Claimable(cfg, h, node, i) ==> i in locked
  {}

  lemma FirstClaimableIsUnique(cfg: Config, h: Hub, node: string, locked: set<nat>, c: nat, d: nat)
    requires IsFirstClaimable(cfg, h, node, locked, c) && IsFirstClaimable(cfg, h, node, locked, d)
    ensures c == d
  {}

  lemma FirstClaimableIs(cfg: Config, h: Hub, node: string, locked: set<nat>, c: nat)
    requires IsFirstClaimable(cfg, h, node, locked, c)
    ensures var deadline := h.now - cfg.commandLease; var requeued := RequeueExpired(h.commands, node, deadline);
      ClaimCommand(h, node, cfg.commandLease, locked).hub ==
        h.(commands := requeued[c := requeued[c].(status := CRunning, claimedAt := Some(h.now))],
           audit := h.audit + ExpiredAudit(h.commands, node, deadline) + [CommandClaimed(c)])
  {
    FirstQueuedIs(cfg, h, node, locked);
    FirstClaimableIsUnique(cfg, h, node, locked, c, FirstQueued(RequeueExpired(h.commands, node, h.now - cfg.commandLease), node, locked, 0));
  }

  /** A node's claim hands out the first command that is queued for it or whose claim has expired;
      the node's other expired claims are queued again. */
  lemma EdgeClaimTakesFirst(cfg: Config, w: World, node: string, locked: set<nat>, c: nat)
    requires IsFirstClaimable(cfg, w.hub, node, locked, c)
    ensures var h, h' := w.hub, Step(cfg, w, EdgeClaim(node, locked)).hub;
      && h' == h.(commands := h'.commands, audit := h'.audit) && |h'.commands| == |h.commands|
      && h'.commands[c] == h.commands[c].(status := CRunning, claimedAt := Some(h.now))
      && (forall i :: 0 <= i < |h.commands| && i != c ==>
          h'.commands[i] == if ClaimExpired(cfg, h, node, i) then h.commands[i].(status := CQueued, claimedAt := None) else h.commands[i])
  {
    FirstClaimableIs(cfg, w.hub, node, locked, c);
  }

  /** Without such a command the claim changes nothing. */
  lemma EdgeClaimFindsNothing(cfg: Config, w: World, node: string, locked: set<nat>)
    requires forall i :: Claimable(cfg, w.hub, node, i) ==> i in locked
    ensures Step(cfg, w, EdgeClaim(node, locked)) == w
  {
    FirstQueuedIs(cfg, w.hub, node, locked);
  }

  /** The claim and every expiry are audited once. */
  lemma EdgeClaimAudits(cfg: Config, w: World, node: string, locked: set<nat>, c: nat, e: AuditEntry)
    requires IsFirstClaimable(cfg, w.hub, node, locked, c)
    ensures var h, h' := w.hub, Step(cfg, w, EdgeClaim(node, locked)).hub;
      && h.audit <= h'.audit
      && Times(h'.audit, e) == Times(h.audit, e) + (if e == CommandClaimed(c) then 1 else 0)
         + (if e.CommandExpired? && ClaimExpired(cfg, h, node, e.command) then 1 else 0)
  {
    FirstClaimableIs(cfg, w.hub, node, locked, c);
    EdgeAudit(w.hub, node, w.hub.now - cfg.commandLease, c, e);
  }

  lemma EdgeAudit(h: Hub, node: string, deadline: int, c: nat, e: AuditEntry)
    ensures var audit := h.audit + ExpiredAudit(h.commands, node, deadline) + [CommandClaimed(c)];
      && h.audit <= audit
      && Times(audit, e) == Times(h.audit, e) + (if e == CommandClaimed(c) then 1 else 0)
         + (if e.CommandExpired? && e.command < |h.commands| && IsExpired(h.commands[e.command], node, deadline) then 1 else 0)
  {
    var expired := ExpiredAudit(h.commands, node, deadline);
    ExpiredAuditCounts(h.commands, node, deadline, e);
    TimesConcat(h.audit, expired, e);
    TimesSnoc(h.audit + expired, CommandClaimed(c), e);
  }
}
