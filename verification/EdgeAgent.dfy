/**
 The edge side of a replica repair: the agent checks the command, hashes the bytes it finds,
 asks Syncthing for a scan, and polls until the bytes match or it has to give up.
 The file system, Syncthing and the timers are inputs: `looks(place, k)` is what the k-th look at a
 place finds, and `wakes` are the wake-ups between looks, ended by the deadline at the latest.
 */
module EdgeAgents {
  import opened Wrappers
  import opened EdgePaths

  datatype Look = Absent | Unreadable | Bytes(content: string)

  datatype Wake = Ticked | Cancelled

  datatype Execution =
    | Rejected | VerifyFailed | HashMismatch | AdapterMissing | SyncFailed | SyncCancelled | SyncTimeout
    | VerifiedExistingReplica | SyncthingVerifiedReplica

  /** The acknowledgement the agent posts: its status and the result fields. */
  datatype AgentAck = AgentAck(success: bool, execution: Execution, verified: bool, fileHash: Option<string>)

  datatype AgentConfig = AgentConfig(isReplica: bool, hasSyncthing: bool, watchDir: seq<string>, sha: string -> string)

  /** What the agent meets outside: its file system by place, Syncthing's answer for a path below the
      watched directory, and the timers. */
  datatype Site = Site(symlinkFree: seq<string> -> bool, looks: (seq<string>, nat) -> Look, scanOk: seq<string> -> bool, wakes: seq<Wake>)

  function LooksAt(site: Site, place: seq<string>): nat -> Look {
    (k: nat) => site.looks(place, k)
  }

  function FailedAck(execution: Execution, fileHash: Option<string>): AgentAck {
    AgentAck(false, execution, false, fileHash)
  }

  function VerifiedAck(execution: Execution, fileHash: string): AgentAck {
    AgentAck(true, execution, true, Some(fileHash))
  }

  // ----- the request ------------------------------------------------------------------------

  predicate IsHex(c: char) {
    '0' <= c <= '9' || 'a' <= c <= 'f' || 'A' <= c <= 'F'
  }

  predicate ValidSha256(value: string) {
    |value| == 64 && forall i :: 0 <= i < |value| ==> IsHex(value[i])
  }

  predicate AcceptsRequest(path: Option<string>, want: Option<string>) {
    path.Some? && want.Some? && path.value != "" && ValidSha256(want.value) && AcceptsPath(path.value)
  }

  // ----- the execution ----------------------------------------------------------------------------

  predicate Sees(sha: string -> string, look: Look, want: string) {
    look.Bytes? && sha(look.content) == want
  }

  /** A look that ends the wait. */
  predicate Settles(sha: string -> string, look: Look, want: string) {
    look.Unreadable? || Sees(sha, look, want)
  }

  /** The hash last seen before look `k`, counting from look 1; empty when no bytes were seen. */
  function LastHash(sha: string -> string, looks: nat -> Look, k: nat): string {
    if k <= 1 then ""
    else match looks(k - 1) case Bytes(content) => sha(content) case _ => LastHash(sha, looks, k - 1)
  }

  /** The wait from look `k` on, the wake-up after look `k` being `wakes[k - 1]`. */
  function Waited(sha: string -> string, looks: nat -> Look, wakes: seq<Wake>, k: nat, want: string): AgentAck
    requires 1 <= k <= |wakes| + 1
    decreases |wakes| - k
  {
    if looks(k).Unreadable? then FailedAck(VerifyFailed, None)
    else if Sees(sha, looks(k), want) then VerifiedAck(SyncthingVerifiedReplica, want)
    else if k == |wakes| + 1 then
      var last := LastHash(sha, looks, k + 1);
      FailedAck(SyncTimeout, if last != "" then Some(last) else None)
    else if wakes[k - 1].Cancelled? then FailedAck(SyncCancelled, None)
    else Waited(sha, looks, wakes, k + 1, want)
  }

  function Executed(agent: AgentConfig, path: Option<string>, want: Option<string>, site: Site): AgentAck {
    if !agent.isReplica || !AcceptsRequest(path, want) || !site.symlinkFree(Clean(Parts(path.value))) then FailedAck(Rejected, None)
    else
      var below := Clean(Parts(path.value));
      var looks := LooksAt(site, agent.watchDir + below);
      var found := looks(0);
      if found.Unreadable? then FailedAck(VerifyFailed, None)
      else if Sees(agent.sha, found, want.value) then VerifiedAck(VerifiedExistingReplica, want.value)
      else if !agent.hasSyncthing then
        if found.Bytes? then FailedAck(HashMismatch, Some(agent.sha(found.content))) else FailedAck(AdapterMissing, None)
      else if !site.scanOk(below) then FailedAck(SyncFailed, None)
      else Waited(agent.sha, looks, site.wakes, 1, want.value)
  }

  /** The polling loop. */
  method WaitForVerifiedReplica(sha: string -> string, looks: nat -> Look, wakes: seq<Wake>, want: string) returns (ack: AgentAck)
    ensures ack == Waited(sha, looks, wakes, 1, want)
  {
    var lastHash := "";
    var k := 1;
    while true
      invariant 1 <= k <= |wakes| + 1
      invariant lastHash == LastHash(sha, looks, k)
      invariant Waited(sha, looks, wakes, k, want) == Waited(sha, looks, wakes, 1, want)
      decreases |wakes| + 1 - k
    {
      var look := looks(k);
      if look.Unreadable? {
        return FailedAck(VerifyFailed, None);
      }
      if look.Bytes? {
        lastHash := sha(look.content);
        if lastHash == want {
          return VerifiedAck(SyncthingVerifiedReplica, lastHash);
        }
      }
      if k == |wakes| + 1 {
        return FailedAck(SyncTimeout, if lastHash != "" then Some(lastHash) else None);
      }
      if wakes[k - 1].Cancelled? {
        return FailedAck(SyncCancelled, None);
      }
      k := k + 1;
    }
  }

  method ExecuteReplicaSync(agent: AgentConfig, path: Option<string>, want: Option<string>, site: Site) returns (ack: AgentAck)
    ensures ack == Executed(agent, path, want, site)
  {
    if !agent.isReplica {
      return FailedAck(Rejected, None);
    }
    if path.None? || want.None? || path.value == "" || !ValidSha256(want.value) {
      return FailedAck(Rejected, None);
    }
    if !AcceptsPath(path.value) {
      return FailedAck(Rejected, None);
    }
    var below := Clean(Parts(path.value));
    if !site.symlinkFree(below) {
      return FailedAck(Rejected, None);
    }
    var place := agent.watchDir + below;
    var found := site.looks(place, 0);
    var gotHash := "";
    match found {
      case Unreadable => return FailedAck(VerifyFailed, None);
      case Bytes(content) =>
        gotHash := agent.sha(content);
        if gotHash == want.value {
          return VerifiedAck(VerifiedExistingReplica, gotHash);
        } else if !agent.hasSyncthing {
          return FailedAck(HashMismatch, Some(gotHash));
        }
      case Absent =>
    }
    if !agent.hasSyncthing {
      return FailedAck(AdapterMissing, None);
    }
    if !site.scanOk(below) {
      return FailedAck(SyncFailed, None);
    }
    ack := WaitForVerifiedReplica(agent.sha, LooksAt(site, place), site.wakes, want.value);
  }

  // ----- when the agent reports success ------------------------------------------------------------

  /** Look `k` does not end the wait and is followed by a tick. */
  ghost predicate GoesOn(sha: string -> string, looks: nat -> Look, wakes: seq<Wake>, k: nat, want: string) {
    !Settles(sha, looks(k), want) && 1 <= k <= |wakes| && wakes[k - 1].Ticked?
  }

  /** Look `n` is the first that ends the wait, and it finds the wanted bytes. */
  ghost predicate SeenFirstAt(sha: string -> string, looks: nat -> Look, wakes: seq<Wake>, from: nat, n: nat, want: string) {
    && from <= n <= |wakes| + 1 && Sees(sha, looks(n), want)
    && (forall k :: from <= k < n ==> GoesOn(sha, looks, wakes, k, want))
  }

  ghost predicate SeenInTime(sha: string -> string, looks: nat -> Look, wakes: seq<Wake>, from: nat, want: string) {
    exists n :: SeenFirstAt(sha, looks, wakes, from, n, want)
  }

  lemma FirstLookMatters(sha: string -> string, looks: nat -> Look, wakes: seq<Wake>, from: nat, want: string)
    ensures SeenInTime(sha, looks, wakes, from, want) ==> Sees(sha, looks(from), want) || GoesOn(sha, looks, wakes, from, want)
  {
    if SeenInTime(sha, looks, wakes, from, want) {
      var n: nat :| SeenFirstAt(sha, looks, wakes, from, n, want);
      assert n == from || GoesOn(sha, looks, wakes, from, want);
    }
  }

  lemma {:induction false} WaitSucceedsIff(sha: string -> string, looks: nat -> Look, wakes: seq<Wake>, k: nat, want: string)
    requires 1 <= k <= |wakes| + 1
    ensures Waited(sha, looks, wakes, k, want).success <==> SeenInTime(sha, looks, wakes, k, want)
    ensures var ack := Waited(sha, looks, wakes, k, want); (ack.success <==> ack.verified) && (ack.success ==> ack.fileHash == Some(want))
    decreases |wakes| - k
  {
    FirstLookMatters(sha, looks, wakes, k, want);
    if Sees(sha, looks(k), want) {
      assert SeenFirstAt(sha, looks, wakes, k, k, want);
    } else if GoesOn(sha, looks, wakes, k, want) {
      WaitSucceedsIff(sha, looks, wakes, k + 1, want);
      if SeenInTime(sha, looks, wakes, k + 1, want) {
        var n: nat :| SeenFirstAt(sha, looks, wakes, k + 1, n, want);
        assert SeenFirstAt(sha, looks, wakes, k, n, want);
      }
      if SeenInTime(sha, looks, wakes, k, want) {
        var n: nat :| SeenFirstAt(sha, looks, wakes, k, n, want);
        assert SeenFirstAt(sha, looks, wakes, k + 1, n, want);
      }
    }
  }

  /** How a wait that fails has ended: at an unreadable target, at a cancellation, or at the deadline
      after looks that all found nothing or other bytes, of which the last are reported. */
  lemma {:induction false} WaitFailsIff(sha: string -> string, looks: nat -> Look, wakes: seq<Wake>, k: nat, want: string)
    requires 1 <= k <= |wakes| + 1
    ensures var ack := Waited(sha, looks, wakes, k, want);
      && (ack.execution == VerifyFailed <==> EndsAt(sha, looks, wakes, k, want, VerifyFailed))
      && (ack.execution == SyncCancelled <==> EndsAt(sha, looks, wakes, k, want, SyncCancelled))
      && (ack.execution == SyncTimeout <==> EndsAt(sha, looks, wakes, k, want, SyncTimeout))
      && (ack.execution == SyncTimeout ==>
          ack.fileHash == var last := LastHash(sha, looks, |wakes| + 2); if last == "" then None else Some(last))
    decreases |wakes| - k
  {
    EndsHereOrLater(sha, looks, wakes, k, want, VerifyFailed);
    EndsHereOrLater(sha, looks, wakes, k, want, SyncCancelled);
    EndsHereOrLater(sha, looks, wakes, k, want, SyncTimeout);
    if GoesOn(sha, looks, wakes, k, want) {
      WaitFailsIff(sha, looks, wakes, k + 1, want);
    }
  }

  /** The hash reported at the deadline is that of the last bytes seen, if any were. */
  lemma {:induction false} LastHashIsLastSeen(sha: string -> string, looks: nat -> Look, k: nat, n: nat)
    requires 1 <= n < k && looks(n).Bytes? && forall m :: n < m < k ==> !looks(m).Bytes?
    ensures LastHash(sha, looks, k) == sha(looks(n).content)
    decreases k
  {
    if n < k - 1 {
      LastHashIsLastSeen(sha, looks, k - 1, n);
    }
  }

  lemma {:induction false} NoHashWithoutBytes(sha: string -> string, looks: nat -> Look, k: nat)
    requires forall m :: 1 <= m < k ==> !looks(m).Bytes?
    ensures LastHash(sha, looks, k) == ""
    decreases k
  {
    if k > 1 {
      NoHashWithoutBytes(sha, looks, k - 1);
    }
  }

  /** Look `n` ends the wait in this way. */
  predicate EndsHere(sha: string -> string, looks: nat -> Look, wakes: seq<Wake>, n: nat, want: string, execution: Execution)
    requires 1 <= n <= |wakes| + 1
  {
    match execution
    case VerifyFailed => looks(n).Unreadable?
    case SyncCancelled => !Settles(sha, looks(n), want) && n <= |wakes| && wakes[n - 1].Cancelled?
    case SyncTimeout => !Settles(sha, looks(n), want) && n == |wakes| + 1
    case _ => false
  }

  ghost predicate EndsAt(sha: string -> string, looks: nat -> Look, wakes: seq<Wake>, from: nat, want: string, execution: Execution)
    requires 1 <= from
  {
    exists n :: from <= n <= |wakes| + 1 && EndsHere(sha, looks, wakes, n, want, execution)
      && forall k :: from <= k < n ==> GoesOn(sha, looks, wakes, k, want)
  }

  lemma EndsHereOrLater(sha: string -> string, looks: nat -> Look, wakes: seq<Wake>, k: nat, want: string, execution: Execution)
    requires 1 <= k <= |wakes| + 1
    ensures EndsAt(sha, looks, wakes, k, want, execution) <==>
      || EndsHere(sha, looks, wakes, k, want, execution)
      || (GoesOn(sha, looks, wakes, k, want) && EndsAt(sha, looks, wakes, k + 1, want, execution))
  {
    if EndsAt(sha, looks, wakes, k, want, execution) {
      var n :| k <= n <= |wakes| + 1 && EndsHere(sha, looks, wakes, n, want, execution)
        && forall i :: k <= i < n ==> GoesOn(sha, looks, wakes, i, want);
      assert n == k || GoesOn(sha, looks, wakes, k, want);
    }
    if GoesOn(sha, looks, wakes, k, want) && EndsAt(sha, looks, wakes, k + 1, want, execution) {
      var n :| k + 1 <= n <= |wakes| + 1 && EndsHere(sha, looks, wakes, n, want, execution)
        && forall i :: k + 1 <= i < n ==> GoesOn(sha, looks, wakes, i, want);
      assert forall i :: k <= i < n ==> GoesOn(sha, looks, wakes, i, want);
    }
  }

  /** The agent reports success, verified with the wanted hash, exactly when the request is one it
      accepts and the bytes of the first look, or of the look that ends the wait, hash to it.  It
      looks at the place the path leads to from the watched directory. */
  lemma SuccessMeansEqualBytes(agent: AgentConfig, path: Option<string>, want: Option<string>, site: Site)
    ensures Executed(agent, path, want, site).success <==>
      && agent.isReplica && AcceptsRequest(path, want) && site.symlinkFree(Walk([], Parts(path.value)))
      && var looks := LooksAt(site, Walk(agent.watchDir, Parts(path.value)));
      && (|| Sees(agent.sha, looks(0), want.value)
          || (!looks(0).Unreadable? && agent.hasSyncthing && site.scanOk(Walk([], Parts(path.value)))
              && SeenInTime(agent.sha, looks, site.wakes, 1, want.value)))
    ensures var ack := Executed(agent, path, want, site); (ack.success <==> ack.verified) && (ack.success ==> ack.fileHash == want)
  {
    if AcceptsRequest(path, want) {
      var below := Clean(Parts(path.value));
      AcceptedPathsStayBeneath(path.value);
      assert Walk(agent.watchDir, Parts(path.value)) == agent.watchDir + below && Walk([], Parts(path.value)) == [] + below == below;
      WaitSucceedsIff(agent.sha, LooksAt(site, agent.watchDir + below), site.wakes, 1, want.value);
    }
  }

  lemma HexDigits(c: char)
    ensures IsHex(c) <==> c in "0123456789abcdefABCDEF"
  {
    assert IsHex(c) <==> c in "0123456789" || c in "abcdef" || c in "ABCDEF";
    assert "0123456789" + "abcdef" + "ABCDEF" == "0123456789abcdefABCDEF";
  }

  /** The request passes every check that comes before the first look. */
  predicate PassesChecks(agent: AgentConfig, path: Option<string>, want: Option<string>, site: Site) {
    && agent.isReplica && path.Some? && want.Some? && ValidSha256(want.value) && AcceptsPath(path.value)
    && site.symlinkFree(Clean(Parts(path.value)))
  }

  /** Which execution ends how: rejected before the first look, settled by it, given up for want of
      Syncthing or by its answer, and otherwise as the wait ends. */
  lemma EndsAs(agent: AgentConfig, path: Option<string>, want: Option<string>, site: Site)
    ensures var ack, passes := Executed(agent, path, want, site), PassesChecks(agent, path, want, site);
      && (ack.execution == Rejected <==> !passes)
      && (passes ==>
        var below := Clean(Parts(path.value));
        var looks := LooksAt(site, agent.watchDir + below);
        var sees, unreadable := Sees(agent.sha, looks(0), want.value), looks(0).Unreadable?;
        var waits := !unreadable && !sees && agent.hasSyncthing && site.scanOk(below);
        && (ack.execution == VerifiedExistingReplica <==> sees)
        && (ack.execution == HashMismatch <==> looks(0).Bytes? && !sees && !agent.hasSyncthing)
        && (ack.execution == HashMismatch ==> ack.fileHash == Some(agent.sha(looks(0).content)))
        && (ack.execution == AdapterMissing <==> looks(0).Absent? && !agent.hasSyncthing)
        && (ack.execution == SyncFailed <==> !unreadable && !sees && agent.hasSyncthing && !site.scanOk(below))
        && (ack.execution == VerifyFailed <==> unreadable || (waits && EndsAt(agent.sha, looks, site.wakes, 1, want.value, VerifyFailed)))
        && (ack.execution == SyncCancelled <==> waits && EndsAt(agent.sha, looks, site.wakes, 1, want.value, SyncCancelled))
        && (ack.execution == SyncTimeout <==> waits && EndsAt(agent.sha, looks, site.wakes, 1, want.value, SyncTimeout))
        && (ack.execution == SyncthingVerifiedReplica <==> waits && SeenInTime(agent.sha, looks, site.wakes, 1, want.value)))
  {
    if path == Some("") {
      assert Parts("") == [""] && Clean([""][..0]) == [];
    }
    if PassesChecks(agent, path, want, site) {
      var looks := LooksAt(site, agent.watchDir + Clean(Parts(path.value)));
      WaitFailsIff(agent.sha, looks, site.wakes, 1, want.value);
      WaitSucceedsIff(agent.sha, looks, site.wakes, 1, want.value);
      WaitEnds(agent.sha, looks, site.wakes, 1, want.value);
    }
  }

  lemma {:induction false} WaitEnds(sha: string -> string, looks: nat -> Look, wakes: seq<Wake>, k: nat, want: string)
    requires 1 <= k <= |wakes| + 1
    ensures var ack := Waited(sha, looks, wakes, k, want);
      && ack.execution in {VerifyFailed, SyncCancelled, SyncTimeout, SyncthingVerifiedReplica}
      && (ack.execution == SyncthingVerifiedReplica <==> ack.success)
    decreases |wakes| - k
  {
    if k <= |wakes| {
      WaitEnds(sha, looks, wakes, k + 1, want);
    }
  }
}
