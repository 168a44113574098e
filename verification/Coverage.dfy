/** The replica repair policy: what reconciliation passes queue, and when a pass fails. */
module Coverage {
  import opened Wrappers
  import opened Rows
  import opened Tasks
  import opened Files

  ghost predicate HasKey(tasks: seq<Task>, key: TaskKey) {
    exists i :: 0 <= i < |tasks| && tasks[i].key == key
  }

  predicate Distinct(nodes: seq<string>) {
    forall i, j :: 0 <= i < j < |nodes| ==> nodes[i] != nodes[j]
  }

  lemma FindTaskIff(tasks: seq<Task>, key: TaskKey)
    ensures FindTask(tasks, key).Some? <==> HasKey(tasks, key)
  {}

  lemma HasKeyConcat(a: seq<Task>, b: seq<Task>, key: TaskKey)
    ensures HasKey(a + b, key) <==> HasKey(a, key) || HasKey(b, key)
  {
    if i :| 0 <= i < |a| && a[i].key == key {
      assert (a + b)[i].key == key;
    }
    if i :| 0 <= i < |b| && b[i].key == key {
      assert (a + b)[|a| + i].key == key;
    }
  }

  lemma DistinctConcat(a: seq<Task>, b: seq<Task>)
    ensures DistinctKeys(a + b) ==> DistinctKeys(a) && DistinctKeys(b)
    ensures DistinctKeys(a) && DistinctKeys(b) && (forall key :: !(HasKey(a, key) && HasKey(b, key))) ==> DistinctKeys(a + b)
  {
    if DistinctKeys(a + b) {
      forall i, j | 0 <= i < j < |a| ensures a[i].key != a[j].key {
        assert (a + b)[i] == a[i] && (a + b)[j] == a[j];
      }
      forall i, j | 0 <= i < j < |b| ensures b[i].key != b[j].key {
        assert (a + b)[|a| + i] == b[i] && (a + b)[|a| + j] == b[j];
      }
    }
    if DistinctKeys(a) && DistinctKeys(b) && (forall key :: !(HasKey(a, key) && HasKey(b, key))) {
      forall i, j | 0 <= i < j < |a + b| ensures (a + b)[i].key != (a + b)[j].key {
        if i < |a| <= j {
          assert HasKey(a, a[i].key) && HasKey(b, b[j - |a|].key);
        }
      }
    }
  }

  // ----- which tasks a pass adds ---------------------------------------------------------

  /** What makes a pass queue a repair of file `f` on `node`. */
  predicate Wanted(h: Hub, f: nat, node: string, cutoff: int)
    requires f < |h.files|
  {
    h.files[f].status != Superseded && ScanFile(h.files[f], cutoff).alive && Lacks(h, f, node)
  }

  lemma {:induction false} RepairsForKeys(h: Hub, f: nat, desired: seq<string>, key: TaskKey)
    requires f < |h.files|
    ensures HasKey(RepairsFor(h, f, desired), key) <==>
      key.ReplicaRepair? && key == RepairKey(h, f, key.node) && key.node in desired && Lacks(h, f, key.node)
    decreases |desired|
  {
    if desired != [] {
      RepairsForKeys(h, f, desired[1..], key);
      var node := desired[0];
      var head := if Lacks(h, f, node) then [NewTask(RepairKey(h, f, node), RepairReplica(f, h.files[f].hash, node))] else [];
      HasKeyConcat(head, RepairsFor(h, f, desired[1..]), key);
      if Lacks(h, f, node) {
        assert head[0].key == RepairKey(h, f, node);
      }
      assert desired == [node] + desired[1..];
    }
  }

  /** The tasks a pass creates for one file. */
  function OwnRepairs(h: Hub, f: nat, cutoff: int, desired: seq<string>): seq<Task>
    requires f < |h.files|
  {
    if h.files[f].status != Superseded && ScanFile(h.files[f], cutoff).alive then RepairsFor(h, f, desired) else []
  }

  lemma OwnKeys(h: Hub, f: nat, cutoff: int, desired: seq<string>, key: TaskKey)
    requires f < |h.files|
    ensures HasKey(OwnRepairs(h, f, cutoff, desired), key) <==>
      key.ReplicaRepair? && key == RepairKey(h, f, key.node) && key.node in desired && Wanted(h, f, key.node, cutoff)
  {
    RepairsForKeys(h, f, desired, key);
  }

  /** A repair key a pass creates among the first `n` files. */
  predicate KeyWanted(h: Hub, n: nat, cutoff: int, desired: seq<string>, key: TaskKey)
    requires n <= |h.files|
  {
    key.ReplicaRepair? && key.fileId < n && key == RepairKey(h, key.fileId, key.node) && key.node in desired
    && Wanted(h, key.fileId, key.node, cutoff)
  }

  lemma KeyWantedNext(h: Hub, f: nat, cutoff: int, desired: seq<string>, key: TaskKey)
    requires f < |h.files|
    ensures KeyWanted(h, f + 1, cutoff, desired, key) <==>
      KeyWanted(h, f, cutoff, desired, key) || HasKey(OwnRepairs(h, f, cutoff, desired), key)
  {
    OwnKeys(h, f, cutoff, desired, key);
  }

  lemma RepairsNext(h: Hub, f: nat, cutoff: int, desired: seq<string>, key: TaskKey)
    requires f < |h.files|
    ensures HasKey(Repairs(h, f + 1, cutoff, desired), key) <==>
      HasKey(Repairs(h, f, cutoff, desired), key) || HasKey(OwnRepairs(h, f, cutoff, desired), key)
  {
    HasKeyConcat(Repairs(h, f, cutoff, desired), OwnRepairs(h, f, cutoff, desired), key);
  }

  lemma {:induction false} RepairsKeys(h: Hub, n: nat, cutoff: int, desired: seq<string>, key: TaskKey)
    requires n <= |h.files|
    ensures HasKey(Repairs(h, n, cutoff, desired), key) <==> KeyWanted(h, n, cutoff, desired, key)
  {
    if n == 0 {
      NothingWanted(h, cutoff, desired, key);
    } else {
      var f := n - 1;
      RepairsKeys(h, f, cutoff, desired, key);
      RepairsKeysNext(h, f, cutoff, desired, key);
    }
  }

  lemma NothingWanted(h: Hub, cutoff: int, desired: seq<string>, key: TaskKey)
    ensures !HasKey(Repairs(h, 0, cutoff, desired), key) && !KeyWanted(h, 0, cutoff, desired, key)
  {}

  lemma RepairsKeysNext(h: Hub, f: nat, cutoff: int, desired: seq<string>, key: TaskKey)
    requires f < |h.files|
    requires HasKey(Repairs(h, f, cutoff, desired), key) <==> KeyWanted(h, f, cutoff, desired, key)
    ensures HasKey(Repairs(h, f + 1, cutoff, desired), key) <==> KeyWanted(h, f + 1, cutoff, desired, key)
  {
    RepairsNext(h, f, cutoff, desired, key);
    KeyWantedNext(h, f, cutoff, desired, key);
  }

  lemma {:induction false} RepairsForDistinct(h: Hub, f: nat, desired: seq<string>)
    requires f < |h.files| && Distinct(desired)
    ensures DistinctKeys(RepairsFor(h, f, desired))
    decreases |desired|
  {
    if desired != [] {
      var node, rest := desired[0], desired[1..];
      RepairsForDistinct(h, f, rest);
      var head := if Lacks(h, f, node) then [NewTask(RepairKey(h, f, node), RepairReplica(f, h.files[f].hash, node))] else [];
      forall key ensures !(HasKey(head, key) && HasKey(RepairsFor(h, f, rest), key)) {
        RepairsForKeys(h, f, rest, key);
      }
      DistinctConcat(head, RepairsFor(h, f, rest));
    }
  }

  lemma {:induction false} RepairsDistinct(h: Hub, n: nat, cutoff: int, desired: seq<string>)
    requires n <= |h.files| && Distinct(desired)
    ensures DistinctKeys(Repairs(h, n, cutoff, desired))
  {
    if n > 0 {
      var f := n - 1;
      RepairsDistinct(h, f, cutoff, desired);
      RepairsForDistinct(h, f, desired);
      var own := if h.files[f].status != Superseded && ScanFile(h.files[f], cutoff).alive then RepairsFor(h, f, desired) else [];
      forall key ensures !(HasKey(Repairs(h, f, cutoff, desired), key) && HasKey(own, key)) {
        RepairsKeys(h, f, cutoff, desired, key);
        RepairsForKeys(h, f, desired, key);
      }
      DistinctConcat(Repairs(h, f, cutoff, desired), own);
    }
  }

  lemma {:induction false} RepeatedNodeClashes(h: Hub, f: nat, desired: seq<string>, i: nat, j: nat)
    requires f < |h.files| && i < j < |desired| && desired[i] == desired[j] && Lacks(h, f, desired[i])
    ensures !DistinctKeys(RepairsFor(h, f, desired))
    decreases |desired|
  {
    var node, rest := desired[0], desired[1..];
    var head := if Lacks(h, f, node) then [NewTask(RepairKey(h, f, node), RepairReplica(f, h.files[f].hash, node))] else [];
    if i > 0 {
      RepeatedNodeClashes(h, f, rest, i - 1, j - 1);
      DistinctConcat(head, RepairsFor(h, f, rest));
    } else {
      assert rest[j - 1] == node;
      RepairsForKeys(h, f, rest, RepairKey(h, f, node));
      var k :| 0 <= k < |RepairsFor(h, f, rest)| && RepairsFor(h, f, rest)[k].key == RepairKey(h, f, node);
      assert RepairsFor(h, f, desired)[0].key == RepairsFor(h, f, desired)[k + 1].key;
    }
  }

  ghost predicate Twice(tasks: seq<Task>, key: TaskKey) {
    exists i, j :: 0 <= i < j < |tasks| && tasks[i].key == key && tasks[j].key == key
  }

  lemma TwiceConcat(a: seq<Task>, b: seq<Task>, key: TaskKey)
    requires Twice(a, key) || Twice(b, key)
    ensures Twice(a + b, key)
  {
    if Twice(a, key) {
      var i, j :| 0 <= i < j < |a| && a[i].key == key && a[j].key == key;
      assert (a + b)[i].key == key && (a + b)[j].key == key;
    } else {
      var i, j :| 0 <= i < j < |b| && b[i].key == key && b[j].key == key;
      assert (a + b)[|a| + i].key == key && (a + b)[|a| + j].key == key;
    }
  }

  lemma TwiceNext(h: Hub, g: nat, cutoff: int, desired: seq<string>, key: TaskKey)
    requires g < |h.files|
    requires Twice(Repairs(h, g, cutoff, desired), key) || Twice(OwnRepairs(h, g, cutoff, desired), key)
    ensures Twice(Repairs(h, g + 1, cutoff, desired), key)
  {
    TwiceConcat(Repairs(h, g, cutoff, desired), OwnRepairs(h, g, cutoff, desired), key);
  }

  lemma OwnTwice(h: Hub, f: nat, cutoff: int, desired: seq<string>, i: nat, j: nat) returns (key: TaskKey)
    requires f < |h.files| && i < j < |desired| && desired[i] == desired[j] && Wanted(h, f, desired[i], cutoff)
    ensures Twice(OwnRepairs(h, f, cutoff, desired), key)
  {
    RepeatedNodeClashes(h, f, desired, i, j);
    var own := RepairsFor(h, f, desired);
    var p, q :| 0 <= p < q < |own| && own[p].key == own[q].key;
    key := own[p].key;
  }

  ghost predicate TwiceIn(h: Hub, n: nat, cutoff: int, desired: seq<string>, key: TaskKey) {
    n <= |h.files| && Twice(Repairs(h, n, cutoff, desired), key)
  }

  lemma {:induction false} Upward(P: nat -> bool, m: nat, n: nat)
    requires m <= n && P(m) && forall g :: m <= g < n && P(g) ==> P(g + 1)
    ensures P(n)
    decreases n
  {
    if m < n {
      Upward(P, m, n - 1);
    }
  }

  lemma TwiceLater(h: Hub, f: nat, n: nat, cutoff: int, desired: seq<string>, key: TaskKey)
    requires f < n <= |h.files| && TwiceIn(h, f + 1, cutoff, desired, key)
    ensures TwiceIn(h, n, cutoff, desired, key)
  {
    var P := (g: nat) => TwiceIn(h, g, cutoff, desired, key);
    forall g | f + 1 <= g < n && P(g) ensures P(g + 1) {
      TwiceNext(h, g, cutoff, desired, key);
    }
    Upward(P, f + 1, n);
  }

  lemma RepeatedNodeClashesInPass(h: Hub, n: nat, cutoff: int, desired: seq<string>, f: nat, i: nat, j: nat)
    requires f < n <= |h.files| && i < j < |desired| && desired[i] == desired[j] && Wanted(h, f, desired[i], cutoff)
    ensures !DistinctKeys(Repairs(h, n, cutoff, desired))
  {
    var key := OwnTwice(h, f, cutoff, desired, i, j);
    TwiceNext(h, f, cutoff, desired, key);
    TwiceLater(h, f, n, cutoff, desired, key);
  }

  lemma {:induction false} ClashNeedsRepeat(h: Hub, f: nat, desired: seq<string>)
    requires f < |h.files| && !DistinctKeys(RepairsFor(h, f, desired))
    ensures exists i, j :: 0 <= i < j < |desired| && desired[i] == desired[j] && Lacks(h, f, desired[i])
    decreases |desired|
  {
    var node, rest := desired[0], desired[1..];
    var head := if Lacks(h, f, node) then [NewTask(RepairKey(h, f, node), RepairReplica(f, h.files[f].hash, node))] else [];
    if !DistinctKeys(RepairsFor(h, f, rest)) {
      ClashNeedsRepeat(h, f, rest);
      var i, j :| 0 <= i < j < |rest| && rest[i] == rest[j] && Lacks(h, f, rest[i]);
      assert desired[i + 1] == desired[j + 1] && Lacks(h, f, desired[i + 1]);
    } else {
      DistinctConcat(head, RepairsFor(h, f, rest));
      var key :| HasKey(head, key) && HasKey(RepairsFor(h, f, rest), key);
      RepairsForKeys(h, f, rest, key);
      var j :| 0 <= j < |rest| && rest[j] == key.node;
      assert desired[0] == desired[j + 1];
    }
  }

  lemma {:induction false} ClashNeedsRepeatInPass(h: Hub, n: nat, cutoff: int, desired: seq<string>)
    requires n <= |h.files| && !DistinctKeys(Repairs(h, n, cutoff, desired))
    ensures exists f, i, j :: 0 <= f < n && 0 <= i < j < |desired| && desired[i] == desired[j] && Wanted(h, f, desired[i], cutoff)
  {
    var g := n - 1;
    var own := if h.files[g].status != Superseded && ScanFile(h.files[g], cutoff).alive then RepairsFor(h, g, desired) else [];
    if !DistinctKeys(Repairs(h, g, cutoff, desired)) {
      ClashNeedsRepeatInPass(h, g, cutoff, desired);
      var f, i, j :| 0 <= f < g && 0 <= i < j < |desired| && desired[i] == desired[j] && Wanted(h, f, desired[i], cutoff);
      assert 0 <= f < n && 0 <= i < j < |desired| && desired[i] == desired[j] && Wanted(h, f, desired[i], cutoff);
    } else {
      forall key ensures !(HasKey(Repairs(h, g, cutoff, desired), key) && HasKey(own, key)) {
        RepairsKeys(h, g, cutoff, desired, key);
        RepairsForKeys(h, g, desired, key);
      }
      DistinctConcat(Repairs(h, g, cutoff, desired), own);
      ClashNeedsRepeat(h, g, desired);
      var i, j :| 0 <= i < j < |desired| && desired[i] == desired[j] && Lacks(h, g, desired[i]);
      assert Wanted(h, g, desired[i], cutoff);
    }
  }

  /** A valid node listed twice, and a live file with neither a healthy replica nor a repair task there. */
  predicate Clashes(h: Hub, desired: seq<string>, cutoff: int, f: nat, i: nat, j: nat) {
    f < |h.files| && i < j < |desired| && desired[i] == desired[j] && Wanted(h, f, desired[i], cutoff)
  }

  ghost predicate HasClash(h: Hub, desired: seq<string>, cutoff: int) {
    exists f, i, j :: Clashes(h, desired, cutoff, f, i, j)
  }

  lemma ClashIff(h: Hub, cutoff: int, desired: seq<string>)
    ensures !DistinctKeys(Repairs(h, |h.files|, cutoff, desired)) <==> HasClash(h, desired, cutoff)
  {
    if !DistinctKeys(Repairs(h, |h.files|, cutoff, desired)) {
      ClashNeedsRepeatInPass(h, |h.files|, cutoff, desired);
      var f, i, j :| 0 <= f < |h.files| && 0 <= i < j < |desired| && desired[i] == desired[j] && Wanted(h, f, desired[i], cutoff);
      assert Clashes(h, desired, cutoff, f, i, j);
    } else if f, i, j :| Clashes(h, desired, cutoff, f, i, j) {
      RepeatedNodeClashesInPass(h, |h.files|, cutoff, desired, f, i, j);
    }
  }

  /** A pass fails exactly when the policy lists one valid replica node twice and some live file
      lacks both a healthy replica and a repair task there. */
  lemma PassFailsIff(cfg: Config, h: Hub)
    ensures !Reconcile(cfg, h).ok <==> HasClash(h, Desired(h.nodes, cfg.replicaNodes), h.now - cfg.missingAfter)
  {
    CommitsUnlessKeysRepeat(cfg, h);
    ClashIff(h, h.now - cfg.missingAfter, Desired(h.nodes, cfg.replicaNodes));
  }

  lemma CommitsUnlessKeysRepeat(cfg: Config, h: Hub)
    ensures Reconcile(cfg, h).ok <==>
      DistinctKeys(Repairs(h, |h.files|, h.now - cfg.missingAfter, Desired(h.nodes, cfg.replicaNodes)))
  {}

  // ----- coverage ---------------------------------------------------------------------------

  lemma {:induction false} DesiredNodes(nodes: map<string, bool>, policy: seq<string>)
    ensures forall node :: node in Desired(nodes, policy) <==> node in policy && node in nodes && nodes[node]
    ensures Distinct(policy) ==> Distinct(Desired(nodes, policy))
    decreases |policy|
  {
    if policy != [] {
      DesiredNodes(nodes, policy[1..]);
      assert policy == [policy[0]] + policy[1..];
      if Distinct(policy) {
        assert forall j :: 0 <= j < |policy[1..]| ==> policy[1..][j] == policy[j + 1];
        assert policy[0] !in policy[1..];
      }
    }
  }

  /** What a pass leaves of a pair of file and node. */
  lemma PassSucceeds(cfg: Config, h: Hub)
    requires Distinct(cfg.replicaNodes)
    ensures Reconcile(cfg, h).ok
  {
    DesiredNodes(h.nodes, cfg.replicaNodes);
    RepairsDistinct(h, |h.files|, h.now - cfg.missingAfter, Desired(h.nodes, cfg.replicaNodes));
  }

  /** A wanted node is queued, or was before. */
  lemma QueuedOrKnown(h: Hub, f: nat, node: string, cutoff: int, desired: seq<string>)
    requires f < |h.files| && node in desired
    requires h.files[f].status != Superseded && ScanFile(h.files[f], cutoff).alive && !HasHealthy(h, f, node)
    ensures HasKey(h.tasks + Repairs(h, |h.files|, cutoff, desired), RepairKey(h, f, node))
  {
    var key := RepairKey(h, f, node);
    FindTaskIff(h.tasks, key);
    HasKeyConcat(h.tasks, Repairs(h, |h.files|, cutoff, desired), key);
    RepairsKeys(h, |h.files|, cutoff, desired, key);
  }

  lemma PassCovers(cfg: Config, h: Hub, f: nat, node: string)
    requires Distinct(cfg.replicaNodes) && f < |h.files|
    requires node in cfg.replicaNodes && node in h.nodes && h.nodes[node]
    ensures Reconcile(cfg, h).ok
    ensures var h' := Reconcile(cfg, h).hub;
      h'.files[f].alive && h'.files[f].status != Superseded ==> HasHealthy(h, f, node) || HasKey(h'.tasks, RepairKey(h', f, node))
  {
    PassSucceeds(cfg, h);
    DesiredNodes(h.nodes, cfg.replicaNodes);
    var h' := Reconcile(cfg, h).hub;
    if h'.files[f].alive && h'.files[f].status != Superseded && !HasHealthy(h, f, node) {
      QueuedOrKnown(h, f, node, h.now - cfg.missingAfter, Desired(h.nodes, cfg.replicaNodes));
    }
  }

  lemma PassKeepsKeys(cfg: Config, h: Hub, key: TaskKey)
    requires HasKey(h.tasks, key)
    ensures HasKey(Reconcile(cfg, h).hub.tasks, key)
  {
    var desired, cutoff := Desired(h.nodes, cfg.replicaNodes), h.now - cfg.missingAfter;
    HasKeyConcat(h.tasks, Repairs(h, |h.files|, cutoff, desired), key);
  }

  /** A second pass at the same instant changes no file and no replica row. */
  lemma ScanIsIdempotent(cfg: Config, h: Hub)
    requires Distinct(cfg.replicaNodes)
    ensures var h1 := Reconcile(cfg, h).hub; var h2 := Reconcile(cfg, h1).hub;
      Reconcile(cfg, h).ok && Reconcile(cfg, h1).ok && h2.files == h1.files && h2.replicas == h1.replicas
      && h2.nodes == h1.nodes == h.nodes && h1.now == h.now && h2 == h1.(tasks := h2.tasks) && |h1.files| == |h.files|
  {
    var cutoff := h.now - cfg.missingAfter;
    DesiredNodes(h.nodes, cfg.replicaNodes);
    RepairsDistinct(h, |h.files|, cutoff, Desired(h.nodes, cfg.replicaNodes));
    var h1 := Reconcile(cfg, h).hub;
    RepairsDistinct(h1, |h1.files|, cutoff, Desired(h.nodes, cfg.replicaNodes));
    assert ScanFiles(h1.files, cutoff) == h1.files;
    assert forall f :: 0 <= f < |h.files| ==> (h1.files[f].status == Superseded <==> h.files[f].status == Superseded);
    assert ScanReplicas(h1, cutoff) == h1.replicas;
  }

  /** A live file and a valid replica node of the policy. */
  predicate Watched(cfg: Config, h: Hub, f: nat, node: string)
    requires f < |h.files|
  {
    h.files[f].alive && h.files[f].status != Superseded && node in cfg.replicaNodes && node in h.nodes && h.nodes[node]
  }

  ghost predicate Covered(cfg: Config, h: Hub) {
    forall f, node :: 0 <= f < |h.files| && Watched(cfg, h, f, node) ==>
      HasHealthy(h, f, node) || HasKey(h.tasks, RepairKey(h, f, node))
  }

  lemma SecondPassCovers(cfg: Config, h: Hub)
    requires Distinct(cfg.replicaNodes)
    ensures Covered(cfg, Reconcile(cfg, Reconcile(cfg, h).hub).hub)
  {
    var h1 := Reconcile(cfg, h).hub;
    var h2 := Reconcile(cfg, h1).hub;
    ScanIsIdempotent(cfg, h);
    forall f, node | 0 <= f < |h2.files| && Watched(cfg, h2, f, node)
      ensures HasHealthy(h2, f, node) || HasKey(h2.tasks, RepairKey(h2, f, node))
    {
      PassCovers(cfg, h1, f, node);
    }
  }

  lemma CoveredPassAddsNothing(cfg: Config, h: Hub)
    requires Covered(cfg, h)
    requires var cutoff := h.now - cfg.missingAfter; ScanFiles(h.files, cutoff) == h.files && ScanReplicas(h, cutoff) == h.replicas
    ensures Reconcile(cfg, h) == Outcome(h, true)
  {
    var cutoff, desired := h.now - cfg.missingAfter, Desired(h.nodes, cfg.replicaNodes);
    DesiredNodes(h.nodes, cfg.replicaNodes);
    var added := Repairs(h, |h.files|, cutoff, desired);
    forall key ensures !HasKey(added, key) {
      RepairsKeys(h, |h.files|, cutoff, desired, key);
      FindTaskIff(h.tasks, key);
      assert forall f :: 0 <= f < |h.files| ==> ScanFiles(h.files, cutoff)[f] == h.files[f];
    }
    assert added != [] ==> HasKey(added, added[0].key);
    assert h.tasks + added == h.tasks;
  }

  /** With distinct policy nodes, two passes at one instant cover every live file on every valid
      replica node with a healthy replica or a repair task, and a third pass changes nothing. */
  lemma TwoPassesCover(cfg: Config, h: Hub)
    requires Distinct(cfg.replicaNodes)
    ensures var h2 := Reconcile(cfg, Reconcile(cfg, h).hub).hub; Covered(cfg, h2) && Reconcile(cfg, h2) == Outcome(h2, true)
  {
    var h1 := Reconcile(cfg, h).hub;
    SecondPassCovers(cfg, h);
    ScanIsIdempotent(cfg, h);
    ScanIsIdempotent(cfg, h1);
    CoveredPassAddsNothing(cfg, Reconcile(cfg, h1).hub);
  }

  /** A healthy replica that is out of date, of a live file on a valid node, without a repair task. */
  ghost predicate Overlooked(cfg: Config, h: Hub, f: nat, node: string)
    requires f < |h.files|
  {
    var cutoff := h.now - cfg.missingAfter;
    && h.files[f].status != Superseded && h.files[f].lastSeen >= cutoff
    && node in cfg.replicaNodes && node in h.nodes && h.nodes[node]
    && HasHealthy(h, f, node) && h.replicas[(f, node)].lastSeen < cutoff
    && !HasKey(h.tasks, RepairKey(h, f, node))
  }

  lemma KeysWithRepairs(h: Hub, cutoff: int, desired: seq<string>, key: TaskKey)
    ensures HasKey(h.tasks + Repairs(h, |h.files|, cutoff, desired), key) <==>
      HasKey(h.tasks, key) || KeyWanted(h, |h.files|, cutoff, desired, key)
  {
    HasKeyConcat(h.tasks, Repairs(h, |h.files|, cutoff, desired), key);
    RepairsKeys(h, |h.files|, cutoff, desired, key);
  }

  lemma KeysAfterPass(cfg: Config, h: Hub, f: nat, node: string)
    requires Distinct(cfg.replicaNodes) && f < |h.files|
    requires node in cfg.replicaNodes && node in h.nodes && h.nodes[node]
    ensures var key := RepairKey(h, f, node);
      HasKey(Reconcile(cfg, h).hub.tasks, key) <==> HasKey(h.tasks, key) || Wanted(h, f, node, h.now - cfg.missingAfter)
  {
    PassSucceeds(cfg, h);
    DesiredNodes(h.nodes, cfg.replicaNodes);
    KeysWithRepairs(h, h.now - cfg.missingAfter, Desired(h.nodes, cfg.replicaNodes), RepairKey(h, f, node));
  }

  /** Which records and replicas a pass leaves alive and healthy. */
  lemma RowsAfterPass(cfg: Config, h: Hub, f: nat, node: string)
    requires Distinct(cfg.replicaNodes) && f < |h.files|
    ensures var h', cutoff := Reconcile(cfg, h).hub, h.now - cfg.missingAfter;
      && |h'.files| == |h.files| && h'.nodes == h.nodes && RepairKey(h', f, node) == RepairKey(h, f, node)
      && (h'.files[f].alive && h'.files[f].status != Superseded <==> h.files[f].status != Superseded && h.files[f].lastSeen >= cutoff)
      && (h.files[f].status != Superseded ==>
          (HasHealthy(h', f, node) <==> HasHealthy(h, f, node) && h.replicas[(f, node)].lastSeen >= cutoff))
  {
    PassSucceeds(cfg, h);
    assert Reconcile(cfg, h).hub.files[f] == ScanFile(h.files[f], h.now - cfg.missingAfter);
  }

  /** What one pass leaves of a pair of file and node. */
  lemma PairCoveredIff(cfg: Config, h: Hub, f: nat, node: string)
    requires Distinct(cfg.replicaNodes) && f < |h.files|
    ensures |Reconcile(cfg, h).hub.files| == |h.files|
    ensures var h' := Reconcile(cfg, h).hub;
      Watched(cfg, h', f, node) && !HasHealthy(h', f, node) && !HasKey(h'.tasks, RepairKey(h', f, node)) <==> Overlooked(cfg, h, f, node)
  {
    RowsAfterPass(cfg, h, f, node);
    if node in cfg.replicaNodes && node in h.nodes && h.nodes[node] {
      KeysAfterPass(cfg, h, f, node);
      FindTaskIff(h.tasks, RepairKey(h, f, node));
    }
  }

  /** With distinct policy nodes one pass covers every pair exactly when, before it, no live file has
      on a valid node a healthy but outdated replica and no repair task: in the pass that marks it
      missing, such a replica still counts as healthy. */
  lemma OnePassCoversIff(cfg: Config, h: Hub)
    requires Distinct(cfg.replicaNodes)
    ensures Covered(cfg, Reconcile(cfg, h).hub) <==> forall f, node :: 0 <= f < |h.files| ==> !Overlooked(cfg, h, f, node)
  {
    var h' := Reconcile(cfg, h).hub;
    forall f, node | 0 <= f < |h.files|
      ensures |h'.files| == |h.files|
      ensures Watched(cfg, h', f, node) && !HasHealthy(h', f, node) && !HasKey(h'.tasks, RepairKey(h', f, node)) <==> Overlooked(cfg, h, f, node)
    {
      PairCoveredIff(cfg, h, f, node);
    }
    ScanIsIdempotent(cfg, h);
  }

  /** The smallest such state. */
  lemma OnePassMayLeaveAGap(cfg: Config, r: FileRecord)
    requires cfg.replicaNodes == ["n"] && r.status == Registered && r.alive && r.lastSeen == cfg.missingAfter + 1
    ensures !Covered(cfg, Reconcile(cfg, EmptyHub.(now := cfg.missingAfter + 1, nodes := map["n" := true], files := [r],
                                                   replicas := map[(0, "n") := Replica(r.hash, true, 0)])).hub)
  {
    var h := EmptyHub.(now := cfg.missingAfter + 1, nodes := map["n" := true], files := [r],
                       replicas := map[(0, "n") := Replica(r.hash, true, 0)]);
    assert Overlooked(cfg, h, 0, "n");
    OnePassCoversIff(cfg, h);
  }
}
