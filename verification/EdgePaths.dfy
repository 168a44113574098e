/**
 The agent's guard on the path a command names: lexical cleaning, component by component, and
 where a cleaned path leads.
 */
module EdgePaths {
  import opened Splitting

  /** A path's components. */
  function Parts(path: string): seq<string> {
    SplitOn(path, '/')
  }

  predicate IsName(part: string) {
    part != "" && part != "." && part != ".."
  }

  /** Lexical cleaning, component by component. */
  function Push(cleaned: seq<string>, part: string): seq<string> {
    if part == "" || part == "." then cleaned
    else if part == ".." && cleaned != [] && cleaned[|cleaned| - 1] != ".." then cleaned[..|cleaned| - 1]
    else cleaned + [part]
  }

  function Clean(parts: seq<string>): seq<string> {
    if parts == [] then [] else Push(Clean(parts[..|parts| - 1]), parts[|parts| - 1])
  }

  /** The agent's guard: a relative path that does not clean to the directory itself or start upwards. */
  predicate AcceptsPath(path: string) {
    !("/" <= path) && Clean(Parts(path)) != [] && Clean(Parts(path))[0] != ".."
  }

  // ----- where the accepted paths lead --------------------------------------------------------

  /** Following a path from a directory, one component at a time; the root is its own parent. */
  function Follow(dir: seq<string>, part: string): seq<string> {
    if part == "" || part == "." then dir
    else if part == ".." then (if dir == [] then [] else dir[..|dir| - 1])
    else dir + [part]
  }

  function Walk(dir: seq<string>, parts: seq<string>): seq<string> {
    if parts == [] then dir else Follow(Walk(dir, parts[..|parts| - 1]), parts[|parts| - 1])
  }

  /** How many levels a cleaned path climbs before it descends. */
  function Ups(cleaned: seq<string>): (n: nat)
    ensures n <= |cleaned|
  {
    if cleaned != [] && cleaned[0] == ".." then 1 + Ups(cleaned[1..]) else 0
  }

  lemma {:induction false} UpsAreUps(c: seq<string>)
    ensures forall i :: 0 <= i < Ups(c) ==> c[i] == ".."
    ensures Ups(c) < |c| ==> c[Ups(c)] != ".."
  {
    if c != [] && c[0] == ".." {
      UpsAreUps(c[1..]);
      forall i | 0 <= i < Ups(c) ensures c[i] == ".." {
        assert i > 0 ==> c[i] == c[1..][i - 1];
      }
    }
  }

  function Climb(dir: seq<string>, n: nat): seq<string> {
    dir[..if n <= |dir| then |dir| - n else 0]
  }

  ghost predicate Shaped(c: seq<string>) {
    forall i :: Ups(c) <= i < |c| ==> IsName(c[i])
  }

  /** A cleaned path climbs some levels and then only descends. */
  lemma {:induction false} CleanedShape(parts: seq<string>)
    ensures Shaped(Clean(parts))
  {
    if parts != [] {
      var before := parts[..|parts| - 1];
      CleanedShape(before);
      PushShape(Clean(before), parts[|parts| - 1]);
    }
  }

  lemma PushShape(c: seq<string>, part: string)
    requires Shaped(c)
    ensures Shaped(Push(c, part))
    ensures part == "" || part == "." ==> Push(c, part) == c
    ensures IsName(part) ==> Push(c, part) == c + [part] && Ups(Push(c, part)) == Ups(c)
    ensures part == ".." && Ups(c) < |c| ==> Push(c, part) == c[..|c| - 1] && Ups(Push(c, part)) == Ups(c)
    ensures part == ".." && Ups(c) == |c| ==> Push(c, part) == c + [part] && Ups(Push(c, part)) == |c| + 1
  {
    if part == ".." && Ups(c) == |c| {
      UpsAreUps(c);
      UpsIs(c + [part], |c| + 1);
    } else if part == ".." {
      Popped(c);
    } else if IsName(part) {
      Descended(c, part);
    }
  }

  lemma Popped(c: seq<string>)
    requires Shaped(c) && Ups(c) < |c|
    ensures var c' := c[..|c| - 1]; Shaped(c') && Ups(c') == Ups(c) && c[|c| - 1] != ".."
  {
    var c' := c[..|c| - 1];
    UpsAreUps(c);
    assert IsName(c[|c| - 1]) && (Ups(c) < |c'| ==> IsName(c[Ups(c)]));
    UpsIs(c', Ups(c));
    assert forall i :: 0 <= i < |c'| ==> c'[i] == c[i];
  }

  lemma Descended(c: seq<string>, part: string)
    requires Shaped(c) && IsName(part)
    ensures Shaped(c + [part]) && Ups(c + [part]) == Ups(c)
  {
    var c' := c + [part];
    UpsAreUps(c);
    assert forall i :: 0 <= i < |c| ==> c'[i] == c[i];
    UpsIs(c', Ups(c));
  }

  lemma {:induction false} UpsIs(c: seq<string>, n: nat)
    requires n <= |c| && (forall i :: 0 <= i < n ==> c[i] == "..") && (n < |c| ==> c[n] != "..")
    ensures Ups(c) == n
  {
    if n > 0 {
      UpsIs(c[1..], n - 1);
    }
  }

  /** Following a path is climbing and descending as its cleaned form says. */
  lemma {:induction false} WalkIsClean(dir: seq<string>, parts: seq<string>)
    ensures Walk(dir, parts) == Place(dir, Clean(parts))
  {
    if parts == [] {
      assert dir + [] == dir;
    } else {
      var before := parts[..|parts| - 1];
      WalkIsClean(dir, before);
      CleanedShape(before);
      FollowIsPush(dir, Clean(before), parts[|parts| - 1]);
    }
  }

  function Place(dir: seq<string>, c: seq<string>): seq<string> {
    Climb(dir, Ups(c)) + c[Ups(c)..]
  }

  lemma FollowIsPush(dir: seq<string>, c: seq<string>, part: string)
    requires Shaped(c)
    ensures Follow(Place(dir, c), part) == Place(dir, Push(c, part))
  {
    PushShape(c, part);
    var n := Ups(c);
    var here := Climb(dir, n);
    var c' := Push(c, part);
    if part == ".." && n < |c| {
      assert (here + c[n..])[..|here + c[n..]| - 1] == here + c[..|c| - 1][n..];
    } else if part == ".." {
      assert Ups(c') == n + 1 && c'[n + 1..] == [] && c[n..] == [];
      assert here + [] == here && Climb(dir, n + 1) + [] == Climb(dir, n + 1);
    } else if IsName(part) {
      assert (here + c[n..]) + [part] == here + (c + [part])[n..];
    }
  }

  ghost predicate StrictlyBeneath(dir: seq<string>, place: seq<string>) {
    dir < place
  }

  /** The guard accepts a relative path exactly when it leads strictly beneath every directory it
      is followed from, and then it names one entry after another below the watched directory. */
  lemma AcceptedPathsStayBeneath(path: string)
    requires !("/" <= path)
    ensures AcceptsPath(path) <==> forall dir :: StrictlyBeneath(dir, Walk(dir, Parts(path)))
    ensures AcceptsPath(path) ==> forall dir :: Walk(dir, Parts(path)) == dir + Clean(Parts(path))
    ensures AcceptsPath(path) ==> forall i :: 0 <= i < |Clean(Parts(path))| ==> IsName(Clean(Parts(path))[i])
  {
    var parts := Parts(path);
    var c := Clean(parts);
    CleanedShape(parts);
    forall dir ensures Walk(dir, parts) == Place(dir, c) {
      WalkIsClean(dir, parts);
    }
    if AcceptsPath(path) {
      assert Ups(c) == 0 && c[0..] == c;
      forall dir: seq<string> ensures Climb(dir, 0) == dir {}
    } else {
      LeadsElsewhere(c);
      var dir :| !StrictlyBeneath(dir, Place(dir, c));
      assert exists dir :: !StrictlyBeneath(dir, Walk(dir, Parts(path)));
    }
  }

  /** A path that climbs, followed from a directory with other names, does not come back beneath it. */
  lemma LeadsElsewhere(c: seq<string>)
    requires c == [] || c[0] == ".."
    ensures exists dir :: !StrictlyBeneath(dir, Place(dir, c))
  {
    var n := Ups(c);
    var other := if n < |c| then c[n] + "x" else "x";
    var dir := seq(n, _ => other);
    assert Climb(dir, n) == [] && Place(dir, c) == c[n..];
    if c != [] {
      assert dir[0] == other;
      if n < |c| {
        assert |c[n]| != |other| && c[n..][0] == c[n];
      }
    }
    assert !StrictlyBeneath(dir, Place(dir, c));
  }
}
