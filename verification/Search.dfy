/**
 Search with hit-count feedback, on the path that ranks in the program: every embedded chunk of
 a live version is scored by cosine similarity, boosted by how often it has been returned, and the
 best `k` are returned and counted as hit once more.  Scores are reals; the square root and
 `log(1 + n)` are given functions.
 */
module Search {
  import opened Wrappers
  import opened Rows
  import opened Files

  // ----- similarity -------------------------------------------------------------------------

  /** The sum of products of the first `n` pairs. */
  function Dot(a: seq<real>, b: seq<real>, n: nat): real
    requires n <= |a| && n <= |b|
  {
    if n == 0 then 0.0 else Dot(a, b, n - 1) + a[n - 1] * b[n - 1]
  }

  function Shorter(a: seq<real>, b: seq<real>): nat {
    if |a| <= |b| then |a| else |b|
  }

  function Norm2(a: seq<real>): real {
    Dot(a, a, |a|)
  }

  ghost predicate IsRoot(root: real -> real) {
    forall x: real :: x >= 0.0 ==> root(x) >= 0.0 && root(x) * root(x) == x
  }

  /** Vectors of different lengths are paired up to the shorter one, but normed in full. */
  function Cosine(root: real -> real, a: seq<real>, b: seq<real>): real {
    var denominator := root(Norm2(a)) * root(Norm2(b));
    if denominator != 0.0 then Dot(a, b, Shorter(a, b)) / denominator else 0.0
  }

  lemma PositiveProduct(x: real, y: real, p: real)
    requires p == x * y && ((x > 0.0 && y > 0.0) || (x < 0.0 && y < 0.0))
    ensures p > 0.0
  {}

  /** A square, under a name of its own. */
  lemma Square(x: real, p: real)
    requires p == x * x
    ensures p >= 0.0
    ensures p <= 0.0 ==> x == 0.0
  {
    if x > 0.0 || x < 0.0 {
      PositiveProduct(x, x, p);
    }
  }

  lemma {:induction false} NormsGrow(a: seq<real>, n: nat)
    requires n <= |a|
    ensures 0.0 <= Dot(a, a, n) <= Norm2(a)
    decreases |a| - n
  {
    if n < |a| {
      NormsGrow(a, n + 1);
      Square(a[n], a[n] * a[n]);
    }
    DotSelf(a, n);
  }

  lemma {:induction false} DotSelf(a: seq<real>, n: nat)
    requires n <= |a|
    ensures Dot(a, a, n) >= 0.0
  {
    if n > 0 {
      DotSelf(a, n - 1);
      Square(a[n - 1], a[n - 1] * a[n - 1]);
    }
  }

  /** One more pair keeps the inequality; `gap` is what the right side gains over the left. */
  lemma CauchyStep(d: real, a2: real, b2: real, x: real, y: real)
    requires a2 >= 0.0 && b2 >= 0.0 && d * d <= a2 * b2
    ensures (d + x * y) * (d + x * y) <= (a2 + x * x) * (b2 + y * y)
  {
    var gap := a2 * (y * y) + b2 * (x * x) - 2.0 * (d * (x * y));
    assert (d + x * y) * (d + x * y) == d * d + 2.0 * (d * (x * y)) + (x * x) * (y * y);
    assert (a2 + x * x) * (b2 + y * y) == a2 * b2 + a2 * (y * y) + b2 * (x * x) + (x * x) * (y * y);
    if a2 == 0.0 {
      FlatGap(d, a2, b2, x, y, gap);
    } else {
      SteepGap(d, a2, b2, x, y, gap);
    }
  }

  lemma FlatGap(d: real, a2: real, b2: real, x: real, y: real, gap: real)
    requires a2 == 0.0 && b2 >= 0.0 && d * d <= a2 * b2
    requires gap == a2 * (y * y) + b2 * (x * x) - 2.0 * (d * (x * y))
    ensures gap >= 0.0
  {
    var p, q := d * d, x * x;
    assert p <= a2 * b2 && a2 * b2 == 0.0;
    Square(d, p);
    Square(x, q);
    assert d * (x * y) == 0.0 && a2 * (y * y) == 0.0;
    assert gap == b2 * q;
  }

  lemma SteepGap(d: real, a2: real, b2: real, x: real, y: real, gap: real)
    requires a2 > 0.0 && b2 >= 0.0 && d * d <= a2 * b2
    requires gap == a2 * (y * y) + b2 * (x * x) - 2.0 * (d * (x * y))
    ensures gap >= 0.0
  {
    var u, v, q := a2 * y, d * x, x * x;
    var p := (u - v) * (u - v);
    Square(x, q);
    Square(u - v, p);
    assert a2 * gap == u * u - 2.0 * (u * v) + (a2 * b2) * q;
    assert (a2 * b2) * q >= (d * d) * q;
    assert (d * d) * q == v * v;
    assert p == u * u - 2.0 * (u * v) + v * v;
    assert a2 * gap >= p;
    NotNegative(a2, gap, a2 * gap);
  }

  lemma NotNegative(a: real, b: real, p: real)
    requires a > 0.0 && p == a * b && p >= 0.0
    ensures b >= 0.0
  {
    if b < 0.0 {
      PositiveProduct(a, -b, a * -b);
    }
  }

  lemma {:induction false} CauchySchwarz(a: seq<real>, b: seq<real>, n: nat)
    requires n <= |a| && n <= |b|
    ensures Dot(a, b, n) * Dot(a, b, n) <= Dot(a, a, n) * Dot(b, b, n)
  {
    if n > 0 {
      DotSelf(a, n - 1);
      DotSelf(b, n - 1);
      CauchySchwarz(a, b, n - 1);
      CauchyStep(Dot(a, b, n - 1), Dot(a, a, n - 1), Dot(b, b, n - 1), a[n - 1], b[n - 1]);
    }
  }

  lemma SquaresGrow(d: real, r: real)
    requires r > 0.0
    ensures d > r ==> d * d > r * r
  {
    if d > r {
      assert d * d > d * r;
      assert d * r > r * r;
    }
  }

  lemma ProductsOrder(a: real, b: real, c: real, d: real)
    requires 0.0 <= a <= c && 0.0 <= b <= d
    ensures a * b <= c * d
  {
    assert a * b <= c * b;
    assert c * b <= c * d;
  }

  lemma NormProductGrows(a: seq<real>, b: seq<real>, n: nat)
    requires n <= |a| && n <= |b|
    ensures Dot(a, a, n) * Dot(b, b, n) <= Norm2(a) * Norm2(b)
  {
    NormsGrow(a, n);
    NormsGrow(b, n);
    ProductsOrder(Dot(a, a, n), Dot(b, b, n), Norm2(a), Norm2(b));
  }

  lemma DotIsBounded(a: seq<real>, b: seq<real>, n: nat)
    requires n <= |a| && n <= |b|
    ensures Dot(a, b, n) * Dot(a, b, n) <= Norm2(a) * Norm2(b)
  {
    NormProductGrows(a, b, n);
    CauchySchwarz(a, b, n);
  }

  /** Similarity is at most one, for vectors of any two lengths. */
  lemma CosineIsAtMostOne(root: real -> real, a: seq<real>, b: seq<real>)
    requires IsRoot(root)
    ensures Cosine(root, a, b) <= 1.0
  {
    var a2, b2 := Norm2(a), Norm2(b);
    NormsGrow(a, |a|);
    NormsGrow(b, |b|);
    DotIsBounded(a, b, Shorter(a, b));
    QuotientAtMostOne(Dot(a, b, Shorter(a, b)), root(a2), root(b2), a2, b2);
  }

  lemma QuotientAtMostOne(d: real, p: real, q: real, a2: real, b2: real)
    requires p >= 0.0 && q >= 0.0 && p * p == a2 && q * q == b2 && d * d <= a2 * b2
    ensures p * q != 0.0 ==> d / (p * q) <= 1.0
  {
    var r := p * q;
    if r != 0.0 {
      assert r > 0.0;
      assert r * r == (p * p) * (q * q);
      SquaresGrow(d, r);
      AtMostOne(d, r);
    }
  }

  lemma AtMostOne(d: real, r: real)
    requires r > 0.0 && d <= r
    ensures d / r <= 1.0
  {
    assert d / r * r == d;
  }

  // ----- scores ---------------------------------------------------------------------------------

  datatype Boost = Boost(root: real -> real, log1p: nat -> real, enabled: bool, weight: real)

  /** What the proofs use of the logarithm. */
  ghost predicate IsLog(log1p: nat -> real) {
    log1p(0) == 0.0 && forall m: nat, n: nat :: m < n ==> log1p(m) < log1p(n)
  }

  function Boosted(b: Boost, base: real, hits: nat): real {
    if !b.enabled || hits == 0 then base
    else
      var raised := base + b.weight * b.log1p(hits) / 10.0;
      if raised < 1.0 then raised else 1.0
  }

  lemma ProductOrder(w: real, x: real, y: real)
    requires w >= 0.0 && x <= y
    ensures w * x <= w * y
  {}

  /** One hit more never lowers a score, if the weight is not negative and similarity at most one. */
  lemma HitsNeverLower(b: Boost, base: real, hits: nat)
    requires IsLog(b.log1p) && (b.enabled ==> b.weight >= 0.0) && base <= 1.0
    ensures Boosted(b, base, hits) <= Boosted(b, base, hits + 1)
  {
    if b.enabled {
      ProductOrder(b.weight, b.log1p(hits), b.log1p(hits + 1));
      ProductOrder(b.weight, 0.0, b.log1p(hits + 1));
    }
  }

  /** A chunk row joined with its file: the sort key, the vector and the hit count. */
  datatype Candidate = Candidate(file: nat, index: nat, vector: seq<real>, hits: nat)

  datatype Scored = Scored(score: real, row: Candidate)

  function Key(c: Candidate): (nat, nat) {
    (c.file, c.index)
  }

  function Score(b: Boost, query: seq<real>, c: Candidate): Scored {
    Scored(Boosted(b, Cosine(b.root, query, c.vector), c.hits), c)
  }

  function ScoreAll(b: Boost, query: seq<real>, cs: seq<Candidate>): seq<Scored> {
    seq(|cs|, i requires 0 <= i < |cs| => Score(b, query, cs[i]))
  }

  /** The order of the result: by falling score, then by file and chunk index. */
  predicate Beats(a: Scored, b: Scored) {
    || a.score > b.score
    || (a.score == b.score && (a.row.file < b.row.file || (a.row.file == b.row.file && a.row.index < b.row.index)))
  }

  function Insert(sorted: seq<Scored>, x: Scored): seq<Scored> {
    if sorted == [] || Beats(x, sorted[0]) then [x] + sorted else [sorted[0]] + Insert(sorted[1..], x)
  }

  function Sort(xs: seq<Scored>): seq<Scored> {
    if xs == [] then [] else Insert(Sort(xs[..|xs| - 1]), xs[|xs| - 1])
  }

  function Take(xs: seq<Scored>, k: nat): seq<Scored> {
    if k <= |xs| then xs[..k] else xs
  }

  /** The ranked result of a search. */
  function Top(b: Boost, query: seq<real>, cs: seq<Candidate>, k: nat): seq<Scored> {
    Take(Sort(ScoreAll(b, query, cs)), k)
  }

  function KeysOf(xs: seq<Scored>): set<(nat, nat)> {
    set i | 0 <= i < |xs| :: Key(xs[i].row)
  }

  /** The retrieval log counts one hit for every returned row. */
  function Bump(cs: seq<Candidate>, returned: set<(nat, nat)>): seq<Candidate> {
    seq(|cs|, i requires 0 <= i < |cs| => if Key(cs[i]) in returned then cs[i].(hits := cs[i].hits + 1) else cs[i])
  }

  function Repeated(b: Boost, query: seq<real>, cs: seq<Candidate>, k: nat, times: nat): seq<Candidate> {
    if times == 0 then cs
    else
      var before := Repeated(b, query, cs, k, times - 1);
      Bump(before, KeysOf(Top(b, query, before, k)))
  }

  // ----- what sorting does --------------------------------------------------------------------------

  predicate DistinctCandidates(cs: seq<Candidate>) {
    forall i, j :: 0 <= i < j < |cs| ==> Key(cs[i]) != Key(cs[j])
  }

  predicate DistinctRows(xs: seq<Scored>) {
    forall i, j :: 0 <= i < j < |xs| ==> Key(xs[i].row) != Key(xs[j].row)
  }

  predicate Ordered(xs: seq<Scored>) {
    forall i, j :: 0 <= i < j < |xs| ==> Beats(xs[i], xs[j])
  }

  lemma {:induction false} InsertAdds(sorted: seq<Scored>, x: Scored)
    ensures multiset(Insert(sorted, x)) == multiset(sorted) + multiset{x}
  {
    if sorted != [] && !Beats(x, sorted[0]) {
      assert sorted == [sorted[0]] + sorted[1..];
      InsertAdds(sorted[1..], x);
    }
  }

  lemma {:induction false} InsertKeepsOrder(sorted: seq<Scored>, x: Scored)
    requires Ordered(sorted) && (forall i :: 0 <= i < |sorted| ==> Key(sorted[i].row) != Key(x.row))
    ensures Ordered(Insert(sorted, x))
  {
    if sorted == [] {
    } else if Beats(x, sorted[0]) {
      forall i | 0 <= i < |sorted| ensures Beats(x, sorted[i]) {
        BeatsAll(x, sorted, i);
      }
    } else {
      var tail := sorted[1..];
      InsertKeepsOrder(tail, x);
      InsertAdds(tail, x);
      var rest := Insert(tail, x);
      forall i | 0 <= i < |rest| ensures Beats(sorted[0], rest[i]) {
        assert rest[i] in multiset(rest);
        if rest[i] != x {
          assert rest[i] in tail;
        }
      }
    }
  }

  lemma BeatsAll(x: Scored, sorted: seq<Scored>, i: nat)
    requires Ordered(sorted) && i < |sorted| && Beats(x, sorted[0])
    ensures Beats(x, sorted[i])
  {
    if i > 0 {
      assert Beats(sorted[0], sorted[i]);
    }
  }

  lemma SortSnoc(before: seq<Scored>, x: Scored)
    ensures Sort(before + [x]) == Insert(Sort(before), x)
  {
    assert (before + [x])[..|before|] == before;
  }

  lemma {:induction false} SortKeepsRows(xs: seq<Scored>)
    ensures multiset(Sort(xs)) == multiset(xs)
  {
    if xs != [] {
      var before, x := xs[..|xs| - 1], xs[|xs| - 1];
      SortKeepsRows(before);
      SortSnoc(before, x);
      InsertAdds(Sort(before), x);
      assert before + [x] == xs;
    }
  }

  lemma {:induction false} SortOrders(xs: seq<Scored>)
    requires DistinctRows(xs)
    ensures Ordered(Sort(xs))
  {
    if xs != [] {
      var before, x := xs[..|xs| - 1], xs[|xs| - 1];
      SortOrders(before);
      SortKeepsRows(before);
      var sorted := Sort(before);
      forall i | 0 <= i < |sorted| ensures Key(sorted[i].row) != Key(x.row) {
        assert sorted[i] in multiset(before);
        var j :| 0 <= j < |before| && before[j] == sorted[i];
        assert xs[j] == before[j];
      }
      InsertKeepsOrder(sorted, x);
    }
  }

  // ----- who is returned -----------------------------------------------------------------------------

  function AllKeys(cs: seq<Candidate>): set<(nat, nat)> {
    set i | 0 <= i < |cs| :: Key(cs[i])
  }

  function AtMost(k: nat, n: nat): nat {
    if k <= n then k else n
  }

  predicate BeatsAt(b: Boost, query: seq<real>, cs: seq<Candidate>, i: nat, j: nat)
    requires i < |cs| && j < |cs|
  {
    Beats(Score(b, query, cs[i]), Score(b, query, cs[j]))
  }

  /** `s` has as many rows as asked for, and each of them beats each row outside it. */
  ghost predicate Wins(b: Boost, query: seq<real>, cs: seq<Candidate>, k: nat, s: set<(nat, nat)>) {
    && s <= AllKeys(cs) && |s| == AtMost(k, |cs|)
    && forall i, j :: 0 <= i < |cs| && 0 <= j < |cs| && Key(cs[i]) in s && Key(cs[j]) !in s ==> BeatsAt(b, query, cs, i, j)
  }

  lemma NotBoth(b: Boost, query: seq<real>, cs: seq<Candidate>, i: nat, j: nat)
    requires i < |cs| && j < |cs|
    ensures !(BeatsAt(b, query, cs, i, j) && BeatsAt(b, query, cs, j, i))
  {}

  lemma WinnerOfBoth(b: Boost, query: seq<real>, cs: seq<Candidate>, k: nat, s: set<(nat, nat)>, t: set<(nat, nat)>, x: (nat, nat))
    requires Wins(b, query, cs, k, s) && Wins(b, query, cs, k, t) && x in s
    ensures x in t
  {
    if x !in t {
      NotSmaller(s, t, x);
      var y :| y in t && y !in s;
      var i :| 0 <= i < |cs| && Key(cs[i]) == x;
      var j :| 0 <= j < |cs| && Key(cs[j]) == y;
      NotBoth(b, query, cs, i, j);
    }
  }

  lemma WinnersAreUnique(b: Boost, query: seq<real>, cs: seq<Candidate>, k: nat, s: set<(nat, nat)>, t: set<(nat, nat)>)
    requires Wins(b, query, cs, k, s) && Wins(b, query, cs, k, t)
    ensures s == t
  {
    forall x | x in s ensures x in t {
      WinnerOfBoth(b, query, cs, k, s, t, x);
    }
    forall x | x in t ensures x in s {
      WinnerOfBoth(b, query, cs, k, t, s, x);
    }
  }

  lemma NotSmaller(s: set<(nat, nat)>, t: set<(nat, nat)>, x: (nat, nat))
    requires |s| == |t| && x in s && x !in t
    ensures exists y :: y in t && y !in s
  {
    if t <= s {
      assert t <= s - {x};
      SubsetSize(t, s - {x});
    }
  }

  lemma {:induction false} SubsetSize(a: set<(nat, nat)>, b: set<(nat, nat)>)
    requires a <= b
    ensures |a| <= |b|
  {
    if a != {} {
      var x :| x in a;
      SubsetSize(a - {x}, b - {x});
    }
  }

  lemma {:induction false} KeysSize(xs: seq<Scored>)
    requires DistinctRows(xs)
    ensures |KeysOf(xs)| == |xs|
  {
    if xs != [] {
      var before, x := xs[..|xs| - 1], xs[|xs| - 1];
      KeysSize(before);
      assert KeysOf(xs) == KeysOf(before) + {Key(x.row)} by {
        forall i | 0 <= i < |xs| ensures Key(xs[i].row) in KeysOf(before) + {Key(x.row)} {
          if i < |before| {
            assert before[i] == xs[i];
          }
        }
        forall i | 0 <= i < |before| ensures Key(before[i].row) in KeysOf(xs) {
          assert before[i] == xs[i];
        }
        assert xs[|xs| - 1] == x;
      }
      assert Key(x.row) !in KeysOf(before);
    }
  }

  /** Where the rows are after sorting. */
  lemma SortedRows(b: Boost, query: seq<real>, cs: seq<Candidate>)
    requires DistinctCandidates(cs)
    ensures var sorted := Sort(ScoreAll(b, query, cs));
      && |sorted| == |cs| && Ordered(sorted) && DistinctRows(sorted)
      && (forall p :: 0 <= p < |sorted| ==> sorted[p].row in cs && sorted[p] == Score(b, query, sorted[p].row))
      && (forall i :: 0 <= i < |cs| ==> Score(b, query, cs[i]) in sorted)
  {
    var scored := ScoreAll(b, query, cs);
    var sorted := Sort(scored);
    SortKeepsRows(scored);
    assert |multiset(sorted)| == |multiset(scored)|;
    SortOrders(scored);
    forall p | 0 <= p < |sorted| ensures sorted[p].row in cs && sorted[p] == Score(b, query, sorted[p].row) {
      assert sorted[p] in multiset(scored);
    }
    forall i | 0 <= i < |cs| ensures Score(b, query, cs[i]) in sorted {
      assert scored[i] in multiset(sorted);
    }
    forall p, q | 0 <= p < q < |sorted| ensures Key(sorted[p].row) != Key(sorted[q].row) {
      assert Beats(sorted[p], sorted[q]);
    }
  }

  lemma TopWins(b: Boost, query: seq<real>, cs: seq<Candidate>, k: nat)
    requires DistinctCandidates(cs)
    ensures Wins(b, query, cs, k, KeysOf(Top(b, query, cs, k)))
  {
    var top := Top(b, query, cs, k);
    SortedRows(b, query, cs);
    KeysSize(top);
    forall i, j | 0 <= i < |cs| && 0 <= j < |cs| && Key(cs[i]) in KeysOf(top) && Key(cs[j]) !in KeysOf(top)
      ensures BeatsAt(b, query, cs, i, j)
    {
      InBeatsOut(b, query, cs, k, i, j);
    }
  }

  lemma InBeatsOut(b: Boost, query: seq<real>, cs: seq<Candidate>, k: nat, i: nat, j: nat)
    requires DistinctCandidates(cs) && i < |cs| && j < |cs|
    requires Key(cs[i]) in KeysOf(Top(b, query, cs, k)) && Key(cs[j]) !in KeysOf(Top(b, query, cs, k))
    ensures BeatsAt(b, query, cs, i, j)
  {
    var sorted := Sort(ScoreAll(b, query, cs));
    var top := Top(b, query, cs, k);
    SortedRows(b, query, cs);
    var p :| 0 <= p < |top| && Key(top[p].row) == Key(cs[i]);
    SameRow(cs, sorted[p].row, i);
    var q :| 0 <= q < |sorted| && sorted[q] == Score(b, query, cs[j]);
    assert q < |top| ==> Key(top[q].row) in KeysOf(top);
    assert Beats(sorted[p], sorted[q]);
  }

  lemma SameRow(cs: seq<Candidate>, c: Candidate, i: nat)
    requires DistinctCandidates(cs) && i < |cs| && c in cs && Key(c) == Key(cs[i])
    ensures c == cs[i]
  {}

  // ----- feedback does not change the set --------------------------------------------------------------

  /** Counting hits for the winners keeps them winning. */
  lemma BumpKeepsWinners(b: Boost, query: seq<real>, cs: seq<Candidate>, k: nat, s: set<(nat, nat)>)
    requires Wins(b, query, cs, k, s) && IsRoot(b.root) && IsLog(b.log1p) && (b.enabled ==> b.weight >= 0.0)
    ensures Wins(b, query, Bump(cs, s), k, s)
  {
    var cs' := Bump(cs, s);
    assert forall i :: 0 <= i < |cs| ==> Key(cs'[i]) == Key(cs[i]);
    forall i, j | 0 <= i < |cs| && 0 <= j < |cs| && Key(cs'[i]) in s && Key(cs'[j]) !in s
      ensures BeatsAt(b, query, cs', i, j)
    {
      assert BeatsAt(b, query, cs, i, j);
      CosineIsAtMostOne(b.root, query, cs[i].vector);
      HitsNeverLower(b, Cosine(b.root, query, cs[i].vector), cs[i].hits);
    }
    assert AllKeys(cs') == AllKeys(cs) by {
      forall i | 0 <= i < |cs| ensures Key(cs[i]) in AllKeys(cs') && Key(cs'[i]) in AllKeys(cs) {
        assert Key(cs'[i]) in AllKeys(cs');
      }
    }
  }

  lemma BumpKeepsKeys(cs: seq<Candidate>, s: set<(nat, nat)>)
    ensures DistinctCandidates(cs) ==> DistinctCandidates(Bump(cs, s))
  {}

  /** One repetition returns the same set. */
  lemma SearchAgain(b: Boost, query: seq<real>, cs: seq<Candidate>, k: nat)
    requires DistinctCandidates(cs) && IsRoot(b.root) && IsLog(b.log1p) && (!b.enabled || b.weight >= 0.0)
    ensures var s := KeysOf(Top(b, query, cs, k));
      DistinctCandidates(Bump(cs, s)) && KeysOf(Top(b, query, Bump(cs, s), k)) == s
  {
    var s := KeysOf(Top(b, query, cs, k));
    TopWins(b, query, cs, k);
    BumpKeepsWinners(b, query, cs, k, s);
    BumpKeepsKeys(cs, s);
    TopWins(b, query, Bump(cs, s), k);
    WinnersAreUnique(b, query, Bump(cs, s), k, s, KeysOf(Top(b, query, Bump(cs, s), k)));
  }

  /** Repeating a query any number of times on an otherwise unchanged index returns the same set of
      chunks, although every repetition changes the scores. */
  lemma {:induction false} RepeatedSearchIsStable(b: Boost, query: seq<real>, cs: seq<Candidate>, k: nat, times: nat)
    requires DistinctCandidates(cs) && IsRoot(b.root) && IsLog(b.log1p)
    requires !b.enabled || b.weight >= 0.0
    ensures var after := Repeated(b, query, cs, k, times);
      DistinctCandidates(after) && KeysOf(Top(b, query, after, k)) == KeysOf(Top(b, query, cs, k))
  {
    if times > 0 {
      RepeatedSearchIsStable(b, query, cs, k, times - 1);
      SearchAgain(b, query, Repeated(b, query, cs, k, times - 1), k);
    }
  }

  /** With a negative weight the winner of a tie loses the next round. */
  lemma NegativeWeightIsUnstable(b: Boost, query: seq<real>, cs: seq<Candidate>)
    requires IsRoot(b.root) && IsLog(b.log1p) && b.enabled && b.weight < 0.0
    requires query == [1.0] && cs == [Candidate(0, 0, [1.0], 0), Candidate(1, 0, [1.0], 0)]
    ensures KeysOf(Top(b, query, cs, 1)) == {(0, 0)} && KeysOf(Top(b, query, Repeated(b, query, cs, 1, 1), 1)) == {(1, 0)}
  {
    var base := Cosine(b.root, query, [1.0]);
    CosineIsAtMostOne(b.root, query, [1.0]);
    assert b.log1p(1) > 0.0;
    NegativeProduct(b.weight, b.log1p(1));
    assert Boosted(b, base, 1) < base;
    TopWins(b, query, cs, 1);
    assert cs[0] == Candidate(0, 0, [1.0], 0) && cs[1] == Candidate(1, 0, [1.0], 0);
    assert Key(cs[0]) in AllKeys(cs);
    WinsOfTwo(b, query, cs, 0);
    WinnersAreUnique(b, query, cs, 1, {(0, 0)}, KeysOf(Top(b, query, cs, 1)));
    var cs' := Bump(cs, {(0, 0)});
    assert Repeated(b, query, cs, 1, 0) == cs;
    assert cs' == [Candidate(0, 0, [1.0], 1), Candidate(1, 0, [1.0], 0)];
    TopWins(b, query, cs', 1);
    WinsOfTwo(b, query, cs', 1);
    WinnersAreUnique(b, query, cs', 1, {(1, 0)}, KeysOf(Top(b, query, cs', 1)));
  }

  lemma NegativeProduct(x: real, y: real)
    requires x < 0.0 && y > 0.0
    ensures x * y < 0.0
  {}

  lemma WinsOfTwo(b: Boost, query: seq<real>, cs: seq<Candidate>, i: nat)
    requires |cs| == 2 && i < 2 && Key(cs[0]) == (0, 0) && Key(cs[1]) == (1, 0) && BeatsAt(b, query, cs, i, 1 - i)
    ensures Wins(b, query, cs, 1, {(i, 0)})
  {
    assert Key(cs[i]) in AllKeys(cs);
  }

  /** One repetition returns the same rows for this query, index and limit. */
  ghost predicate Stable(b: Boost, query: seq<real>, cs: seq<Candidate>, k: nat) {
    KeysOf(Top(b, query, Repeated(b, query, cs, k, 1), k)) == KeysOf(Top(b, query, cs, k))
  }

  /** Repetition is stable for every query and index exactly when boosting is off or its weight is
      not negative. */
  lemma StableIff(b: Boost)
    requires IsRoot(b.root) && IsLog(b.log1p)
    ensures !b.enabled || b.weight >= 0.0 <==>
      (forall query: seq<real>, cs: seq<Candidate>, k: nat :: DistinctCandidates(cs) ==> Stable(b, query, cs, k))
  {
    if !b.enabled || b.weight >= 0.0 {
      forall query: seq<real>, cs: seq<Candidate>, k: nat | DistinctCandidates(cs) ensures Stable(b, query, cs, k) {
        RepeatedSearchIsStable(b, query, cs, k, 1);
      }
    } else {
      var query, cs := [1.0], [Candidate(0, 0, [1.0], 0), Candidate(1, 0, [1.0], 0)];
      NegativeWeightIsUnstable(b, query, cs);
      assert DistinctCandidates(cs) && !Stable(b, query, cs, 1);
    }
  }
}
