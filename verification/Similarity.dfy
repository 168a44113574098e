/**
 What the ranking means: similarity as geometry, with squared distances as their own sums, the
 boost as what hits are worth, and the order of a result in plain numbers.
 */
module Similarity {
  import opened Rows
  import opened Search

  // ----- lengths and distances -----------------------------------------------------------------

  /** The squared distance of the first `n` coordinates. */
  function Distance2(a: seq<real>, b: seq<real>, n: nat): real
    requires n <= |a| && n <= |b|
  {
    if n == 0 then 0.0 else Distance2(a, b, n - 1) + (a[n - 1] - b[n - 1]) * (a[n - 1] - b[n - 1])
  }

  /** The squared length. */
  function Length2(a: seq<real>): real {
    if a == [] then 0.0 else Length2(a[..|a| - 1]) + a[|a| - 1] * a[|a| - 1]
  }

  ghost predicate NotZero(a: seq<real>) {
    exists i :: 0 <= i < |a| && a[i] != 0.0
  }

  ghost predicate IsMultiple(v: seq<real>, m: real, a: seq<real>) {
    |v| == |a| && forall i :: 0 <= i < |a| ==> v[i] == m * a[i]
  }

  lemma {:induction false} SelfDotOfPrefix(a: seq<real>, m: nat, n: nat)
    requires n <= m <= |a|
    ensures Dot(a[..m], a[..m], n) == Dot(a, a, n)
  {
    if n > 0 {
      SelfDotOfPrefix(a, m, n - 1);
    }
  }

  lemma {:induction false} NormIsLength(a: seq<real>)
    ensures Norm2(a) == Length2(a)
    decreases |a|
  {
    if a != [] {
      NormIsLength(a[..|a| - 1]);
      SelfDotOfPrefix(a, |a| - 1, |a| - 1);
    }
  }

  lemma {:induction false} DistanceIsDots(a: seq<real>, b: seq<real>, n: nat)
    requires n <= |a| && n <= |b|
    ensures Distance2(a, b, n) == Dot(a, a, n) + Dot(b, b, n) - 2.0 * Dot(a, b, n)
  {
    if n > 0 {
      DistanceIsDots(a, b, n - 1);
      SquareOfDifference(a[n - 1], b[n - 1]);
    }
  }

  lemma SquareOfDifference(x: real, y: real)
    ensures (x - y) * (x - y) == x * x + y * y - 2.0 * (x * y)
  {}

  lemma {:induction false} NormIsPositive(a: seq<real>)
    requires NotZero(a)
    ensures Norm2(a) > 0.0
    decreases |a|
  {
    var last := |a| - 1;
    var i :| 0 <= i < |a| && a[i] != 0.0;
    var p := a[last] * a[last];
    Square(a[last], p);
    SelfDotOfPrefix(a, last, last);
    DotSelf(a, last);
    if a[last] == 0.0 {
      assert a[..last][i] != 0.0;
      NormIsPositive(a[..last]);
    }
  }

  // ----- roots and quotients ------------------------------------------------------------------------

  lemma RootIsUnique(root: real -> real, x: real, y: real)
    requires IsRoot(root) && x >= 0.0 && y >= 0.0 && x == y * y
    ensures root(x) == y
  {
    var r := root(x);
    if r < y {
      SquaresOrder(r, y);
    } else if r > y {
      SquaresOrder(y, r);
    }
  }

  lemma SquaresOrder(x: real, y: real)
    requires 0.0 <= x < y
    ensures x * x < y * y
  {
    if x > 0.0 {
      SquaresGrow(y, x);
    } else {
      ZeroProduct(x, x, x * x);
      PositiveProduct(y, y, y * y);
    }
  }

  lemma ZeroProduct(x: real, y: real, p: real)
    requires x == 0.0 && p == x * y
    ensures p == 0.0
  {}

  lemma RootIsPositive(root: real -> real, x: real)
    requires IsRoot(root) && x > 0.0
    ensures root(x) > 0.0
  {
    NotZeroSquare(root(x), x);
  }

  lemma NotZeroSquare(r: real, p: real)
    requires r >= 0.0 && p == r * r && p > 0.0
    ensures r > 0.0
  {
    assert r == 0.0 ==> p == 0.0 by {
      if r == 0.0 {
        ZeroProduct(r, r, p);
      }
    }
  }

  lemma QuotientOrder(x: real, y: real, r: real)
    requires r > 0.0
    ensures x / r > y / r <==> x > y
  {
    assert x / r * r == x && y / r * r == y;
    if x / r > y / r {
      assert x / r * r > y / r * r;
    } else {
      assert x / r * r <= y / r * r;
    }
  }

  // ----- multiples ---------------------------------------------------------------------------------

  lemma {:induction false} DotOfMultiple(q: seq<real>, a: seq<real>, v: seq<real>, m: real, n: nat)
    requires IsMultiple(v, m, a) && n <= |q| && n <= |a|
    ensures Dot(q, v, n) == m * Dot(q, a, n)
  {
    if n > 0 {
      DotOfMultiple(q, a, v, m, n - 1);
      var d, x, y := Dot(q, a, n - 1), q[n - 1], a[n - 1];
      assert x * (m * y) == m * (x * y);
      assert m * d + m * (x * y) == m * (d + x * y);
    }
  }

  lemma {:induction false} DotSymmetric(a: seq<real>, b: seq<real>, n: nat)
    requires n <= |a| && n <= |b|
    ensures Dot(a, b, n) == Dot(b, a, n)
  {
    if n > 0 {
      DotSymmetric(a, b, n - 1);
    }
  }

  lemma NormOfMultiple(a: seq<real>, v: seq<real>, m: real)
    requires IsMultiple(v, m, a)
    ensures Norm2(v) == m * m * Norm2(a)
  {
    DotOfMultiple(v, a, v, m, |a|);
    DotSymmetric(v, a, |a|);
    DotOfMultiple(a, a, v, m, |a|);
    assert m * (m * Norm2(a)) == m * m * Norm2(a);
  }

  lemma RootOfMultiple(root: real -> real, a: seq<real>, v: seq<real>, m: real)
    requires IsRoot(root) && IsMultiple(v, m, a)
    ensures root(Norm2(v)) == (if m >= 0.0 then m else -m) * root(Norm2(a))
  {
    var s := if m >= 0.0 then m else -m;
    DotSelf(a, |a|);
    DotSelf(v, |v|);
    var r := root(Norm2(a));
    NormOfMultiple(a, v, m);
    assert s * s == m * m;
    assert (s * r) * (s * r) == (s * s) * (r * r);
    ProductsOrder(0.0, 0.0, s, r);
    RootIsUnique(root, Norm2(v), s * r);
  }

  function Quotient(d: real, r: real): real {
    if r != 0.0 then d / r else 0.0
  }

  lemma CosineIs(root: real -> real, q: seq<real>, v: seq<real>, n: nat)
    requires n == Shorter(q, v)
    ensures Cosine(root, q, v) == Quotient(Dot(q, v, n), root(Norm2(q)) * root(Norm2(v)))
  {}

  lemma ScaledQuotient(d: real, r: real, m: real, d': real, r': real)
    requires m != 0.0 && d' == m * d && r' == m * r
    ensures Quotient(d', r') == Quotient(d, r)
  {
    if r > 0.0 || r < 0.0 {
      NotZeroProduct(m, r, r');
      var x := d / r;
      assert x * r == d;
      assert d' == x * r';
      assert d' / r' == x;
    } else {
      assert r' == 0.0;
    }
  }

  lemma NotZeroProduct(x: real, y: real, p: real)
    requires x != 0.0 && y != 0.0 && p == x * y
    ensures p != 0.0
  {
    if (x > 0.0) == (y > 0.0) {
      PositiveProduct(x, y, p);
    } else {
      PositiveProduct(-x, y, -p);
    }
  }

  lemma Regrouped(m: real, p: real, r: real)
    ensures p * (m * r) == m * (p * r)
  {}

  /** Only the direction of a vector matters. */
  lemma ScaleDoesNotMatter(root: real -> real, q: seq<real>, a: seq<real>, v: seq<real>, m: real)
    requires IsRoot(root) && IsMultiple(v, m, a) && m > 0.0
    ensures Cosine(root, q, v) == Cosine(root, q, a)
  {
    var n := Shorter(q, a);
    RootOfMultiple(root, a, v, m);
    DotOfMultiple(q, a, v, m, n);
    Regrouped(m, root(Norm2(q)), root(Norm2(a)));
    ScaledQuotient(Dot(q, a, n), root(Norm2(q)) * root(Norm2(a)), m, Dot(q, v, n), root(Norm2(q)) * root(Norm2(v)));
    CosineIs(root, q, v, n);
    CosineIs(root, q, a, n);
  }

  /** A positive multiple of the query scores exactly 1, a negative one exactly -1. */
  lemma MultiplesScoreOne(root: real -> real, q: seq<real>, v: seq<real>, m: real)
    requires IsRoot(root) && NotZero(q) && IsMultiple(v, m, q) && m != 0.0
    ensures Cosine(root, q, v) == if m > 0.0 then 1.0 else -1.0
  {
    var s := if m > 0.0 then m else -m;
    NormIsPositive(q);
    DotOfMultiple(q, q, v, m, |q|);
    NormsOfMultiple(root, q, v, m, s);
    SignedQuotient(Norm2(q), m, s, Dot(q, v, |q|), root(Norm2(q)) * root(Norm2(v)));
    CosineIs(root, q, v, |q|);
  }

  lemma NormsOfMultiple(root: real -> real, q: seq<real>, v: seq<real>, m: real, s: real)
    requires IsRoot(root) && IsMultiple(v, m, q) && s == (if m > 0.0 then m else -m) && Norm2(q) > 0.0
    ensures root(Norm2(q)) * root(Norm2(v)) == s * Norm2(q)
  {
    RootOfMultiple(root, q, v, m);
    Regrouped(s, root(Norm2(q)), root(Norm2(q)));
  }

  lemma SignedQuotient(norm: real, m: real, s: real, d: real, r: real)
    requires norm > 0.0 && m != 0.0 && s == (if m > 0.0 then m else -m) && d == m * norm && r == s * norm
    ensures Quotient(d, r) == if m > 0.0 then 1.0 else -1.0
  {
    var unit := if m > 0.0 then norm else -norm;
    ScaledQuotient(unit, norm, s, d, r);
    assert norm / norm == 1.0;
    assert -norm / norm == -1.0;
  }

  // ----- nearer is more similar --------------------------------------------------------------------

  /** Two vectors of the query's dimension and of one length, none of them zero. */
  ghost predicate Comparable(q: seq<real>, a: seq<real>, c: seq<real>) {
    NotZero(q) && NotZero(a) && |a| == |q| && |c| == |q| && Length2(a) == Length2(c)
  }

  /** Of two such vectors the more similar one is the one at the smaller distance from the query. */
  lemma NearerIsMoreSimilarIff(root: real -> real, q: seq<real>, a: seq<real>, c: seq<real>)
    requires IsRoot(root) && Comparable(q, a, c)
    ensures Cosine(root, q, a) > Cosine(root, q, c) <==> Distance2(q, a, |q|) < Distance2(q, c, |q|)
  {
    NormIsLength(a);
    NormIsLength(c);
    NormIsPositive(q);
    NormIsPositive(a);
    DistanceIsDots(q, a, |q|);
    DistanceIsDots(q, c, |q|);
    SameNormOrder(root, q, a, c);
  }

  lemma SameNormOrder(root: real -> real, q: seq<real>, a: seq<real>, c: seq<real>)
    requires IsRoot(root) && |a| == |q| == |c| && Norm2(q) > 0.0 && Norm2(a) > 0.0 && Norm2(c) == Norm2(a)
    ensures Cosine(root, q, a) > Cosine(root, q, c) <==> Dot(q, a, |q|) > Dot(q, c, |q|)
  {
    var r := root(Norm2(q)) * root(Norm2(a));
    RootIsPositive(root, Norm2(q));
    RootIsPositive(root, Norm2(a));
    PositiveProduct(root(Norm2(q)), root(Norm2(a)), r);
    CosineIs(root, q, a, |q|);
    CosineIs(root, q, c, |q|);
    QuotientOrder(Dot(q, a, |q|), Dot(q, c, |q|), r);
  }

  // ----- the order of a result -----------------------------------------------------------------------

  predicate Before(a: Candidate, c: Candidate) {
    a.file < c.file || (a.file == c.file && a.index < c.index)
  }

  /** A result lists its rows by falling score, rows of one score by file and chunk index, and no
      row left out has a higher score, or the same one and an earlier place in that order. */
  lemma ResultIsRanked(b: Boost, query: seq<real>, cs: seq<Candidate>, k: nat)
    requires DistinctCandidates(cs)
    ensures var top := Top(b, query, cs, k);
      && |top| == (if k <= |cs| then k else |cs|)
      && (forall p :: 0 <= p < |top| ==>
          top[p].row in cs && top[p].score == Boosted(b, Cosine(b.root, query, top[p].row.vector), top[p].row.hits))
      && (forall p, q :: 0 <= p < q < |top| ==>
          top[p].score > top[q].score || (top[p].score == top[q].score && Before(top[p].row, top[q].row)))
    ensures forall i, j :: 0 <= i < |cs| && 0 <= j < |cs| && Key(cs[i]) in KeysOf(Top(b, query, cs, k)) && Key(cs[j]) !in KeysOf(Top(b, query, cs, k)) ==>
      var s, t := Score(b, query, cs[i]).score, Score(b, query, cs[j]).score;
      s > t || (s == t && Before(cs[i], cs[j]))
  {
    SortedRows(b, query, cs);
    TopWins(b, query, cs, k);
    var sorted := Sort(ScoreAll(b, query, cs));
    var top := Top(b, query, cs, k);
    forall p, q | 0 <= p < q < |top|
      ensures top[p].score > top[q].score || (top[p].score == top[q].score && Before(top[p].row, top[q].row))
    {
      assert Beats(sorted[p], sorted[q]);
    }
    forall i, j | 0 <= i < |cs| && 0 <= j < |cs| && Key(cs[i]) in KeysOf(top) && Key(cs[j]) !in KeysOf(top)
      ensures var s, t := Score(b, query, cs[i]).score, Score(b, query, cs[j]).score; s > t || (s == t && Before(cs[i], cs[j]))
    {
      assert BeatsAt(b, query, cs, i, j);
    }
  }

  predicate Unboosted(b: Boost, c: Candidate) {
    !b.enabled || c.hits == 0
  }

  /** No returned row is farther from the query than a comparable row that was left out; at one
      distance the earlier row is returned. */
  ghost predicate NearestReturned(b: Boost, query: seq<real>, cs: seq<Candidate>, returned: set<(nat, nat)>) {
    forall i, j :: 0 <= i < |cs| && 0 <= j < |cs| && Key(cs[i]) in returned && Key(cs[j]) !in returned ==> NotFarther(b, query, cs[i], cs[j])
  }

  ghost predicate NotFarther(b: Boost, query: seq<real>, a: Candidate, c: Candidate) {
    Unboosted(b, a) && Unboosted(b, c) && Comparable(query, a.vector, c.vector) ==>
      var d, e := Distance2(query, a.vector, |query|), Distance2(query, c.vector, |query|);
      d < e || (d == e && Before(a, c))
  }

  lemma ReturnedAreNearest(b: Boost, query: seq<real>, cs: seq<Candidate>, k: nat)
    requires IsRoot(b.root) && DistinctCandidates(cs)
    ensures NearestReturned(b, query, cs, KeysOf(Top(b, query, cs, k)))
  {
    ResultIsRanked(b, query, cs, k);
    forall i, j | 0 <= i < |cs| && 0 <= j < |cs| && Key(cs[i]) in KeysOf(Top(b, query, cs, k)) && Key(cs[j]) !in KeysOf(Top(b, query, cs, k))
      ensures NotFarther(b, query, cs[i], cs[j])
    {
      RankedIsNotFarther(b, query, cs[i], cs[j]);
    }
  }

  lemma RankedIsNotFarther(b: Boost, query: seq<real>, a: Candidate, c: Candidate)
    requires IsRoot(b.root)
    requires var s, t := Score(b, query, a).score, Score(b, query, c).score; s > t || (s == t && Before(a, c))
    ensures NotFarther(b, query, a, c)
  {
    if Unboosted(b, a) && Unboosted(b, c) && Comparable(query, a.vector, c.vector) {
      NearerIsMoreSimilarIff(b.root, query, a.vector, c.vector);
      OtherIsNotZero(a.vector, c.vector);
      NearerIsMoreSimilarIff(b.root, query, c.vector, a.vector);
    }
  }

  lemma OtherIsNotZero(a: seq<real>, c: seq<real>)
    requires NotZero(a) && Length2(a) == Length2(c)
    ensures NotZero(c)
  {
    NormIsLength(a);
    NormIsPositive(a);
    if !NotZero(c) {
      ZeroLength(c);
    }
  }

  lemma {:induction false} ZeroLength(c: seq<real>)
    requires !NotZero(c)
    ensures Length2(c) == 0.0
    decreases |c|
  {
    if c != [] {
      assert c[|c| - 1] == 0.0;
      assert forall i :: 0 <= i < |c| - 1 ==> c[..|c| - 1][i] == c[i];
      ZeroLength(c[..|c| - 1]);
    }
  }

  // ----- what hits are worth -------------------------------------------------------------------------

  /** Hits count only while boosting is on, and with a positive weight they raise every similarity
      below 1.  They raise it to 1 exactly when weight times logarithm makes up ten times what it
      lacks, and two similarities that both stay below 1 by the same amount. */
  lemma WorthOfHits(b: Boost, base: real, other: real, hits: nat)
    requires IsLog(b.log1p) && base <= 1.0 && other <= 1.0
    ensures !b.enabled || hits == 0 ==> Boosted(b, base, hits) == base
    ensures b.enabled && hits > 0 ==> (Boosted(b, base, hits) == 1.0 <==> b.weight * b.log1p(hits) >= 10.0 * (1.0 - base))
    ensures b.enabled && b.weight > 0.0 && hits > 0 && base < 1.0 ==> base < Boosted(b, base, hits) <= 1.0
    ensures Boosted(b, base, hits) < 1.0 && Boosted(b, other, hits) < 1.0 ==>
      Boosted(b, base, hits) - base == Boosted(b, other, hits) - other
  {
    if b.enabled && b.weight > 0.0 && hits > 0 {
      assert b.log1p(0) < b.log1p(hits);
      PositiveProduct(b.weight, b.log1p(hits), b.weight * b.log1p(hits));
    }
  }
}
