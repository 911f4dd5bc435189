/** Similarity of recorded paths: txReplayer.go's calculatePathSimilarity and types.go's
    CalculateSimilarity, with the quotient taken exactly. */
module PathSimilarity {
  import opened Common
  import opened CallTree
  import opened JumpTracing

  /** How many positions below n exist in both paths and agree. */
  function Agreements<T(==)>(a: seq<T>, b: seq<T>, n: nat): (m: nat)
    ensures m <= n && m <= |a| && m <= |b|
  {
    if n == 0 then 0
    else if n <= |a| && n <= |b| && a[n - 1] == b[n - 1] then Agreements(a, b, n - 1) + 1
    else Agreements(a, b, n - 1)
  }

  function Similarity<T(==)>(a: seq<T>, b: seq<T>): real {
    if |a| == 0 && |b| == 0 then 1.0
    else Agreements(a, b, Min(|a|, |b|)) as real / Max(|a|, |b|) as real
  }

  /** CalculateSimilarity. */
  method CalculateSimilarity<T(==)>(path1: seq<T>, path2: seq<T>) returns (r: real)
    ensures r == Similarity(path1, path2)
  {
    if |path1| == 0 && |path2| == 0 { return 1.0; }
    if |path1| == 0 || |path2| == 0 { return 0.0; }
    var matches := 0;
    var minLen := |path1|;
    if |path2| < minLen { minLen := |path2|; }
    var i := 0;
    while i < minLen
      invariant 0 <= i <= minLen && matches == Agreements(path1, path2, i)
    {
      if path1[i] == path2[i] { matches := matches + 1; }
      i := i + 1;
    }
    var maxLen := |path1|;
    if |path2| > maxLen { maxLen := |path2|; }
    r := matches as real / maxLen as real;
  }

  /** calculatePathSimilarity, on possibly missing paths. */
  function PathSimilarityOf(p: Option<seq<ExecutionJump>>, q: Option<seq<ExecutionJump>>): real {
    if p.None? || q.None? then 0.0 else Similarity(p.value, q.value)
  }

  function JumpsOf(path: ExecutionPath?): Option<seq<ExecutionJump>>
    reads path
  {
    if path == null then None else Some(path.jumps)
  }

  method CalculatePathSimilarity(path1: ExecutionPath?, path2: ExecutionPath?) returns (r: real)
    ensures r == PathSimilarityOf(JumpsOf(path1), JumpsOf(path2))
  {
    if path1 == null || path2 == null { return 0.0; }
    r := CalculateSimilarity(path1.jumps, path2.jumps);
  }

  // ---- the metric ------------------------------------------------------------

  function Distance(p: Option<seq<ExecutionJump>>, q: Option<seq<ExecutionJump>>): real {
    1.0 - PathSimilarityOf(p, q)
  }

  ghost function AgreementSet<T>(a: seq<T>, b: seq<T>, n: nat): set<nat> {
    set i: nat | i < n && i < |a| && i < |b| && a[i] == b[i]
  }

  lemma {:induction false} AgreementsCount<T>(a: seq<T>, b: seq<T>, n: nat)
    ensures Agreements(a, b, n) == |AgreementSet(a, b, n)|
  {
    if n > 0 {
      AgreementsCount(a, b, n - 1);
      var before := AgreementSet(a, b, n - 1);
      if n <= |a| && n <= |b| && a[n - 1] == b[n - 1] {
        assert AgreementSet(a, b, n) == before + {n - 1};
      } else {
        assert AgreementSet(a, b, n) == before;
      }
    } else {
      assert AgreementSet(a, b, 0) == {};
    }
  }

  lemma {:induction false} AgreementsSymmetric<T>(a: seq<T>, b: seq<T>, n: nat)
    ensures Agreements(a, b, n) == Agreements(b, a, n)
  {
    if n > 0 { AgreementsSymmetric(a, b, n - 1); }
  }

  lemma {:induction false} AgreementsFull<T>(a: seq<T>, b: seq<T>, n: nat)
    requires n <= |a| && n <= |b|
    ensures Agreements(a, b, n) == n <==> a[..n] == b[..n]
  {
    if n > 0 {
      AgreementsFull(a, b, n - 1);
      assert a[..n] == a[..n - 1] + [a[n - 1]] && b[..n] == b[..n - 1] + [b[n - 1]];
    }
  }

  lemma {:induction false} AgreementsBeyond<T>(a: seq<T>, b: seq<T>, n: nat)
    requires n >= Min(|a|, |b|)
    ensures Agreements(a, b, n) == Agreements(a, b, Min(|a|, |b|))
  {
    if n > Min(|a|, |b|) { AgreementsBeyond(a, b, n - 1); }
  }

  /** A position agreeing on both legs agrees across, and every agreeing position lies inside q and
      inside p or r. */
  lemma {:induction false} AgreementsTriangle<T>(p: seq<T>, q: seq<T>, r: seq<T>, n: nat)
    ensures Agreements(p, q, n) + Agreements(q, r, n) <= Agreements(p, r, n) + Min(n, |q|)
    ensures Agreements(p, q, n) + Agreements(q, r, n) <= Agreements(p, r, n) + Min(n, Max(|p|, |r|))
  {
    if n > 0 { AgreementsTriangle(p, q, r, n - 1); }
  }

  lemma Triangle<T>(p: seq<T>, q: seq<T>, r: seq<T>)
    ensures Agreements(p, q, Min(|p|, |q|)) + Agreements(q, r, Min(|q|, |r|))
         <= Agreements(p, r, Min(|p|, |r|)) + Min(|q|, Max(|p|, |r|))
  {
    var n := Max(|q|, Max(|p|, |r|));
    AgreementsTriangle(p, q, r, n);
    AgreementsBeyond(p, q, n);
    AgreementsBeyond(q, r, n);
    AgreementsBeyond(p, r, n);
  }

  lemma ProductSign(x: real, d: real)
    requires d > 0.0
    ensures x > 0.0 ==> x * d > 0.0
    ensures x < 0.0 ==> x * d < 0.0
    ensures x == 0.0 ==> x * d == 0.0
  {
    if x < 0.0 { assert (-x) * d > 0.0; }
  }

  /** y is x / d once y * d is x; and comparing quotients compares numerators. */
  lemma QuotientCompare(x: real, y: real, d: real)
    requires d > 0.0
    ensures y * d >= x ==> y >= x / d
    ensures y * d <= x ==> y <= x / d
  {
    var q := x / d;
    assert q * d == x;
    assert (y - q) * d == y * d - q * d;
    ProductSign(y - q, d);
  }

  lemma QuotientBounds(m: real, d: real)
    requires 0.0 <= m <= d && d > 0.0
    ensures 0.0 <= m / d <= 1.0
    ensures m / d == 1.0 <==> m == d
  {
    QuotientCompare(m, 0.0, d);
    QuotientCompare(m, 1.0, d);
  }

  lemma QuotientMonotone(h: real, d: real, d': real)
    requires h >= 0.0 && 0.0 < d <= d'
    ensures h / d >= h / d'
  {
    var u := h / d;
    assert u * d == h;
    QuotientCompare(h, 0.0, d);
    assert u * (d' - d) >= 0.0;
    assert u * d' == u * d + u * (d' - d);
    QuotientCompare(h, u, d');
  }

  /** The triangle inequality on the numbers alone: a, b, c agreements over the longer lengths of
      three paths of lengths x, y, z. */
  lemma FractionTriangle(x: nat, y: nat, z: nat, a: nat, b: nat, c: nat, sa: real, sb: real, sc: real)
    requires Max(x, y) > 0 && Max(y, z) > 0 && Max(x, z) > 0
    requires a <= Min(x, y) && b <= Min(y, z) && a + b <= c + Min(y, Max(x, z))
    requires sa == a as real / Max(x, y) as real
    requires sb == b as real / Max(y, z) as real
    requires sc == c as real / Max(x, z) as real
    ensures 1.0 - sc <= (1.0 - sa) + (1.0 - sb)
  {
    var d1, d2, d3 := Max(x, y) as real, Max(y, z) as real, Max(x, z) as real;
    RealTriangle(a as real, b as real, c as real, d1, d2, d3, y <= Max(x, z));
  }

  /** short: the middle path is not the longest of the three. */
  lemma RealTriangle(a: real, b: real, c: real, d1: real, d2: real, d3: real, short: bool)
    requires d1 > 0.0 && d2 > 0.0 && d3 > 0.0 && 0.0 <= a <= d1 && 0.0 <= b <= d2 && 0.0 <= c
    requires short ==> d1 <= d3 && d2 <= d3 && (d1 - a) + (d2 - b) >= d3 - c
    requires !short ==> d1 == d2 >= d3 && a + b <= d3 + c
    ensures 1.0 - c / d3 <= (1.0 - a / d1) + (1.0 - b / d2)
  {
    if short {
      Complementary(a, d1);
      Complementary(b, d2);
      Complementary(c, d3);
      QuotientMonotone(d1 - a, d1, d3);
      QuotientMonotone(d2 - b, d2, d3);
      SumOfQuotients(d1 - a, d2 - b, d3 - c, d3);
    } else {
      QuotientMonotone(d3 + c, d3, d1);
      SumOfQuotients(a, b, d3 + c, d1);
      SumOfQuotients(d3, c, d3 + c, d3);
      QuotientBounds(d3, d3);
    }
  }

  lemma Complementary(m: real, d: real)
    requires d > 0.0
    ensures 1.0 - m / d == (d - m) / d
  {
    var y := 1.0 - m / d;
    assert m / d * d == m;
    assert y * d == d - m / d * d;
    QuotientCompare(d - m, y, d);
  }

  lemma SumOfQuotients(h1: real, h2: real, h3: real, d: real)
    requires d > 0.0
    ensures h1 + h2 >= h3 ==> h1 / d + h2 / d >= h3 / d
    ensures h1 + h2 <= h3 ==> h1 / d + h2 / d <= h3 / d
  {
    var y := h1 / d + h2 / d;
    assert h1 / d * d == h1 && h2 / d * d == h2;
    assert y * d == h1 / d * d + h2 / d * d;
    QuotientCompare(h3, y, d);
  }

  lemma SimilarityBounds<T>(a: seq<T>, b: seq<T>)
    ensures 0.0 <= Similarity(a, b) <= 1.0
    ensures Similarity(a, b) == Similarity(b, a)
    ensures Similarity(a, b) == 1.0 <==> a == b
  {
    var m := Min(|a|, |b|);
    AgreementsSymmetric(a, b, m);
    AgreementsFull(a, b, m);
    if |a| > 0 || |b| > 0 {
      QuotientBounds(Agreements(a, b, m) as real, Max(|a|, |b|) as real);
      if |a| == |b| { assert a[..m] == a && b[..m] == b; }
    }
  }

  /** Main result: one minus similarity is a metric on recorded paths. A missing path is at distance 1
      from everything, itself included. */
  lemma DistanceIsMetric(p: Option<seq<ExecutionJump>>, q: Option<seq<ExecutionJump>>, r: Option<seq<ExecutionJump>>)
    ensures 0.0 <= Distance(p, q) <= 1.0
    ensures Distance(p, q) == Distance(q, p)
    ensures Distance(p, q) == 0.0 <==> p.Some? && p == q
    ensures Distance(p, r) <= Distance(p, q) + Distance(q, r)
  {
    if p.Some? && q.Some? { SimilarityBounds(p.value, q.value); }
    if q.Some? && r.Some? { SimilarityBounds(q.value, r.value); }
    if p.Some? && r.Some? { SimilarityBounds(p.value, r.value); }
    if p.Some? && q.Some? && r.Some? { PathTriangle(p.value, q.value, r.value); }
  }

  lemma PathTriangle<T>(p: seq<T>, q: seq<T>, r: seq<T>)
    ensures 1.0 - Similarity(p, r) <= (1.0 - Similarity(p, q)) + (1.0 - Similarity(q, r))
  {
    if p == r {
      SelfTriangle(p, q);
    } else if p != q && q != r {
      DistinctTriangle(p, q, r, Similarity(p, q), Similarity(q, r), Similarity(p, r));
    } else {
      SimilarityBounds(p, q);
      SimilarityBounds(q, r);
    }
  }

  lemma SelfTriangle<T>(p: seq<T>, q: seq<T>)
    ensures 1.0 - Similarity(p, p) <= (1.0 - Similarity(p, q)) + (1.0 - Similarity(q, p))
  {
    SimilarityBounds(p, q);
    SimilarityBounds(p, p);
  }

  lemma DistinctTriangle<T>(p: seq<T>, q: seq<T>, r: seq<T>, spq: real, sqr: real, spr: real)
    requires p != q && q != r && p != r
    requires spq == Similarity(p, q) && sqr == Similarity(q, r) && spr == Similarity(p, r)
    ensures 1.0 - spr <= (1.0 - spq) + (1.0 - sqr)
  {
    Triangle(p, q, r);
    var a, b, c := Agreements(p, q, Min(|p|, |q|)), Agreements(q, r, Min(|q|, |r|)), Agreements(p, r, Min(|p|, |r|));
    SimilarityFraction(p, q);
    SimilarityFraction(q, r);
    SimilarityFraction(p, r);
    FractionTriangle(|p|, |q|, |r|, a, b, c, spq, sqr, spr);
  }

  lemma SimilarityFraction<T>(a: seq<T>, b: seq<T>)
    requires a != b
    ensures Max(|a|, |b|) > 0
    ensures Similarity(a, b) == Agreements(a, b, Min(|a|, |b|)) as real / Max(|a|, |b|) as real
  {}
}
