/** The interpolated percentile of the release benchmark, over reals. */
module Percentile {
  import opened Text
  import opened Lists
  import opened Sorting

  predicate LeReal(a: real, b: real) {
    a <= b
  }

  function Ceiling(x: real): int {
    if x == x.Floor as real then x.Floor else x.Floor + 1
  }

  function Interpolate(ordered: seq<real>, rank: real): real
    requires 0.0 <= rank <= (|ordered| - 1) as real
  {
    var lower, upper := rank.Floor, Ceiling(rank);
    if lower == upper then ordered[lower]
    else
      var weight := rank - lower as real;
      ordered[lower] * (1.0 - weight) + ordered[upper] * weight
  }

  function Rank(n: nat, pct: real): real {
    (n - 1) as real * (pct / 100.0)
  }

  lemma ScaleOrder(a: real, x: real, y: real)
    requires a >= 0.0 && x <= y
    ensures a * x <= a * y
  {}

  lemma ScaleUnit(m: real, x: real)
    requires m >= 0.0 && 0.0 <= x <= 1.0
    ensures 0.0 <= m * x <= m
  {
    ScaleOrder(m, 0.0, x);
    ScaleOrder(m, x, 1.0);
    assert m * 0.0 == 0.0 && m * 1.0 == m;
  }

  lemma RankInRange(n: nat, pct: real)
    requires n >= 1 && 0.0 <= pct <= 100.0
    ensures 0.0 <= Rank(n, pct) <= (n - 1) as real
  {
    var last, part := (n - 1) as real, pct / 100.0;
    assert 0.0 <= part <= 1.0;
    ScaleUnit(last, part);
    assert Rank(n, pct) == last * part;
  }

  /** The value of a sorted sample of at least two. */
  function OfSorted(ordered: seq<real>, pct: real): real
    requires |ordered| > 1
  {
    if pct <= 0.0 then ordered[0]
    else if pct >= 100.0 then ordered[|ordered| - 1]
    else
      RankInRange(|ordered|, pct);
      Interpolate(ordered, Rank(|ordered|, pct))
  }

  lemma SortLength(values: seq<real>)
    ensures |SortBy(values, LeReal)| == |values|
    ensures SortedBy(SortBy(values, LeReal), LeReal)
    ensures multiset(SortBy(values, LeReal)) == multiset(values)
  {
    SortByCorrect(values, LeReal);
  }

  function Percentile(values: seq<real>, pct: real): Option<real> {
    if values == [] then None
    else if |values| == 1 then Some(values[0])
    else
      SortLength(values);
      Some(OfSorted(SortBy(values, LeReal), pct))
  }

  lemma Distributes(a: real, b: real, w: real)
    ensures a * (1.0 - w) + b * w == a + (b - a) * w
  {}

  lemma NonNegativeProduct(x: real, y: real)
    requires x >= 0.0 && y >= 0.0
    ensures x * y >= 0.0
  {}

  lemma MixAbove(a: real, b: real, w: real)
    requires a <= b && 0.0 <= w
    ensures a <= a * (1.0 - w) + b * w
  {
    NonNegativeProduct(b - a, w);
  }

  lemma MixBelow(a: real, b: real, w: real)
    requires a <= b && w <= 1.0
    ensures a * (1.0 - w) + b * w <= b
  {
    NonNegativeProduct(b - a, 1.0 - w);
  }

  lemma Between(a: real, b: real, w: real)
    requires a <= b && 0.0 <= w <= 1.0
    ensures a <= a * (1.0 - w) + b * w <= b
  {
    MixAbove(a, b, w);
    MixBelow(a, b, w);
  }

  /** An interpolated value lies between the order statistics on either side of its rank. */
  lemma InterpolateBetween(s: seq<real>, rank: real)
    requires SortedBy(s, LeReal) && 0.0 <= rank <= (|s| - 1) as real
    ensures s[rank.Floor] <= Interpolate(s, rank) <= s[Ceiling(rank)]
  {
    var lower, upper := rank.Floor, Ceiling(rank);
    if lower != upper {
      assert LeReal(s[lower], s[upper]);
      Between(s[lower], s[upper], rank - lower as real);
    }
  }

  lemma SlopeOrder(a: real, b: real, v: real, w: real)
    requires a <= b && v <= w
    ensures a * (1.0 - v) + b * v <= a * (1.0 - w) + b * w
  {
    ScaleOrder(b - a, v, w);
    Distributes(a, b, v);
    Distributes(a, b, w);
  }

  lemma InterpolateMonotone(s: seq<real>, r: real, q: real)
    requires SortedBy(s, LeReal) && 0.0 <= r <= q <= (|s| - 1) as real
    ensures Interpolate(s, r) <= Interpolate(s, q)
  {
    InterpolateBetween(s, r);
    InterpolateBetween(s, q);
    if r.Floor < q.Floor {
      assert Ceiling(r) <= q.Floor;
      assert Ceiling(r) < q.Floor ==> LeReal(s[Ceiling(r)], s[q.Floor]);
    } else if r != r.Floor as real {
      var lower := r.Floor;
      SlopeOrder(s[lower], s[lower + 1], r - lower as real, q - lower as real);
    }
  }

  lemma WithinSorted(s: seq<real>, p: real)
    requires |s| > 1 && SortedBy(s, LeReal)
    ensures s[0] <= OfSorted(s, p) <= s[|s| - 1]
  {
    assert LeReal(s[0], s[|s| - 1]);
    if 0.0 < p < 100.0 {
      var r := Rank(|s|, p);
      RankInRange(|s|, p);
      InterpolateBetween(s, r);
      assert r.Floor > 0 ==> LeReal(s[0], s[r.Floor]);
      assert Ceiling(r) < |s| - 1 ==> LeReal(s[Ceiling(r)], s[|s| - 1]);
    }
  }

  lemma SortedIsMonotone(s: seq<real>, p: real, q: real)
    requires |s| > 1 && SortedBy(s, LeReal) && p <= q
    ensures OfSorted(s, p) <= OfSorted(s, q)
  {
    if 0.0 < p && q < 100.0 {
      RankInRange(|s|, p);
      RankInRange(|s|, q);
      ScaleOrder((|s| - 1) as real, p / 100.0, q / 100.0);
      InterpolateMonotone(s, Rank(|s|, p), Rank(|s|, q));
    } else {
      WithinSorted(s, p);
      WithinSorted(s, q);
    }
  }

  /** A larger percentage never gives a smaller value. */
  lemma PercentileIsMonotone(values: seq<real>, p: real, q: real)
    requires values != [] && p <= q
    ensures Percentile(values, p).value <= Percentile(values, q).value
  {
    SortLength(values);
    if |values| > 1 {
      SortedIsMonotone(SortBy(values, LeReal), p, q);
    }
  }

  ghost predicate Extremes(values: seq<real>, lo: real, hi: real) {
    lo in values && hi in values && forall v | v in values :: lo <= v <= hi
  }

  lemma SortedEnds(values: seq<real>)
    requires values != []
    ensures var s := SortBy(values, LeReal); s != [] && Extremes(values, s[0], s[|s| - 1])
  {
    var s := SortBy(values, LeReal);
    SortLength(values);
    assert s[0] in multiset(values) && s[|s| - 1] in multiset(values);
    forall v | v in values ensures s[0] <= v <= s[|s| - 1] {
      assert v in multiset(s);
      var k :| 0 <= k < |s| && s[k] == v;
      assert k > 0 ==> LeReal(s[0], s[k]);
      assert k < |s| - 1 ==> LeReal(s[k], s[|s| - 1]);
    }
  }

  /** The value lies between the least and the greatest sample, and reaches both. */
  lemma PercentileWithinSample(values: seq<real>, p: real)
    requires values != []
    ensures exists lo, hi | Extremes(values, lo, hi) ::
      && lo <= Percentile(values, p).value <= hi
      && (p <= 0.0 ==> Percentile(values, p).value == lo)
      && (p >= 100.0 ==> Percentile(values, p).value == hi)
  {
    if |values| == 1 {
      assert values[0] in values;
      assert Extremes(values, values[0], values[0]);
    } else {
      var s := SortBy(values, LeReal);
      SortLength(values);
      SortedEnds(values);
      WithinSorted(s, p);
      assert Extremes(values, s[0], s[|s| - 1]);
    }
  }

  function AtMost(bound: real): real -> bool {
    (v: real) => v <= bound
  }

  function AtLeast(bound: real): real -> bool {
    (v: real) => v >= bound
  }

  lemma CountAtMost(s: seq<real>, k: nat)
    requires SortedBy(s, LeReal) && k < |s|
    ensures |Filter(s, AtMost(s[k]))| >= k + 1
  {
    forall x | x in s[..k + 1] ensures AtMost(s[k])(x) {
      var i :| 0 <= i <= k && s[i] == x;
      assert i < k ==> LeReal(s[i], s[k]);
    }
    FilterKeepsPart(s[..k + 1], s[k + 1..], AtMost(s[k]));
    assert s == s[..k + 1] + s[k + 1..];
  }

  lemma CountAtLeast(s: seq<real>, k: nat)
    requires SortedBy(s, LeReal) && k < |s|
    ensures |Filter(s, AtLeast(s[k]))| >= |s| - k
  {
    forall x | x in s[k..] ensures AtLeast(s[k])(x) {
      var i :| 0 <= i < |s[k..]| && s[k..][i] == x;
      assert i > 0 ==> LeReal(s[k], s[k + i]);
    }
    FilterKeepsPart(s[..k], s[k..], AtLeast(s[k]));
    assert s == s[..k] + s[k..];
  }

  lemma RankEnds(n: nat, k: nat, pct: real)
    requires n > 1 && k < n && Rank(n, pct) == k as real
    ensures pct <= 0.0 ==> k == 0
    ensures pct >= 100.0 ==> k == n - 1
  {
    if pct <= 0.0 {
      ScaleOrder((n - 1) as real, pct / 100.0, 0.0);
    }
    if pct >= 100.0 {
      ScaleOrder((n - 1) as real, 1.0, pct / 100.0);
    }
  }

  lemma SortedAtRank(s: seq<real>, k: nat, pct: real)
    requires |s| > 1 && k < |s| && Rank(|s|, pct) == k as real
    ensures OfSorted(s, pct) == s[k]
  {
    RankEnds(|s|, k, pct);
  }

  lemma CountIgnoresOrder(a: seq<real>, b: seq<real>, keep: real -> bool)
    requires multiset(a) == multiset(b)
    ensures |Filter(a, keep)| == |Filter(b, keep)|
  {
    FilterMembers(a, keep);
    FilterMembers(b, keep);
    var p, q := Filter(a, keep), Filter(b, keep);
    assert multiset(p) == multiset(q) by {
      forall x ensures multiset(p)[x] == multiset(q)[x] {}
    }
    assert |p| == |multiset(p)| == |multiset(q)| == |q|;
  }

  /** At an integer rank k the percentile is the sample's own order statistic: at least k + 1 of the
      samples are no greater and at least n - k are no smaller. */
  lemma PercentileHitsOrderStatistics(values: seq<real>, k: nat, pct: real)
    requires |values| > 1 && k < |values| && Rank(|values|, pct) == k as real
    ensures var v := Percentile(values, pct).value;
      && v in values
      && |Filter(values, AtMost(v))| >= k + 1
      && |Filter(values, AtLeast(v))| >= |values| - k
  {
    var s := SortBy(values, LeReal);
    SortLength(values);
    SortedAtRank(s, k, pct);
    assert s[k] in multiset(values);
    CountAtMost(s, k);
    CountAtLeast(s, k);
    CountIgnoresOrder(s, values, AtMost(s[k]));
    CountIgnoresOrder(s, values, AtLeast(s[k]));
  }

  /** The order in which the samples were taken does not matter. */
  lemma PercentileIgnoresOrder(a: seq<real>, b: seq<real>, pct: real)
    requires multiset(a) == multiset(b)
    ensures Percentile(a, pct) == Percentile(b, pct)
  {
    assert |a| == |multiset(a)| == |multiset(b)| == |b|;
    if |a| == 1 {
      assert a[0] in multiset(b);
    } else if |a| > 1 {
      SortLength(a);
      SortLength(b);
      SortedIsUnique(SortBy(a, LeReal), SortBy(b, LeReal), LeReal);
    }
  }

  /** The point a share of the way from a to b. */
  function OnLine(a: real, b: real, share: real): real {
    a + (b - a) * share
  }

  lemma InterpolateIsLinear(s: seq<real>, k: nat, rank: real)
    requires k + 1 < |s| && k as real <= rank < (k + 1) as real
    ensures 0.0 <= rank <= (|s| - 1) as real
    ensures Interpolate(s, rank) == OnLine(s[k], s[k + 1], rank - k as real)
  {
    assert rank.Floor == k;
    if rank != k as real {
      Distributes(s[k], s[k + 1], rank - k as real);
    }
  }

  lemma OfSortedIsLinear(s: seq<real>, k: nat, pct: real, rank: real)
    requires |s| > 1 && k + 1 < |s| && 0.0 < pct < 100.0
    requires rank == Rank(|s|, pct) && k as real <= rank < (k + 1) as real
    ensures OfSorted(s, pct) == OnLine(s[k], s[k + 1], rank - k as real)
  {
    InterpolateIsLinear(s, k, rank);
  }

  /** Between two neighbouring ranks the value grows in proportion to the rank. */
  lemma PercentileIsLinearBetweenRanks(values: seq<real>, k: nat, pct: real, rank: real)
    requires |values| > 1 && k + 1 < |values| && 0.0 < pct < 100.0
    requires rank == (|values| - 1) as real * (pct / 100.0) && k as real <= rank < (k + 1) as real
    ensures var s := SortBy(values, LeReal);
      |s| == |values| && Percentile(values, pct) == Some(OnLine(s[k], s[k + 1], rank - k as real))
  {
    SortLength(values);
    OfSortedIsLinear(SortBy(values, LeReal), k, pct, rank);
  }
}
