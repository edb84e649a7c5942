/** What the reported percentile means, and how it compares with the rules of the two analysis scripts. */
module Percentiles {
  import opened Reals
  import opened Statistics

  // ---- nearest rank ----

  function CountAtMost(xs: seq<nat>, v: nat): nat {
    if xs == [] then 0 else (if xs[0] <= v then 1 else 0) + CountAtMost(xs[1..], v)
  }

  function CountBelow(xs: seq<nat>, v: nat): nat {
    if xs == [] then 0 else (if xs[0] < v then 1 else 0) + CountBelow(xs[1..], v)
  }

  /** v is the sample of rank ceil(pn/100): at least that many samples are at most v, and fewer lie below it. */
  predicate IsNearestRank(xs: seq<nat>, p: real, v: nat) {
    && v in xs
    && CountAtMost(xs, v) >= Rank(p, |xs|) > CountBelow(xs, v)
  }

  lemma {:induction false} CountsInserted(x: nat, xs: seq<nat>, v: nat)
    ensures CountAtMost(InsertSorted(x, xs), v) == CountAtMost(xs, v) + (if x <= v then 1 else 0)
    ensures CountBelow(InsertSorted(x, xs), v) == CountBelow(xs, v) + (if x < v then 1 else 0)
  {
    if xs == [] || x <= xs[0] {
      assert ([x] + xs)[1..] == xs;
    } else {
      CountsInserted(x, xs[1..], v);
      assert InsertSorted(x, xs)[1..] == InsertSorted(x, xs[1..]);
    }
  }

  lemma {:induction false} CountsSurviveSorting(xs: seq<nat>, v: nat)
    ensures CountAtMost(Sorted(xs), v) == CountAtMost(xs, v) && CountBelow(Sorted(xs), v) == CountBelow(xs, v)
  {
    if xs != [] {
      CountsSurviveSorting(xs[1..], v);
      CountsInserted(xs[0], Sorted(xs[1..]), v);
    }
  }

  lemma {:induction false} CountsOfSorted(s: seq<nat>, i: nat)
    requires IsSorted(s) && i < |s|
    ensures CountAtMost(s, s[i]) >= i + 1 && CountBelow(s, s[i]) <= i
    ensures forall v :: CountAtMost(s, v) <= |s|
  {
    if i > 0 {
      CountsOfSorted(s[1..], i - 1);
    } else {
      NoneBelow(s, s[0]);
    }
    forall v ensures CountAtMost(s, v) <= |s| {
      AtMostAll(s, v);
    }
  }

  lemma {:induction false} NoneBelow(s: seq<nat>, v: nat)
    requires forall k :: 0 <= k < |s| ==> v <= s[k]
    ensures CountBelow(s, v) == 0
  {
    if s != [] {
      NoneBelow(s[1..], v);
    }
  }

  lemma {:induction false} AtMostAll(s: seq<nat>, v: nat)
    ensures CountAtMost(s, v) <= |s|
  {
    if s != [] {
      AtMostAll(s[1..], v);
    }
  }

  /** The rank is within 1..n exactly for p in (0, 100], and there the index read is the rank less one. */
  lemma RankRange(p: real, n: nat)
    requires p >= 0.0 && n >= 1
    ensures 1 <= Rank(p, n) <= n <==> 0.0 < p <= 100.0
    ensures 0.0 < p <= 100.0 ==> PercentileIndex(p, n) == Rank(p, n) - 1
    ensures p > 100.0 ==> PercentileIndex(p, n) == n - 1 && Rank(p, n) > n
  {
    var y, m := p / 100.0, n as real;
    var x := y * m;
    Proportion(y, m, x);
    CeilRange(x, n);
  }

  lemma CeilRange(x: real, n: nat)
    ensures Ceil(x) >= 1 <==> x > 0.0
    ensures Ceil(x) > n <==> x > n as real
  {
  }

  lemma Proportion(y: real, m: real, x: real)
    requires m >= 1.0 && x == y * m
    ensures y > 1.0 <==> x > m
    ensures y > 0.0 <==> x > 0.0
  {
    MulOrder(1.0, y, m);
    MulOrder(0.0, y, m);
  }

  lemma Scale(x: real, y: real, n: real)
    requires n > 0.0
    ensures x > y ==> x * n > y * n
    ensures x >= y ==> x * n >= y * n
    ensures x > 0.0 ==> x * n > 0.0
  {
  }

  /** The reported percentile is the nearest-rank percentile of the samples for every p in (0, 100], and for no other p;
      outside, no sample is. */
  lemma PercentileIsNearestRank(xs: seq<nat>, p: real)
    requires xs != [] && p >= 0.0
    ensures IsNearestRank(xs, p, Percentile(xs, p)) <==> 0.0 < p <= 100.0
  {
    SortedIsSorted(xs);
    RankRange(p, |xs|);
    NearestRankOfSorted(Sorted(xs), PercentileIndex(p, |xs|), Rank(p, |xs|));
    CountsSurviveSorting(xs, Percentile(xs, p));
    assert Percentile(xs, p) in multiset(Sorted(xs));
  }

  lemma NearestRankOfSorted(s: seq<nat>, i: nat, rank: int)
    requires IsSorted(s) && i < |s|
    ensures rank == i + 1 ==> CountAtMost(s, s[i]) >= rank > CountBelow(s, s[i])
    ensures rank > |s| ==> rank > CountAtMost(s, s[i])
    ensures rank <= 0 ==> rank <= CountBelow(s, s[i])
  {
    CountsOfSorted(s, i);
  }

  /** Reported percentiles grow with p; in particular the ones printed are in order between minimum and maximum. */
  lemma PercentileMonotone(xs: seq<nat>, p: real, q: real)
    requires 0.0 < p <= q
    ensures Minimum(xs) <= Percentile(xs, p) <= Percentile(xs, q) <= Maximum(xs)
  {
    SortedIsSorted(xs);
    if xs != [] {
      RankRange(p, |xs|);
      RankRange(q, |xs|);
      RankMonotone(p, q, |xs|);
    }
  }

  lemma RankMonotone(p: real, q: real, n: nat)
    requires p <= q
    ensures Rank(p, n) <= Rank(q, n)
  {
  }

  lemma PrintedSummaryIsOrdered(xs: seq<nat>)
    ensures Minimum(xs) <= Percentile(xs, 50.0) <= Percentile(xs, 95.0) <= Percentile(xs, 99.0)
            <= Percentile(xs, 99.9) <= Maximum(xs)
  {
    PercentileMonotone(xs, 50.0, 95.0);
    PercentileMonotone(xs, 95.0, 99.0);
    PercentileMonotone(xs, 99.0, 99.9);
  }

  /** At p = 0 the index wraps around and the maximum is reported. */
  lemma PercentileZeroIsMaximum(xs: seq<nat>)
    ensures |xs| < 0x1_0000_0000_0000_0000 ==> Percentile(xs, 0.0) == Maximum(xs)
  {
  }

  // ---- the two other rules, on a sorted list ----

  function Lerp(a: real, b: real, t: real): real {
    a + t * (b - a)
  }

  /** The sample below numpy's position (n-1)p. */
  function NumpyLower(p: real, n: nat): int {
    ((n - 1) as real * p).Floor
  }

  /** numpy's default: linear between the two samples around position (n-1)p. */
  function NumpyLinear(s: seq<nat>, p: real): real
    requires s != [] && 0.0 < p < 1.0
  {
    var at := (|s| - 1) as real * p;
    FloorPosition(|s|, p);
    var lo := NumpyLower(p, |s|);
    Lerp(s[lo] as real, s[Upper(lo, |s|)] as real, at - lo as real)
  }

  lemma FloorPosition(n: nat, p: real)
    requires n >= 1 && 0.0 < p < 1.0
    ensures 0 <= NumpyLower(p, n) < n
    ensures n >= 2 ==> NumpyLower(p, n) < n - 1
  {
  }

  /** The index `pct` of the stress plots reads. */
  function PctIndex(p: real, n: nat): int {
    var i := (n as real * p).Floor;
    if i < n - 1 then i else n - 1
  }

  /** The index percentile(100p) reads. */
  function CppIndex(p: real, n: nat): nat
    requires n >= 1 && 0.0 < p < 1.0
  {
    PercentileIndex(p * 100.0, n)
  }

  lemma CppIndexIsRank(p: real, n: nat)
    requires n >= 1 && 0.0 < p < 1.0
    ensures CppIndex(p, n) == Ceil(n as real * p) - 1
  {
  }

  /** Rank arithmetic of the three rules, for every fraction p and every number of samples: the C++ index is the lower or
      the upper neighbour of numpy's position, and pct's index is the C++ index, one higher exactly when np is whole. */
  lemma RanksAgree(p: real, n: nat)
    requires n >= 1 && 0.0 < p < 1.0
    ensures var at := (n - 1) as real * p;
      at.Floor <= CppIndex(p, n) <= Ceil(at)
    ensures PctIndex(p, n) == CppIndex(p, n) + if (n as real * p).Floor as real == n as real * p then 1 else 0
  {
    CppIndexIsRank(p, n);
    Scale(1.0, p, n as real);
    RankGap(n as real * p, (n - 1) as real * p, p, n);
  }

  lemma RankGap(x: real, at: real, p: real, n: nat)
    requires x == at + p && 0.0 < p < 1.0 && x < n as real
    ensures at.Floor <= Ceil(x) - 1 <= Ceil(at)
    ensures x.Floor <= n - 1
    ensures x.Floor == Ceil(x) - 1 + if x.Floor as real == x then 1 else 0
  {
  }

  function Upper(lo: int, n: nat): int {
    if lo + 1 < n then lo + 1 else lo
  }

  /** So on any samples the C++ value and numpy's lie between the same two neighbouring samples, and pct's value is the
      C++ value or the sample after it. */
  lemma RulesAgreeWithinOneRank(s: seq<nat>, p: real)
    requires s != [] && IsSorted(s) && 0.0 < p < 1.0
    ensures var (lo, cpp, pct) := (NumpyLower(p, |s|), CppIndex(p, |s|), PctIndex(p, |s|));
      && 0 <= lo < |s| && cpp < |s| && 0 <= pct < |s|
      && (cpp == lo || cpp == Upper(lo, |s|))
      && (pct == cpp || pct == cpp + 1)
      && s[lo] as real <= NumpyLinear(s, p) <= s[Upper(lo, |s|)] as real
      && s[lo] <= s[cpp] <= s[Upper(lo, |s|)]
      && s[cpp] <= s[pct]
  {
    Neighbours(p, |s|, NumpyLower(p, |s|), CppIndex(p, |s|), PctIndex(p, |s|));
    NumpyBetween(s, p, NumpyLower(p, |s|));
  }

  lemma Neighbours(p: real, n: nat, lo: int, cpp: nat, pct: int)
    requires n >= 1 && 0.0 < p < 1.0
    requires lo == NumpyLower(p, n) && cpp == CppIndex(p, n) && pct == PctIndex(p, n)
    ensures 0 <= lo < n && cpp < n && 0 <= pct < n
    ensures cpp == lo || cpp == Upper(lo, n)
    ensures pct == cpp || pct == cpp + 1
  {
    RanksAgree(p, n);
    FloorPosition(n, p);
    OneStep((n - 1) as real * p, n);
  }

  lemma OneStep(at: real, n: nat)
    ensures at.Floor <= Ceil(at) <= at.Floor + 1
  {
  }

  lemma NumpyBetween(s: seq<nat>, p: real, lo: int)
    requires s != [] && IsSorted(s) && 0.0 < p < 1.0 && lo == NumpyLower(p, |s|)
    ensures 0 <= lo < |s|
    ensures s[lo] as real <= NumpyLinear(s, p) <= s[Upper(lo, |s|)] as real
  {
    FloorPosition(|s|, p);
    var t := (|s| - 1) as real * p - lo as real;
    Between(t, s[lo] as real, s[Upper(lo, |s|)] as real);
  }

  /** On evenly spaced samples numpy's rule is exact: the value at position (n-1)p of the line through them. */
  lemma NumpyIsLinear(s: seq<nat>, p: real, a: real, b: real)
    requires s != [] && 0.0 < p < 1.0 && forall i :: 0 <= i < |s| ==> s[i] as real == a + b * i as real
    ensures NumpyLinear(s, p) == a + b * ((|s| - 1) as real * p)
  {
    FloorPosition(|s|, p);
    var at, lo := (|s| - 1) as real * p, NumpyLower(p, |s|);
    if |s| == 1 {
      assert at == 0.0;
    } else {
      OnTheLine(s[lo] as real, s[lo + 1] as real, at - lo as real, a, b, lo as real, at);
    }
  }

  lemma OnTheLine(x: real, y: real, t: real, a: real, b: real, lo: real, at: real)
    requires x == a + b * lo && y == a + b * (lo + 1.0) && t == at - lo
    ensures Lerp(x, y, t) == a + b * at
  {
    assert y - x == b;
    assert Lerp(x, y, t) == x + t * b;
  }

  lemma Between(t: real, a: real, b: real)
    requires 0.0 <= t <= 1.0 && a <= b
    ensures a <= Lerp(a, b, t) <= b
  {
    var up, down := t * (b - a), (1.0 - t) * (b - a);
    MulNonNeg(t, b - a, up);
    MulNonNeg(1.0 - t, b - a, down);
    assert up + down == b - a;
  }
}
