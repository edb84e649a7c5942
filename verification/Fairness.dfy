/** The fairness metrics of fairness.py and fanin_report.py over exact reals: Jain's index, the coefficient of variation
    and the min/max ratio of per-sender throughputs. */
module Fairness {
  import opened Reals
  import Words

  type Metric = Words.Option<real>

  function Sum(xs: seq<real>): real {
    if xs == [] then 0.0 else Sum(xs[..|xs| - 1]) + xs[|xs| - 1]
  }

  function SumSquares(xs: seq<real>): real {
    if xs == [] then 0.0 else SumSquares(xs[..|xs| - 1]) + Sq(xs[|xs| - 1])
  }

  /** Sum of squared deviations from m. */
  function Deviations(xs: seq<real>, m: real): real {
    if xs == [] then 0.0 else Deviations(xs[..|xs| - 1], m) + Sq(xs[|xs| - 1] - m)
  }

  function Count(xs: seq<real>): real {
    |xs| as real
  }

  function Mean(xs: seq<real>): real
    requires xs != []
  {
    Sum(xs) / Count(xs)
  }

  /** numpy's std squared: the population variance. */
  function Variance(xs: seq<real>): real
    requires xs != []
  {
    Deviations(xs, Mean(xs)) / Count(xs)
  }

  /** jain_index: nan on an empty or all-zero list. */
  function Jain(xs: seq<real>): Metric {
    if xs == [] || SumSquares(xs) == 0.0 then Words.None
    else
      NonZeroProduct(Count(xs), SumSquares(xs));
      Words.Some(Sq(Sum(xs)) / (Count(xs) * SumSquares(xs)))
  }

  /** The square of the reported cv: nan unless the mean is positive. */
  function CvSquared(xs: seq<real>): Metric {
    if xs == [] || Mean(xs) <= 0.0 then Words.None
    else
      SquareSign(Mean(xs));
      Words.Some(Variance(xs) / Sq(Mean(xs)))
  }

  lemma NonZeroProduct(a: real, b: real)
    requires a != 0.0 && b != 0.0
    ensures a * b != 0.0
  {
  }

  function Least(xs: seq<real>): real
    requires xs != []
  {
    if |xs| == 1 then xs[0]
    else
      var m := Least(xs[..|xs| - 1]);
      if xs[|xs| - 1] < m then xs[|xs| - 1] else m
  }

  function Greatest(xs: seq<real>): real
    requires xs != []
  {
    if |xs| == 1 then xs[0]
    else
      var m := Greatest(xs[..|xs| - 1]);
      if xs[|xs| - 1] > m then xs[|xs| - 1] else m
  }

  function MinMax(xs: seq<real>): Metric {
    if xs == [] || Greatest(xs) <= 0.0 then Words.None else Words.Some(Least(xs) / Greatest(xs))
  }

  predicate NonNegative(xs: seq<real>) {
    forall i :: 0 <= i < |xs| ==> xs[i] >= 0.0
  }

  predicate Positive(xs: seq<real>) {
    forall i :: 0 <= i < |xs| ==> xs[i] > 0.0
  }

  predicate Constant(xs: seq<real>, x: real) {
    forall i :: 0 <= i < |xs| ==> xs[i] == x
  }

  // The proofs below name the sums of a list once and do their arithmetic on the names:
  // n its length, s its sum, q its sum of squares, m its mean, v its squared deviations from the mean.

  ghost predicate Sums(xs: seq<real>, n: real, s: real, q: real) {
    n == Count(xs) && s == Sum(xs) && q == SumSquares(xs)
  }

  // ---- deviations ----

  /** The sum of cx - p over a list. */
  function ChordSum(xs: seq<real>, c: real, p: real): real {
    if xs == [] then 0.0 else ChordSum(xs[..|xs| - 1], c, p) + (Times(c, xs[|xs| - 1]) - p)
  }

  lemma {:induction false} ChordSumClosed(xs: seq<real>, c: real, p: real, n: real, s: real)
    requires n == Count(xs) && s == Sum(xs)
    ensures ChordSum(xs, c, p) == c * s - n * p
  {
    if xs != [] {
      var ys, x := xs[..|xs| - 1], xs[|xs| - 1];
      ChordSumClosed(ys, c, p, n - 1.0, s - x);
      ChordStep(ChordSum(ys, c, p), c, p, n - 1.0, s - x, x, n, s);
    }
  }

  lemma ChordStep(z: real, c: real, p: real, n0: real, s0: real, x: real, n: real, s: real)
    requires z == c * s0 - n0 * p && n == n0 + 1.0 && s == s0 + x
    ensures z + (Times(c, x) - p) == c * s - n * p
  {
  }

  /** Expanding the squares: with c = 2m and p = m^2, each squared deviation is x^2 - (cx - p). */
  lemma {:induction false} DeviationsExpand(xs: seq<real>, m: real, c: real, p: real)
    requires c == 2.0 * m && p == Sq(m)
    ensures Deviations(xs, m) == SumSquares(xs) - ChordSum(xs, c, p)
  {
    if xs != [] {
      DeviationsExpand(xs[..|xs| - 1], m, c, p);
      SquareOfDifference(xs[|xs| - 1], m, c, p);
    }
  }

  lemma SquareOfDifference(x: real, m: real, c: real, p: real)
    requires c == 2.0 * m && p == Sq(m)
    ensures Sq(x - m) == Sq(x) - (Times(c, x) - p)
  {
  }

  lemma Snoc(xs: seq<real>, x: real)
    requires xs != []
    ensures Constant(xs, x) <==> Constant(xs[..|xs| - 1], x) && xs[|xs| - 1] == x
  {
  }

  lemma {:induction false} DeviationsSign(xs: seq<real>, m: real)
    ensures Deviations(xs, m) >= 0.0
    ensures Constant(xs, m) ==> Deviations(xs, m) == 0.0
    ensures !Constant(xs, m) ==> Deviations(xs, m) > 0.0
  {
    if xs != [] {
      DeviationsSign(xs[..|xs| - 1], m);
      SquareSign(xs[|xs| - 1] - m);
      Snoc(xs, m);
    }
  }

  lemma {:induction false} SumSquaresSign(xs: seq<real>)
    ensures SumSquares(xs) >= 0.0
    ensures Constant(xs, 0.0) ==> SumSquares(xs) == 0.0
    ensures !Constant(xs, 0.0) ==> SumSquares(xs) > 0.0
  {
    if xs != [] {
      SumSquaresSign(xs[..|xs| - 1]);
      SquareSign(xs[|xs| - 1]);
      Snoc(xs, 0.0);
    }
  }

  lemma MeanTimesCount(xs: seq<real>, n: real, s: real, m: real)
    requires xs != [] && n == Count(xs) && s == Sum(xs) && m == Mean(xs)
    ensures m * n == s
  {
  }

  /** n times the sum of squares exceeds the squared sum by n times the squared deviations from the mean. */
  lemma CauchySchwarz(xs: seq<real>, n: real, s: real, q: real, v: real)
    requires xs != [] && Sums(xs, n, s, q) && v == Deviations(xs, Mean(xs))
    ensures n * q == Sq(s) + n * v
  {
    var m := Mean(xs);
    MeanTimesCount(xs, n, s, m);
    DeviationsExpand(xs, m, 2.0 * m, Sq(m));
    ChordSumClosed(xs, 2.0 * m, Sq(m), n, s);
    CauchyAlgebra(n, s, q, m, v, 2.0 * m, Sq(m));
  }

  lemma CauchyAlgebra(n: real, s: real, q: real, m: real, v: real, c: real, p: real)
    requires m * n == s && c == 2.0 * m && p == Sq(m) && v == q - (c * s - n * p)
    ensures n * q == Sq(s) + n * v
  {
    assert n * (c * s) == 2.0 * (m * n * s);
    assert n * (n * p) == m * n * (m * n);
  }

  lemma {:induction false} SquareOfSum(xs: seq<real>, s: real, q: real)
    requires NonNegative(xs) && s == Sum(xs) && q == SumSquares(xs)
    ensures s >= 0.0 && Sq(s) >= q
  {
    if xs != [] {
      var x := xs[|xs| - 1];
      SquareOfSum(xs[..|xs| - 1], s - x, q - Sq(x));
      SquareStep(s - x, x, s);
    }
  }

  lemma SquareStep(s: real, x: real, sum: real)
    requires s >= 0.0 && x >= 0.0 && sum == s + x
    ensures Sq(sum) >= Sq(s) + Sq(x)
  {
  }

  // ---- Jain's index ----

  lemma JainMeaning(xs: seq<real>, n: real, s: real, q: real, d: real, j: real)
    requires Sums(xs, n, s, q) && d == n * q && Jain(xs) == Words.Some(j)
    ensures n >= 1.0 && q > 0.0 && d > 0.0 && j * d == Sq(s)
  {
    SumSquaresSign(xs);
    MulPos(n, q, d);
    IsQuotient(j, Sq(s), d);
  }

  /** The index is a number exactly for lists that are not empty and not all zero; of non-negative throughputs it lies
      between 1/n and 1, and is 1 exactly when all are equal. */
  lemma JainRange(xs: seq<real>)
    requires NonNegative(xs)
    ensures Jain(xs).Some? <==> !Constant(xs, 0.0)
    ensures Jain(xs).Some? ==> 1.0 / Count(xs) <= Jain(xs).value <= 1.0
    ensures Jain(xs).Some? ==> (Jain(xs).value == 1.0 <==> Constant(xs, xs[0]))
  {
    SumSquaresSign(xs);
    if !Constant(xs, 0.0) {
      var n, s, q, j, v := Count(xs), Sum(xs), SumSquares(xs), Jain(xs).value, Deviations(xs, Mean(xs));
      var d := n * q;
      JainMeaning(xs, n, s, q, d, j);
      SquareOfSum(xs, s, q);
      CauchySchwarz(xs, n, s, q, v);
      DeviationsSign(xs, Mean(xs));
      EqualToMean(xs);
      JainAlgebra(n, q, v, j, d, Sq(s));
    }
  }

  lemma EqualToMean(xs: seq<real>)
    requires xs != []
    ensures Constant(xs, Mean(xs)) <==> Constant(xs, xs[0])
  {
    if Constant(xs, xs[0]) {
      ConstantSum(xs, xs[0], Count(xs));
      Quotient(Sum(xs), xs[0], Count(xs));
    }
  }

  lemma {:induction false} ConstantSum(xs: seq<real>, x: real, n: real)
    requires Constant(xs, x) && n == Count(xs)
    ensures Sum(xs) == x * n && SumSquares(xs) == Sq(x) * n
  {
    if xs != [] {
      ConstantSum(xs[..|xs| - 1], x, n - 1.0);
      Distribute(x, n - 1.0, 1.0, n);
      Distribute(Sq(x), n - 1.0, 1.0, n);
    }
  }

  lemma JainAlgebra(n: real, q: real, v: real, j: real, d: real, k: real)
    requires n >= 1.0 && d > 0.0 && v >= 0.0 && k >= q && d == n * q && d == k + n * v && j * d == k
    ensures 1.0 / n <= j <= 1.0
    ensures v == 0.0 ==> j == 1.0
    ensures v > 0.0 ==> j < 1.0
  {
  }

  /** For a positive mean, the two metrics reported side by side determine each other: jain = 1 / (1 + cv^2). */
  lemma JainFromCv(xs: seq<real>)
    requires CvSquared(xs).Some?
    ensures Jain(xs).Some? && CvSquared(xs).value >= 0.0
    ensures Jain(xs).value == 1.0 / (1.0 + CvSquared(xs).value)
  {
    PositiveMeanNotZero(xs);
    SumSquaresSign(xs);
    JainOfCv(xs, CvSquared(xs).value, Jain(xs).value, Count(xs), Sum(xs), SumSquares(xs), Mean(xs),
             Deviations(xs, Mean(xs)));
  }

  lemma JainOfCv(xs: seq<real>, c: real, j: real, n: real, s: real, q: real, m: real, v: real)
    requires CvSquared(xs) == Words.Some(c) && Jain(xs) == Words.Some(j)
    requires Sums(xs, n, s, q) && m == Mean(xs) && v == Deviations(xs, m)
    ensures c >= 0.0 && j == 1.0 / (1.0 + c)
  {
    CvMeaning(xs, n, m, v, c);
    JainMeaning(xs, n, s, q, n * q, j);
    CvFacts(xs, n, s, q, m, v);
    CvAlgebra(n, s, v, m, c, j, n * q, Sq(s), Sq(m));
  }

  lemma CvFacts(xs: seq<real>, n: real, s: real, q: real, m: real, v: real)
    requires xs != [] && Sums(xs, n, s, q) && m == Mean(xs) && v == Deviations(xs, m)
    ensures v >= 0.0 && s == m * n && n * q == Sq(s) + n * v
  {
    DeviationsSign(xs, m);
    MeanTimesCount(xs, n, s, m);
    CauchySchwarz(xs, n, s, q, v);
  }

  lemma PositiveMeanNotZero(xs: seq<real>)
    requires xs != [] && Mean(xs) > 0.0
    ensures !Constant(xs, 0.0)
  {
    if Constant(xs, 0.0) {
      ConstantSum(xs, 0.0, Count(xs));
      Quotient(Sum(xs), 0.0, Count(xs));
    }
  }

  lemma CvMeaning(xs: seq<real>, n: real, m: real, v: real, c: real)
    requires xs != [] && n == Count(xs) && m == Mean(xs) && v == Deviations(xs, m) && CvSquared(xs) == Words.Some(c)
    ensures m > 0.0 && c * Sq(m) * n == v
  {
    SquareSign(Mean(xs));
    TwoQuotients(c, Variance(xs), Deviations(xs, Mean(xs)), Sq(Mean(xs)), Count(xs));
  }

  lemma TwoQuotients(c: real, w: real, v: real, mm: real, n: real)
    requires mm > 0.0 && n > 0.0 && c == w / mm && w == v / n
    ensures c * mm * n == v
  {
  }

  lemma CvAlgebra(n: real, s: real, v: real, m: real, c: real, j: real, d: real, k: real, mm: real)
    requires n >= 1.0 && m > 0.0 && v >= 0.0 && s == m * n && k == Sq(s) && mm == Sq(m)
    requires d == k + n * v && c * mm * n == v && j * d == k
    ensures c >= 0.0 && j == 1.0 / (1.0 + c)
  {
    MulPos(m, n, s);
    SquareSign(s);
    SquareSign(m);
    var mmn, e := mm * n, 1.0 + c;
    MulPos(mm, n, mmn);
    CvSplit(n, s, v, m, c, k, mm, mmn);
    MulOrder(c, 0.0, mmn);
    Distribute(k, 1.0, c, e);
    var je := j * e;
    Assoc(j, e, k, je, d);
    MulOrder(je, 1.0, k);
    Quotient(1.0, j, e);
  }

  lemma CvSplit(n: real, s: real, v: real, m: real, c: real, k: real, mm: real, mmn: real)
    requires s == m * n && k == Sq(s) && mm == Sq(m) && c * mm * n == v && mmn == mm * n
    ensures c * mmn == v && n * v == c * k
  {
  }

  // ---- the min/max bound ----

  lemma {:induction false} ExtremesBound(xs: seq<real>)
    requires xs != []
    ensures forall i :: 0 <= i < |xs| ==> Least(xs) <= xs[i] <= Greatest(xs)
    ensures Least(xs) in xs && Greatest(xs) in xs
  {
    if |xs| > 1 {
      var ys, x := xs[..|xs| - 1], xs[|xs| - 1];
      ExtremesBound(ys);
      assert xs == ys + [x];
    }
  }

  lemma {:induction false} SquaresUnderSum(xs: seq<real>, c: real, p: real)
    requires forall i :: 0 <= i < |xs| ==> Sq(xs[i]) <= Times(c, xs[i]) - p
    ensures SumSquares(xs) <= ChordSum(xs, c, p)
  {
    if xs != [] {
      SquaresUnderSum(xs[..|xs| - 1], c, p);
    }
  }

  /** Summing (x - a)(b - x) >= 0 over throughputs between a and b. */
  lemma SquaresUnderChord(xs: seq<real>, a: real, b: real, n: real, s: real, q: real, c: real, p: real)
    requires (forall i :: 0 <= i < |xs| ==> a <= xs[i] <= b) && Sums(xs, n, s, q) && c == a + b && p == a * b
    ensures q <= c * s - n * p
  {
    forall i | 0 <= i < |xs| ensures Sq(xs[i]) <= Times(c, xs[i]) - p {
      PointUnderChord(xs[i], a, b, c, p);
    }
    SquaresUnderSum(xs, c, p);
    ChordSumClosed(xs, c, p, n, s);
  }

  lemma PointUnderChord(x: real, a: real, b: real, c: real, p: real)
    requires a <= x <= b && c == a + b && p == a * b
    ensures Sq(x) <= Times(c, x) - p
  {
  }

  lemma ChordAlgebra(c: real, p: real, n: real, s: real, q: real, d: real, e: real, x: real, k: real)
    requires p > 0.0 && n >= 1.0 && q <= c * s - n * p
    requires d == n * q && e == Sq(c) && x == 4.0 * p && k == Sq(s)
    ensures x * d <= k * e
  {
    var u, v := c * s, n * p;
    MulPos(n, p, v);
    var z := v * (u - v - q);
    MulNonNeg(v, u - v - q, z);
    assert z == v * u - v * v - v * q;
    SquareSign(u - 2.0 * v);
    assert Sq(u - 2.0 * v) == u * u - 4.0 * (v * u) + 4.0 * (v * v);
    assert x * d == 4.0 * (v * q);
    assert u * u == k * e;
  }

  function RatioBound(r: real): real
    requires r > 0.0
  {
    SquareSign(1.0 + r);
    4.0 * r / Sq(1.0 + r)
  }

  /** In terms of the two extremes a <= b, the bound is 4ab/(a+b)^2. */
  lemma RatioForm(a: real, b: real, r: real, e: real, x: real)
    requires 0.0 < a <= b && r == a / b && e == Sq(a + b) && x == 4.0 * (a * b)
    ensures 0.0 < r <= 1.0 && e > 0.0 && RatioBound(r) * e == x
  {
  }

  /** The reported min/max ratio r of positive throughputs bounds the reported Jain index from below, by 4r/(1+r)^2, for
      any number of senders. */
  lemma JainAtLeastFromRatio(xs: seq<real>)
    requires xs != [] && Positive(xs)
    ensures Jain(xs).Some? && MinMax(xs).Some? && 0.0 < MinMax(xs).value <= 1.0
    ensures Jain(xs).value >= RatioBound(MinMax(xs).value)
  {
    ExtremesBound(xs);
    SumSquaresSign(xs);
    assert xs[0] != 0.0;
    Quotient(Least(xs), 1.0, Greatest(xs));
    Quotient(Least(xs), 0.0, Greatest(xs));
    JainAboveBound(xs, Least(xs), Greatest(xs), MinMax(xs).value, Jain(xs).value);
  }

  lemma JainAboveBound(xs: seq<real>, a: real, b: real, r: real, j: real)
    requires Jain(xs) == Words.Some(j) && 0.0 < a <= b && r == a / b && r > 0.0
    requires forall i :: 0 <= i < |xs| ==> a <= xs[i] <= b
    ensures RatioBound(r) <= j
  {
    BoundFromSums(xs, a, b, r, j, Count(xs), Sum(xs), SumSquares(xs), a * b);
  }

  lemma BoundFromSums(xs: seq<real>, a: real, b: real, r: real, j: real, n: real, s: real, q: real, p: real)
    requires Jain(xs) == Words.Some(j) && 0.0 < a <= b && r == a / b && r > 0.0
    requires (forall i :: 0 <= i < |xs| ==> a <= xs[i] <= b) && Sums(xs, n, s, q) && p == a * b
    ensures RatioBound(r) <= j
  {
    var d := n * q;
    JainMeaning(xs, n, s, q, d, j);
    SquaresUnderChord(xs, a, b, n, s, q, a + b, p);
    BoundArithmetic(a, b, r, j, n, s, q, p, d);
  }

  lemma BoundArithmetic(a: real, b: real, r: real, j: real, n: real, s: real, q: real, p: real, d: real)
    requires 0.0 < a <= b && r == a / b && r > 0.0 && p == a * b && d == n * q && d > 0.0 && n >= 1.0
    requires q <= (a + b) * s - n * p && j * d == Sq(s)
    ensures RatioBound(r) <= j
  {
    var e, x := Sq(a + b), 4.0 * p;
    RatioForm(a, b, r, e, x);
    MulPos(a, b, p);
    ChordAlgebra(a + b, p, n, s, q, d, e, x, Sq(s));
    CompareThrough(RatioBound(r), j, e, d, x, Sq(s));
  }

  lemma {:induction false} SumsAppend(xs: seq<real>, ys: seq<real>)
    ensures Sum(xs + ys) == Sum(xs) + Sum(ys) && SumSquares(xs + ys) == SumSquares(xs) + SumSquares(ys)
  {
    if ys == [] {
      assert xs + ys == xs;
    } else {
      SumsAppend(xs, ys[..|ys| - 1]);
      assert (xs + ys)[..|xs + ys| - 1] == xs + ys[..|ys| - 1];
    }
  }

  function Copies(x: real, n: nat): (xs: seq<real>)
    ensures |xs| == n && Constant(xs, x)
  {
    seq(n, i => x)
  }

  /** b senders at throughput a and a senders at throughput b. */
  function Extremal(a: nat, b: nat): seq<real> {
    Copies(a as real, b) + Copies(b as real, a)
  }

  /** The bound cannot be improved: for every ratio a/b there are senders that attain it. */
  lemma RatioBoundAttained(a: nat, b: nat, r: real)
    requires 0 < a <= b && r == a as real / b as real
    ensures var xs := Extremal(a, b);
      && Positive(xs) && MinMax(xs) == Words.Some(r) && r > 0.0 && Jain(xs) == Words.Some(RatioBound(r))
  {
    var xs := Extremal(a, b);
    ExtremalExtremes(a, b);
    SumSquaresSign(xs);
    assert xs[0] != 0.0;
    Quotient(a as real, 0.0, b as real);
    ExtremalJain(a, b, a as real, b as real, r, Jain(xs).value, Count(xs), Sum(xs), SumSquares(xs));
  }

  lemma ExtremalJain(a: nat, b: nat, ra: real, rb: real, r: real, j: real, n: real, s: real, q: real)
    requires 0 < a <= b && ra == a as real && rb == b as real && r == ra / rb && r > 0.0
    requires Sums(Extremal(a, b), n, s, q) && Jain(Extremal(a, b)) == Words.Some(j)
    ensures j == RatioBound(r)
  {
    var d := n * q;
    ExtremalSums(a, b, ra, rb, n, s, q);
    JainMeaning(Extremal(a, b), n, s, q, d, j);
    AttainedArithmetic(ra, rb, r, j, n, s, q, ra * rb, d);
  }

  lemma AttainedArithmetic(a: real, b: real, r: real, j: real, n: real, s: real, q: real, p: real, d: real)
    requires 0.0 < a <= b && r == a / b && r > 0.0 && p == a * b && d == n * q && d > 0.0 && j * d == Sq(s)
    requires n == a + b && s == a * b + b * a && q == Sq(a) * b + Sq(b) * a
    ensures j == RatioBound(r)
  {
  }

  lemma ExtremalExtremes(a: nat, b: nat)
    requires 0 < a <= b
    ensures var xs := Extremal(a, b);
      xs != [] && Positive(xs) && Least(xs) == a as real && Greatest(xs) == b as real
  {
    var xs := Extremal(a, b);
    ExtremesBound(xs);
    assert xs[0] == a as real && xs[b] == b as real;
  }

  lemma ExtremalSums(a: nat, b: nat, ra: real, rb: real, n: real, s: real, q: real)
    requires ra == a as real && rb == b as real && Sums(Extremal(a, b), n, s, q)
    ensures n == ra + rb && s == ra * rb + rb * ra && q == Sq(ra) * rb + Sq(rb) * ra
  {
    SumsAppend(Copies(ra, b), Copies(rb, a));
    ConstantSum(Copies(ra, b), ra, rb);
    ConstantSum(Copies(rb, a), rb, ra);
  }

  // ---- scaling ----

  function Scaled(xs: seq<real>, k: real): seq<real> {
    if xs == [] then [] else Scaled(xs[..|xs| - 1], k) + [Times(k, xs[|xs| - 1])]
  }

  lemma {:induction false} ScaledSums(xs: seq<real>, k: real)
    ensures |Scaled(xs, k)| == |xs|
    ensures Sum(Scaled(xs, k)) == Times(k, Sum(xs)) && SumSquares(Scaled(xs, k)) == Times(Sq(k), SumSquares(xs))
  {
    if xs != [] {
      var ys, x := xs[..|xs| - 1], xs[|xs| - 1];
      ScaledSums(ys, k);
      assert Scaled(xs, k)[..|xs| - 1] == Scaled(ys, k);
      TimesSum(k, Sum(ys), x);
      SquareOfProduct(k, x);
      TimesSum(Sq(k), SumSquares(ys), Sq(x));
    }
  }

  lemma TimesPos(k: real, x: real)
    requires k > 0.0 && x > 0.0
    ensures Times(k, x) > 0.0
  {
  }

  lemma TimesSum(k: real, x: real, y: real)
    ensures Times(k, x + y) == Times(k, x) + Times(k, y)
  {
  }

  lemma SquareOfProduct(k: real, x: real)
    ensures Sq(Times(k, x)) == Times(Sq(k), Sq(x))
  {
  }

  /** A pool size common to all senders does not change the index. */
  lemma JainScaleInvariant(xs: seq<real>, k: real)
    requires k > 0.0
    ensures Jain(Scaled(xs, k)) == Jain(xs)
  {
    var ys, q := Scaled(xs, k), SumSquares(xs);
    ScaledSums(xs, k);
    SumSquaresSign(xs);
    SquareSign(k);
    if !Constant(xs, 0.0) {
      TimesPos(Sq(k), q);
      SquareOfProduct(k, Sum(xs));
      ScaledJain(xs, ys, Count(xs), Sum(xs), q, Sq(k), Times(Sq(k), q), Sum(ys), Jain(xs).value, Jain(ys).value);
    }
  }

  lemma ScaledJain(xs: seq<real>, ys: seq<real>, n: real, s: real, q: real, kk: real, kq: real, ks: real,
                   j: real, i: real)
    requires Sums(xs, n, s, q) && Sums(ys, n, ks, kq) && kq == Times(kk, q) && Sq(ks) == Times(kk, Sq(s))
    requires Jain(xs) == Words.Some(j) && Jain(ys) == Words.Some(i)
    ensures i == j
  {
  }

  // ---- the scripts' loops ----

  function MeanLatency(samples: seq<nat>): real
    requires samples != []
  {
    Words.Sum(samples) as real / |samples| as real
  }

  /** client_throughput_rps. */
  function Throughput(pool: nat, mean: real): real
    requires mean > 0.0
  {
    pool as real * 1000000000.0 / mean
  }

  /** The throughputs of the senders with a positive mean latency, in order. */
  function Throughputs(clients: seq<seq<nat>>, pool: nat): seq<real>
    requires forall i :: 0 <= i < |clients| ==> clients[i] != []
  {
    if clients == [] then []
    else
      var m := MeanLatency(clients[|clients| - 1]);
      var rest := Throughputs(clients[..|clients| - 1], pool);
      if m <= 0.0 then rest else rest + [Throughput(pool, m)]
  }

  lemma {:induction false} ThroughputsPositive(clients: seq<seq<nat>>, pool: nat)
    requires pool > 0 && forall i :: 0 <= i < |clients| ==> clients[i] != []
    ensures Positive(Throughputs(clients, pool))
    ensures (exists i :: 0 <= i < |clients| && MeanLatency(clients[i]) > 0.0) ==> Throughputs(clients, pool) != []
  {
    if clients != [] {
      ThroughputsPositive(clients[..|clients| - 1], pool);
      var m := MeanLatency(clients[|clients| - 1]);
      if m > 0.0 {
        Quotient(pool as real * 1000000000.0, 0.0, m);
      }
    }
  }

  /** A sender's throughput in terms of its samples: a second's worth of them, `pool` at a time. */
  lemma ThroughputOfSamples(samples: seq<nat>, pool: nat, x: real, total: real, n: real)
    requires samples != [] && MeanLatency(samples) > 0.0 && x == Throughput(pool, MeanLatency(samples))
    requires total == Words.Sum(samples) as real && n == |samples| as real
    ensures x * total == pool as real * 1000000000.0 * n
  {
    ThroughputMeaning(n, total, MeanLatency(samples), pool as real * 1000000000.0, x);
  }

  lemma ThroughputMeaning(n: real, s: real, m: real, k: real, x: real)
    requires n > 0.0 && m > 0.0 && m == s / n && x == k / m
    ensures x * s == k * n
  {
    IsQuotient(m, s, n);
    IsQuotient(x, k, m);
    Assoc(x, m, n, k, s);
  }

  /** The list the report is computed on has every sender with a positive sample; */
  lemma {:induction false} EverySenderCounts(clients: seq<seq<nat>>, pool: nat)
    requires forall k :: 0 <= k < |clients| ==> clients[k] != [] && Words.Sum(clients[k]) > 0
    ensures |Throughputs(clients, pool)| == |clients|
  {
    if clients != [] {
      EverySenderCounts(clients[..|clients| - 1], pool);
      MeanPositive(clients[|clients| - 1]);
    }
  }

  /** sender by sender, throughput times total latency is a second times the number of samples and connections; */
  lemma ThroughputsOfSamples(clients: seq<seq<nat>>, pool: nat, i: nat, x: real, total: real, n: real)
    requires forall k :: 0 <= k < |clients| ==> clients[k] != [] && Words.Sum(clients[k]) > 0
    requires i < |clients| == |Throughputs(clients, pool)| && x == Throughputs(clients, pool)[i]
    requires total == Words.Sum(clients[i]) as real && n == |clients[i]| as real
    ensures x * total == pool as real * 1000000000.0 * n
  {
    SenderBySender(clients, pool, i);
    ThroughputOfSamples(clients[i], pool, x, total, n);
  }

  lemma {:induction false} SenderBySender(clients: seq<seq<nat>>, pool: nat, i: nat)
    requires forall k :: 0 <= k < |clients| ==> clients[k] != [] && Words.Sum(clients[k]) > 0
    requires i < |clients| == |Throughputs(clients, pool)|
    ensures MeanLatency(clients[i]) > 0.0
    ensures Throughputs(clients, pool)[i] == Throughput(pool, MeanLatency(clients[i]))
  {
    var front, last := clients[..|clients| - 1], clients[|clients| - 1];
    EverySenderCounts(front, pool);
    MeanPositive(last);
    if i < |front| {
      SenderBySender(front, pool, i);
    }
  }

  lemma MeanPositive(samples: seq<nat>)
    requires samples != [] && Words.Sum(samples) > 0
    ensures MeanLatency(samples) > 0.0
  {
    Quotient(Words.Sum(samples) as real, 0.0, |samples| as real);
  }

  /** senders are taken one after the other, */
  lemma {:induction false} ThroughputsAppend(a: seq<seq<nat>>, b: seq<seq<nat>>, pool: nat)
    requires forall i :: 0 <= i < |a| ==> a[i] != []
    requires forall i :: 0 <= i < |b| ==> b[i] != []
    ensures Throughputs(a + b, pool) == Throughputs(a, pool) + Throughputs(b, pool)
  {
    if b == [] {
      assert a + b == a;
    } else {
      var front := b[..|b| - 1];
      ThroughputsAppend(a, front, pool);
      assert (a + b)[..|a + b| - 1] == a + front;
    }
  }

  /** and one whose samples are all zero is passed over. */
  lemma ZeroSenderIsSkipped(samples: seq<nat>, pool: nat)
    requires samples != [] && Words.Sum(samples) == 0
    ensures Throughputs([samples], pool) == []
  {
    Quotient(0.0, 0.0, |samples| as real);
    assert [samples][..0] == [];
  }

  lemma {:induction false} NobodyMeasured(clients: seq<seq<nat>>, pool: nat)
    requires forall i :: 0 <= i < |clients| ==> clients[i] != [] && Words.Sum(clients[i]) == 0
    ensures Throughputs(clients, pool) == []
  {
    if clients != [] {
      var front, last := clients[..|clients| - 1], clients[|clients| - 1];
      NobodyMeasured(front, pool);
      ZeroSenderIsSkipped(last, pool);
      ThroughputsAppend(front, [last], pool);
      assert clients == front + [last];
    }
  }

  /** fairness_stats: one pass over the senders, then the three metrics (the square of the reported cv). */
  method FairnessStats(clients: seq<seq<nat>>, pool: nat) returns (jain: Metric, cvSquared: Metric, minMax: Metric)
    requires forall i :: 0 <= i < |clients| ==> clients[i] != []
    ensures var xs := Throughputs(clients, pool);
      jain == Jain(xs) && cvSquared == CvSquared(xs) && minMax == MinMax(xs)
    ensures (forall i :: 0 <= i < |clients| ==> Words.Sum(clients[i]) == 0) ==>
      jain.None? && cvSquared.None? && minMax.None?
  {
    var xs: seq<real> := [];
    for i := 0 to |clients|
      invariant xs == Throughputs(clients[..i], pool)
    {
      assert clients[..i + 1][..i] == clients[..i];
      var m := MeanLatency(clients[i]);
      if m > 0.0 {
        xs := xs + [Throughput(pool, m)];
      }
    }
    assert clients[..|clients|] == clients;
    if forall i :: 0 <= i < |clients| ==> Words.Sum(clients[i]) == 0 {
      NobodyMeasured(clients, pool);
    }
    jain, cvSquared, minMax := Jain(xs), CvSquared(xs), MinMax(xs);
  }

  lemma {:induction false} PositiveSum(xs: seq<real>)
    requires xs != [] && Positive(xs)
    ensures Sum(xs) > 0.0
  {
    if |xs| > 1 {
      PositiveSum(xs[..|xs| - 1]);
    }
  }

  /** The three numbers of a report hang together: with any sender of positive mean latency all three exist, the index
      is 1/(1+cv^2), and the min/max ratio bounds it from below. */
  lemma ReportIsConsistent(clients: seq<seq<nat>>, pool: nat)
    requires pool > 0 && forall i :: 0 <= i < |clients| ==> clients[i] != []
    requires exists i :: 0 <= i < |clients| && MeanLatency(clients[i]) > 0.0
    ensures var xs := Throughputs(clients, pool);
      && Jain(xs).Some? && CvSquared(xs).Some? && MinMax(xs).Some?
      && CvSquared(xs).value >= 0.0 && 0.0 < MinMax(xs).value <= 1.0
      && Jain(xs).value == 1.0 / (1.0 + CvSquared(xs).value)
      && Jain(xs).value >= RatioBound(MinMax(xs).value)
  {
    var xs := Throughputs(clients, pool);
    ThroughputsPositive(clients, pool);
    JainAtLeastFromRatio(xs);
    PositiveSum(xs);
    Quotient(Sum(xs), 0.0, Count(xs));
    JainFromCv(xs);
  }

  lemma {:induction false} ThroughputsScale(clients: seq<seq<nat>>, pool: nat)
    requires forall i :: 0 <= i < |clients| ==> clients[i] != []
    ensures Throughputs(clients, pool) == Scaled(Throughputs(clients, 1), pool as real)
  {
    if clients != [] {
      var front, m := clients[..|clients| - 1], MeanLatency(clients[|clients| - 1]);
      ThroughputsScale(front, pool);
      if m > 0.0 {
        ScaledSnoc(Throughputs(front, 1), Throughput(1, m), pool as real);
        PoolFactor(pool, m);
      }
    }
  }

  lemma ScaledSnoc(ys: seq<real>, y: real, k: real)
    ensures Scaled(ys + [y], k) == Scaled(ys, k) + [Times(k, y)]
  {
  }

  lemma PoolFactor(pool: nat, m: real)
    requires m > 0.0
    ensures Throughput(pool, m) == Times(pool as real, Throughput(1, m))
  {
  }

  /** And the index reported does not depend on the pool size the script is given. */
  lemma PoolSizeInvariant(clients: seq<seq<nat>>, pool: nat)
    requires pool > 0 && forall i :: 0 <= i < |clients| ==> clients[i] != []
    ensures Jain(Throughputs(clients, pool)) == Jain(Throughputs(clients, 1))
  {
    ThroughputsScale(clients, pool);
    JainScaleInvariant(Throughputs(clients, 1), pool as real);
  }
}
