/** LatencyHistogram: a sample list sorted lazily, on the first query after a change. */
module Statistics {
  import opened Words

  // ---- sorting ----

  predicate IsSorted(xs: seq<nat>) {
    forall i, j :: 0 <= i < j < |xs| ==> xs[i] <= xs[j]
  }

  function InsertSorted(x: nat, xs: seq<nat>): (ys: seq<nat>)
    ensures |ys| == |xs| + 1
  {
    if xs == [] || x <= xs[0] then [x] + xs else [xs[0]] + InsertSorted(x, xs[1..])
  }

  /** The sorted arrangement of a list (what std::sort leaves behind). */
  function Sorted(xs: seq<nat>): (ys: seq<nat>)
    ensures |ys| == |xs|
  {
    if xs == [] then [] else InsertSorted(xs[0], Sorted(xs[1..]))
  }

  lemma {:induction false} InsertMultiset(x: nat, xs: seq<nat>)
    ensures multiset(InsertSorted(x, xs)) == multiset(xs) + multiset{x}
  {
    if !(xs == [] || x <= xs[0]) {
      InsertMultiset(x, xs[1..]);
      assert xs == [xs[0]] + xs[1..];
      assert multiset(xs) == multiset{xs[0]} + multiset(xs[1..]);
    }
  }

  lemma {:induction false} InsertKeepsSorted(x: nat, xs: seq<nat>)
    requires IsSorted(xs)
    ensures IsSorted(InsertSorted(x, xs))
    ensures forall y :: y in InsertSorted(x, xs) ==> y == x || y in xs
  {
    if !(xs == [] || x <= xs[0]) {
      InsertKeepsSorted(x, xs[1..]);
      var ys := InsertSorted(x, xs[1..]);
      forall i | 0 <= i < |ys| ensures xs[0] <= ys[i] {
        assert ys[i] in ys;
      }
    }
  }

  lemma {:induction false} SortedIsSorted(xs: seq<nat>)
    ensures IsSorted(Sorted(xs)) && multiset(Sorted(xs)) == multiset(xs)
  {
    if xs != [] {
      SortedIsSorted(xs[1..]);
      InsertKeepsSorted(xs[0], Sorted(xs[1..]));
      InsertMultiset(xs[0], Sorted(xs[1..]));
      assert xs == [xs[0]] + xs[1..];
    }
  }

  lemma SameLeast(xs: seq<nat>, ys: seq<nat>)
    requires IsSorted(xs) && IsSorted(ys) && multiset(xs) == multiset(ys) && xs != [] && ys != []
    ensures xs[0] == ys[0]
  {
    assert xs[0] in multiset(ys) && ys[0] in multiset(xs);
  }

  lemma WithoutFirst(xs: seq<nat>)
    requires xs != []
    ensures multiset(xs[1..]) == multiset(xs) - multiset{xs[0]}
  {
    assert xs == [xs[0]] + xs[1..];
  }

  /** Two sorted lists of the same samples are the same list. */
  lemma {:induction false} SortedUnique(xs: seq<nat>, ys: seq<nat>)
    requires IsSorted(xs) && IsSorted(ys) && multiset(xs) == multiset(ys)
    ensures xs == ys
  {
    assert |xs| == |multiset(xs)| == |multiset(ys)| == |ys|;
    if xs != [] {
      SameLeast(xs, ys);
      WithoutFirst(xs);
      WithoutFirst(ys);
      SortedUnique(xs[1..], ys[1..]);
      assert xs == [xs[0]] + xs[1..] && ys == [ys[0]] + ys[1..];
    }
  }

  /** So sorting forgets the order in which samples came, for instance that of merging threads. */
  lemma SortForgetsOrder(xs: seq<nat>, ys: seq<nat>)
    requires multiset(xs) == multiset(ys)
    ensures Sorted(xs) == Sorted(ys)
  {
    SortedIsSorted(xs);
    SortedIsSorted(ys);
    SortedUnique(Sorted(xs), Sorted(ys));
  }

  // ---- percentiles ----

  function Ceil(x: real): int {
    -((-x).Floor)
  }

  /** The rank ceil(pn/100), in exact arithmetic. */
  function Rank(p: real, n: nat): int {
    Ceil(p / 100.0 * n as real)
  }

  /** The index percentile(p) reads, computed exactly. At p = 0 the subtraction wraps below zero in 64 bits, and the
      clamp brings it to the last index. */
  function PercentileIndex(p: real, n: nat): (i: nat)
    requires p >= 0.0 && n >= 1
    ensures i < n
  {
    RankNonNegative(p, n);
    var rank := Rank(p, n);
    var idx := if rank == 0 then U64 - 1 else rank - 1;
    if idx < n - 1 then idx else n - 1
  }

  lemma RankNonNegative(p: real, n: nat)
    requires p >= 0.0
    ensures Rank(p, n) >= 0
  {
  }

  function Percentile(xs: seq<nat>, p: real): nat
    requires p >= 0.0
  {
    if xs == [] then 0 else Sorted(xs)[PercentileIndex(p, |xs|)]
  }

  function Minimum(xs: seq<nat>): nat {
    if xs == [] then 0 else Sorted(xs)[0]
  }

  function Maximum(xs: seq<nat>): nat {
    if xs == [] then 0 else Sorted(xs)[|xs| - 1]
  }

  predicate IsLeast(xs: seq<nat>, v: nat) {
    v in xs && forall x :: x in xs ==> v <= x
  }

  predicate IsGreatest(xs: seq<nat>, v: nat) {
    v in xs && forall x :: x in xs ==> x <= v
  }

  /** They are the least and the greatest sample. */
  lemma ExtremesOf(xs: seq<nat>)
    requires xs != []
    ensures IsLeast(xs, Minimum(xs)) && IsGreatest(xs, Maximum(xs))
  {
    SortedIsSorted(xs);
    var ys := Sorted(xs);
    assert ys[0] in multiset(ys) && ys[|ys| - 1] in multiset(ys);
    forall x | x in xs ensures ys[0] <= x <= ys[|ys| - 1] {
      assert x in multiset(xs);
      assert x in ys;
    }
  }

  // ---- lazily sorted state ----

  /** The two fields of the histogram. */
  datatype Hist = Hist(samples: seq<nat>, sorted: bool)

  datatype Op = Record(x: nat) | Add(xs: seq<nat>) | Reset | Query(p: real) | Dump

  function Ensured(h: Hist): Hist {
    if h.sorted then h else Hist(Sorted(h.samples), true)
  }

  function After(h: Hist, op: Op): Hist {
    match op
    case Record(x) => Hist(h.samples + [x], false)
    case Add(xs) => Hist(h.samples + xs, false)
    case Reset => Hist([], false)
    case Query(_) => if h.samples == [] then h else Ensured(h)
    case Dump => Ensured(h)
  }

  /** The histogram after a list of calls on a fresh one. */
  function Replay(ops: seq<Op>): Hist {
    if ops == [] then Hist([], false) else After(Replay(ops[..|ops| - 1]), ops[|ops| - 1])
  }

  class LatencyHistogram {
    var samples: seq<nat>
    var sorted: bool

    ghost function Model(): Hist
      reads this
    {
      Hist(samples, sorted)
    }

    ghost predicate Valid()
      reads this
    {
      sorted ==> IsSorted(samples)
    }

    constructor ()
      ensures Valid() && Model() == Replay([])
    {
      samples, sorted := [], false;
    }

    method RecordLatency(latency: nat)
      modifies this
      ensures Valid() && Model() == After(old(Model()), Record(latency))
      ensures samples == old(samples) + [latency]
    {
      samples, sorted := samples + [latency], false;
    }

    method AddSamples(more: seq<nat>)
      modifies this
      ensures Valid() && Model() == After(old(Model()), Add(more))
      ensures samples == old(samples) + more
    {
      samples, sorted := samples + more, false;
    }

    method ResetAll()
      modifies this
      ensures Valid() && Model() == After(old(Model()), Reset)
      ensures samples == []
    {
      samples, sorted := [], false;
    }

    /** Whatever state the list was left in, it becomes the one sorted arrangement of what was recorded. */
    method EnsureSorted()
      requires Valid()
      modifies this
      ensures Valid() && Model() == Ensured(old(Model())) && samples == Sorted(old(samples))
    {
      SortedIsSorted(samples);
      if !sorted {
        samples := Sort(samples);
        sorted := true;
      } else {
        SortedUnique(samples, Sorted(samples));
      }
    }

    method PercentileQuery(p: real) returns (v: nat)
      requires Valid() && p >= 0.0
      modifies this
      ensures Valid() && Model() == After(old(Model()), Query(p)) && v == Percentile(old(samples), p)
      ensures old(samples) == [] ==> v == 0
    {
      if samples == [] {
        return 0;
      }
      EnsureSorted();
      var idx := PercentileIndex(p, |samples|);
      v := samples[idx];
    }

    method MinQuery() returns (v: nat)
      requires Valid()
      modifies this
      ensures Valid() && Model() == (if old(samples) == [] then old(Model()) else Ensured(old(Model())))
      ensures v == Minimum(old(samples))
      ensures if old(samples) == [] then v == 0 else IsLeast(old(samples), v)
    {
      if samples == [] {
        return 0;
      }
      ghost var was := samples;
      EnsureSorted();
      v := samples[0];
      assert v == Minimum(was) by { assert samples == Sorted(was); }
      ExtremesOf(was);
    }

    method MaxQuery() returns (v: nat)
      requires Valid()
      modifies this
      ensures Valid() && Model() == (if old(samples) == [] then old(Model()) else Ensured(old(Model())))
      ensures v == Maximum(old(samples))
      ensures if old(samples) == [] then v == 0 else IsGreatest(old(samples), v)
    {
      if samples == [] {
        return 0;
      }
      ghost var was := samples;
      EnsureSorted();
      v := samples[|samples| - 1];
      assert v == Maximum(was) by { assert samples == Sorted(was); }
      ExtremesOf(was);
    }
  }

  /** std::sort, by insertion. */
  method Sort(xs: seq<nat>) returns (ys: seq<nat>)
    ensures ys == Sorted(xs)
  {
    ys := [];
    var i := |xs|;
    while i > 0
      invariant 0 <= i <= |xs| && ys == Sorted(xs[i..])
    {
      i := i - 1;
      assert xs[i..][1..] == xs[i + 1..];
      ys := InsertSorted(xs[i], ys);
    }
  }

  // ---- histories of calls ----

  /** What one more call leaves recorded, */
  function RecordedAfter(before: multiset<nat>, op: Op): multiset<nat> {
    match op
    case Record(x) => before + multiset{x}
    case Add(xs) => before + multiset(xs)
    case Reset => multiset{}
    case Query(_) => before
    case Dump => before
  }

  /** and what the calls so far do. */
  function Recorded(ops: seq<Op>): multiset<nat> {
    if ops == [] then multiset{} else RecordedAfter(Recorded(ops[..|ops| - 1]), ops[|ops| - 1])
  }

  /** The value a query reads: the entry of the list after its own sort. */
  function Answer(h: Hist, p: real): nat
    requires p >= 0.0
  {
    if h.samples == [] then 0 else Ensured(h).samples[PercentileIndex(p, |h.samples|)]
  }

  lemma CallRefinesMultiset(h: Hist, op: Op)
    requires h.sorted ==> IsSorted(h.samples)
    ensures multiset(After(h, op).samples) == RecordedAfter(multiset(h.samples), op)
    ensures After(h, op).sorted ==> IsSorted(After(h, op).samples)
  {
    SortedIsSorted(h.samples);
  }

  /** After every history of calls the list is an arrangement of what is recorded, sorted whenever it says so. */
  lemma {:induction false} HistoryRefinesMultiset(ops: seq<Op>)
    ensures multiset(Replay(ops).samples) == Recorded(ops)
    ensures Replay(ops).sorted ==> IsSorted(Replay(ops).samples)
  {
    if ops != [] {
      HistoryRefinesMultiset(ops[..|ops| - 1]);
      CallRefinesMultiset(Replay(ops[..|ops| - 1]), ops[|ops| - 1]);
    }
  }

  /** So a query is a function of the recorded multiset alone: it answers what it would on any list of these samples, in
      whatever order they came and whether or not earlier queries have sorted the list. */
  lemma QueryDependsOnMultisetOnly(ops: seq<Op>, p: real, canonical: seq<nat>)
    requires p >= 0.0 && multiset(canonical) == Recorded(ops)
    ensures Answer(Replay(ops), p) == Percentile(canonical, p)
  {
    HistoryRefinesMultiset(ops);
    var h := Replay(ops);
    SortedIsSorted(h.samples);
    if h.sorted {
      SortedUnique(h.samples, Sorted(h.samples));
    }
    SortForgetsOrder(h.samples, canonical);
    assert |h.samples| == |multiset(h.samples)| == |multiset(canonical)| == |canonical|;
  }
}
