/** The closed-loop client: requests are dealt out to worker threads, which run independently and share only the
    atomic byte counter. */
module ClosedLoop {
  import opened Words
  import opened Message
  import opened Tally

  // ---- dealing out requests (TCP and Homa alike) ----

  function Share(total: nat, pool: nat, i: nat): nat
    requires pool >= 1
  {
    total / pool + (if i < total % pool then 1 else 0)
  }

  function Shares(total: nat, pool: nat, n: nat): seq<nat>
    requires pool >= 1
  {
    seq(n, (i: nat) => Share(total, pool, i))
  }

  lemma {:induction false} SharesClosed(q: nat, r: nat, n: nat, xs: seq<nat>)
    requires |xs| == n && forall i :: 0 <= i < n ==> xs[i] == q + (if i < r then 1 else 0)
    ensures Sum(xs) == n * q + (if n <= r then n else r)
  {
    if n > 0 {
      var ys := xs[..n - 1];
      SharesClosed(q, r, n - 1, ys);
      assert xs == ys + [xs[n - 1]];
      SumAppend(ys, [xs[n - 1]]);
      assert Sum([xs[n - 1]]) == xs[n - 1] + Sum([xs[n - 1]][1..]);
      assert n * q == (n - 1) * q + q;
    }
  }

  /** The shares add up to the whole and differ by at most one, the earlier workers having the larger ones. */
  lemma SharesExact(total: nat, pool: nat)
    requires pool >= 1
    ensures Sum(Shares(total, pool, pool)) == total
    ensures forall i: nat, j: nat :: i <= j < pool ==> 0 <= Share(total, pool, i) - Share(total, pool, j) <= 1
  {
    SharesClosed(total / pool, total % pool, pool, Shares(total, pool, pool));
  }

  // ---- the workers ----

  /** For each worker, the sizes it draws and the round-trip times it gets (0 for a failed request). */
  datatype Config = Config(pool: u32, num: u32, warmup: u32, sizes: seq<seq<u32>>, rtts: seq<seq<nat>>)

  function Warmup(c: Config): nat
    requires c.pool >= 1
  {
    c.warmup / c.pool
  }

  /** The bound of a worker's loop, a sum of two 32-bit numbers. */
  function Limit(c: Config, w: nat): nat
    requires c.pool >= 1
  {
    (Warmup(c) + Share(c.num, c.pool, w)) % U32
  }

  /** Every worker warms up with the same number of requests: together at most the number asked for, and short of it by
      fewer than there are workers. */
  lemma WarmupFloor(c: Config)
    requires c.pool >= 1
    ensures c.pool * Warmup(c) <= c.warmup < c.pool * Warmup(c) + c.pool
  {
  }

  predicate Valid(c: Config) {
    && c.pool >= 1 && |c.sizes| == |c.rtts| == c.pool
    && forall w :: 0 <= w < c.pool ==> |c.sizes[w]| == |c.rtts[w]| == Limit(c, w)
  }

  /** How many iterations each worker has done, the samples it has kept, and the shared counter. */
  datatype State = State(done: seq<nat>, samples: seq<seq<nat>>, totalBytes: u64)

  function Init(c: Config): State {
    State(seq(c.pool, i => 0), seq(c.pool, i => []), 0)
  }

  predicate Shaped(c: Config, s: State) {
    |s.done| == |s.samples| == c.pool
  }

  predicate Enabled(c: Config, s: State, w: nat) {
    && c.pool >= 1 && Shaped(c, s) && w < c.pool && |c.sizes| == |c.rtts| == c.pool
    && s.done[w] < Limit(c, w) && s.done[w] < |c.sizes[w]| && s.done[w] < |c.rtts[w]|
  }

  /** One iteration of worker w. */
  function Apply(c: Config, s: State, w: nat): State
    requires Enabled(c, s, w)
  {
    var i := s.done[w];
    var rtt := c.rtts[w][i];
    State(s.done[w := i + 1],
          if rtt > 0 && i >= Warmup(c) then s.samples[w := s.samples[w] + [rtt]] else s.samples,
          Add64(s.totalBytes, HEADER + c.sizes[w][i]))
  }

  /** A run: the workers in the order in which they complete iterations. */
  ghost predicate IsRun(c: Config, states: seq<State>, order: seq<nat>) {
    && |states| == |order| + 1
    && states[0] == Init(c)
    && forall i :: 0 <= i < |order| ==> Enabled(c, states[i], order[i]) && states[i + 1] == Apply(c, states[i], order[i])
  }

  /** One worker's loop, run by itself: the samples it keeps and the bytes it adds to the counter. */
  method ClosedLoopWorker(c: Config, w: nat) returns (samples: seq<nat>, bytes: nat)
    requires Valid(c) && w < c.pool
    ensures samples == Kept(c.rtts[w], Warmup(c), Limit(c, w))
    ensures bytes == Bytes(c.sizes[w], Limit(c, w))
  {
    samples, bytes := [], 0;
    var warmup, limit := Warmup(c), Limit(c, w);
    for i := 0 to limit
      invariant samples == Kept(c.rtts[w], warmup, i) && bytes == Bytes(c.sizes[w], i)
    {
      var rtt := c.rtts[w][i];
      if rtt > 0 && i >= warmup {
        samples := samples + [rtt];
      }
      bytes := bytes + HEADER + c.sizes[w][i];
    }
  }

  ghost predicate WorkerInv(c: Config, s: State, w: nat)
    requires Valid(c) && Shaped(c, s) && w < c.pool
  {
    s.done[w] <= Limit(c, w) && s.samples[w] == Kept(c.rtts[w], Warmup(c), s.done[w])
  }

  function DoneBytes(c: Config, done: seq<nat>): seq<nat>
    requires |done| == |c.sizes| && forall w :: 0 <= w < |done| ==> done[w] <= |c.sizes[w]|
  {
    seq(|done|, (w: nat) requires w < |done| => Bytes(c.sizes[w], done[w]))
  }

  ghost predicate Inv(c: Config, s: State)
    requires Valid(c)
  {
    && Shaped(c, s) && (forall w :: 0 <= w < c.pool ==> WorkerInv(c, s, w))
    && (forall w :: 0 <= w < c.pool ==> s.done[w] <= |c.sizes[w]|)
    && s.totalBytes == Sum(DoneBytes(c, s.done)) % U64
  }

  lemma BytesStep(sizes: seq<seq<u32>>, before: seq<nat>, after: seq<nat>, w: nat, i: nat, total: u64)
    requires w < |sizes| == |before| && i < |sizes[w]| && before[w] == Bytes(sizes[w], i)
    requires after == before[w := Bytes(sizes[w], i + 1)] && total == Sum(before) % U64
    ensures Add64(total, HEADER + sizes[w][i]) == Sum(after) % U64
  {
    SumUpdate(before, w, Bytes(sizes[w], i + 1));
    Wrap64(Sum(before), HEADER + sizes[w][i]);
  }

  lemma StepInv(c: Config, s: State, w: nat)
    requires Valid(c) && Inv(c, s) && Enabled(c, s, w)
    ensures Inv(c, Apply(c, s, w))
  {
    var s' := Apply(c, s, w);
    forall v | 0 <= v < c.pool ensures WorkerInv(c, s', v) {
      assert WorkerInv(c, s, v);
    }
    assert forall v :: 0 <= v < c.pool ==> s'.done[v] <= |c.sizes[v]|;
    assert DoneBytes(c, s'.done) == DoneBytes(c, s.done)[w := Bytes(c.sizes[w], s.done[w] + 1)];
    BytesStep(c.sizes, DoneBytes(c, s.done), DoneBytes(c, s'.done), w, s.done[w], s.totalBytes);
  }

  lemma InitInv(c: Config)
    requires Valid(c)
    ensures Inv(c, Init(c))
  {
    SumZero(DoneBytes(c, Init(c).done));
  }

  lemma {:induction false} RunInv(c: Config, states: seq<State>, order: seq<nat>, i: nat)
    requires Valid(c) && IsRun(c, states, order) && i <= |order|
    ensures Inv(c, states[i])
  {
    if i > 0 {
      RunInv(c, states, order, i - 1);
      StepInv(c, states[i - 1], order[i - 1]);
    } else {
      InitInv(c);
    }
  }

  // ---- the accounts ----

  ghost predicate Joined(c: Config, s: State)
    requires c.pool >= 1
  {
    |s.done| == c.pool && forall w :: 0 <= w < c.pool ==> s.done[w] == Limit(c, w)
  }

  /** The bytes of each worker's iterations. */
  function AllBytes(c: Config): seq<nat>
    requires Valid(c)
  {
    seq(c.pool, (w: nat) requires w < c.pool => Bytes(c.sizes[w], Limit(c, w)))
  }

  /** The iterations are as many as the steps taken, */
  lemma {:induction false} StepsAreIterations(c: Config, states: seq<State>, order: seq<nat>, i: nat)
    requires Valid(c) && IsRun(c, states, order) && i <= |order|
    ensures |states[i].done| == c.pool && Sum(states[i].done) == i
  {
    if i > 0 {
      StepsAreIterations(c, states, order, i - 1);
      SumUpdate(states[i - 1].done, order[i - 1], states[i - 1].done[order[i - 1]] + 1);
    } else {
      SumZero(Init(c).done);
    }
  }

  /** and a worker that is not through can always take the next. */
  lemma WorkerCanGoOn(c: Config, states: seq<State>, order: seq<nat>, i: nat, w: nat)
    requires Valid(c) && IsRun(c, states, order) && i <= |order| && w < c.pool
    ensures Shaped(c, states[i]) && (Enabled(c, states[i], w) <==> states[i].done[w] < Limit(c, w))
  {
    RunInv(c, states, order, i);
  }

  function Lengths(ss: seq<seq<nat>>): seq<nat> {
    seq(|ss|, (i: nat) requires i < |ss| => |ss[i]|)
  }

  lemma {:induction false} SumCompare(xs: seq<nat>, ys: seq<nat>)
    requires |xs| == |ys| && forall i :: 0 <= i < |xs| ==> xs[i] <= ys[i]
    ensures Sum(xs) <= Sum(ys) && (Sum(xs) == Sum(ys) <==> xs == ys)
  {
    if xs != [] {
      SumCompare(xs[1..], ys[1..]);
      assert xs == [xs[0]] + xs[1..] && ys == [ys[0]] + ys[1..];
    }
  }

  /** The 32-bit loop bound is exact unless a single worker is asked for 2^32 requests or more. */
  predicate FitsWord(c: Config) {
    c.pool >= 2 || c.warmup + c.num < U32
  }

  lemma LimitExact(c: Config, w: nat)
    requires c.pool >= 1 && w < c.pool
    ensures if FitsWord(c) then Limit(c, w) == Warmup(c) + Share(c.num, c.pool, w)
            else Limit(c, w) < Warmup(c) && Share(c.num, c.pool, w) > 0
  {
    if c.pool >= 2 {
      HalfAtMost(c.warmup, c.pool);
      HalfAtMost(c.num, c.pool);
      if c.num / c.pool == c.num / 2 {
        EqualHalves(c.num, c.pool);
      }
    }
  }

  lemma HalfAtMost(x: nat, p: nat)
    requires p >= 2
    ensures x / p <= x / 2
  {
    var q := x / p;
    assert q * p >= q * 2;
  }

  lemma EqualHalves(x: nat, p: nat)
    requires p >= 2 && x / p == x / 2 && x < U32
    ensures x / p + 1 + (U32 - 1) / 2 < U32
  {
  }

  /** A worker's iterations are its warm-up and its share. */
  lemma {:induction false} SumShifted(xs: seq<nat>, ys: seq<nat>, k: nat)
    requires |xs| == |ys| && forall i :: 0 <= i < |xs| ==> xs[i] == k + ys[i]
    ensures Sum(xs) == |xs| * k + Sum(ys)
  {
    if xs != [] {
      SumShifted(xs[1..], ys[1..], k);
      assert |xs| * k == (|xs| - 1) * k + k;
    }
  }

  /** All iterations together: the requests asked for, and of the warm-up all but fewer than there are workers. */
  lemma Iterations(c: Config, done: seq<nat>)
    requires c.pool >= 1 && FitsWord(c) && |done| == c.pool && forall w :: 0 <= w < c.pool ==> done[w] == Limit(c, w)
    ensures c.num + c.warmup - c.pool < Sum(done) <= c.num + c.warmup
  {
    var shares := Shares(c.num, c.pool, c.pool);
    forall w | 0 <= w < c.pool ensures done[w] == Warmup(c) + shares[w] {
      LimitExact(c, w);
    }
    SumShifted(done, shares, Warmup(c));
    SharesExact(c.num, c.pool);
    WarmupFloor(c);
  }

  /** Closed-loop accounting, for every interleaving: once the workers are joined, the byte counter is that of all
      iterations; the number of samples never exceeds the requests asked for, and equals it exactly when every request
      past the warm-up was answered with a positive time (and the loop bounds fit their 32-bit words). And the iterations
      are the requests asked for with the warm-up, short of it by fewer than there are workers. */
  lemma Accounts(c: Config, states: seq<State>, order: seq<nat>, i: nat)
    requires Valid(c) && IsRun(c, states, order) && i <= |order| && Joined(c, states[i])
    ensures states[i].totalBytes == Sum(AllBytes(c)) % U64
    ensures FitsWord(c) ==> c.num + c.warmup - c.pool < Sum(states[i].done) <= c.num + c.warmup
    ensures Sum(Lengths(states[i].samples)) <= c.num
    ensures Sum(Lengths(states[i].samples)) == c.num <==>
      (FitsWord(c) && forall w, k :: 0 <= w < c.pool && Warmup(c) <= k < |c.rtts[w]| ==> c.rtts[w][k] > 0)
  {
    RunInv(c, states, order, i);
    var s := states[i];
    assert DoneBytes(c, s.done) == AllBytes(c);
    if FitsWord(c) {
      Iterations(c, s.done);
    }
    var lens, shares := Lengths(s.samples), Shares(c.num, c.pool, c.pool);
    SharesExact(c.num, c.pool);
    forall w | 0 <= w < c.pool
      ensures lens[w] <= shares[w]
      ensures lens[w] == shares[w] <==> FitsWord(c) && forall k :: Warmup(c) <= k < |c.rtts[w]| ==> c.rtts[w][k] > 0
    {
      assert WorkerInv(c, s, w);
      LimitExact(c, w);
      KeptBound(c.rtts[w], Warmup(c), Limit(c, w));
    }
    SumCompare(lens, shares);
    if lens == shares {
      assert lens[0] == shares[0];
      forall w, k | 0 <= w < c.pool && Warmup(c) <= k < |c.rtts[w]| ensures c.rtts[w][k] > 0 {
        assert lens[w] == shares[w];
      }
    }
  }
}
