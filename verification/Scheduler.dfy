/** Which connection a message goes to: PriorityScheduler, with its one wrapping 32-bit counter, and the size bands of
    WorkloadGenerator. */
module Scheduler {
  import opened Words

  datatype Policy = RoundRobin | SizeAware | Random

  const SMALL_LIMIT := 4096

  function PriorityForSize(size: u32): byte {
    if size <= 256 then 7
    else if size <= 1024 then 6
    else if size <= 4096 then 5
    else if size <= 16384 then 4
    else if size <= 65536 then 3
    else if size <= 262144 then 2
    else if size <= 1048576 then 1
    else 0
  }

  function LargePool(pool: u32): nat
    requires pool >= 1
  {
    if pool / 4 > 1 then pool / 4 else 1
  }

  function SmallPool(pool: u32): nat
    requires pool >= 1
  {
    pool - LargePool(pool)
  }

  /** The remainder taken is by a positive number: size_aware with one connection has no room for small messages. */
  predicate CanSelect(policy: Policy, pool: u32, size: u32) {
    pool >= 1 && (policy.SizeAware? && size <= SMALL_LIMIT ==> pool >= 2)
  }

  /** The connections a message may go to: `Width` of them from `First` on. */
  function First(policy: Policy, pool: u32, size: u32): nat
    requires pool >= 1
  {
    if policy.SizeAware? && size > SMALL_LIMIT then SmallPool(pool) else 0
  }

  function Width(policy: Policy, pool: u32, size: u32): nat
    requires pool >= 1
  {
    if policy.SizeAware? then (if size > SMALL_LIMIT then LargePool(pool) else SmallPool(pool)) else pool
  }

  /** A possible choice for a message when the counter stands at `counter`. */
  predicate Choice(policy: Policy, pool: u32, counter: u32, size: u32, i: nat)
    requires CanSelect(policy, pool, size)
  {
    if policy.Random? then i < pool
    else i == First(policy, pool, size) + counter % Width(policy, pool, size)
  }

  function NextCounter(policy: Policy, counter: u32): u32 {
    if policy.Random? then counter else Add32(counter, 1)
  }

  /** Every choice is a connection of the pool; under size_aware the lower connections get exactly the small messages,
      which are exactly those of priority 5 and above. */
  lemma ChoiceSeparatesSizes(policy: Policy, pool: u32, counter: u32, size: u32, i: nat)
    requires CanSelect(policy, pool, size) && Choice(policy, pool, counter, size, i)
    ensures i < pool
    ensures policy.SizeAware? ==> (i < SmallPool(pool) <==> size <= SMALL_LIMIT)
    ensures size <= SMALL_LIMIT <==> PriorityForSize(size) >= 5
  {
  }

  /** Each connection of a message's share is chosen at some counter value, and no other is at any. */
  lemma ShareIsReached(policy: Policy, pool: u32, size: u32, i: nat)
    requires !policy.Random? && CanSelect(policy, pool, size)
    ensures (exists counter: u32 :: Choice(policy, pool, counter, size, i))
       <==> First(policy, pool, size) <= i < First(policy, pool, size) + Width(policy, pool, size)
  {
    var b, w := First(policy, pool, size), Width(policy, pool, size);
    if b <= i < b + w {
      var counter: u32 := i - b;
      SmallRemainder(counter, w);
      assert Choice(policy, pool, counter, size, i);
    }
  }

  lemma SmallRemainder(x: nat, w: nat)
    requires x < w
    ensures x % w == x
  {
  }

  /** Under size_aware large messages share the last quarter of the pool, rounded down, but at least one connection; */
  lemma LargeShare(pool: u32, size: u32, i: nat)
    requires pool >= 2 && size > 4096
    ensures (exists counter: u32 :: Choice(SizeAware, pool, counter, size, i))
       <==> i < pool && (i == pool - 1 || 4 * (pool - i) <= pool)
  {
    ShareIsReached(SizeAware, pool, size, i);
  }

  /** and the small messages all the others. */
  lemma SmallShare(pool: u32, size: u32, i: nat)
    requires pool >= 2 && size <= 4096
    ensures (exists counter: u32 :: Choice(SizeAware, pool, counter, size, i))
       <==> i < pool - 1 && 4 * (pool - i) > pool
  {
    ShareIsReached(SizeAware, pool, size, i);
  }

  /** Round robin uses every connection of the pool. */
  lemma WholePool(pool: u32, size: u32, i: nat)
    requires pool >= 1
    ensures (exists counter: u32 :: Choice(RoundRobin, pool, counter, size, i)) <==> i < pool
  {
    ShareIsReached(RoundRobin, pool, size, i);
  }

  /** The bands of sizes behind the priorities: p is that of the sizes up to 256 * 4^(7-p), unless p is 0, and above
      256 * 4^(6-p), unless p is 7. */
  lemma PriorityBands(size: u32)
    ensures var p := PriorityForSize(size);
      && p <= 7
      && (p >= 1 ==> size <= 256 * FourTo(7 - p))
      && (p <= 6 ==> size > 256 * FourTo(6 - p))
  {
    assert FourTo(0) == 1;
    assert FourTo(2) == 16;
    assert FourTo(4) == 4 * (4 * FourTo(2));
    assert FourTo(6) == 4 * (4 * FourTo(4));
    assert FourTo(1) == 4 && FourTo(3) == 4 * FourTo(2) && FourTo(5) == 4 * FourTo(4);
  }

  function FourTo(n: nat): nat {
    if n == 0 then 1 else 4 * FourTo(n - 1)
  }

  class PriorityScheduler {
    const policy: Policy
    const poolSize: u32
    var rrCounter: u32

    constructor (policy: Policy, poolSize: u32)
      ensures this.policy == policy && this.poolSize == poolSize && rrCounter == 0
    {
      this.policy, this.poolSize, this.rrCounter := policy, poolSize, 0;
    }

    method Select(size: u32) returns (i: nat)
      requires CanSelect(policy, poolSize, size)
      modifies this`rrCounter
      ensures Choice(policy, poolSize, old(rrCounter), size, i) && i < poolSize
      ensures rrCounter == NextCounter(policy, old(rrCounter))
    {
      match policy
      case RoundRobin => i := RoundRobinNext();
      case SizeAware => i := SizeAwareNext(size);
      case Random => i :| 0 <= i < poolSize;
    }

    method RoundRobinNext() returns (i: nat)
      requires poolSize >= 1
      modifies this`rrCounter
      ensures i == old(rrCounter) % poolSize && rrCounter == Add32(old(rrCounter), 1)
    {
      var was := rrCounter;
      rrCounter := Add32(rrCounter, 1);
      i := was % poolSize;
    }

    method SizeAwareNext(size: u32) returns (i: nat)
      requires CanSelect(SizeAware, poolSize, size)
      modifies this`rrCounter
      ensures Choice(SizeAware, poolSize, old(rrCounter), size, i) && i < poolSize
      ensures rrCounter == Add32(old(rrCounter), 1)
    {
      var largePool := if poolSize / 4 > 1 then poolSize / 4 else 1;
      var smallPool := poolSize - largePool;
      var was := rrCounter;
      rrCounter := Add32(rrCounter, 1);
      if size > SMALL_LIMIT {
        i := smallPool + was % largePool;
      } else {
        i := was % smallPool;
      }
    }
  }

  // ---- balance ----

  /** The choices for a list of messages, from a given counter on. */
  ghost predicate Choices(policy: Policy, pool: u32, start: u32, sizes: seq<u32>, picks: seq<nat>) {
    && !policy.Random? && |picks| == |sizes|
    && forall k :: 0 <= k < |sizes| ==>
         CanSelect(policy, pool, sizes[k]) && Choice(policy, pool, (start + k) % U32, sizes[k], picks[k])
  }

  function Count(picks: seq<nat>, i: nat): nat {
    if picks == [] then 0
    else Count(picks[..|picks| - 1], i) + (if picks[|picks| - 1] == i then 1 else 0)
  }

  /** Of n successive values of a counter modulo m, from `start` on, how many leave remainder j modulo w. */
  function Hits(m: nat, w: nat, start: nat, n: nat, j: nat): nat
    requires m >= 1 && w >= 1
  {
    if n == 0 then 0
    else Hits(m, w, start, n - 1, j) + (if (start + n - 1) % m % w == j then 1 else 0)
  }

  /** Of the numbers below x, how many leave remainder j modulo w. */
  function Below(w: nat, x: nat, j: nat): nat
    requires w >= 1
  {
    x / w + (if j < x % w then 1 else 0)
  }

  lemma DivModUnique(x: int, w: int, q: int, r: int)
    requires w >= 1 && x == q * w + r && 0 <= r < w
    ensures x / w == q && x % w == r
  {
    var q', r' := x / w, x % w;
    assert x == q' * w + r';
    assert (q - q') * w == r' - r;
    if q > q' {
      assert (q - q') * w >= w by { MulAtLeast(q - q', w); }
    } else if q < q' {
      assert (q' - q) * w >= w by { MulAtLeast(q' - q, w); }
    }
  }

  lemma MulAtLeast(k: int, w: int)
    requires k >= 1 && w >= 1
    ensures k * w >= w
  {
  }

  lemma SuccDivMod(x: nat, w: nat)
    requires w >= 1
    ensures x % w + 1 < w ==> (x + 1) / w == x / w && (x + 1) % w == x % w + 1
    ensures x % w + 1 == w ==> (x + 1) / w == x / w + 1 && (x + 1) % w == 0
  {
    if x % w + 1 < w {
      DivModUnique(x + 1, w, x / w, x % w + 1);
    } else {
      DivModUnique(x + 1, w, x / w + 1, 0);
    }
  }

  lemma BelowSucc(w: nat, x: nat, j: nat)
    requires w >= 1 && j < w
    ensures Below(w, x + 1, j) == Below(w, x, j) + One(x % w == j)
  {
    SuccDivMod(x, w);
  }

  function One(b: bool): nat {
    if b then 1 else 0
  }

  /** Without a wrap, hits are a difference of two counts. */
  lemma {:induction false} HitsNoWrap(m: nat, w: nat, start: nat, n: nat, j: nat)
    requires w >= 1 && j < w && m >= 1 && start + n <= m
    ensures Hits(m, w, start, n, j) == Below(w, start + n, j) - Below(w, start, j)
  {
    if n > 0 {
      var x := start + n - 1;
      HitsNoWrap(m, w, start, n - 1, j);
      BelowSucc(w, x, j);
      HitsStep(m, w, start, n, j, 0, x);
    }
  }

  lemma HitsStep(m: nat, w: nat, start: nat, n: nat, j: nat, q: nat, r: nat)
    requires w >= 1 && n > 0 && r < m && start + n - 1 == q * m + r
    ensures Hits(m, w, start, n, j) == Hits(m, w, start, n - 1, j) + One(r % w == j)
  {
    DivModUnique(start + n - 1, m, q, r);
  }

  /** After q full turns, the next r values of the counter are the numbers below r. */
  lemma {:induction false} HitsWithinTurn(m: nat, w: nat, q: nat, full: nat, r: nat, j: nat)
    requires w >= 1 && j < w && m >= 1 && r <= m && full == q * m
    ensures Hits(m, w, 0, full + r, j) == Hits(m, w, 0, full, j) + Below(w, r, j)
  {
    if r > 0 {
      HitsWithinTurn(m, w, q, full, r - 1, j);
      HitsStep(m, w, 0, full + r, j, q, r - 1);
      BelowSucc(w, r - 1, j);
    } else {
      BelowZero(w, j);
    }
  }

  /** With wraps, every full turn of the counter adds the same count. */
  lemma {:induction false} HitsWithWraps(m: nat, w: nat, q: nat, r: nat, j: nat)
    requires w >= 1 && j < w && m >= 1 && r <= m
    ensures Hits(m, w, 0, q * m + r, j) == q * Below(w, m, j) + Below(w, r, j)
    decreases q
  {
    HitsWithinTurn(m, w, q, q * m, r, j);
    if q > 0 {
      HitsWithWraps(m, w, q - 1, m, j);
      MulPred(q, m);
      MulPred(q, Below(w, m, j));
    }
  }

  lemma MulPred(q: int, x: int)
    ensures q * x == (q - 1) * x + x
  {
  }

  lemma BelowZero(w: nat, j: nat)
    requires w >= 1
    ensures Below(w, 0, j) == 0
  {
  }

  /** Messages of the class of `size`. */
  predicate SameClass(sizes: seq<u32>, size: u32) {
    forall k :: 0 <= k < |sizes| ==> (sizes[k] > SMALL_LIMIT <==> size > SMALL_LIMIT)
  }

  lemma {:induction false} CountIsHits(policy: Policy, pool: u32, start: u32, sizes: seq<u32>, picks: seq<nat>,
                                       size: u32, j: nat)
    requires CanSelect(policy, pool, size) && Choices(policy, pool, start, sizes, picks)
    requires policy.SizeAware? ==> SameClass(sizes, size)
    ensures Count(picks, First(policy, pool, size) + j) == Hits(U32, Width(policy, pool, size), start, |picks|, j)
  {
    if |picks| > 0 {
      var n := |picks| - 1;
      var b, w := First(policy, pool, size), Width(policy, pool, size);
      CountIsHits(policy, pool, start, sizes[..n], picks[..n], size, j);
      assert picks[n] == b + (start + n) % U32 % w by {
        assert Choice(policy, pool, (start + n) % U32, sizes[n], picks[n]);
      }
    }
  }

  /** Round robin from a fresh scheduler: a later connection is never ahead of an earlier one, and trails it by at most
      one more than the number of times the 32-bit counter has wrapped. */
  lemma RoundRobinBalance(pool: u32, sizes: seq<u32>, picks: seq<nat>, i: nat, j: nat)
    requires pool >= 1 && Choices(RoundRobin, pool, 0, sizes, picks) && i < j < pool
    ensures 0 <= Count(picks, i) - Count(picks, j) <= 1 + |picks| / U32
  {
    CountIsHits(RoundRobin, pool, 0, sizes, picks, 0, i);
    CountIsHits(RoundRobin, pool, 0, sizes, picks, 0, j);
    TurnsBound(U32, pool, |picks| / U32, |picks| % U32, i, j);
  }

  /** q full turns each put an earlier connection at most one ahead, and so does an unfinished last turn. */
  lemma TurnsBound(m: nat, w: nat, q: nat, r: nat, i: nat, j: nat)
    requires m >= 1 && r <= m && i < j < w
    ensures 0 <= Hits(m, w, 0, q * m + r, i) - Hits(m, w, 0, q * m + r, j) <= 1 + q
    ensures m % w == 0 ==> Hits(m, w, 0, q * m + r, i) - Hits(m, w, 0, q * m + r, j) <= 1
  {
    HitsWithWraps(m, w, q, r, i);
    HitsWithWraps(m, w, q, r, j);
    BelowOrdered(w, m, i, j);
    BelowOrdered(w, r, i, j);
    MulGap(q, Below(w, m, i), Below(w, m, j));
  }

  lemma BelowOrdered(w: nat, x: nat, i: nat, j: nat)
    requires w >= 1 && i < j
    ensures Below(w, x, i) == Below(w, x, j) || Below(w, x, i) == Below(w, x, j) + 1
    ensures x % w == 0 ==> Below(w, x, i) == Below(w, x, j)
  {
  }

  lemma MulGap(q: nat, x: int, y: int)
    requires x == y || x == y + 1
    ensures q * x - q * y == if x == y then 0 else q
  {
  }

  /** Connection counts of round robin never differ by more than one, however many messages are sent. */
  ghost predicate AlwaysBalanced(pool: nat)
    requires pool >= 1
  {
    forall n: nat, i: nat, j: nat | i < pool && j < pool ::
      Hits(U32, pool, 0, n, i) - Hits(U32, pool, 0, n, j) <= 1
  }

  /** Exactly the pool sizes that divide 2^32 stay balanced for ever; for every other, two turns of the counter put the
      first connection two messages ahead of the last. */
  lemma BalancedIffDividesWord(pool: u32)
    requires pool >= 1
    ensures AlwaysBalanced(pool) <==> U32 % pool == 0
    ensures U32 % pool != 0 ==> Hits(U32, pool, 0, 2 * U32, 0) - Hits(U32, pool, 0, 2 * U32, pool - 1) == 2
  {
    if U32 % pool == 0 {
      forall n: nat, i: nat, j: nat | i < pool && j < pool
        ensures Hits(U32, pool, 0, n, i) - Hits(U32, pool, 0, n, j) <= 1
      {
        if i < j {
          TurnsBound(U32, pool, n / U32, n % U32, i, j);
        } else if j < i {
          TurnsBound(U32, pool, n / U32, n % U32, j, i);
        }
      }
    } else {
      HitsWithWraps(U32, pool, 2, 0, 0);
      HitsWithWraps(U32, pool, 2, 0, pool - 1);
      BelowZero(pool, 0);
      BelowZero(pool, pool - 1);
    }
  }

  /** A run of messages of one class that the counter passes without wrapping spreads evenly over that class's
      connections, from any counter value. */
  lemma SameClassBalance(policy: Policy, pool: u32, start: u32, sizes: seq<u32>, picks: seq<nat>, size: u32,
                         i: nat, j: nat)
    requires CanSelect(policy, pool, size) && Choices(policy, pool, start, sizes, picks)
    requires policy.SizeAware? ==> SameClass(sizes, size)
    requires start + |sizes| <= U32
    requires i < Width(policy, pool, size) && j < Width(policy, pool, size)
    ensures var b := First(policy, pool, size); -1 <= Count(picks, b + i) - Count(picks, b + j) <= 1
  {
    var w := Width(policy, pool, size);
    CountIsHits(policy, pool, start, sizes, picks, size, i);
    CountIsHits(policy, pool, start, sizes, picks, size, j);
    HitsNoWrap(U32, w, start, |picks|, i);
    HitsNoWrap(U32, w, start, |picks|, j);
  }

  /** In particular any wrap-free run of small messages spreads evenly over the small connections, and none of it goes
      to a large one; */
  lemma SmallMessagesBalance(pool: u32, start: u32, sizes: seq<u32>, picks: seq<nat>)
    requires pool >= 2 && Choices(SizeAware, pool, start, sizes, picks) && start + |sizes| <= U32
    requires forall k :: 0 <= k < |sizes| ==> sizes[k] <= SMALL_LIMIT
    ensures forall i: nat, j: nat | i < SmallPool(pool) && j < SmallPool(pool) ::
      -1 <= Count(picks, i) - Count(picks, j) <= 1
    ensures forall k :: 0 <= k < |picks| ==> picks[k] < SmallPool(pool)
  {
    forall i: nat, j: nat | i < SmallPool(pool) && j < SmallPool(pool)
      ensures -1 <= Count(picks, i) - Count(picks, j) <= 1
    {
      SameClassBalance(SizeAware, pool, start, sizes, picks, 0, i, j);
    }
    InClass(pool, start, sizes, picks);
  }

  /** and any wrap-free run of large messages over the large connections. */
  lemma LargeMessagesBalance(pool: u32, start: u32, sizes: seq<u32>, picks: seq<nat>)
    requires pool >= 1 && Choices(SizeAware, pool, start, sizes, picks) && start + |sizes| <= U32
    requires forall k :: 0 <= k < |sizes| ==> sizes[k] > SMALL_LIMIT
    ensures forall i: nat, j: nat | SmallPool(pool) <= i < pool && SmallPool(pool) <= j < pool ::
      -1 <= Count(picks, i) - Count(picks, j) <= 1
    ensures forall k :: 0 <= k < |picks| ==> SmallPool(pool) <= picks[k] < pool
  {
    var b := SmallPool(pool);
    forall i: nat, j: nat | b <= i < pool && b <= j < pool
      ensures -1 <= Count(picks, i) - Count(picks, j) <= 1
    {
      SameClassBalance(SizeAware, pool, start, sizes, picks, SMALL_LIMIT + 1, i - b, j - b);
    }
    InClass(pool, start, sizes, picks);
  }

  lemma InClass(pool: u32, start: u32, sizes: seq<u32>, picks: seq<nat>)
    requires pool >= 1 && Choices(SizeAware, pool, start, sizes, picks)
    ensures forall k :: 0 <= k < |picks| ==>
      picks[k] < pool && (picks[k] < SmallPool(pool) <==> sizes[k] <= SMALL_LIMIT)
  {
    forall k | 0 <= k < |picks|
      ensures picks[k] < pool && (picks[k] < SmallPool(pool) <==> sizes[k] <= SMALL_LIMIT)
    {
      ChoiceSeparatesSizes(SizeAware, pool, (start + k) % U32, sizes[k], picks[k]);
    }
  }

  lemma EvenRemainder(x: nat, w: nat)
    requires w >= 1 && w % 2 == 0
    ensures x % w % 2 == x % 2
  {
    var h, q, r := w / 2, x / w, x % w;
    assert x == q * w + r;
    assert q * w == 2 * (q * h) by { assert w == 2 * h; }
    assert x == 2 * (q * h) + r;
  }

  // ---- both classes on one counter ----

  /** Within each class of connections the counts differ by at most one. */
  ghost predicate EvenInClasses(pool: u32, picks: seq<nat>)
    requires pool >= 1
  {
    forall i: nat, j: nat | i < pool && j < pool && (i < SmallPool(pool) <==> j < SmallPool(pool)) ::
      Count(picks, i) - Count(picks, j) <= 1
  }

  /** Every wrap-free size_aware run from a fresh counter spreads evenly within each class, however sizes mix. */
  ghost predicate AlwaysEvenInClasses(pool: u32)
    requires pool >= 1
  {
    forall sizes: seq<u32>, picks: seq<nat> | Choices(SizeAware, pool, 0, sizes, picks) && |sizes| <= U32 ::
      EvenInClasses(pool, picks)
  }

  /** Mixed sizes spread evenly within their classes exactly if the pool has at most two connections, so that no class
      has two: both classes draw from one counter, and three connections are enough for messages of the one to spoil the
      turns of the other. */
  lemma EvenInClassesIffTiny(pool: u32)
    requires pool >= 1
    ensures AlwaysEvenInClasses(pool) <==> pool <= 2
  {
    if pool >= 3 {
      var sizes, picks := Uneven(pool);
      assert Choices(SizeAware, pool, 0, sizes, picks) && !EvenInClasses(pool, picks) by {
        assert Count(picks, 0) - Count(picks, 1) == 2;
      }
    } else {
      forall sizes: seq<u32>, picks: seq<nat> | Choices(SizeAware, pool, 0, sizes, picks) && |sizes| <= U32
        ensures EvenInClasses(pool, picks)
      {
        forall i: nat, j: nat | i < pool && j < pool && (i < SmallPool(pool) <==> j < SmallPool(pool))
          ensures Count(picks, i) - Count(picks, j) <= 1
        {
          assert i == j;
        }
      }
    }
  }

  /** With s small connections, one small message at counter 0, large ones until s, and a small one again: both small
      ones go to connection 0. */
  lemma Uneven(pool: u32) returns (sizes: seq<u32>, picks: seq<nat>)
    requires pool >= 3
    ensures |sizes| <= U32 && Choices(SizeAware, pool, 0, sizes, picks)
    ensures 1 < SmallPool(pool) && Count(picks, 0) == 2 && Count(picks, 1) == 0
  {
    sizes, picks := UnevenSizes(pool), UnevenPicks(pool);
    UnevenIsRun(pool);
    UnevenCounts(pool);
  }

  function UnevenSizes(pool: u32): seq<u32>
    requires pool >= 3
  {
    [100] + seq(SmallPool(pool) - 1, k => 5000) + [100]
  }

  function UnevenPicks(pool: u32): seq<nat>
    requires pool >= 3
  {
    var s := SmallPool(pool);
    [0] + seq(s - 1, (k: nat) => s + (k + 1) % LargePool(pool)) + [0]
  }

  lemma UnevenIsRun(pool: u32)
    requires pool >= 3
    ensures |UnevenSizes(pool)| <= U32 && Choices(SizeAware, pool, 0, UnevenSizes(pool), UnevenPicks(pool))
  {
    var sizes, picks := UnevenSizes(pool), UnevenPicks(pool);
    forall k | 0 <= k < |sizes|
      ensures CanSelect(SizeAware, pool, sizes[k]) && Choice(SizeAware, pool, (0 + k) % U32, sizes[k], picks[k])
    {
      OneOfUneven(pool, k);
    }
  }

  lemma UnevenCounts(pool: u32)
    requires pool >= 3
    ensures 1 < SmallPool(pool) && Count(UnevenPicks(pool), 0) == 2 && Count(UnevenPicks(pool), 1) == 0
  {
    var s := SmallPool(pool);
    var turns := seq(s - 1, (k: nat) => s + (k + 1) % LargePool(pool));
    CountEnds(turns, 0, 0, 0);
    CountEnds(turns, 0, 0, 1);
    NeverChosen(turns, 0);
    NeverChosen(turns, 1);
    assert UnevenPicks(pool) == [0] + turns + [0];
  }

  /** The choices of that run, message by message. */
  lemma OneOfUneven(pool: u32, k: nat)
    requires pool >= 3 && k <= SmallPool(pool)
    ensures SmallPool(pool) >= 2 && k % U32 == k
    ensures k == 0 || k == SmallPool(pool) ==> Choice(SizeAware, pool, k, 100, 0)
    ensures Choice(SizeAware, pool, k, 5000, SmallPool(pool) + k % LargePool(pool))
  {
    if k == SmallPool(pool) {
      DivModUnique(k, SmallPool(pool), 1, 0);
    }
  }

  lemma CountEnds(picks: seq<nat>, x: nat, y: nat, i: nat)
    ensures Count([x] + picks + [y], i) == One(x == i) + Count(picks, i) + One(y == i)
  {
    assert ([x] + picks + [y])[..|picks| + 1] == [x] + picks;
    CountCons(x, picks, i);
  }

  lemma {:induction false} CountCons(x: nat, picks: seq<nat>, i: nat)
    ensures Count([x] + picks, i) == One(x == i) + Count(picks, i)
  {
    if picks == [] {
      assert [x] + picks == [x] && [x][..0] == [];
    } else {
      assert ([x] + picks)[..|picks|] == [x] + picks[..|picks| - 1];
      CountCons(x, picks[..|picks| - 1], i);
    }
  }

  /** Small and large messages in turn, a small one first. */
  predicate Alternating(sizes: seq<u32>) {
    forall k :: 0 <= k < |sizes| ==> (sizes[k] > SMALL_LIMIT <==> k % 2 == 1)
  }

  /** And the gap has no bound: when small and large messages alternate and the large connections are even in number, the
      first of them never gets a message. */
  lemma SharedCounterStarves(pool: u32, sizes: seq<u32>, picks: seq<nat>)
    requires pool >= 2 && LargePool(pool) % 2 == 0 && Choices(SizeAware, pool, 0, sizes, picks)
    requires Alternating(sizes)
    ensures forall k :: 0 <= k < |picks| ==> picks[k] != SmallPool(pool)
    ensures Count(picks, SmallPool(pool)) == 0
  {
    forall k | 0 <= k < |picks| ensures picks[k] != SmallPool(pool) {
      assert Choice(SizeAware, pool, k % U32, sizes[k], picks[k]);
      if k % 2 == 1 {
        EvenRemainder(k, U32);
        EvenRemainder(k % U32, LargePool(pool));
      } else {
        ChoiceSeparatesSizes(SizeAware, pool, k % U32, sizes[k], picks[k]);
      }
    }
    NeverChosen(picks, SmallPool(pool));
  }

  lemma {:induction false} NeverChosen(picks: seq<nat>, i: nat)
    requires forall k :: 0 <= k < |picks| ==> picks[k] != i
    ensures Count(picks, i) == 0
  {
    if picks != [] {
      NeverChosen(picks[..|picks| - 1], i);
    }
  }

  /** Such runs exist with a gap as wide as you like: of n alternating messages over 8 connections, 2 of them large, the
      first large connection gets none and the second all n/2 large ones. */
  lemma StarvedRun(n: nat) returns (sizes: seq<u32>, picks: seq<nat>)
    ensures |sizes| == n && Alternating(sizes) && Choices(SizeAware, 8, 0, sizes, picks)
    ensures SmallPool(8) == 6 && Count(picks, 6) == 0 && Count(picks, 7) == n / 2
  {
    sizes, picks := seq(n, (k: nat) => AltSize(k)), AltPicks(n);
    AlternatingIsRun(n, sizes);
    SharedCounterStarves(8, sizes, picks);
    CountAltPicks(n);
  }

  function AltSize(k: nat): u32 {
    if k % 2 == 1 then 5000 else 100
  }

  function AltPick(k: nat): nat {
    if k % 2 == 1 then 7 else k % U32 % 6
  }

  function AltPicks(n: nat): (picks: seq<nat>)
    ensures |picks| == n && forall k :: 0 <= k < n ==> picks[k] == AltPick(k)
  {
    if n == 0 then [] else AltPicks(n - 1) + [AltPick(n - 1)]
  }

  lemma AlternatingIsRun(n: nat, sizes: seq<u32>)
    requires |sizes| == n && forall k :: 0 <= k < n ==> sizes[k] == AltSize(k)
    ensures Alternating(sizes) && Choices(SizeAware, 8, 0, sizes, AltPicks(n))
  {
    forall k | 0 <= k < n
      ensures CanSelect(SizeAware, 8, sizes[k]) && Choice(SizeAware, 8, (0 + k) % U32, sizes[k], AltPicks(n)[k])
    {
      EvenRemainder(k, U32);
      ChoiceOfEight(k % U32);
    }
  }

  lemma {:induction false} CountAltPicks(n: nat)
    ensures Count(AltPicks(n), 7) == n / 2
  {
    if n > 0 {
      CountAltPicks(n - 1);
      CountSnoc(AltPicks(n - 1), AltPick(n - 1), 7);
      SevenOnOdd(n - 1);
    }
  }

  lemma CountSnoc(picks: seq<nat>, x: nat, i: nat)
    ensures Count(picks + [x], i) == Count(picks, i) + One(x == i)
  {
    assert (picks + [x])[..|picks|] == picks;
  }

  lemma SevenOnOdd(k: nat)
    ensures One(AltPick(k) == 7) == (k + 1) / 2 - k / 2
  {
  }

  lemma ChoiceOfEight(x: u32)
    ensures CanSelect(SizeAware, 8, 100) && Choice(SizeAware, 8, x, 100, x % 6)
    ensures CanSelect(SizeAware, 8, 5000) && (x % 2 == 1 ==> Choice(SizeAware, 8, x, 5000, 7))
  {
  }
}
