/** What the requests of a client run add up to: the bytes it counts and the round-trip times it keeps. */
module Tally {
  import opened Words
  import opened Message

  /** The header and the payload of each of the first n requests. */
  function Bytes(sizes: seq<u32>, n: nat): nat
    requires n <= |sizes|
  {
    if n == 0 then 0 else Bytes(sizes, n - 1) + HEADER + sizes[n - 1]
  }

  /** Of the first n round-trip times those past the warm-up that are positive, a failed request having none. */
  function Kept(rtts: seq<nat>, warmup: nat, n: nat): seq<nat>
    requires n <= |rtts|
  {
    if n == 0 then []
    else Kept(rtts, warmup, n - 1) + (if rtts[n - 1] > 0 && n - 1 >= warmup then [rtts[n - 1]] else [])
  }

  /** 22 bytes a request, and all the payloads. */
  lemma {:induction false} BytesAreSum(sizes: seq<u32>, n: nat)
    requires n <= |sizes|
    ensures Bytes(sizes, n) == 22 * n + Sum(sizes[..n])
  {
    if n > 0 {
      BytesAreSum(sizes, n - 1);
      assert sizes[..n] == sizes[..n - 1] + [sizes[n - 1]];
      SumAppend(sizes[..n - 1], [sizes[n - 1]]);
      SumOne(sizes[n - 1]);
    }
  }

  /** The places of those times. */
  function Places(rtts: seq<nat>, warmup: nat, n: nat): seq<nat>
    requires n <= |rtts|
  {
    if n == 0 then []
    else Places(rtts, warmup, n - 1) + (if rtts[n - 1] > 0 && n - 1 >= warmup then [n - 1] else [])
  }

  /** The times kept are those at their places, past the warm-up and positive, in order, */
  lemma {:induction false} KeptAtPlaces(rtts: seq<nat>, warmup: nat, n: nat)
    requires n <= |rtts|
    ensures var (places, kept) := (Places(rtts, warmup, n), Kept(rtts, warmup, n));
      && |places| == |kept|
      && forall j :: 0 <= j < |places| ==> warmup <= places[j] < n && kept[j] == rtts[places[j]] > 0
  {
    if n > 0 {
      KeptAtPlaces(rtts, warmup, n - 1);
    }
  }

  lemma {:induction false} PlacesAscend(rtts: seq<nat>, warmup: nat, n: nat)
    requires n <= |rtts|
    ensures forall j :: 0 <= j < |Places(rtts, warmup, n)| ==> Places(rtts, warmup, n)[j] < n
    ensures forall j, k :: 0 <= j < k < |Places(rtts, warmup, n)| ==>
      Places(rtts, warmup, n)[j] < Places(rtts, warmup, n)[k]
  {
    if n > 0 {
      PlacesAscend(rtts, warmup, n - 1);
    }
  }

  /** and no such time is left out. */
  lemma {:induction false} NoneLeftOut(rtts: seq<nat>, warmup: nat, n: nat, i: nat)
    requires warmup <= i < n <= |rtts| && rtts[i] > 0
    ensures i in Places(rtts, warmup, n)
  {
    if i < n - 1 {
      NoneLeftOut(rtts, warmup, n - 1, i);
    } else {
      assert Places(rtts, warmup, n)[|Places(rtts, warmup, n - 1)|] == i;
    }
  }

  /** There are at most n - warmup of them, and that many exactly if none of those times is zero. */
  lemma {:induction false} KeptBound(rtts: seq<nat>, warmup: nat, n: nat)
    requires n <= |rtts|
    ensures |Kept(rtts, warmup, n)| <= if n > warmup then n - warmup else 0
    ensures n >= warmup ==>
      (|Kept(rtts, warmup, n)| == n - warmup <==> forall i :: warmup <= i < n ==> rtts[i] > 0)
  {
    if n > 0 {
      KeptBound(rtts, warmup, n - 1);
    }
  }
}
