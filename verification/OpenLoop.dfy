/** The open-loop client: one dispatcher, one queue and one worker thread per connection, and the shared `running` flag.
    Each atomic access and each lock section is one step; every interleaving is a run. */
module OpenLoop {
  import opened Words
  import opened Message
  import opened Tally
  import opened Scheduler

  datatype Request = Request(id: u32, size: u32, priority: byte, warmup: bool)

  /** The queue between dispatcher and worker; each method is one lock section. Despite its name it has no bound. */
  class BoundedQueue<T> {
    var q: seq<T>

    constructor ()
      ensures q == []
    {
      q := [];
    }

    method Push(item: T)
      modifies this
      ensures q == old(q) + [item]
    {
      q := q + [item];
    }

    /** The end of a timed wait: an item if there is one, nothing if the queue is still empty. */
    method Pop() returns (item: Option<T>)
      modifies this
      ensures old(q) == [] ==> item == None && q == []
      ensures old(q) != [] ==> item == Some(old(q)[0]) && q == old(q)[1..]
    {
      if q == [] {
        return None;
      }
      item := Some(q[0]);
      q := q[1..];
    }

    method Size() returns (n: nat)
      ensures n == |q|
    {
      n := |q|;
    }
  }

  /** The message sizes drawn and, for each request, the round-trip time it turns out to get (0 for a failed one). */
  datatype Config = Config(policy: Policy, pool: u32, warmup: u32, num: u32, sizes: seq<u32>, rtts: seq<nat>)

  /** The loop bound of the dispatcher, a sum of two 32-bit numbers. */
  function Total(c: Config): nat {
    Add32(c.warmup, c.num)
  }

  lemma TotalIsWarmupAndRequests(c: Config)
    ensures Total(c) == (c.warmup + c.num) % U32
    ensures c.warmup + c.num < U32 ==> Total(c) == c.warmup + c.num
  {
  }

  ghost predicate Valid(c: Config) {
    && c.pool >= 1 && |c.sizes| == |c.rtts| == Total(c)
    && forall k :: 0 <= k < |c.sizes| ==> CanSelect(c.policy, c.pool, c.sizes[k])
  }

  predicate Sized(c: Config) {
    |c.sizes| == |c.rtts| <= U32
  }

  /** The k-th request the dispatcher builds. */
  function Req(c: Config, k: nat): Request
    requires k < |c.sizes| && k < U32
  {
    Request(k, c.sizes[k], PriorityForSize(c.sizes[k]), k < c.warmup)
  }

  /** Where a worker is: before reading `running`; having read false, before reading the queue size; in pop; working on a
      request; gone. */
  datatype Worker = Testing | Draining | Popping | Busy(req: Request) | Exited

  /** `routes` records the connection chosen for each request dispatched so far. */
  datatype State = State(counter: u32, routes: seq<nat>, running: bool, queues: seq<seq<Request>>,
                         workers: seq<Worker>, processed: seq<seq<Request>>, samples: seq<seq<nat>>, totalBytes: u64)

  datatype Action =
    | Dispatch(conn: nat) | StopDispatch
    | ReadRunning(w: nat) | ReadSize(w: nat) | Pop(w: nat) | PopTimeout(w: nat) | Finish(w: nat)

  function Init(c: Config): State {
    State(0, [], true, seq(c.pool, i => []), seq(c.pool, i => Testing), seq(c.pool, i => []), seq(c.pool, i => []), 0)
  }

  predicate Shaped(c: Config, s: State) {
    |s.queues| == |s.workers| == |s.processed| == |s.samples| == c.pool
  }

  ghost predicate Enabled(c: Config, s: State, a: Action)
    requires Valid(c)
  {
    Shaped(c, s) &&
    match a
    case Dispatch(conn) =>
      && s.running && |s.routes| < Total(c) && conn < c.pool
      && Choice(c.policy, c.pool, s.counter, c.sizes[|s.routes|], conn)
    case StopDispatch => s.running && |s.routes| == Total(c)
    case ReadRunning(w) => w < c.pool && s.workers[w].Testing?
    case ReadSize(w) => w < c.pool && s.workers[w].Draining?
    case Pop(w) => w < c.pool && s.workers[w].Popping? && s.queues[w] != []
    case PopTimeout(w) => w < c.pool && s.workers[w].Popping? && s.queues[w] == []
    case Finish(w) => w < c.pool && s.workers[w].Busy? && s.workers[w].req.id < |c.rtts|
  }

  /** The sample a finished request contributes: none for a failed one or one of the warm-up. */
  function Sample(c: Config, r: Request): seq<nat>
    requires r.id < |c.rtts|
  {
    if c.rtts[r.id] > 0 && !r.warmup then [c.rtts[r.id]] else []
  }

  function Apply(c: Config, s: State, a: Action): State
    requires Valid(c) && Enabled(c, s, a)
  {
    match a
    case Dispatch(conn) =>
      s.(counter := NextCounter(c.policy, s.counter), routes := s.routes + [conn],
         queues := s.queues[conn := s.queues[conn] + [Req(c, |s.routes|)]])
    case StopDispatch => s.(running := false)
    case ReadRunning(w) => s.(workers := s.workers[w := if s.running then Popping else Draining])
    case ReadSize(w) => s.(workers := s.workers[w := if s.queues[w] != [] then Popping else Exited])
    case Pop(w) => s.(workers := s.workers[w := Busy(s.queues[w][0])], queues := s.queues[w := s.queues[w][1..]])
    case PopTimeout(w) => s.(workers := s.workers[w := Testing])
    case Finish(w) =>
      var r := s.workers[w].req;
      s.(workers := s.workers[w := Testing],
         processed := s.processed[w := s.processed[w] + [r]],
         samples := s.samples[w := s.samples[w] + Sample(c, r)],
         totalBytes := Add64(s.totalBytes, HEADER + r.size))
  }

  ghost predicate IsRun(c: Config, states: seq<State>, acts: seq<Action>)
    requires Valid(c)
  {
    && |states| == |acts| + 1
    && states[0] == Init(c)
    && forall i :: 0 <= i < |acts| ==> Enabled(c, states[i], acts[i]) && states[i + 1] == Apply(c, states[i], acts[i])
  }

  // ---- the invariant ----

  /** The requests routed to connection w, in the order of dispatch. */
  function Routed(c: Config, routes: seq<nat>, w: nat): seq<Request>
    requires |routes| <= |c.sizes| <= U32
  {
    if routes == [] then []
    else
      var k := |routes| - 1;
      Routed(c, routes[..k], w) + (if routes[k] == w then [Req(c, k)] else [])
  }

  function Hand(w: Worker): seq<Request> {
    if w.Busy? then [w.req] else []
  }

  function SamplesOf(c: Config, rs: seq<Request>): seq<nat>
    requires forall r <- rs :: r.id < |c.rtts|
  {
    if rs == [] then [] else SamplesOf(c, rs[..|rs| - 1]) + Sample(c, rs[|rs| - 1])
  }

  function BytesOf(rs: seq<Request>): nat {
    if rs == [] then 0 else BytesOf(rs[..|rs| - 1]) + HEADER + rs[|rs| - 1].size
  }

  function AllBytes(processed: seq<seq<Request>>): seq<nat> {
    seq(|processed|, w requires 0 <= w < |processed| => BytesOf(processed[w]))
  }

  ghost predicate WorkerInv(c: Config, s: State, w: nat)
    requires Valid(c) && Shaped(c, s) && w < c.pool && |s.routes| <= Total(c)
  {
    && s.processed[w] + Hand(s.workers[w]) + s.queues[w] == Routed(c, s.routes, w)
    && (s.workers[w].Draining? || s.workers[w].Exited? ==> !s.running)
    && (s.workers[w].Exited? ==> s.queues[w] == [])
    && (forall r <- s.processed[w] :: r.id < |c.rtts|)
    && s.samples[w] == SamplesOf(c, s.processed[w])
  }

  /** The dispatcher's side: the routes so far are choices of the scheduler, whose counter follows them. */
  ghost predicate RoutesInv(c: Config, s: State)
    requires Valid(c)
  {
    && |s.routes| <= Total(c)
    && s.counter == CounterAt(c, |s.routes|)
    && forall k :: 0 <= k < |s.routes| ==> Routable(c, k, s.routes[k])
  }

  function CounterAt(c: Config, k: nat): u32 {
    if c.policy.Random? then 0 else k % U32
  }

  ghost predicate Routable(c: Config, k: nat, conn: nat)
    requires Valid(c) && k < |c.sizes|
  {
    conn < c.pool && Choice(c.policy, c.pool, CounterAt(c, k), c.sizes[k], conn)
  }

  ghost predicate Inv(c: Config, s: State)
    requires Valid(c)
  {
    && Shaped(c, s)
    && |s.routes| <= Total(c)
    && (!s.running ==> |s.routes| == Total(c))
    && (forall w :: 0 <= w < c.pool ==> WorkerInv(c, s, w))
    && s.totalBytes == Sum(AllBytes(s.processed)) % U64
  }

  lemma InitInv(c: Config)
    requires Valid(c)
    ensures Inv(c, Init(c)) && RoutesInv(c, Init(c))
  {
    SumZero(AllBytes(Init(c).processed));
  }

  lemma {:induction false} RoutedIds(c: Config, routes: seq<nat>, w: nat)
    requires |routes| <= |c.sizes| <= U32
    ensures forall r <- Routed(c, routes, w) :: r.id < |routes| && r == Req(c, r.id) && routes[r.id] == w
  {
    if routes != [] {
      RoutedIds(c, routes[..|routes| - 1], w);
    }
  }

  lemma RoutesStep(c: Config, s: State, a: Action)
    requires Valid(c) && RoutesInv(c, s) && Enabled(c, s, a)
    ensures RoutesInv(c, Apply(c, s, a))
  {
    if a.Dispatch? {
      var k := |s.routes|;
      CounterNext(c, k);
      ChoiceSeparatesSizes(c.policy, c.pool, s.counter, c.sizes[k], a.conn);
      assert Routable(c, k, a.conn);
      var routes := s.routes + [a.conn];
      forall i | 0 <= i < |routes| ensures Routable(c, i, routes[i]) {
        assert i < k ==> Routable(c, i, s.routes[i]);
      }
    }
  }

  lemma CounterNext(c: Config, k: nat)
    ensures NextCounter(c.policy, CounterAt(c, k)) == CounterAt(c, k + 1)
  {
  }

  lemma DispatchWorker(c: Config, s: State, s': State, conn: nat, w: nat)
    requires Valid(c) && Shaped(c, s) && Shaped(c, s') && |s.routes| < Total(c) && conn < c.pool && w < c.pool
    requires s' == s.(counter := s'.counter, routes := s.routes + [conn],
                      queues := s.queues[conn := s.queues[conn] + [Req(c, |s.routes|)]])
    requires WorkerInv(c, s, w) && s.running
    ensures WorkerInv(c, s', w)
  {
  }

  lemma FinishWorker(c: Config, s: State, w: nat)
    requires Valid(c) && Enabled(c, s, Finish(w)) && |s.routes| <= Total(c) && WorkerInv(c, s, w)
    ensures WorkerInv(c, Apply(c, s, Finish(w)), w)
  {
  }

  lemma FinishBytes(processed: seq<seq<Request>>, w: nat, r: Request, total: u64)
    requires w < |processed| && total == Sum(AllBytes(processed)) % U64
    ensures Add64(total, HEADER + r.size) == Sum(AllBytes(processed[w := processed[w] + [r]])) % U64
  {
    var done := processed[w];
    var processed' := processed[w := done + [r]];
    assert (done + [r])[..|done|] == done;
    assert AllBytes(processed') == AllBytes(processed)[w := BytesOf(done) + HEADER + r.size];
    SumUpdate(AllBytes(processed), w, BytesOf(done) + HEADER + r.size);
    Wrap64(Sum(AllBytes(processed)), HEADER + r.size);
  }

  lemma PopWorker(c: Config, s: State, w: nat)
    requires Valid(c) && Enabled(c, s, Pop(w)) && |s.routes| <= Total(c) && WorkerInv(c, s, w)
    ensures WorkerInv(c, Apply(c, s, Pop(w)), w)
  {
  }

  lemma StepInv(c: Config, s: State, a: Action)
    requires Valid(c) && Inv(c, s) && Enabled(c, s, a)
    ensures Inv(c, Apply(c, s, a))
  {
    var s' := Apply(c, s, a);
    forall w | 0 <= w < c.pool ensures WorkerInv(c, s', w) {
      assert WorkerInv(c, s, w);
      match a
      case Dispatch(conn) => DispatchWorker(c, s, s', conn, w);
      case Finish(v) => if v == w { FinishWorker(c, s, w); }
      case Pop(v) => if v == w { PopWorker(c, s, w); }
      case _ =>
    }
    if a.Finish? {
      FinishBytes(s.processed, a.w, s.workers[a.w].req, s.totalBytes);
    }
  }

  /** The dispatcher's loop, run by itself: every request is built, routed by the scheduler and queued once, so that each
      queue holds the requests routed to it in order. */
  method DispatchAll(c: Config, scheduler: PriorityScheduler, queues: seq<BoundedQueue<Request>>)
    returns (ghost routes: seq<nat>)
    requires Valid(c) && |queues| == c.pool
    requires scheduler.policy == c.policy && scheduler.poolSize == c.pool && scheduler.rrCounter == 0
    requires forall v, w :: 0 <= v < w < |queues| ==> queues[v] != queues[w]
    requires forall w :: 0 <= w < |queues| ==> queues[w].q == []
    modifies scheduler, queues
    ensures |routes| == (c.warmup + c.num) % U32 && forall k :: 0 <= k < |routes| ==> Routable(c, k, routes[k])
    ensures forall w :: 0 <= w < |queues| ==> queues[w].q == Routed(c, routes, w)
  {
    routes := [];
    var total := Add32(c.warmup, c.num);
    for i := 0 to total
      invariant |routes| == i && scheduler.rrCounter == CounterAt(c, i)
      invariant forall k :: 0 <= k < i ==> Routable(c, k, routes[k])
      invariant forall w :: 0 <= w < |queues| ==> queues[w].q == Routed(c, routes, w)
    {
      var size := c.sizes[i];
      var priority := PriorityForSize(size);
      var conn := scheduler.Select(size);
      CounterNext(c, i);
      queues[conn].Push(Request(i, size, priority, i < c.warmup));
      assert Routable(c, i, conn);
      forall w | 0 <= w < |queues| ensures queues[w].q == Routed(c, routes + [conn], w) {
        RoutedSnoc(c, routes, conn, w);
      }
      routes := routes + [conn];
    }
  }

  lemma RoutedSnoc(c: Config, routes: seq<nat>, conn: nat, w: nat)
    requires |routes| < |c.sizes| <= U32
    ensures Routed(c, routes + [conn], w) == Routed(c, routes, w) + (if conn == w then [Req(c, |routes|)] else [])
  {
    assert (routes + [conn])[..|routes|] == routes;
  }

  /** A worker's loop, run by itself on a queue nobody pushes to any more; `tests` is how many times it still finds
      `running` set. It leaves with the queue empty, having processed every request in it once and in order. */
  method OpenLoopWorker(c: Config, queue: BoundedQueue<Request>, tests: nat) returns (samples: seq<nat>, bytes: nat)
    requires forall r <- queue.q :: r.id < |c.rtts|
    modifies queue
    ensures queue.q == []
    ensures samples == SamplesOf(c, old(queue.q)) && bytes == BytesOf(old(queue.q))
  {
    samples, bytes := [], 0;
    ghost var all, done := queue.q, [];
    var left: nat := tests;
    while left > 0 || queue.q != []
      invariant all == done + queue.q && forall r <- all :: r.id < |c.rtts|
      invariant samples == SamplesOf(c, done) && bytes == BytesOf(done)
      decreases left + |queue.q|
    {
      left := if left > 0 then left - 1 else 0;
      ghost var queued := queue.q;
      var item := queue.Pop();
      if item == None {
        continue;
      }
      var r := item.value;
      assert queued == [r] + queue.q && (done + [r])[..|done|] == done;
      var rtt := c.rtts[r.id];
      if rtt > 0 && !r.warmup {
        samples := samples + [rtt];
      }
      bytes := bytes + HEADER + r.size;
      done := done + [r];
    }
    assert done == all;
  }

  lemma {:induction false} RunInv(c: Config, states: seq<State>, acts: seq<Action>, i: nat)
    requires Valid(c) && IsRun(c, states, acts) && i <= |acts|
    ensures Inv(c, states[i]) && RoutesInv(c, states[i])
  {
    if i > 0 {
      RunInv(c, states, acts, i - 1);
      StepInv(c, states[i - 1], acts[i - 1]);
      RoutesStep(c, states[i - 1], acts[i - 1]);
    } else {
      InitInv(c);
    }
  }

  // ---- what every run keeps ----

  lemma CountOf<T>(a: seq<T>, b: seq<T>, x: T)
    ensures multiset(a + b)[x] == multiset(a)[x] + multiset(b)[x]
  {
  }

  lemma {:induction false} RoutedOnce(c: Config, routes: seq<nat>, w: nat, k: nat)
    requires |routes| <= |c.sizes| <= U32 && k < |routes|
    ensures multiset(Routed(c, routes, w))[Req(c, k)] == if routes[k] == w then 1 else 0
  {
    var n := |routes| - 1;
    var front := Routed(c, routes[..n], w);
    var last := if routes[n] == w then [Req(c, n)] else [];
    CountOf(front, last, Req(c, k));
    if k < n {
      RoutedOnce(c, routes[..n], w, k);
    } else {
      RoutedIds(c, routes[..n], w);
      assert Req(c, n) !in front;
    }
  }

  /** Exactly once, at every moment of every run: a dispatched request is in exactly one place, namely processed by, in
      the hand of, or queued for the worker of the connection it was routed to. */
  lemma ExactlyOnce(c: Config, states: seq<State>, acts: seq<Action>, i: nat, k: nat, w: nat)
    requires Valid(c) && IsRun(c, states, acts) && i <= |acts|
    requires k < |states[i].routes| && w < c.pool
    ensures var s := states[i];
      && Shaped(c, s) && k < |c.sizes| && s.routes[k] < c.pool
      && multiset(s.processed[w])[Req(c, k)] + multiset(Hand(s.workers[w]))[Req(c, k)]
           + multiset(s.queues[w])[Req(c, k)] == if s.routes[k] == w then 1 else 0
  {
    RunInv(c, states, acts, i);
    var s := states[i];
    assert WorkerInv(c, s, w);
    RoutedOnce(c, s.routes, w, k);
    CountOf(s.processed[w], Hand(s.workers[w]), Req(c, k));
    CountOf(s.processed[w] + Hand(s.workers[w]), s.queues[w], Req(c, k));
  }

  /** No head-of-line mixing: under size_aware, a connection below the small pool only ever carries messages of at most
      4096 bytes, which are those of priority 5 and above, and the others only larger ones. */
  lemma NoMixing(c: Config, states: seq<State>, acts: seq<Action>, i: nat, w: nat, r: Request)
    requires Valid(c) && IsRun(c, states, acts) && i <= |acts| && w < c.pool && c.policy.SizeAware?
    requires Shaped(c, states[i])
    requires r in states[i].queues[w] || r in Hand(states[i].workers[w]) || r in states[i].processed[w]
    ensures if w < SmallPool(c.pool) then r.size <= SMALL_LIMIT && r.priority >= 5
            else r.size > SMALL_LIMIT && r.priority <= 4
  {
    RunInv(c, states, acts, i);
    var s := states[i];
    assert WorkerInv(c, s, w);
    assert r in s.processed[w] + Hand(s.workers[w]) + s.queues[w];
    RoutedIds(c, s.routes, w);
    assert Routable(c, r.id, s.routes[r.id]);
    ChoiceSeparatesSizes(c.policy, c.pool, CounterAt(c, r.id), r.size, w);
  }

  /** The connections chosen in a run are the scheduler's choices from a fresh counter, so its balance results apply. */
  lemma RoutesAreChoices(c: Config, states: seq<State>, acts: seq<Action>, i: nat)
    requires Valid(c) && IsRun(c, states, acts) && i <= |acts| && !c.policy.Random?
    ensures |states[i].routes| <= |c.sizes|
    ensures Choices(c.policy, c.pool, 0, c.sizes[..|states[i].routes|], states[i].routes)
  {
    RunInv(c, states, acts, i);
    forall k | 0 <= k < |states[i].routes|
      ensures CanSelect(c.policy, c.pool, c.sizes[k])
      ensures Choice(c.policy, c.pool, (0 + k) % U32, c.sizes[k], states[i].routes[k])
    {
      assert Routable(c, k, states[i].routes[k]);
    }
  }

  lemma {:induction false} RoutedCount(c: Config, routes: seq<nat>, w: nat)
    requires |routes| <= |c.sizes| <= U32
    ensures |Routed(c, routes, w)| == Count(routes, w)
  {
    if routes != [] {
      RoutedCount(c, routes[..|routes| - 1], w);
    }
  }

  /** Round robin keeps the connections level at every moment of every run: the request count is itself a 32-bit number,
      so the counter cannot wrap within one run. */
  lemma LoadsStayLevel(c: Config, states: seq<State>, acts: seq<Action>, i: nat, v: nat, w: nat)
    requires Valid(c) && IsRun(c, states, acts) && i <= |acts| && c.policy.RoundRobin? && v < w < c.pool
    ensures var s := states[i];
      && Shaped(c, s)
      && 0 <= (|s.processed[v]| + |Hand(s.workers[v])| + |s.queues[v]|)
              - (|s.processed[w]| + |Hand(s.workers[w])| + |s.queues[w]|) <= 1
  {
    RunInv(c, states, acts, i);
    RoutesAreChoices(c, states, acts, i);
    var s := states[i];
    RoundRobinBalance(c.pool, c.sizes[..|s.routes|], s.routes, v, w);
    RoutedCount(c, s.routes, v);
    RoutedCount(c, s.routes, w);
    assert WorkerInv(c, s, v) && WorkerInv(c, s, w);
  }

  // ---- what is left when all workers have exited ----

  ghost predicate AllExited(c: Config, s: State) {
    Shaped(c, s) && forall w :: 0 <= w < c.pool ==> s.workers[w].Exited?
  }

  /** The thread samples one after the other, as the result collects them. */
  function Merge(ss: seq<seq<nat>>): seq<nat> {
    if ss == [] then [] else ss[0] + Merge(ss[1..])
  }

  lemma {:induction false} MergeUpdate(ss: seq<seq<nat>>, w: nat, more: seq<nat>)
    requires w < |ss|
    ensures multiset(Merge(ss[w := ss[w] + more])) == multiset(Merge(ss)) + multiset(more)
  {
    var ss' := ss[w := ss[w] + more];
    if w == 0 {
      assert ss'[1..] == ss[1..];
      assert multiset(ss[0] + more + Merge(ss[1..])) == multiset(ss[0]) + multiset(more) + multiset(Merge(ss[1..]));
    } else {
      assert ss'[1..] == ss[1..][w - 1 := ss[w] + more];
      MergeUpdate(ss[1..], w - 1, more);
    }
    assert multiset(ss[0] + Merge(ss[1..])) == multiset(ss[0]) + multiset(Merge(ss[1..]));
  }

  lemma {:induction false} MergeEmpty(ss: seq<seq<nat>>)
    requires forall i :: 0 <= i < |ss| ==> ss[i] == []
    ensures Merge(ss) == []
  {
    if ss != [] {
      MergeEmpty(ss[1..]);
    }
  }

  function RoutedBytes(c: Config, routes: seq<nat>): seq<nat>
    requires |routes| <= |c.sizes| <= U32
  {
    seq(c.pool, (w: nat) => BytesOf(Routed(c, routes, w)))
  }

  function RoutedSamples(c: Config, routes: seq<nat>): seq<seq<nat>>
    requires Sized(c) && |routes| <= |c.sizes|
  {
    seq(c.pool, (w: nat) => RoutedIds(c, routes, w); SamplesOf(c, Routed(c, routes, w)))
  }

  /** One more request routed to w adds its bytes and its sample to w's share, and changes no other share. */
  lemma RouteOneMore(c: Config, routes: seq<nat>)
    requires Sized(c) && 0 < |routes| <= |c.sizes| && routes[|routes| - 1] < c.pool
    ensures var k := |routes| - 1; var (front, w) := (routes[..k], routes[k]);
      && RoutedBytes(c, routes)
           == RoutedBytes(c, front)[w := RoutedBytes(c, front)[w] + HEADER + c.sizes[k]]
      && RoutedSamples(c, routes)
           == RoutedSamples(c, front)[w := RoutedSamples(c, front)[w] + Sample(c, Req(c, k))]
  {
    var k := |routes| - 1;
    var front, w := routes[..k], routes[k];
    forall v: nat | v < c.pool
      ensures RoutedBytes(c, routes)[v]
           == if v == w then RoutedBytes(c, front)[w] + HEADER + c.sizes[k] else RoutedBytes(c, front)[v]
      ensures RoutedSamples(c, routes)[v]
           == if v == w then RoutedSamples(c, front)[w] + Sample(c, Req(c, k)) else RoutedSamples(c, front)[v]
    {
      ShareOneMore(c, routes, v);
    }
  }

  lemma ShareOneMore(c: Config, routes: seq<nat>, v: nat)
    requires Sized(c) && 0 < |routes| <= |c.sizes|
    ensures var k := |routes| - 1; var (before, after) := (Routed(c, routes[..k], v), Routed(c, routes, v));
      && (forall r <- after :: r.id < |c.rtts|) && (forall r <- before :: r.id < |c.rtts|)
      && BytesOf(after) == BytesOf(before) + (if routes[k] == v then HEADER + c.sizes[k] else 0)
      && SamplesOf(c, after) == SamplesOf(c, before) + (if routes[k] == v then Sample(c, Req(c, k)) else [])
  {
    var k := |routes| - 1;
    var before, after := Routed(c, routes[..k], v), Routed(c, routes, v);
    RoutedIds(c, routes[..k], v);
    if routes[k] == v {
      Snoc(c, before, Req(c, k));
      assert after == before + [Req(c, k)];
    } else {
      assert after == before + [];
      assert after == before;
    }
  }

  lemma Snoc(c: Config, rs: seq<Request>, r: Request)
    requires r.id < |c.rtts| && forall q <- rs :: q.id < |c.rtts|
    ensures forall q <- rs + [r] :: q.id < |c.rtts|
    ensures BytesOf(rs + [r]) == BytesOf(rs) + HEADER + r.size
    ensures SamplesOf(c, rs + [r]) == SamplesOf(c, rs) + Sample(c, r)
  {
    assert (rs + [r])[..|rs|] == rs;
  }

  /** However requests are spread over connections, their bytes add up to the same. */
  lemma {:induction false} RoutingConservesBytes(c: Config, routes: seq<nat>)
    requires Sized(c) && |routes| <= |c.sizes| && forall k :: 0 <= k < |routes| ==> routes[k] < c.pool
    ensures Sum(RoutedBytes(c, routes)) == Bytes(c.sizes, |routes|)
  {
    if routes == [] {
      SumZero(RoutedBytes(c, routes));
    } else {
      var k := |routes| - 1;
      var bytes, w := RoutedBytes(c, routes[..k]), routes[k];
      RoutingConservesBytes(c, routes[..k]);
      RouteOneMore(c, routes);
      SumUpdate(bytes, w, bytes[w] + HEADER + c.sizes[k]);
    }
  }

  /** And so do their samples. */
  lemma {:induction false} RoutingConservesSamples(c: Config, routes: seq<nat>)
    requires Sized(c) && |routes| <= |c.sizes| && forall k :: 0 <= k < |routes| ==> routes[k] < c.pool
    ensures multiset(Merge(RoutedSamples(c, routes))) == multiset(Kept(c.rtts, c.warmup, |routes|))
  {
    if routes == [] {
      MergeEmpty(RoutedSamples(c, routes));
    } else {
      var k := |routes| - 1;
      var before, w, more := RoutedSamples(c, routes[..k]), routes[k], Sample(c, Req(c, k));
      RoutingConservesSamples(c, routes[..k]);
      RouteOneMore(c, routes);
      MergeUpdate(before, w, more);
      KeptStep(c, k);
    }
  }

  lemma KeptStep(c: Config, k: nat)
    requires Sized(c) && k < |c.sizes|
    ensures multiset(Kept(c.rtts, c.warmup, k + 1))
         == multiset(Kept(c.rtts, c.warmup, k)) + multiset(Sample(c, Req(c, k)))
  {
  }

  /** Complete drain: when every worker has exited, all requests were dispatched, no queue holds any, each worker has
      processed exactly the requests routed to it, in order; and whatever the schedule, the byte count is that of all
      requests and the merged samples are the positive round-trip times past the warm-up. */
  lemma DrainIsComplete(c: Config, states: seq<State>, acts: seq<Action>, i: nat)
    requires Valid(c) && IsRun(c, states, acts) && i <= |acts| && AllExited(c, states[i])
    ensures var s := states[i];
      && |s.routes| == Total(c)
      && (forall w :: 0 <= w < c.pool ==> s.queues[w] == [] && s.processed[w] == Routed(c, s.routes, w))
      && s.totalBytes == Bytes(c.sizes, Total(c)) % U64
      && multiset(Merge(s.samples)) == multiset(Kept(c.rtts, c.warmup, Total(c)))
      && |Merge(s.samples)| == |Kept(c.rtts, c.warmup, Total(c))|
  {
    RunInv(c, states, acts, i);
    var s := states[i];
    assert s.workers[0].Exited? && WorkerInv(c, s, 0);
    forall w | 0 <= w < c.pool ensures s.queues[w] == [] && s.processed[w] == Routed(c, s.routes, w) {
      assert WorkerInv(c, s, w);
    }
    assert AllBytes(s.processed) == RoutedBytes(c, s.routes);
    assert s.samples == RoutedSamples(c, s.routes) by {
      forall w | 0 <= w < c.pool ensures s.samples[w] == RoutedSamples(c, s.routes)[w] {
        assert WorkerInv(c, s, w);
      }
    }
    assert forall k :: 0 <= k < |s.routes| ==> Routable(c, k, s.routes[k]);
    RoutingConservesBytes(c, s.routes);
    RoutingConservesSamples(c, s.routes);
    assert |multiset(Merge(s.samples))| == |Merge(s.samples)|;
    assert |multiset(Kept(c.rtts, c.warmup, Total(c)))| == |Kept(c.rtts, c.warmup, Total(c))|;
  }

  // ---- the drain ends ----

  function Rank(w: Worker, q: seq<Request>): nat {
    match w
    case Testing => 3
    case Draining => 2
    case Popping => if q == [] then 4 else 1
    case Busy(_) => 4
    case Exited => 0
  }

  function Work(s: State): seq<nat>
    requires |s.queues| == |s.workers|
  {
    seq(|s.workers|, w requires 0 <= w < |s.workers| => 4 * |s.queues[w]| + Rank(s.workers[w], s.queues[w]))
  }

  /** After the dispatcher has cleared `running`, every step of any thread brings the exit of all workers nearer. */
  lemma DrainStepDecreases(c: Config, s: State, a: Action)
    requires Valid(c) && Enabled(c, s, a) && !s.running
    ensures !Apply(c, s, a).running && Sum(Work(Apply(c, s, a))) < Sum(Work(s))
  {
    var s' := Apply(c, s, a);
    var w := a.w;
    assert Work(s') == Work(s)[w := Work(s')[w]];
    SumUpdate(Work(s), w, Work(s')[w]);
  }

  /** So a run has a bounded number of steps left, and until all workers have exited there is always a next one. */
  lemma {:induction false} DrainTerminates(c: Config, states: seq<State>, acts: seq<Action>, i: nat)
    requires Valid(c) && IsRun(c, states, acts) && i <= |acts| && !states[i].running
    ensures Shaped(c, states[i]) && |acts| - i <= Sum(Work(states[i]))
    ensures AllExited(c, states[|acts|]) || exists a :: Enabled(c, states[|acts|], a)
    decreases |acts| - i
  {
    RunInv(c, states, acts, i);
    if i < |acts| {
      DrainStepDecreases(c, states[i], acts[i]);
      DrainTerminates(c, states, acts, i + 1);
    } else if !AllExited(c, states[i]) {
      SomeStep(c, states, acts, i);
    }
  }

  /** No deadlock: a worker that has not exited can always take a step, and so can an unfinished dispatcher. */
  lemma SomeStep(c: Config, states: seq<State>, acts: seq<Action>, i: nat)
    requires Valid(c) && IsRun(c, states, acts) && i <= |acts|
    requires states[i].running || !AllExited(c, states[i])
    ensures exists a :: Enabled(c, states[i], a)
  {
    RunInv(c, states, acts, i);
    var s := states[i];
    if s.running {
      var k := |s.routes|;
      if k < Total(c) {
        var conn := if c.policy.Random? then 0
          else First(c.policy, c.pool, c.sizes[k]) + s.counter % Width(c.policy, c.pool, c.sizes[k]);
        ChoiceSeparatesSizes(c.policy, c.pool, s.counter, c.sizes[k], conn);
        assert Enabled(c, s, Dispatch(conn));
      } else {
        assert Enabled(c, s, StopDispatch);
      }
    } else {
      var w: nat :| w < c.pool && !s.workers[w].Exited?;
      assert WorkerInv(c, s, w);
      if s.workers[w].Busy? {
        RoutedIds(c, s.routes, w);
        assert s.workers[w].req in Routed(c, s.routes, w);
      }
      var a := match s.workers[w]
        case Testing => ReadRunning(w)
        case Draining => ReadSize(w)
        case Popping => if s.queues[w] == [] then PopTimeout(w) else Pop(w)
        case _ => Finish(w);
      assert Enabled(c, s, a);
    }
  }
}
