/** The open-loop Homa client: a sender that records send times by RPC id, a receiver that matches responses against
    them, and the table they share under a mutex. A response may be processed before its own insert. */
module HomaMatcher {
  import opened Words
  import opened Message
  import opened Tally

  /** What find-and-erase yields for an id: its send time, or 0 if it has no entry. */
  function Lookup(pending: map<u64, u64>, rpc: u64): u64 {
    if rpc in pending then pending[rpc] else 0
  }

  /** Whether a processed response becomes a sample, `count` being the number of responses with this one. */
  predicate Sampled(sendTs: u64, count: u32, warmup: u32) {
    sendTs > 0 && count > warmup
  }

  /** The difference of two readings, in 64 bits. */
  function Elapsed(sendTs: u64, recvTs: u64): u64 {
    (recvTs - sendTs) % U64
  }

  /** The shared table and the receiver's own results. Insert is the sender's lock section; OnResponse is the receiver's
      lock section with the lines after it. */
  class Matcher {
    const warmup: u32
    var pending: map<u64, u64>
    var receivedCount: u32
    var samples: seq<u64>

    constructor (warmup: u32)
      ensures this.warmup == warmup && pending == map[] && receivedCount == 0 && samples == []
    {
      this.warmup, this.pending, this.receivedCount, this.samples := warmup, map[], 0, [];
    }

    method Insert(rpc: u64, sendTs: u64)
      modifies this`pending
      ensures pending == old(pending)[rpc := sendTs]
    {
      pending := pending[rpc := sendTs];
    }

    method OnResponse(rpc: u64, recvTs: u64)
      modifies this
      ensures pending == old(pending) - {rpc} && receivedCount == Add32(old(receivedCount), 1)
      ensures samples == old(samples) +
        if Sampled(Lookup(old(pending), rpc), receivedCount, warmup)
        then [Elapsed(Lookup(old(pending), rpc), recvTs)] else []
    {
      var sendTs: u64 := 0;
      if rpc in pending {
        sendTs := pending[rpc];
        pending := map k | k in pending && k != rpc :: pending[k];
      } else {
        assert pending - {rpc} == pending;
      }
      receivedCount := Add32(receivedCount, 1);
      if sendTs > 0 && receivedCount > warmup {
        samples := samples + [Elapsed(sendTs, recvTs)];
      }
    }
  }

  // ---- both threads and the kernel ----

  datatype Config = Config(total: u32, warmup: u32, sizes: seq<u32>)

  datatype Sender = Preparing | Sent(rpc: u64, ts: u64)
  datatype Receiver = Testing | Polling | Got(rpc: u64, ts: u64) | Exited

  /** `issued`: ids the kernel has handed out; `inserted`: send time of every completed insert; `matchedAt`: receive time
      of every response that found its entry; `sampledIds`: whose samples the samples are; `early`: ids of processed
      responses that found none; `responses`: how many were processed. */
  datatype State = State(next: nat, sender: Sender, receiver: Receiver, receiving: bool, clock: nat,
                         pending: map<u64, u64>, count: u32, samples: seq<u64>, totalBytes: u64,
                         issued: set<u64>, inserted: map<u64, u64>, matchedAt: map<u64, u64>,
                         sampledIds: seq<u64>, early: set<u64>, responses: nat)

  datatype Action =
    | Send(rpc: u64, ts: u64) | SendFails(ts: u64) | Insert | StopReceiving
    | Test | NoResponse | Receive(rpc: u64, ts: u64) | Match

  function Init(): State {
    State(0, Preparing, Testing, true, 0, map[], 0, [], 0, {}, map[], map[], [], {}, 0)
  }

  ghost predicate Valid(c: Config) {
    |c.sizes| == c.total
  }

  /** Ids are fresh when issued; a response answers an issued id, and the kernel may deliver it more than once; clock
      readings never go back. */
  predicate Enabled(c: Config, s: State, a: Action) {
    match a
    case Send(rpc, ts) => s.sender.Preparing? && s.next < c.total && rpc !in s.issued && ts >= s.clock
    case SendFails(ts) => s.sender.Preparing? && s.next < c.total && s.next < |c.sizes| && ts >= s.clock
    case Insert => s.sender.Sent? && s.next < |c.sizes|
    case StopReceiving => s.sender.Preparing? && s.next == c.total && s.receiving
    case Test => s.receiver.Testing?
    case NoResponse => s.receiver.Polling?
    case Receive(rpc, ts) => s.receiver.Polling? && rpc in s.issued && ts >= s.clock
    case Match => s.receiver.Got?
  }

  function Apply(c: Config, s: State, a: Action): State
    requires Enabled(c, s, a)
  {
    match a
    case Send(rpc, ts) => s.(clock := ts, sender := Sent(rpc, ts), issued := s.issued + {rpc})
    case SendFails(ts) =>
      s.(clock := ts, next := s.next + 1, totalBytes := Add64(s.totalBytes, HEADER + c.sizes[s.next]))
    case Insert =>
      s.(sender := Preparing, next := s.next + 1, totalBytes := Add64(s.totalBytes, HEADER + c.sizes[s.next]),
         pending := s.pending[s.sender.rpc := s.sender.ts], inserted := s.inserted[s.sender.rpc := s.sender.ts])
    case StopReceiving => s.(receiving := false)
    case Test => s.(receiver := if s.receiving then Polling else Exited)
    case NoResponse => s.(receiver := Testing)
    case Receive(rpc, ts) => s.(clock := ts, receiver := Got(rpc, ts))
    case Match =>
      var Got(rpc, ts) := s.receiver;
      var sendTs, count := Lookup(s.pending, rpc), Add32(s.count, 1);
      var kept := Sampled(sendTs, count, c.warmup);
      s.(receiver := Testing, responses := s.responses + 1, count := count,
         pending := s.pending - {rpc},
         matchedAt := if rpc in s.pending then s.matchedAt[rpc := ts] else s.matchedAt,
         early := if rpc in s.pending then s.early else s.early + {rpc},
         samples := if kept then s.samples + [Elapsed(sendTs, ts)] else s.samples,
         sampledIds := if kept then s.sampledIds + [rpc] else s.sampledIds)
  }

  ghost predicate IsRun(c: Config, states: seq<State>, acts: seq<Action>) {
    && |states| == |acts| + 1
    && states[0] == Init()
    && forall i :: 0 <= i < |acts| ==> Enabled(c, states[i], acts[i]) && states[i + 1] == Apply(c, states[i], acts[i])
  }

  // ---- the invariant ----

  /** The id of a request sent and not inserted yet. */
  function InHand(s: Sender): set<u64> {
    if s.Sent? then {s.rpc} else {}
  }

  /** The table holds exactly the inserts not matched yet; an id issued is inserted or in the sender's hand. */
  ghost predicate TableInv(s: State) {
    && s.pending.Keys !! s.matchedAt.Keys
    && s.pending.Keys + s.matchedAt.Keys == s.inserted.Keys
    && (forall k :: k in s.pending ==> s.pending[k] == s.inserted[k])
    && s.issued == s.inserted.Keys + InHand(s.sender)
    && s.inserted.Keys !! InHand(s.sender)
    && s.matchedAt.Keys + s.early <= s.issued
    && (s.receiver.Got? ==> s.receiver.rpc in s.issued)
  }

  /** Send times lie before the receive times of their responses. */
  ghost predicate ClockInv(s: State) {
    && (forall k :: k in s.inserted ==> s.inserted[k] <= s.clock)
    && (s.sender.Sent? ==> s.sender.ts <= s.clock)
    && (s.receiver.Got? ==>
          && (s.receiver.rpc in s.inserted ==> s.inserted[s.receiver.rpc] <= s.receiver.ts)
          && (s.sender.Sent? && s.sender.rpc == s.receiver.rpc ==> s.sender.ts <= s.receiver.ts))
    && (forall k :: k in s.matchedAt ==> k in s.inserted && s.inserted[k] <= s.matchedAt[k])
  }

  ghost predicate SampleInv(c: Config, s: State) {
    && s.count == s.responses % U32
    && |s.samples| == |s.sampledIds|
    && (forall j :: 0 <= j < |s.sampledIds| ==>
          && s.sampledIds[j] in s.matchedAt && s.sampledIds[j] in s.inserted
          && s.samples[j] == s.matchedAt[s.sampledIds[j]] as int - s.inserted[s.sampledIds[j]] as int)
    && (forall j, k :: 0 <= j < k < |s.sampledIds| ==> s.sampledIds[j] != s.sampledIds[k])
    && |s.samples| <= (if s.responses > c.warmup then s.responses - c.warmup else 0)
  }

  ghost predicate Inv(c: Config, s: State) {
    && TableInv(s) && ClockInv(s) && SampleInv(c, s)
    && s.next <= |c.sizes| && s.totalBytes == Bytes(c.sizes, s.next) % U64
  }

  lemma TableStep(c: Config, s: State, a: Action)
    requires TableInv(s) && Enabled(c, s, a)
    ensures TableInv(Apply(c, s, a))
  {
  }

  lemma ClockStep(c: Config, s: State, a: Action)
    requires TableInv(s) && ClockInv(s) && Enabled(c, s, a)
    ensures ClockInv(Apply(c, s, a))
  {
  }

  lemma SampleStep(c: Config, s: State, a: Action)
    requires TableInv(s) && ClockInv(s) && SampleInv(c, s) && Enabled(c, s, a)
    ensures SampleInv(c, Apply(c, s, a))
  {
    match a
    case Match => MatchSamples(c, s);
    case Insert =>
      assert forall j :: 0 <= j < |s.sampledIds| ==> s.sampledIds[j] in s.inserted;
    case _ =>
  }

  /** The id matched now had no sample yet: its entry was still in the table. */
  lemma MatchSamples(c: Config, s: State)
    requires TableInv(s) && ClockInv(s) && SampleInv(c, s) && s.receiver.Got?
    ensures SampleInv(c, Apply(c, s, Match))
  {
    var id, s' := s.receiver.rpc, Apply(c, s, Match);
    CountNext(s.responses, s.count);
    NoWrap(Lookup(s.pending, id), s.receiver.ts);
    assert id in s.pending ==> id in s.inserted && id !in s.matchedAt;
    forall j | 0 <= j < |s'.sampledIds|
      ensures s'.sampledIds[j] in s'.matchedAt && s'.sampledIds[j] in s'.inserted
      ensures s'.samples[j] == s'.matchedAt[s'.sampledIds[j]] as int - s'.inserted[s'.sampledIds[j]] as int
    {
      if j < |s.sampledIds| {
        assert s.sampledIds[j] in s.matchedAt;
      }
    }
  }

  lemma NoWrap(sendTs: u64, recvTs: u64)
    ensures sendTs <= recvTs ==> Elapsed(sendTs, recvTs) == recvTs - sendTs
  {
  }

  lemma CountNext(n: nat, count: u32)
    requires count == n % U32
    ensures Add32(count, 1) == (n + 1) % U32 && Add32(count, 1) <= n + 1
  {
  }

  lemma StepInv(c: Config, s: State, a: Action)
    requires Valid(c) && Inv(c, s) && Enabled(c, s, a)
    ensures Inv(c, Apply(c, s, a))
  {
    TableStep(c, s, a);
    ClockStep(c, s, a);
    SampleStep(c, s, a);
    if a.SendFails? || a.Insert? {
      Wrap64(Bytes(c.sizes, s.next), HEADER + c.sizes[s.next]);
    }
  }

  lemma {:induction false} RunInv(c: Config, states: seq<State>, acts: seq<Action>, i: nat)
    requires Valid(c) && IsRun(c, states, acts) && i <= |acts|
    ensures Inv(c, states[i])
  {
    if i > 0 {
      RunInv(c, states, acts, i - 1);
      StepInv(c, states[i - 1], acts[i - 1]);
    }
  }

  // ---- the accounts ----

  /** In every interleaving, also when responses overtake their own inserts or come twice: completed inserts are matched
      responses plus what is left in the table; there are no more samples than matched responses, nor than responses
      past the warm-up count; and every attempted send is in the byte count. */
  lemma MatchingConserves(c: Config, states: seq<State>, acts: seq<Action>, i: nat)
    requires Valid(c) && IsRun(c, states, acts) && i <= |acts|
    ensures var s := states[i];
      && |s.inserted| == |s.matchedAt| + |s.pending|
      && |s.samples| <= |s.matchedAt|
      && |s.samples| <= (if s.responses > c.warmup then s.responses - c.warmup else 0)
      && s.next <= |c.sizes| && s.totalBytes == Bytes(c.sizes, s.next) % U64
  {
    RunInv(c, states, acts, i);
    TableConserves(c, states[i]);
  }

  lemma TableConserves(c: Config, s: State)
    requires TableInv(s) && SampleInv(c, s)
    ensures |s.inserted| == |s.matchedAt| + |s.pending| && |s.samples| <= |s.matchedAt|
  {
    DisjointSizes(s.pending.Keys, s.matchedAt.Keys);
    assert |s.pending| == |s.pending.Keys| && |s.matchedAt| == |s.matchedAt.Keys| && |s.inserted| == |s.inserted.Keys|;
    DistinctFit(s.sampledIds, s.matchedAt.Keys);
  }

  lemma DisjointSizes(a: set<u64>, b: set<u64>)
    requires a !! b
    ensures |a + b| == |a| + |b|
  {
  }

  lemma {:induction false} DistinctFit(ids: seq<u64>, within: set<u64>)
    requires forall j, k :: 0 <= j < k < |ids| ==> ids[j] != ids[k]
    requires forall j :: 0 <= j < |ids| ==> ids[j] in within
    ensures |ids| <= |within|
  {
    if ids != [] {
      DistinctFit(ids[1..], within - {ids[0]});
    }
  }

  /** Every sample is its own RPC's receive time minus send time, never negative, and no RPC has two. */
  lemma SamplesAreTheirOwn(c: Config, states: seq<State>, acts: seq<Action>, i: nat, j: nat)
    requires Valid(c) && IsRun(c, states, acts) && i <= |acts| && j < |states[i].samples|
    ensures var s := states[i];
      && |s.sampledIds| == |s.samples|
      && var id := s.sampledIds[j];
         && id in s.matchedAt && id in s.inserted && id !in s.pending
         && s.inserted[id] <= s.matchedAt[id] && s.samples[j] == s.matchedAt[id] as int - s.inserted[id] as int
         && forall k :: 0 <= k < |s.sampledIds| && k != j ==> s.sampledIds[k] != id
  {
    RunInv(c, states, acts, i);
  }

  /** The sender makes as many sends as asked for and only then lets the receiver go. */
  predicate EndInv(c: Config, s: State) {
    && s.next <= c.total && (s.sender.Sent? ==> s.next < c.total)
    && (!s.receiving ==> s.next == c.total && s.sender.Preparing?)
    && (s.receiver.Exited? ==> !s.receiving)
  }

  lemma EndStep(c: Config, s: State, a: Action)
    requires EndInv(c, s) && Enabled(c, s, a)
    ensures EndInv(c, Apply(c, s, a))
  {
  }

  lemma {:induction false} EndRun(c: Config, states: seq<State>, acts: seq<Action>, i: nat)
    requires IsRun(c, states, acts) && i <= |acts|
    ensures EndInv(c, states[i])
  {
    if i > 0 {
      EndRun(c, states, acts, i - 1);
      EndStep(c, states[i - 1], acts[i - 1]);
    }
  }

  /** When the receiver has exited, every send has been made and is in the byte count, each successful one in the table
      or matched. */
  lemma AllSentAtTheEnd(c: Config, states: seq<State>, acts: seq<Action>, i: nat)
    requires Valid(c) && IsRun(c, states, acts) && i <= |acts| && states[i].receiver.Exited?
    ensures states[i].next == c.total && states[i].totalBytes == Bytes(c.sizes, c.total) % U64
    ensures states[i].issued == states[i].pending.Keys + states[i].matchedAt.Keys
  {
    RunInv(c, states, acts, i);
    EndRun(c, states, acts, i);
  }

  /** The sender can always go on until then, whatever the receiver does, and the receiver can always be let go. */
  lemma SenderCanGoOn(c: Config, states: seq<State>, acts: seq<Action>, i: nat, ts: u64)
    requires Valid(c) && IsRun(c, states, acts) && i <= |acts| && ts >= states[i].clock
    ensures var s := states[i];
      if s.sender.Sent? then Enabled(c, s, Insert)
      else if s.next < c.total then
        Enabled(c, s, SendFails(ts)) && forall rpc: u64 :: rpc !in s.issued ==> Enabled(c, s, Send(rpc, ts))
      else s.receiving ==> Enabled(c, s, StopReceiving)
  {
    RunInv(c, states, acts, i);
    EndRun(c, states, acts, i);
  }

  // ---- which responses become samples ----

  /** The clock was past zero at every send. */
  ghost predicate PositiveSends(acts: seq<Action>) {
    forall k :: 0 <= k < |acts| ==> acts[k].Send? ==> acts[k].ts > 0
  }

  function Least(x: nat, y: nat): nat {
    if x < y then x else y
  }

  /** Matched responses that gave no sample are among the first `warmup` responses. */
  ghost predicate KeptInv(c: Config, s: State) {
    && (s.sender.Sent? ==> s.sender.ts > 0)
    && (forall id :: id in s.pending ==> s.pending[id] > 0)
    && |s.matchedAt.Keys| <= |s.samples| + Least(s.responses, c.warmup)
  }

  lemma OneMoreKey(m: map<u64, u64>, k: u64, v: u64)
    requires k !in m
    ensures |m[k := v].Keys| == |m.Keys| + 1
  {
    assert m[k := v].Keys == m.Keys + {k};
  }

  lemma KeptStep(c: Config, s: State, a: Action, t: State)
    requires TableInv(s) && s.count == s.responses % U32 && KeptInv(c, s)
    requires Enabled(c, s, a) && t == Apply(c, s, a) && t.responses < U32 && (a.Send? ==> a.ts > 0)
    ensures KeptInv(c, t)
  {
    if a.Match? {
      CountExact(s.responses, s.count);
      Matched(c, s, t);
      KeptMatch(c, s, t);
    }
  }

  /** What the receiver's lock section and the lines after it change. */
  predicate MatchedInto(c: Config, s: State, t: State, rpc: u64, ts: u64) {
    && t.sender == s.sender && t.pending == s.pending - {rpc} && t.responses == s.responses + 1
    && (rpc in s.pending ==>
          && rpc !in s.matchedAt && t.matchedAt == s.matchedAt[rpc := ts]
          && |t.samples| == |s.samples| + if t.responses > c.warmup then 1 else 0)
    && (rpc !in s.pending ==> t.matchedAt == s.matchedAt && t.samples == s.samples)
  }

  lemma Matched(c: Config, s: State, t: State)
    requires TableInv(s) && KeptInv(c, s) && s.receiver.Got? && t == Apply(c, s, Match)
    requires Add32(s.count, 1) == s.responses + 1
    ensures MatchedInto(c, s, t, s.receiver.rpc, s.receiver.ts)
  {
  }

  lemma KeptMatch(c: Config, s: State, t: State)
    requires KeptInv(c, s) && s.receiver.Got? && MatchedInto(c, s, t, s.receiver.rpc, s.receiver.ts)
    ensures KeptInv(c, t)
  {
    if s.receiver.rpc in s.pending {
      OneMoreKey(s.matchedAt, s.receiver.rpc, s.receiver.ts);
    }
  }

  lemma CountExact(n: nat, count: u32)
    requires count == n % U32 && n + 1 < U32
    ensures Add32(count, 1) == n + 1
  {
  }

  lemma {:induction false} KeptRun(c: Config, states: seq<State>, acts: seq<Action>, i: nat)
    requires Valid(c) && IsRun(c, states, acts) && i <= |acts| && PositiveSends(acts) && states[i].responses < U32
    ensures KeptInv(c, states[i])
  {
    if i > 0 {
      RunInv(c, states, acts, i - 1);
      Counts(c, states[i - 1], acts[i - 1], states[i]);
      KeptRun(c, states, acts, i - 1);
      KeptStep(c, states[i - 1], acts[i - 1], states[i]);
    }
  }

  lemma Counts(c: Config, s: State, a: Action, t: State)
    requires Enabled(c, s, a) && t == Apply(c, s, a)
    ensures s.responses <= t.responses
  {
  }

  /** No matched response is lost: as long as the 32-bit count does not wrap, all but at most `warmup` of them are
      samples. */
  lemma MatchedAreSampled(c: Config, states: seq<State>, acts: seq<Action>, i: nat)
    requires Valid(c) && IsRun(c, states, acts) && i <= |acts| && PositiveSends(acts) && states[i].responses < U32
    ensures |states[i].matchedAt| - c.warmup <= |states[i].samples| <= |states[i].matchedAt|
  {
    KeptRun(c, states, acts, i);
    MatchingConserves(c, states, acts, i);
    assert |states[i].matchedAt| == |states[i].matchedAt.Keys|;
  }

  // ---- responses that come before their insert ----

  /** The kernel delivers a response only once per id. */
  ghost predicate Once(s: State, a: Action) {
    a.Receive? ==> a.rpc !in s.matchedAt && a.rpc !in s.early
  }

  ghost predicate OnceInv(s: State) {
    && s.matchedAt.Keys !! s.early
    && (s.receiver.Got? ==> s.receiver.rpc !in s.matchedAt && s.receiver.rpc !in s.early)
  }

  lemma OnceStep(c: Config, s: State, a: Action)
    requires TableInv(s) && OnceInv(s) && Enabled(c, s, a) && Once(s, a)
    ensures OnceInv(Apply(c, s, a))
  {
  }

  /** Every response was matched or early. */
  ghost predicate AllAccounted(s: State) {
    s.responses == |s.matchedAt.Keys| + |s.early|
  }

  lemma AccountedStep(c: Config, s: State, a: Action, t: State)
    requires TableInv(s) && OnceInv(s) && AllAccounted(s) && Enabled(c, s, a) && t == Apply(c, s, a)
    ensures AllAccounted(t)
  {
    if a.Match? {
      if s.receiver.rpc in s.pending {
        OneMoreKey(s.matchedAt, s.receiver.rpc, s.receiver.ts);
      } else {
        assert t.early == s.early + {s.receiver.rpc} && s.receiver.rpc !in s.early;
      }
    }
  }

  lemma {:induction false} OnceRun(c: Config, states: seq<State>, acts: seq<Action>, i: nat)
    requires Valid(c) && IsRun(c, states, acts) && i <= |acts|
    requires forall k :: 0 <= k < |acts| ==> Once(states[k], acts[k])
    ensures OnceInv(states[i]) && AllAccounted(states[i])
  {
    if i > 0 {
      OnceRun(c, states, acts, i - 1);
      RunInv(c, states, acts, i - 1);
      OnceStep(c, states[i - 1], acts[i - 1]);
      AccountedStep(c, states[i - 1], acts[i - 1], states[i]);
    }
  }

  /** With one delivery per id, an RPC whose response came before its insert is never matched nor sampled and, once
      inserted, stays in the table for good; and when all responses are in, the table holds exactly those RPCs. */
  lemma EarlyResponsesStay(c: Config, states: seq<State>, acts: seq<Action>, i: nat)
    requires Valid(c) && IsRun(c, states, acts) && i <= |acts|
    requires forall k :: 0 <= k < |acts| ==> Once(states[k], acts[k])
    ensures var s := states[i];
      && (forall id :: id in s.early && id in s.inserted ==> id in s.pending)
      && (forall id :: id in s.early ==> id !in s.matchedAt && id !in s.sampledIds)
      && (s.sender.Preparing? && s.issued == s.matchedAt.Keys + s.early ==> s.pending.Keys == s.early)
  {
    RunInv(c, states, acts, i);
    OnceRun(c, states, acts, i);
  }

  lemma Extend(c: Config, states: seq<State>, acts: seq<Action>, a: Action)
    returns (states': seq<State>, acts': seq<Action>)
    requires IsRun(c, states, acts) && Enabled(c, states[|acts|], a)
    ensures IsRun(c, states', acts') && |acts'| == |acts| + 1 && states'[|acts'|] == Apply(c, states[|acts|], a)
    ensures states'[..|acts| + 1] == states && acts'[..|acts|] == acts
  {
    states', acts' := states + [Apply(c, states[|acts|], a)], acts + [a];
  }

  /** Such runs exist, for every id and every pair of clock readings: sent, answered, the answer processed, and only then
      inserted. The response is counted and its RPC stays in the table without a sample. */
  lemma ResponseCanBeatInsert(c: Config, rpc: u64, sent: u64, received: u64)
    returns (states: seq<State>, acts: seq<Action>)
    requires Valid(c) && c.total >= 1 && sent <= received
    ensures IsRun(c, states, acts) && forall k :: 0 <= k < |acts| ==> Once(states[k], acts[k])
    ensures var s := states[|acts|];
      s.early == {rpc} && s.pending == map[rpc := sent] && s.responses == 1 && s.samples == [] && s.next == 1
  {
    states, acts := [Init()], [];
    states, acts := Extend(c, states, acts, Send(rpc, sent));
    states, acts := Extend(c, states, acts, Test);
    states, acts := Extend(c, states, acts, Receive(rpc, received));
    states, acts := Extend(c, states, acts, Match);
    assert states[|acts|].early == {rpc} && states[|acts|].pending == map[];
    states, acts := Extend(c, states, acts, Insert);
    assert acts == [Send(rpc, sent), Test, Receive(rpc, received), Match, Insert];
    assert states[2].matchedAt == map[] && states[2].early == {};
  }

  /** With one delivery per id, and none before its insert, the samples are exactly as many as the responses past the
      warm-up count. */
  lemma SamplesAreExact(c: Config, states: seq<State>, acts: seq<Action>, i: nat)
    requires Valid(c) && IsRun(c, states, acts) && i <= |acts| && PositiveSends(acts) && states[i].responses < U32
    requires forall k :: 0 <= k < |acts| ==> Once(states[k], acts[k])
    requires states[i].early == {}
    ensures var s := states[i]; |s.samples| == if s.responses > c.warmup then s.responses - c.warmup else 0
  {
    OnceRun(c, states, acts, i);
    MatchedAreSampled(c, states, acts, i);
    MatchingConserves(c, states, acts, i);
    assert |states[i].matchedAt| == |states[i].matchedAt.Keys|;
  }
}
