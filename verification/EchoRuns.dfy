/** What holds of every run of the connection: echo correctness, framing, conservation of bytes, and completion. */
module EchoRuns {
  import opened Words
  import opened Message
  import opened Echo

  ghost predicate NoDiscardBefore(states: seq<State>, acts: seq<Action>, i: nat)
    requires i <= |acts| < |states|
  {
    forall j :: 0 <= j < i ==> !Discards(states[j], acts[j])
  }

  lemma {:induction false} RunInv(c: Config, states: seq<State>, acts: seq<Action>, i: nat)
    requires Valid(c) && IsRun(c, states, acts) && i <= |acts| && NoDiscardBefore(states, acts, i)
    ensures Inv(c, states[i])
  {
    if i > 0 {
      RunInv(c, states, acts, i - 1);
      StepInv(c, states[i - 1], acts[i - 1]);
    } else {
      InitInv(c);
    }
  }

  /** Neither direction ever holds more than its capacity. */
  lemma {:induction false} WithinCapacity(c: Config, states: seq<State>, acts: seq<Action>, i: nat)
    requires IsRun(c, states, acts) && i <= |acts|
    ensures |states[i].up| <= c.capUp && |states[i].down| <= c.capDown
  {
    if i > 0 {
      WithinCapacity(c, states, acts, i - 1);
      CapacityStep(c, states[i - 1], acts[i - 1]);
    }
  }

  lemma CapacityStep(c: Config, s: State, a: Action)
    requires Enabled(c, s, a) && |s.up| <= c.capUp && |s.down| <= c.capDown
    ensures |Apply(c, s, a).up| <= c.capUp && |Apply(c, s, a).down| <= c.capDown
  {
  }

  /** Echo correctness, for every chunking, interleaving, peer failure and stop: as long as no receive timeout fires
      inside a header, the k-th result is either a failure on an ended connection or the k-th request, header and
      payload, with only the type changed; and a request above the size limit never gets a response. */
  lemma EchoCorrect(c: Config, states: seq<State>, acts: seq<Action>, i: nat, k: nat)
    requires Valid(c) && IsRun(c, states, acts) && i <= |acts| && NoDiscardBefore(states, acts, i)
    requires k < |states[i].log|
    ensures k < |c.reqs|
    ensures states[i].log[k].None? ==> Ended(states[i])
    ensures states[i].log[k].Some? ==>
      var (req, resp) := (c.reqs[k], states[i].log[k].value);
      && |resp| == |req|
      && Deserialize(resp[..HEADER]) == Deserialize(req[..HEADER]).(kind := RESPONSE)
      && resp[HEADER..] == req[HEADER..]
      && |req| <= HEADER + MAX_PAYLOAD_SIZE
  {
    RunInv(c, states, acts, i);
    assert Outcome(c.reqs[k], states[i].log[k], Ended(states[i]));
    ReplyKeepsAllButType(c.reqs[k]);
  }

  // ---- framing ----

  lemma {:induction false} FramesGrow(c: Config, i: nat, j: nat)
    requires Valid(c) && i <= j <= |c.reqs|
    ensures |Frames(c.reqs, i)| + HEADER * (j - i) <= |Frames(c.reqs, j)|
  {
    if i < j {
      FramesGrow(c, i, j - 1);
      assert IsFrame(c.reqs[j - 1]);
    }
  }

  /** Cut inside a header, a byte count is not a sum of whole frames. */
  lemma InsideHeaderIsNotWhole(c: Config, k: nat, got: seq<byte>)
    requires Valid(c) && k <= |c.reqs| && 0 < |got| < HEADER
    ensures !WholeFrames(c.reqs, Frames(c.reqs, k) + got)
  {
    forall j: nat | j <= |c.reqs| ensures Frames(c.reqs, k) + got != Frames(c.reqs, j) {
      if j <= k {
        FramesGrow(c, j, k);
      } else {
        FramesGrow(c, k, j);
      }
    }
  }

  lemma DiscardLosesFraming(c: Config, s: State, a: Action)
    requires Valid(c) && Inv(c, s) && Enabled(c, s, a) && Discards(s, a)
    ensures Apply(c, s, a).server.LoopTop? && !WholeFrames(c.reqs, Apply(c, s, a).consumed)
  {
    if !s.client.Finished? {
      InsideHeaderIsNotWhole(c, s.client.k, s.server.got);
    }
  }

  lemma {:induction false} FirstDiscard(states: seq<State>, acts: seq<Action>, i: nat) returns (d: nat)
    requires i < |acts| < |states| && Discards(states[i], acts[i])
    ensures d <= i && Discards(states[d], acts[d]) && NoDiscardBefore(states, acts, d)
  {
    if j: nat :| j < i && Discards(states[j], acts[j]) {
      d := FirstDiscard(states, acts, j);
    } else {
      d := i;
    }
  }

  ghost predicate Framed(c: Config, states: seq<State>) {
    forall i :: 0 <= i < |states| && states[i].server.LoopTop? ==> WholeFrames(c.reqs, states[i].consumed)
  }

  /** Framing, exactly: the bytes consumed at every handler loop top are a concatenation of whole request frames if and
      only if no receive timeout of the run fires strictly inside a header. */
  lemma FramedIffNoDiscard(c: Config, states: seq<State>, acts: seq<Action>)
    requires Valid(c) && IsRun(c, states, acts)
    ensures Framed(c, states) <==> NoDiscardBefore(states, acts, |acts|)
  {
    if NoDiscardBefore(states, acts, |acts|) {
      forall i | 0 <= i < |states| && states[i].server.LoopTop?
        ensures WholeFrames(c.reqs, states[i].consumed)
      {
        RunInv(c, states, acts, i);
        LoopTopIsFramed(c, states[i]);
      }
    } else {
      var i :| 0 <= i < |acts| && Discards(states[i], acts[i]);
      var d := FirstDiscard(states, acts, i);
      RunInv(c, states, acts, d);
      DiscardLosesFraming(c, states[d], acts[d]);
      assert states[d + 1].server.LoopTop?;
    }
  }

  // ---- what a discard leads to ----

  /** Too few bytes are left, anywhere, to make up one header. */
  ghost predicate Starved(c: Config, s: State, k: nat) {
    && s.running && !s.shut && s.down == [] && (s.server.LoopTop? || s.server.Reading?) && k < |c.reqs|
    && match s.client
       case Sending(j, sent) =>
         j == k && sent < |c.reqs[k]| && |InHand(s.server)| + |s.up| + (|c.reqs[k]| - sent) < HEADER
       case Receiving(j, got) => j == k && got == [] && |InHand(s.server)| + |s.up| < HEADER
       case Finished => false
  }

  lemma StarvedStep(c: Config, s: State, a: Action, k: nat)
    requires Starved(c, s, k) && Enabled(c, s, a) && a != Stop
    ensures Starved(c, Apply(c, s, a), k)
  {
  }

  lemma StarvedNext(c: Config, s: State, a: Action, t: State, k: nat)
    requires Enabled(c, s, a) && t == Apply(c, s, a) && (s.running ==> Starved(c, s, k))
    ensures t.running ==> Starved(c, t, k)
  {
    if s.running && a != Stop {
      StarvedStep(c, s, a, k);
    }
  }

  lemma {:induction false} StarvedRun(c: Config, states: seq<State>, acts: seq<Action>, i: nat, j: nat, k: nat)
    requires IsRun(c, states, acts) && i <= j <= |acts| && Starved(c, states[i], k)
    ensures states[j].running ==> Starved(c, states[j], k)
  {
    if i < j {
      StarvedRun(c, states, acts, i, j - 1, k);
      StarvedNext(c, states[j - 1], acts[j - 1], states[j], k);
    }
  }

  /** A timeout that discards more header bytes than the request has payload bytes makes that request hang: however the
      run goes on, the client is still waiting in it as long as the server runs. */
  lemma DiscardHangs(c: Config, states: seq<State>, acts: seq<Action>, i: nat, j: nat)
    requires Valid(c) && IsRun(c, states, acts) && i < j <= |acts|
    requires NoDiscardBefore(states, acts, i) && Discards(states[i], acts[i])
    requires !states[i].client.Finished? && states[i].client.k < |c.reqs|
    requires PayloadSize(c.reqs[states[i].client.k]) < |states[i].server.got|
    requires states[j].running
    ensures !states[j].client.Finished? && states[j].client.k == states[i].client.k
  {
    RunInv(c, states, acts, i);
    assert Starved(c, states[i + 1], states[i].client.k) by {
      assert |InHand(states[i].server) + states[i].up| == |InHand(states[i].server)| + |states[i].up|;
    }
    StarvedRun(c, states, acts, i + 1, j, states[i].client.k);
  }

  /** Header bytes thrown away in the first j steps. */
  function Lost(states: seq<State>, acts: seq<Action>, j: nat): nat
    requires j <= |acts| < |states|
  {
    if j == 0 then 0
    else
      var now := if Discards(states[j - 1], acts[j - 1]) then |states[j - 1].server.got| else 0;
      Lost(states, acts, j - 1) + now
  }

  /** The handler has no header in hand, and the rest of request k from byte d on, as far as sent, lies before it. */
  ghost predicate Misaligned(c: Config, s: State, k: nat, d: nat) {
    && s.running && !s.shut && s.down == [] && AwaitsHeader(s.server) && InRequest(c, s, k)
    && d <= SentOf(c, s, k) <= |c.reqs[k]|
    && InHand(s.server) + s.up == c.reqs[k][d..SentOf(c, s, k)]
  }

  /** The client is in request k and has not got any of the response. */
  predicate InRequest(c: Config, s: State, k: nat) {
    && k < |c.reqs|
    && match s.client
       case Sending(j, sent) => j == k && sent < |c.reqs[k]|
       case Receiving(j, got) => j == k && got == []
       case Finished => false
  }

  function SentOf(c: Config, s: State, k: nat): nat
    requires k < |c.reqs|
  {
    if s.client.Sending? then s.client.sent else |c.reqs[k]|
  }

  predicate AwaitsHeader(s: Server) {
    s.LoopTop? || (s.Reading? && |s.got| < HEADER)
  }

  /** The header this step completes, if it completes one. */
  function HeaderIn(s: State, a: Action): Option<seq<byte>> {
    if a.ServerRecv? && s.server.Reading? && |s.server.got| < HEADER && a.n <= |s.up| && |s.server.got| + a.n == HEADER
    then Some(s.server.got + s.up[..a.n]) else None
  }

  /** A header ends the handler at once, before any payload, exactly if it announces more than 4 MiB. */
  lemma OversizedEndsHandler(c: Config, s: State, a: Action)
    requires Enabled(c, s, a) && HeaderIn(s, a).Some?
    ensures |HeaderIn(s, a).value| == 22
    ensures Apply(c, s, a).server.Closed? <==> PayloadSize(HeaderIn(s, a).value) > 4 * 1024 * 1024
  {
  }

  lemma MisalignedStep(c: Config, s: State, a: Action, k: nat, d: nat)
    requires Misaligned(c, s, k, d) && Enabled(c, s, a) && a != Stop
    ensures match HeaderIn(s, a)
      case Some(header) => d + HEADER <= |c.reqs[k]| && header == c.reqs[k][d..d + HEADER]
      case None => Misaligned(c, Apply(c, s, a), k, d + if Discards(s, a) then |s.server.got| else 0)
  {
    match a
    case ClientSend(n) => MisalignedSend(c, s, n, k, d);
    case ServerRecv(n) => MisalignedRecv(c, s, n, k, d);
    case ServerRecvFails => DropOfWindow(c.reqs[k], d, SentOf(c, s, k), InHand(s.server), s.up);
    case _ =>
  }

  lemma MisalignedSend(c: Config, s: State, n: nat, k: nat, d: nat)
    requires Misaligned(c, s, k, d) && Enabled(c, s, ClientSend(n))
    ensures Misaligned(c, Apply(c, s, ClientSend(n)), k, d)
  {
    var s' := Apply(c, s, ClientSend(n));
    assert SentOf(c, s', k) == s.client.sent + n;
    GrowWindow(c.reqs[k], d, s.client.sent, n, InHand(s.server), s.up);
  }

  lemma GrowWindow(f: seq<byte>, d: nat, sent: nat, n: nat, a: seq<byte>, b: seq<byte>)
    requires d <= sent && sent + n <= |f| && a + b == f[d..sent]
    ensures a + (b + f[sent..sent + n]) == f[d..sent + n]
  {
    assert a + (b + f[sent..sent + n]) == a + b + f[sent..sent + n];
  }

  lemma MisalignedRecv(c: Config, s: State, n: nat, k: nat, d: nat)
    requires Misaligned(c, s, k, d) && Enabled(c, s, ServerRecv(n))
    ensures match HeaderIn(s, ServerRecv(n))
      case Some(header) => d + HEADER <= |c.reqs[k]| && header == c.reqs[k][d..d + HEADER]
      case None => Misaligned(c, Apply(c, s, ServerRecv(n)), k, d)
  {
    var got' := s.server.got + s.up[..n];
    assert got' + s.up[n..] == s.server.got + s.up;
    PrefixOfWindow(c.reqs[k], d, SentOf(c, s, k), got', s.up[n..]);
  }

  lemma PrefixOfWindow(f: seq<byte>, d: nat, e: nat, a: seq<byte>, b: seq<byte>)
    requires d <= e <= |f| && a + b == f[d..e]
    ensures d + |a| <= e && a == f[d..d + |a|]
  {
    assert |a + b| == |a| + |b|;
    assert a == (a + b)[..|a|];
  }

  lemma DropOfWindow(f: seq<byte>, d: nat, e: nat, a: seq<byte>, b: seq<byte>)
    requires d <= e <= |f| && a + b == f[d..e]
    ensures d + |a| <= e && b == f[d + |a|..e]
  {
    assert |a + b| == |a| + |b|;
    assert b == (a + b)[|a|..];
  }

  lemma MisalignedNext(c: Config, s: State, a: Action, t: State, k: nat, d: nat)
    requires Enabled(c, s, a) && t == Apply(c, s, a) && (s.running ==> Misaligned(c, s, k, d))
    requires HeaderIn(s, a) == None
    ensures var lost := if Discards(s, a) then |s.server.got| else 0;
      t.running ==> Misaligned(c, t, k, d + lost)
  {
    if s.running && a != Stop {
      MisalignedStep(c, s, a, k, d);
    }
  }

  lemma {:induction false} MisalignedRun(c: Config, states: seq<State>, acts: seq<Action>, i: nat, j: nat)
    requires Valid(c) && IsRun(c, states, acts) && i < j <= |acts| && NoDiscardBefore(states, acts, i)
    requires Discards(states[i], acts[i]) && !states[i].client.Finished?
    requires forall m :: i < m < j ==> HeaderIn(states[m], acts[m]) == None
    ensures states[j].running ==> Misaligned(c, states[j], states[i].client.k, Lost(states, acts, j))
  {
    if j == i + 1 {
      RunInv(c, states, acts, i);
      NothingLost(states, acts, i);
      DiscardMisaligns(c, states[i], acts[i]);
    } else {
      MisalignedRun(c, states, acts, i, j - 1);
      MisalignedNext(c, states[j - 1], acts[j - 1], states[j], states[i].client.k, Lost(states, acts, j - 1));
    }
  }

  lemma {:induction false} NothingLost(states: seq<State>, acts: seq<Action>, i: nat)
    requires i <= |acts| < |states| && NoDiscardBefore(states, acts, i)
    ensures Lost(states, acts, i) == 0
  {
    if i > 0 {
      NothingLost(states, acts, i - 1);
    }
  }

  lemma DiscardMisaligns(c: Config, s: State, a: Action)
    requires Valid(c) && Inv(c, s) && Enabled(c, s, a) && Discards(s, a) && !s.client.Finished?
    ensures s.client.k < |c.reqs| && Misaligned(c, Apply(c, s, a), s.client.k, |s.server.got|)
  {
    var f := c.reqs[s.client.k];
    assert f[0..|f|] == f;
    DropOfWindow(f, 0, SentOf(c, s, s.client.k), s.server.got, s.up);
  }

  /** What the handler takes for a header after such timeouts: the 22 bytes of the same request that come after all those
      thrown away, so header bytes followed by payload bytes. The client is still in that request. */
  lemma DiscardShiftsHeader(c: Config, states: seq<State>, acts: seq<Action>, i: nat, j: nat)
    requires Valid(c) && IsRun(c, states, acts) && i < j < |acts| && NoDiscardBefore(states, acts, i)
    requires Discards(states[i], acts[i]) && !states[i].client.Finished? && states[j].running
    requires HeaderIn(states[j], acts[j]).Some?
    requires forall m :: i < m < j ==> HeaderIn(states[m], acts[m]) == None
    ensures var (k, d) := (states[i].client.k, Lost(states, acts, j));
      && !states[j].client.Finished? && states[j].client.k == k < |c.reqs|
      && 0 < d && d + HEADER <= |c.reqs[k]|
      && HeaderIn(states[j], acts[j]).value == c.reqs[k][d..d + HEADER]
  {
    MisalignedRun(c, states, acts, i, j);
    MisalignedStep(c, states[j], acts[j], states[i].client.k, Lost(states, acts, j));
    LostGrows(states, acts, i, j);
  }

  lemma {:induction false} LostGrows(states: seq<State>, acts: seq<Action>, i: nat, j: nat)
    requires i < j <= |acts| < |states| && Discards(states[i], acts[i])
    ensures Lost(states, acts, j) >= |states[i].server.got| > 0
  {
    if i + 1 < j {
      LostGrows(states, acts, i, j - 1);
    }
  }

  /** Such runs exist, for every first request. */
  lemma DiscardCanHappen(c: Config) returns (states: seq<State>, acts: seq<Action>)
    requires Valid(c) && |c.reqs| > 0
    ensures IsRun(c, states, acts) && |acts| == 4 && Discards(states[3], acts[3])
    ensures !Framed(c, states)
  {
    acts := [ServerTest, ClientSend(1), ServerRecv(1), ServerRecvFails];
    var s0 := Init(c);
    assert IsFrame(c.reqs[0]);
    var s1 := Apply(c, s0, acts[0]);
    var s2 := Apply(c, s1, acts[1]);
    var s3 := Apply(c, s2, acts[2]);
    var s4 := Apply(c, s3, acts[3]);
    states := [s0, s1, s2, s3, s4];
    assert IsRun(c, states, acts);
    FramedIffNoDiscard(c, states, acts);
  }

  /** A request as `do_request` builds it: the payload is all zeros. */
  predicate ZeroPayload(f: seq<byte>) {
    IsFrame(f) && forall i :: HEADER <= i < |f| ==> f[i] == 0
  }

  /** What the handler answers when it has lost the first d bytes of f: the next 22, with their type byte set. */
  function WrongReply(f: seq<byte>, d: nat): seq<byte>
    requires d + HEADER <= |f|
  {
    f[d..d + HEADER][TYPE_OFFSET := RESPONSE]
  }

  /** The handler takes those for a header that announces no payload, and so does the client. */
  lemma LooksLikeFrame(f: seq<byte>, d: nat)
    requires ZeroPayload(f) && 14 <= d && d + HEADER <= |f|
    ensures Complete(f[d..d + HEADER]) && PayloadSize(f[d..d + HEADER]) == 0 && Complete(WrongReply(f, d))
    ensures WrongReply(f, d) == Reply(f[d..d + HEADER]) && |WrongReply(f, d)| == HEADER
    ensures WrongReply(f, d) != Reply(f)
  {
    var g := f[d..d + HEADER];
    assert g[8] == 0 && g[9] == 0 && g[10] == 0 && g[11] == 0;
  }

  lemma Extend(c: Config, states: seq<State>, acts: seq<Action>, a: Action)
    returns (states': seq<State>, acts': seq<Action>)
    requires IsRun(c, states, acts) && Enabled(c, states[|acts|], a)
    ensures IsRun(c, states', acts') && |acts'| == |acts| + 1 && states'[|acts'|] == Apply(c, states[|acts|], a)
  {
    states', acts' := states + [Apply(c, states[|acts|], a)], acts + [a];
  }

  /** The handler has d bytes of the first header. */
  lemma PartOfHeader(c: Config, d: nat) returns (states: seq<State>, acts: seq<Action>)
    requires Valid(c) && |c.reqs| > 0 && 0 < d < HEADER < |c.reqs[0]| && c.capUp >= HEADER
    ensures IsRun(c, states, acts)
    ensures var f := c.reqs[0];
      states[|acts|] == State(Sending(0, HEADER), Reading(f[..d]), f[d..HEADER], [], true, false, [], f[..d])
  {
    var f := c.reqs[0];
    states, acts := [Init(c)], [];
    states, acts := Extend(c, states, acts, ServerTest);
    states, acts := Extend(c, states, acts, ClientSend(HEADER));
    assert [] + f[0..HEADER] == f[..HEADER];
    assert states[|acts|] == State(Sending(0, HEADER), Reading([]), f[..HEADER], [], true, false, [], []);
    states, acts := Extend(c, states, acts, ServerRecv(d));
    assert [] + f[..HEADER][..d] == f[..d] && f[..HEADER][d..] == f[d..HEADER];
  }

  /** The client is through with sending the request, of which the handler has lost the first d bytes. */
  lemma LosesBytes(c: Config, d: nat) returns (states: seq<State>, acts: seq<Action>)
    requires Valid(c) && |c.reqs| > 0 && 0 < d < HEADER < |c.reqs[0]| && c.capUp >= |c.reqs[0]|
    ensures IsRun(c, states, acts)
    ensures states[|acts|]
         == State(Receiving(0, []), LoopTop, c.reqs[0][d..], [], true, false, [], c.reqs[0][..d])
  {
    var f := c.reqs[0];
    states, acts := PartOfHeader(c, d);
    states, acts := Extend(c, states, acts, ServerRecvFails);
    states, acts := Extend(c, states, acts, ClientSend(|f| - HEADER));
    assert f[d..HEADER] + f[HEADER..|f|] == f[d..];
  }

  /** So the condition of echo correctness cannot be dropped: for every request `do_request` builds with at least d zero
      payload bytes, d between 14 and 21, one timeout inside its header makes the client record a response that is not
      its reply, while server and connection are up. */
  lemma WrongResponseCanHappen(c: Config, d: nat) returns (states: seq<State>, acts: seq<Action>)
    requires Valid(c) && |c.reqs| > 0 && ZeroPayload(c.reqs[0]) && 14 <= d < HEADER && |c.reqs[0]| >= HEADER + d
    requires c.capUp >= |c.reqs[0]| && c.capDown >= HEADER
    ensures IsRun(c, states, acts)
    ensures var s := states[|acts|];
      s.log == [Some(WrongReply(c.reqs[0], d))] && WrongReply(c.reqs[0], d) != Reply(c.reqs[0]) && s.running && !Ended(s)
  {
    var f, r := c.reqs[0], WrongReply(c.reqs[0], d);
    LooksLikeFrame(f, d);
    states, acts := LosesBytes(c, d);
    states, acts := Extend(c, states, acts, ServerTest);
    states, acts := Extend(c, states, acts, ServerRecv(HEADER));
    assert f[d..][..HEADER] == f[d..d + HEADER] == [] + f[d..][..HEADER];
    assert states[|acts|].server == Writing(r, 0);
    states, acts := Extend(c, states, acts, ServerSend(HEADER));
    assert states[|acts|].down == r;
    states, acts := Extend(c, states, acts, ClientRecv(HEADER));
    assert [] + r[..HEADER] == r;
  }

  // ---- progress ----

  /** Bytes moved by a step. */
  function Moved(a: Action): nat {
    match a
    case ClientSend(n) => n
    case ClientRecv(n) => n
    case ServerRecv(n) => n
    case ServerSend(n) => n
    case _ => 0
  }

  function MovedBy(acts: seq<Action>, i: nat): nat
    requires i <= |acts|
  {
    if i == 0 then 0 else MovedBy(acts, i - 1) + Moved(acts[i - 1])
  }

  /** No failure and no stop; a timeout only before the first byte of a header. */
  predicate Benign(s: State, a: Action) {
    Moved(a) > 0 || a.ServerTest? || (a.ServerRecvFails? && s.server == Reading([]))
  }

  ghost predicate Accepted(c: Config) {
    Valid(c) && forall k :: 0 <= k < |c.reqs| ==> PayloadSize(c.reqs[k]) <= MAX_PAYLOAD_SIZE
  }

  ghost predicate Live(c: Config, s: State)
    requires Valid(c)
  {
    Inv(c, s) && s.running && !s.server.Closed?
  }

  function SentBytes(c: Config, s: State): int {
    match s.client
    case Sending(k, sent) => if k <= |c.reqs| then |Frames(c.reqs, k)| + sent else 0
    case Receiving(k, got) => if k < |c.reqs| then |Frames(c.reqs, k + 1)| else 0
    case Finished => |Frames(c.reqs, |c.reqs|)|
  }

  function ReadBytes(c: Config, s: State): int {
    match s.client
    case Sending(k, sent) => if k <= |c.reqs| then |Frames(c.reqs, k)| else 0
    case Receiving(k, got) => if k <= |c.reqs| then |Frames(c.reqs, k)| + |got| else 0
    case Finished => |Frames(c.reqs, |c.reqs|)|
  }

  /** Bytes sent and received so far, on both sides. */
  function Progress(c: Config, s: State): int {
    SentBytes(c, s) + |s.consumed| + (ReadBytes(c, s) + |s.down|) + ReadBytes(c, s)
  }

  function Goal(c: Config): nat {
    4 * |Frames(c.reqs, |c.reqs|)|
  }

  lemma StaysOpen(c: Config, s: State, n: nat)
    requires Accepted(c) && Live(c, s) && Enabled(c, s, ServerRecv(n))
    ensures !Receive(s.server.got + s.up[..n]).Closed?
  {
    if !s.client.Finished? {
      var f := c.reqs[s.client.k];
      var got' := s.server.got + s.up[..n];
      assert s.server.got + s.up == got' + s.up[n..];
      assert s.server.got + s.up <= f;
      assert got' <= f;
      WantedOfPrefix(got', f);
    }
  }

  /** A benign step keeps the connection alive and moves the account by exactly the bytes it moved. */
  lemma BenignStep(c: Config, s: State, a: Action)
    requires Accepted(c) && Live(c, s) && Enabled(c, s, a) && Benign(s, a)
    ensures Live(c, Apply(c, s, a)) && Progress(c, Apply(c, s, a)) == Progress(c, s) + Moved(a)
  {
    StepInv(c, s, a);
    match a
    case ClientSend(n) => ClientSendAccount(c, s, n);
    case ServerRecv(n) => StaysOpen(c, s, n); ServerRecvAccount(c, s, n);
    case ClientRecv(n) => ClientRecvAccount(c, s, n);
    case ServerSend(n) => ServerSendAccount(c, s, n);
    case _ => IdleAccount(c, s, a);
  }

  lemma ClientSendAccount(c: Config, s: State, n: nat)
    requires Accepted(c) && Live(c, s) && Enabled(c, s, ClientSend(n))
    ensures Progress(c, Apply(c, s, ClientSend(n))) == Progress(c, s) + n
  {
    assert |Frames(c.reqs, s.client.k + 1)| == |Frames(c.reqs, s.client.k)| + |c.reqs[s.client.k]|;
  }

  lemma ServerRecvAccount(c: Config, s: State, n: nat)
    requires Enabled(c, s, ServerRecv(n))
    ensures Progress(c, Apply(c, s, ServerRecv(n))) == Progress(c, s) + n
  {
    var s' := Apply(c, s, ServerRecv(n));
    assert |s'.consumed| == |s.consumed| + n;
  }

  lemma ServerSendAccount(c: Config, s: State, n: nat)
    requires Enabled(c, s, ServerSend(n))
    ensures Progress(c, Apply(c, s, ServerSend(n))) == Progress(c, s) + n
  {
    var s' := Apply(c, s, ServerSend(n));
    assert |s'.down| == |s.down| + n;
  }

  lemma IdleAccount(c: Config, s: State, a: Action)
    requires Enabled(c, s, a) && Benign(s, a) && Moved(a) == 0
    ensures Progress(c, Apply(c, s, a)) == Progress(c, s)
  {
  }

  lemma ClientRecvAccount(c: Config, s: State, n: nat)
    requires Accepted(c) && Live(c, s) && Enabled(c, s, ClientRecv(n))
    ensures Progress(c, Apply(c, s, ClientRecv(n))) == Progress(c, s) + n
  {
    var f := c.reqs[s.client.k];
    var got' := s.client.got + s.down[..n];
    assert s.client.got + s.down == got' + s.down[n..];
    assert s.client.got + s.down <= Reply(f);
    assert got' <= Reply(f);
    WantedOfPrefix(got', Reply(f));
    assert |Frames(c.reqs, s.client.k + 1)| == |Frames(c.reqs, s.client.k)| + |f|;
  }

  /** The account never passes the goal, and reaches it exactly when the client is through. */
  lemma GoalIsFinish(c: Config, s: State)
    requires Accepted(c) && Live(c, s)
    ensures Progress(c, s) <= Goal(c)
    ensures Progress(c, s) == Goal(c) <==> s.client.Finished?
  {
    if !s.client.Finished? {
      var k := s.client.k;
      assert |Frames(c.reqs, k + 1)| == |Frames(c.reqs, k)| + |c.reqs[k]|;
      FramesGrow(c, k + 1, |c.reqs|);
      if s.client.Sending? {
        assert |InHand(s.server) + s.up| == s.client.sent;
      }
      if s.client.Receiving? {
        assert |s.client.got + s.down| == |s.client.got| + |s.down|;
        assert |InHand(s.server) + s.up| == |InHand(s.server)| + |s.up|;
      }
    }
  }

  ghost predicate IsBenignRun(c: Config, states: seq<State>, acts: seq<Action>) {
    IsRun(c, states, acts) && forall i :: 0 <= i < |acts| ==> Benign(states[i], acts[i])
  }

  lemma {:induction false} BenignRunLive(c: Config, states: seq<State>, acts: seq<Action>, i: nat)
    requires Accepted(c) && IsBenignRun(c, states, acts) && i <= |acts|
    ensures Live(c, states[i]) && Progress(c, states[i]) == MovedBy(acts, i)
  {
    if i > 0 {
      BenignRunLive(c, states, acts, i - 1);
      BenignStep(c, states[i - 1], acts[i - 1]);
    } else {
      InitInv(c);
    }
  }

  /** Conservation and termination: a failure-free run moves at most four times the bytes of all requests (sent,
      received, sent back, received back), and it has moved exactly that many when, and only when, every request has
      got its reply. */
  lemma CompletionIsExact(c: Config, states: seq<State>, acts: seq<Action>)
    requires Accepted(c) && IsBenignRun(c, states, acts)
    ensures MovedBy(acts, |acts|) <= Goal(c)
    ensures var s := states[|acts|];
      MovedBy(acts, |acts|) == Goal(c) <==>
      |s.log| == |c.reqs| && forall k :: 0 <= k < |c.reqs| ==> s.log[k] == Some(Reply(c.reqs[k]))
  {
    BenignRunLive(c, states, acts, |acts|);
    var s := states[|acts|];
    GoalIsFinish(c, s);
    forall k | 0 <= k < |s.log| ensures s.log[k] == Some(Reply(c.reqs[k])) {
      assert Outcome(c.reqs[k], s.log[k], false);
    }
  }

  /** Loop-top tests and timeouts among the first i steps. */
  function Tests(acts: seq<Action>, i: nat): nat
    requires i <= |acts|
  {
    if i == 0 then 0 else Tests(acts, i - 1) + (if acts[i - 1].ServerTest? then 1 else 0)
  }

  function Timeouts(acts: seq<Action>, i: nat): nat
    requires i <= |acts|
  {
    if i == 0 then 0 else Timeouts(acts, i - 1) + (if acts[i - 1].ServerRecvFails? then 1 else 0)
  }

  /** Requests whose reply the handler has written in full. */
  function Answered(c: Config, s: State): nat {
    Tried(c, s) + (if s.client.Receiving? && Idle(s.server) && s.up == [] then 1 else 0)
  }

  /** Answers given, less the one visit to the loop top that has not ended in a test yet. */
  function Surplus(c: Config, s: State): int {
    Answered(c, s) - if s.server.LoopTop? then 1 else 0
  }

  /** The handler gets to its loop top by answering a request or by a timeout, and leaves it by a test. */
  lemma LoopTopAccount(c: Config, s: State, a: Action)
    requires Accepted(c) && Live(c, s) && Enabled(c, s, a) && Benign(s, a)
    ensures Surplus(c, Apply(c, s, a))
         == Surplus(c, s) + (if a.ServerTest? then 1 else 0) - (if a.ServerRecvFails? then 1 else 0)
  {
    BenignStep(c, s, a);
    match a
    case ServerRecv(n) => ServerRecvAnswered(c, s, n);
    case ServerSend(n) => assert Replying(c, s, s.client.k, s.client.got);
    case ClientRecv(n) => ClientRecvAnswered(c, s, n);
    case _ =>
  }

  lemma ServerRecvAnswered(c: Config, s: State, n: nat)
    requires Accepted(c) && Live(c, s) && Enabled(c, s, ServerRecv(n))
    ensures Surplus(c, Apply(c, s, ServerRecv(n))) == Surplus(c, s)
  {
    assert s.server.got + s.up[..n] != [];
  }

  lemma ClientRecvAnswered(c: Config, s: State, n: nat)
    requires Accepted(c) && Live(c, s) && Enabled(c, s, ClientRecv(n))
    ensures Surplus(c, Apply(c, s, ClientRecv(n))) == Surplus(c, s)
  {
    var k, got := s.client.k, s.client.got;
    if Complete(got + s.down[..n]) {
      assert got + s.down == got + s.down[..n] + s.down[n..];
      assert got + s.down <= Reply(c.reqs[k]);
      assert got + s.down[..n] <= Reply(c.reqs[k]);
      WantedOfPrefix(got + s.down[..n], Reply(c.reqs[k]));
      assert !Replying(c, s, k, got);
    }
  }

  lemma TestsStep(c: Config, s: State, a: Action, t: State, tests: int, timeouts: int)
    requires Accepted(c) && Live(c, s) && Enabled(c, s, a) && Benign(s, a) && t == Apply(c, s, a)
    requires tests == 1 + timeouts + Surplus(c, s)
    ensures tests + (if a.ServerTest? then 1 else 0)
         == 1 + timeouts + (if a.ServerRecvFails? then 1 else 0) + Surplus(c, t)
  {
    LoopTopAccount(c, s, a);
  }

  lemma {:induction false} TestsAccount(c: Config, states: seq<State>, acts: seq<Action>, i: nat)
    requires Accepted(c) && IsBenignRun(c, states, acts) && i <= |acts|
    ensures Tests(acts, i) == 1 + Timeouts(acts, i) + Surplus(c, states[i])
  {
    if i > 0 {
      TestsAccount(c, states, acts, i - 1);
      BenignRunLive(c, states, acts, i - 1);
      TestsStep(c, states[i - 1], acts[i - 1], states[i], Tests(acts, i - 1), Timeouts(acts, i - 1));
    }
  }

  lemma {:induction false} KindsOfSteps(c: Config, states: seq<State>, acts: seq<Action>, i: nat)
    requires IsBenignRun(c, states, acts) && i <= |acts|
    ensures i <= MovedBy(acts, i) + Tests(acts, i) + Timeouts(acts, i)
  {
    if i > 0 {
      KindsOfSteps(c, states, acts, i - 1);
      assert Benign(states[i - 1], acts[i - 1]);
    }
  }

  /** Termination: a failure-free run with t timeouts, all before the first byte of a header, has at most as many steps
      as bytes to move, requests to answer, and twice t, and one. */
  lemma RunsAreBounded(c: Config, states: seq<State>, acts: seq<Action>)
    requires Accepted(c) && IsBenignRun(c, states, acts)
    ensures |acts| <= Goal(c) + |c.reqs| + 1 + 2 * Timeouts(acts, |acts|)
  {
    var n := |acts|;
    TestsAccount(c, states, acts, n);
    KindsOfSteps(c, states, acts, n);
    BenignRunLive(c, states, acts, n);
    GoalIsFinish(c, states[n]);
    AnsweredBound(c, states[n]);
  }

  lemma AnsweredBound(c: Config, s: State)
    requires Valid(c) && Live(c, s)
    ensures Answered(c, s) <= |c.reqs|
  {
  }

  /** And a failure-free run that can only go on with timeouts has completed every request. */
  lemma OnlyTimeoutsLeft(c: Config, states: seq<State>, acts: seq<Action>)
    requires Accepted(c) && IsBenignRun(c, states, acts)
    requires forall a :: Enabled(c, states[|acts|], a) && Benign(states[|acts|], a) ==> a.ServerRecvFails?
    ensures var s := states[|acts|];
      |s.log| == |c.reqs| && forall k :: 0 <= k < |c.reqs| ==> s.log[k] == Some(Reply(c.reqs[k]))
  {
    var s := states[|acts|];
    BenignRunLive(c, states, acts, |acts|);
    if !s.client.Finished? {
      NeverStuck(c, s);
      assert false;
    }
    GoalIsFinish(c, s);
    CompletionIsExact(c, states, acts);
  }

  /** A step that is possible now and brings the run nearer its end. */
  function NextMove(c: Config, s: State): Action {
    if s.server.LoopTop? then ServerTest
    else if s.client.Sending? && |s.up| < c.capUp then ClientSend(1)
    else if s.server.Reading? && s.up != [] then ServerRecv(1)
    else if s.server.Writing? && |s.down| < c.capDown then ServerSend(1)
    else ClientRecv(1)
  }

  /** Deadlock freedom, for any channel sizes of at least one byte: an unfinished connection can always move a byte,
      or test its loop condition and then move one. */
  lemma NeverStuck(c: Config, s: State)
    requires Accepted(c) && Live(c, s) && !s.client.Finished?
    ensures Enabled(c, s, NextMove(c, s)) && Benign(s, NextMove(c, s))
    ensures NextMove(c, s).ServerTest? ==> !NextMove(c, Apply(c, s, ServerTest)).ServerTest?
    ensures !NextMove(c, s).ServerTest? ==> Moved(NextMove(c, s)) > 0
  {
    if s.client.Sending? {
      NeverStuckSending(c, s);
    } else {
      NeverStuckReceiving(c, s);
    }
  }

  lemma NeverStuckSending(c: Config, s: State)
    requires Accepted(c) && Live(c, s) && s.client.Sending?
    ensures Enabled(c, s, NextMove(c, s))
    ensures NextMove(c, s).ServerTest? || NextMove(c, s) == ClientSend(1) || NextMove(c, s) == ServerRecv(1)
  {
    if s.server.Reading? {
      HasPrefix(s.server.got, s.up, c.reqs[s.client.k][..s.client.sent]);
      WantedOfPrefix(s.server.got, c.reqs[s.client.k]);
    }
  }

  lemma HasPrefix(a: seq<byte>, b: seq<byte>, f: seq<byte>)
    requires a + b == f
    ensures a <= f && |a| + |b| == |f|
  {
  }

  lemma NeverStuckReceiving(c: Config, s: State)
    requires Accepted(c) && Live(c, s) && s.client.Receiving?
    ensures Enabled(c, s, NextMove(c, s)) && !NextMove(c, s).ClientSend?
    ensures NextMove(c, s).ServerTest? || Moved(NextMove(c, s)) > 0
  {
    var f, got := c.reqs[s.client.k], s.client.got;
    if Uploaded(c, s, s.client.k, got) {
      HasPrefix(InHand(s.server), s.up, f);
      WantedOfPrefix(InHand(s.server), f);
    } else {
      var out := if Replying(c, s, s.client.k, got) then Reply(f)[..s.server.sent] else Reply(f);
      HasPrefix(got, s.down, out);
      WantedOfPrefix(got, Reply(f));
    }
  }

  ghost predicate Leads(c: Config, s: State, acts: seq<Action>, t: State)
    decreases |acts|
  {
    if acts == [] then s == t
    else Enabled(c, s, acts[0]) && Benign(s, acts[0]) && Leads(c, Apply(c, s, acts[0]), acts[1..], t)
  }

  /** From every state of a failure-free run, all requests can still be completed, in a number of steps bounded by the
      bytes left to move. */
  lemma {:induction false} CanFinish(c: Config, s: State) returns (acts: seq<Action>, t: State)
    requires Accepted(c) && Live(c, s)
    ensures Leads(c, s, acts, t) && t.client.Finished? && Live(c, t)
    ensures |acts| <= 2 * (Goal(c) - Progress(c, s)) + (if s.server.LoopTop? then 1 else 0)
    decreases 2 * (Goal(c) - Progress(c, s)) + (if s.server.LoopTop? then 1 else 0)
  {
    GoalIsFinish(c, s);
    if s.client.Finished? {
      return [], s;
    }
    NeverStuck(c, s);
    var a := NextMove(c, s);
    BenignStep(c, s, a);
    var s' := Apply(c, s, a);
    GoalIsFinish(c, s');
    var rest;
    rest, t := CanFinish(c, s');
    acts := [a] + rest;
    assert acts[1..] == rest;
  }
}
