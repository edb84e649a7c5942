/** One client connection and its server handler over two bounded byte channels: every chunking, every interleaving.
    Frames come from Message; a step is one send, recv or loop-top test. */
module Echo {
  import opened Words
  import opened Message

  /** The frames the client sends one after the other, and the room in each direction of the connection. */
  datatype Config = Config(reqs: seq<seq<byte>>, capUp: nat, capDown: nat)

  /** Where the client is: inside the two send_exact, inside the two recv_exact, or through with its requests. */
  datatype Client = Sending(k: nat, sent: nat) | Receiving(k: nat, got: seq<byte>) | Finished

  /** Where the handler is: testing `running_`, reading a frame, writing a reply, or past its `close`. */
  datatype Server = LoopTop | Reading(got: seq<byte>) | Writing(out: seq<byte>, sent: nat) | Closed

  /** `up` and `down` are the bytes in flight; `log` holds the client's result for each request tried so far (None for
      a failed one); `consumed` is everything the handler ever took off the connection. `running` is the server's flag,
      and `shut` says that stop has shut the connection down. */
  datatype State = State(client: Client, server: Server, up: seq<byte>, down: seq<byte>, running: bool, shut: bool,
                         log: seq<Option<seq<byte>>>, consumed: seq<byte>)

  datatype Action =
    | ClientSend(n: nat) | ClientRecv(n: nat) | ClientSendFails | ClientRecvFails
    | ServerTest | ServerRecv(n: nat) | ServerSend(n: nat) | ServerRecvFails | ServerSendFails
    | Stop | Shutdown | Reset

  ghost predicate Valid(c: Config) {
    && c.capUp >= 1 && c.capDown >= 1
    && forall i :: 0 <= i < |c.reqs| ==> IsFrame(c.reqs[i])
  }

  function Next(c: Config, k: nat): Client {
    if k < |c.reqs| then Sending(k, 0) else Finished
  }

  function Init(c: Config): State {
    State(Next(c, 0), LoopTop, [], [], true, false, [], [])
  }

  /** The server's end is closed by its handler or shut down by stop. */
  predicate Ended(s: State) {
    s.server.Closed? || s.shut
  }

  /** Which steps the code and the kernel allow. A failing recv covers the one-second timeout, which the model lets fire
      at any moment; the client has no timeout, so its calls fail only once the server's end has closed or been shut
      down. Stop clears the flag first, and the connection is shut down, if at all, at any time after that; nothing goes
      out on it then. */
  predicate Enabled(c: Config, s: State, a: Action) {
    match a
    case ClientSend(n) =>
      && s.client.Sending? && s.client.k < |c.reqs| && s.client.sent + n <= |c.reqs[s.client.k]|
      && 1 <= n <= Unsent(s.client.sent, |c.reqs[s.client.k]|) && |s.up| + n <= c.capUp
    case ClientRecv(n) => s.client.Receiving? && 1 <= n <= Wanted(s.client.got) && n <= |s.down|
    case ClientSendFails => s.client.Sending? && Ended(s)
    case ClientRecvFails => s.client.Receiving? && Ended(s) && s.down == []
    case ServerTest => s.server.LoopTop?
    case ServerRecv(n) => s.server.Reading? && 1 <= n <= Wanted(s.server.got) && n <= |s.up|
    case ServerSend(n) =>
      && s.server.Writing? && !s.shut && s.server.sent + n <= |s.server.out|
      && 1 <= n <= Unsent(s.server.sent, |s.server.out|) && |s.down| + n <= c.capDown
    case ServerRecvFails => s.server.Reading?
    case ServerSendFails => s.server.Writing?
    case Stop => s.running
    case Shutdown => !s.running && !s.shut
    case Reset => Ended(s)
  }

  /** The handler after some bytes came in: an oversized announcement ends it, a full frame is answered. */
  function Receive(got: seq<byte>): Server {
    if |got| >= HEADER && PayloadSize(got) > MAX_PAYLOAD_SIZE then Closed
    else if Complete(got) then Writing(Reply(got), 0)
    else Reading(got)
  }

  function Apply(c: Config, s: State, a: Action): State
    requires Enabled(c, s, a)
  {
    match a
    case ClientSend(n) =>
      var Sending(k, sent) := s.client;
      var f := c.reqs[k];
      s.(up := s.up + f[sent..sent + n],
         client := if sent + n == |f| then Receiving(k, []) else Sending(k, sent + n))
    case ClientRecv(n) =>
      var Receiving(k, got) := s.client;
      var got' := got + s.down[..n];
      if Complete(got') then s.(down := s.down[n..], log := s.log + [Some(got')], client := Next(c, k + 1))
      else s.(down := s.down[n..], client := Receiving(k, got'))
    case ClientSendFails => s.(log := s.log + [None], client := Next(c, s.client.k + 1))
    case ClientRecvFails => s.(log := s.log + [None], client := Next(c, s.client.k + 1))
    case ServerTest => s.(server := if s.running then Reading([]) else Closed)
    case ServerRecv(n) =>
      s.(up := s.up[n..], consumed := s.consumed + s.up[..n], server := Receive(s.server.got + s.up[..n]))
    case ServerSend(n) =>
      var Writing(out, sent) := s.server;
      s.(down := s.down + out[sent..sent + n], server := if sent + n == |out| then LoopTop else Writing(out, sent + n))
    case ServerRecvFails =>
      // a failed header read starts over while running_ holds, and loses what it had; a failed payload read ends
      s.(server := if |s.server.got| < HEADER && s.running then LoopTop else Closed)
    case ServerSendFails => s.(server := Closed)
    case Stop => s.(running := false)
    case Shutdown => s.(shut := true)
    case Reset => s.(down := [])
  }

  /** No send crosses from a header into its payload, nor a receive: header and payload are transferred separately. */
  lemma TransfersAreSeparate(c: Config, s: State, n: nat)
    ensures Enabled(c, s, ClientSend(n)) && s.client.sent < 22 ==> s.client.sent + n <= 22
    ensures Enabled(c, s, ServerSend(n)) && s.server.sent < 22 ==> s.server.sent + n <= 22
    ensures Enabled(c, s, ClientRecv(n)) && |s.client.got| < 22 ==> |s.client.got| + n <= 22
    ensures Enabled(c, s, ServerRecv(n)) && |s.server.got| < 22 ==> |s.server.got| + n <= 22
  {
  }

  /** A run: states and the steps between them. */
  ghost predicate IsRun(c: Config, states: seq<State>, acts: seq<Action>) {
    && |states| == |acts| + 1
    && states[0] == Init(c)
    && forall i :: 0 <= i < |acts| ==> Enabled(c, states[i], acts[i]) && states[i + 1] == Apply(c, states[i], acts[i])
  }

  /** A receive timeout strictly inside a header, which makes the handler forget the bytes it has. */
  predicate Discards(s: State, a: Action) {
    a.ServerRecvFails? && s.server.Reading? && 0 < |s.server.got| < HEADER && s.running
  }

  /** The first k request frames, end to end. */
  function Frames(reqs: seq<seq<byte>>, k: nat): seq<byte>
    requires k <= |reqs|
  {
    if k == 0 then [] else Frames(reqs, k - 1) + reqs[k - 1]
  }

  ghost predicate WholeFrames(reqs: seq<seq<byte>>, bytes: seq<byte>) {
    exists k | 0 <= k <= |reqs| :: bytes == Frames(reqs, k)
  }

  // ---- the invariant ----

  /** The part of a frame the handler has in hand. */
  function InHand(s: Server): seq<byte> {
    if s.Reading? then s.got else []
  }

  predicate Idle(s: Server) {
    s.LoopTop? || s == Reading([])
  }

  /** While the client sends, the handler holds or has before it exactly what was sent of the current request. */
  ghost predicate Uploading(c: Config, s: State, k: nat, sent: nat)
    requires k < |c.reqs|
  {
    && sent < |c.reqs[k]| && s.down == [] && !s.server.Writing?
    && InHand(s.server) + s.up == c.reqs[k][..sent]
    && s.consumed == Frames(c.reqs, k) + InHand(s.server)
  }

  /** All sent, not yet all received. */
  ghost predicate Uploaded(c: Config, s: State, k: nat, got: seq<byte>)
    requires k < |c.reqs|
  {
    && got == [] && s.down == [] && !s.server.Writing? && |InHand(s.server)| < |c.reqs[k]|
    && InHand(s.server) + s.up == c.reqs[k]
    && s.consumed == Frames(c.reqs, k) + InHand(s.server)
  }

  /** The reply is being written. */
  ghost predicate Replying(c: Config, s: State, k: nat, got: seq<byte>)
    requires Valid(c) && k < |c.reqs|
  {
    && PayloadSize(c.reqs[k]) <= MAX_PAYLOAD_SIZE
    && s.server.Writing? && s.server.out == Reply(c.reqs[k]) && s.server.sent < |s.server.out| && s.up == []
    && got + s.down == s.server.out[..s.server.sent]
    && s.consumed == Frames(c.reqs, k + 1)
  }

  /** The reply is written and not yet all received. */
  ghost predicate Replied(c: Config, s: State, k: nat, got: seq<byte>)
    requires Valid(c) && k < |c.reqs|
  {
    && PayloadSize(c.reqs[k]) <= MAX_PAYLOAD_SIZE
    && Idle(s.server) && s.up == [] && got + s.down == Reply(c.reqs[k])
    && s.consumed == Frames(c.reqs, k + 1)
  }

  /** While the connection is open, the bytes of the current request, or of its reply, are split without loss or
      repetition among sender, channel and receiver. */
  ghost predicate Open(c: Config, s: State)
    requires Valid(c)
  {
    match s.client
    case Sending(k, sent) => k < |c.reqs| && Uploading(c, s, k, sent)
    case Receiving(k, got) =>
      && k < |c.reqs| && |got| < |c.reqs[k]|
      && (Uploaded(c, s, k, got) || Replying(c, s, k, got) || Replied(c, s, k, got))
    case Finished =>
      s.up == [] && s.down == [] && Idle(s.server) && s.consumed == Frames(c.reqs, |c.reqs|)
  }

  /** Once the server's end has closed or been shut down, what the client can still read is a piece of the reply it is
      waiting for. */
  ghost predicate Shut(c: Config, s: State)
    requires Valid(c)
  {
    match s.client
    case Sending(k, sent) => k < |c.reqs| && sent < |c.reqs[k]| && s.down == []
    case Receiving(k, got) =>
      && k < |c.reqs| && |got| < |c.reqs[k]| && got + s.down <= Reply(c.reqs[k])
      && (got + s.down != [] ==> PayloadSize(c.reqs[k]) <= MAX_PAYLOAD_SIZE)
    case Finished => true
  }

  function Tried(c: Config, s: State): nat {
    if s.client.Finished? then |c.reqs| else s.client.k
  }

  /** What may stand in the log for request f: its reply, provided the server takes its size, or a failure on a
      connection whose server end has closed or been shut down. */
  ghost predicate Outcome(f: seq<byte>, r: Option<seq<byte>>, ended: bool)
    requires IsFrame(f)
  {
    match r
    case Some(v) => v == Reply(f) && PayloadSize(f) <= MAX_PAYLOAD_SIZE
    case None => ended
  }

  ghost predicate Echoes(c: Config, s: State)
    requires Valid(c)
  {
    && |s.log| == Tried(c, s) <= |c.reqs|
    && forall k :: 0 <= k < |s.log| ==> Outcome(c.reqs[k], s.log[k], Ended(s))
  }

  ghost predicate Inv(c: Config, s: State)
    requires Valid(c)
  {
    && Echoes(c, s)
    && (s.shut ==> !s.running)
    && (if Ended(s) then Shut(c, s) else Open(c, s))
    && (s.shut && s.server.LoopTop? ==> WholeFrames(c.reqs, s.consumed))
  }

  lemma InitInv(c: Config)
    requires Valid(c)
    ensures Inv(c, Init(c))
  {
  }

  lemma EchoesKept(c: Config, s: State, t: State)
    requires Valid(c) && Echoes(c, s) && t.log == s.log && Tried(c, t) == Tried(c, s)
    requires Ended(s) ==> Ended(t)
    ensures Echoes(c, t)
  {
  }

  lemma Extend(bs: seq<byte>, i: nat, n: nat, a: seq<byte>, b: seq<byte>)
    requires i + n <= |bs| && a + b == bs[..i]
    ensures a + (b + bs[i..i + n]) == bs[..i + n] && bs[..|bs|] == bs
  {
  }

  lemma Shift(a: seq<byte>, b: seq<byte>, n: nat)
    requires n <= |b|
    ensures a + b[..n] + b[n..] == a + b && a + b[..n] <= a + b
  {
  }

  lemma ClientSendInv(c: Config, s: State, n: nat)
    requires Valid(c) && Inv(c, s) && Enabled(c, s, ClientSend(n))
    ensures Inv(c, Apply(c, s, ClientSend(n)))
  {
    var f, k, sent := c.reqs[s.client.k], s.client.k, s.client.sent;
    var s' := Apply(c, s, ClientSend(n));
    EchoesKept(c, s, s');
    if !Ended(s) {
      Extend(f, sent, n, InHand(s.server), s.up);
      if sent + n == |f| {
        assert Uploaded(c, s', k, []);
      } else {
        assert Uploading(c, s', k, sent + n);
      }
    }
  }

  lemma ClientRecvInv(c: Config, s: State, n: nat)
    requires Valid(c) && Inv(c, s) && Enabled(c, s, ClientRecv(n))
    ensures Inv(c, Apply(c, s, ClientRecv(n)))
  {
    var f, k, got := c.reqs[s.client.k], s.client.k, s.client.got;
    var got', s' := got + s.down[..n], Apply(c, s, ClientRecv(n));
    Shift(got, s.down, n);
    assert got + s.down <= Reply(f) by {
      if !Ended(s) && Replying(c, s, k, got) {
        assert s.server.out[..s.server.sent] <= s.server.out;
      }
    }
    assert got <= got + s.down;
    ClientGot(f, got, got');
    if Complete(got') {
      ClientDone(c, s, n);
    } else {
      EchoesKept(c, s, s');
      if !Ended(s) {
        assert Replying(c, s', k, got') || Replied(c, s', k, got');
      }
    }
  }

  lemma ClientGot(f: seq<byte>, got: seq<byte>, got': seq<byte>)
    requires IsFrame(f) && got <= Reply(f) && got' <= Reply(f)
    ensures Complete(got') <==> got' == Reply(f)
    ensures |got'| <= |f| && (got' != Reply(f) ==> |got'| < |f|)
  {
  }

  /** The response is complete: all of the reply has been taken out of the channel, and it is logged. */
  lemma ClientDone(c: Config, s: State, n: nat)
    requires Valid(c) && Inv(c, s) && Enabled(c, s, ClientRecv(n))
    requires s.client.got + s.down[..n] == Reply(c.reqs[s.client.k])
    requires s.client.got + s.down <= Reply(c.reqs[s.client.k])
    ensures Inv(c, Apply(c, s, ClientRecv(n)))
  {
    var k, got, s' := s.client.k, s.client.got, Apply(c, s, ClientRecv(n));
    Shift(got, s.down, n);
    WantedOfPrefix(Reply(c.reqs[k]), Reply(c.reqs[k]));
    assert |got + s.down| == |got| + |s.down|;
    assert s'.down == [];
    assert Outcome(c.reqs[k], s'.log[k], Ended(s'));
    if !Ended(s) {
      assert !Uploaded(c, s, k, got);
      assert !Replying(c, s, k, got);
      assert Replied(c, s, k, got);
    }
  }

  lemma ServerRecvInv(c: Config, s: State, n: nat)
    requires Valid(c) && Inv(c, s) && Enabled(c, s, ServerRecv(n))
    ensures Inv(c, Apply(c, s, ServerRecv(n)))
  {
    var s' := Apply(c, s, ServerRecv(n));
    EchoesKept(c, s, s');
    if !Ended(s) && !s.client.Finished? {
      ServerGot(c, s, n);
      if s'.server.Reading? {
        if s.client.Sending? {
          assert Uploading(c, s', s.client.k, s.client.sent);
        } else {
          assert Uploaded(c, s', s.client.k, []);
        }
      } else if s'.server.Writing? {
        assert Replying(c, s', s.client.k, []);
      }
    }
  }

  /** What the handler then has in hand is a prefix of the request; it answers when it has all of it. */
  lemma ServerGot(c: Config, s: State, n: nat)
    requires Valid(c) && Open(c, s) && Enabled(c, s, ServerRecv(n)) && !s.client.Finished?
    ensures var (f, got') := (c.reqs[s.client.k], s.server.got + s.up[..n]);
      && got' <= f && got' + s.up[n..] == s.server.got + s.up
      && Frames(c.reqs, s.client.k) + s.server.got + s.up[..n] == Frames(c.reqs, s.client.k) + got'
      && Frames(c.reqs, s.client.k + 1) == Frames(c.reqs, s.client.k) + f
      && match Receive(got')
         case Reading(g) => g == got' && |got'| < |f|
         case Writing(out, sent) => got' == f && out == Reply(f) && sent == 0 && PayloadSize(f) <= MAX_PAYLOAD_SIZE
         case _ => Receive(got').Closed?
  {
    var f, got := c.reqs[s.client.k], s.server.got;
    Shift(got, s.up, n);
    assert got + s.up <= f;
    WantedOfPrefix(got + s.up[..n], f);
  }

  lemma ServerSendInv(c: Config, s: State, n: nat)
    requires Valid(c) && Inv(c, s) && Enabled(c, s, ServerSend(n))
    ensures Inv(c, Apply(c, s, ServerSend(n)))
  {
    var s' := Apply(c, s, ServerSend(n));
    EchoesKept(c, s, s');
    assert s.client.Receiving? && Replying(c, s, s.client.k, s.client.got);
    ReplyGoesOut(c, s, n, s.client.k, s.client.got);
  }

  lemma ReplyGoesOut(c: Config, s: State, n: nat, k: nat, got: seq<byte>)
    requires Valid(c) && k < |c.reqs| && Enabled(c, s, ServerSend(n)) && Replying(c, s, k, got)
    ensures var s' := Apply(c, s, ServerSend(n)); Replying(c, s', k, got) || Replied(c, s', k, got)
  {
    var out, sent, s' := s.server.out, s.server.sent, Apply(c, s, ServerSend(n));
    assert got + s'.down == out[..sent + n] && out[..|out|] == out by {
      Extend(out, sent, n, got, s.down);
    }
    if sent + n == |out| {
      assert s'.server.LoopTop? && Replied(c, s', k, got);
    } else {
      assert s'.server == Writing(out, sent + n) && Replying(c, s', k, got);
    }
  }

  /** A request or response the client gives up on a closed connection. */
  lemma ClientFailsInv(c: Config, s: State, a: Action)
    requires Valid(c) && Inv(c, s) && Enabled(c, s, a) && (a.ClientSendFails? || a.ClientRecvFails?)
    ensures Inv(c, Apply(c, s, a))
  {
  }

  /** At its loop top the handler has taken whole frames off the connection. */
  lemma LoopTopIsFramed(c: Config, s: State)
    requires Valid(c) && Inv(c, s) && s.server.LoopTop?
    ensures WholeFrames(c.reqs, s.consumed)
  {
    if !s.shut {
      var k := if s.client.Finished? then |c.reqs| else if s.client.Receiving? && s.up == [] then s.client.k + 1
               else s.client.k;
      assert s.consumed == Frames(c.reqs, k);
    }
  }

  /** The handler's loop-top test and harmless timeouts, stop, shutdown and reset. */
  lemma KeepsOpenInv(c: Config, s: State, a: Action)
    requires Valid(c) && Inv(c, s) && Enabled(c, s, a) && !Discards(s, a)
    requires a.ServerTest? || a.ServerRecvFails? || a.ServerSendFails? || a.Stop? || a.Shutdown? || a.Reset?
    ensures Inv(c, Apply(c, s, a))
  {
    var s' := Apply(c, s, a);
    EchoesKept(c, s, s');
    if a.Shutdown? && s.server.LoopTop? {
      LoopTopIsFramed(c, s);
    }
    if Ended(s') {
      EndInv(c, s, s');
    } else {
      assert InHand(s'.server) == InHand(s.server);
    }
  }

  lemma EndInv(c: Config, s: State, s': State)
    requires Valid(c) && Inv(c, s) && s'.client == s.client && (s'.down == s.down || s'.down == [])
    requires s'.down == [] ==> s.down == [] || Ended(s)
    ensures Shut(c, s')
  {
    if !Ended(s) && s.client.Receiving? && Replying(c, s, s.client.k, s.client.got) {
      assert s.server.out[..s.server.sent] <= s.server.out;
    }
  }

  lemma StepInv(c: Config, s: State, a: Action)
    requires Valid(c) && Inv(c, s) && Enabled(c, s, a) && !Discards(s, a)
    ensures Inv(c, Apply(c, s, a))
  {
    match a
    case ClientSend(n) => ClientSendInv(c, s, n);
    case ClientRecv(n) => ClientRecvInv(c, s, n);
    case ServerRecv(n) => ServerRecvInv(c, s, n);
    case ServerSend(n) => ServerSendInv(c, s, n);
    case ClientSendFails => ClientFailsInv(c, s, a);
    case ClientRecvFails => ClientFailsInv(c, s, a);
    case _ => KeepsOpenInv(c, s, a);
  }
}
