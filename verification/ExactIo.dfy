/** The blocking loops on both ends of a connection: send_exact, recv_exact, do_request and connection_handler.
    A socket call moves any number of bytes it likes, or fails; what the loops promise holds for every such choice. */
module ExactIo {
  import opened Words
  import opened Message

  /** One end of a connection, seen from this end: the bytes still to come from the peer, all bytes handed to it, and how
      many calls have failed. */
  class Socket {
    var inbound: seq<byte>
    var outbound: seq<byte>
    var failures: nat

    constructor (inbound: seq<byte>)
      ensures this.inbound == inbound && outbound == [] && failures == 0
    {
      this.inbound, this.outbound, this.failures := inbound, [], 0;
    }

    /** recv(2): between 1 and `max` bytes in order, or a result of at most zero and no bytes. */
    method Recv(max: nat) returns (n: int, chunk: seq<byte>)
      modifies this`inbound, this`failures
      ensures n <= max && failures == old(failures) + (if n > 0 then 0 else 1)
      ensures n <= 0 ==> inbound == old(inbound) && chunk == []
      ensures n > 0 ==> |chunk| == n && old(inbound) == chunk + inbound
    {
      n :| -1 <= n <= max && n <= |inbound|;
      if n > 0 {
        chunk, inbound := inbound[..n], inbound[n..];
      } else {
        chunk, failures := [], failures + 1;
      }
    }

    /** send(2): takes a positive number of bytes off the front of `data`, or fails. */
    method Send(data: seq<byte>) returns (n: int)
      modifies this`outbound, this`failures
      ensures n <= |data| && failures == old(failures) + (if n > 0 then 0 else 1)
      ensures outbound == old(outbound) + if n > 0 then data[..n] else []
    {
      n :| -1 <= n <= |data|;
      if n > 0 {
        outbound := outbound + data[..n];
      } else {
        failures := failures + 1;
      }
    }
  }

  /** All of the next `len` bytes land in `buf`, in order, or one socket call fails and only part of them was taken. */
  method RecvExact(sock: Socket, buf: array<byte>, len: nat) returns (ok: bool, ghost taken: nat)
    requires len <= buf.Length
    modifies sock`inbound, sock`failures, buf
    ensures taken <= len && (ok <==> taken == len) && sock.failures == old(sock.failures) + (if ok then 0 else 1)
    ensures taken <= |old(sock.inbound)| && sock.inbound == old(sock.inbound)[taken..]
    ensures buf[..taken] == old(sock.inbound)[..taken]
    ensures forall i :: taken <= i < buf.Length ==> buf[i] == old(buf[i])
  {
    ghost var stream := sock.inbound;
    var received := 0;
    while received < len
      invariant received <= len && received <= |stream|
      invariant sock.inbound == stream[received..] && sock.failures == old(sock.failures)
      invariant forall i :: 0 <= i < received ==> buf[i] == stream[i]
      invariant forall i :: received <= i < buf.Length ==> buf[i] == old(buf[i])
    {
      var n, chunk := sock.Recv(len - received);
      if n <= 0 {
        return false, received;
      }
      ChunkAt(stream, received, chunk, sock.inbound);
      forall i | received <= i < received + n {
        buf[i] := chunk[i - received];
      }
      received := received + n;
    }
    return true, received;
  }

  lemma ChunkAt(stream: seq<byte>, at: nat, chunk: seq<byte>, rest: seq<byte>)
    requires at <= |stream| && stream[at..] == chunk + rest
    ensures at + |chunk| <= |stream| && stream[at + |chunk|..] == rest
    ensures forall i :: at <= i < at + |chunk| ==> stream[i] == chunk[i - at]
  {
  }

  /** All of `data` goes out, in order, or one socket call fails and only a proper prefix of it went. */
  method SendExact(sock: Socket, data: seq<byte>) returns (ok: bool, ghost taken: nat)
    modifies sock`outbound, sock`failures
    ensures taken <= |data| && (ok <==> taken == |data|) && sock.failures == old(sock.failures) + (if ok then 0 else 1)
    ensures sock.outbound == old(sock.outbound) + data[..taken]
  {
    var sent := 0;
    while sent < |data|
      invariant sent <= |data| && sock.failures == old(sock.failures)
      invariant sock.outbound == old(sock.outbound) + data[..sent]
    {
      var n := sock.Send(data[sent..]);
      if n <= 0 {
        return false, sent;
      }
      assert data[..sent] + data[sent..][..n] == data[..sent + n];
      sent := sent + n;
    }
    return true, sent;
  }

  /** At most one frame starts a given stream: the header alone says how long it is. */
  lemma FrameUnique(f: seq<byte>, g: seq<byte>, stream: seq<byte>)
    requires IsFrame(f) && IsFrame(g) && f <= stream && g <= stream
    ensures f == g
  {
  }

  /** A header and its payload, by two send_exact. */
  method SendFrame(sock: Socket, hdr: Header, payload: seq<byte>) returns (ok: bool, ghost taken: nat)
    requires hdr.payloadSize == |payload|
    modifies sock`outbound, sock`failures
    ensures sock.failures == old(sock.failures) + (if ok then 0 else 1)
    ensures var f := Serialize(hdr) + payload;
      && taken <= |f| && (ok <==> taken == |f|)
      && sock.outbound == old(sock.outbound) + f[..taken]
  {
    ghost var f := Serialize(hdr) + payload;
    var hdrBuf := new byte[HEADER];
    SerializeHeader(hdr, hdrBuf);
    assert hdrBuf[..] == Serialize(hdr);
    ok, taken := SendExact(sock, hdrBuf[..]);
    assert f[..taken] == Serialize(hdr)[..taken];
    if ok && hdr.payloadSize > 0 {
      ok, taken := SendExact(sock, payload);
      assert Serialize(hdr)[..HEADER] + payload[..taken] == f[..HEADER + taken];
      taken := HEADER + taken;
    }
  }

  /** A header, by recv_exact and deserialize. */
  method RecvHeader(sock: Socket) returns (ok: bool, hdr: Header, ghost taken: nat)
    modifies sock`inbound, sock`failures
    ensures sock.failures == old(sock.failures) + (if ok then 0 else 1)
    ensures taken <= HEADER && taken <= |old(sock.inbound)| && sock.inbound == old(sock.inbound)[taken..]
    ensures ok <==> taken == HEADER
    ensures ok ==> hdr == Deserialize(old(sock.inbound)[..HEADER]) && hdr.payloadSize == PayloadSize(old(sock.inbound))
  {
    var hdrBuf := new byte[HEADER];
    ok, taken := RecvExact(sock, hdrBuf, HEADER);
    if ok {
      PayloadSizeDecoded(old(sock.inbound));
      assert hdrBuf[..] == old(sock.inbound)[..HEADER];
    }
    hdr := Deserialize(hdrBuf[..]);
  }

  /** A payload of the announced length, by recv_exact if there is one. */
  method RecvPayload(sock: Socket, len: nat) returns (ok: bool, payload: seq<byte>, ghost taken: nat)
    modifies sock`inbound, sock`failures
    ensures sock.failures == old(sock.failures) + (if ok then 0 else 1)
    ensures taken <= len && taken <= |old(sock.inbound)| && sock.inbound == old(sock.inbound)[taken..]
    ensures ok <==> taken == len
    ensures ok ==> payload == old(sock.inbound)[..len]
  {
    ok, payload, taken := true, [], 0;
    if len > 0 {
      var buf := new byte[len];
      ok, taken := RecvExact(sock, buf, len);
      payload := buf[..len];
    }
  }

  /** One request: the frame goes out as header and zero payload; a frame comes back. The result is the elapsed
      time between the two clock readings `start` and `end` if no socket call fails, and 0 at the first that does.
      `taken` is how far it got in the incoming stream: whatever the chunking, a completed call consumes exactly one
      response frame, so the next call starts at a frame boundary, and a failed one less than a frame. */
  method DoRequest(sock: Socket, id: u64, size: u32, priority: byte, start: u64, end: u64)
    returns (rtt: u64, ghost completed: bool, ghost taken: nat)
    modifies sock
    ensures rtt == if completed then (end - start) % U64 else 0
    ensures sock.failures == old(sock.failures) + (if completed then 0 else 1)
    ensures var request := Serialize(Header(id, size, priority, REQUEST, start)) + Zeros(size);
      && IsFrame(request) && request[13] == 1
      && old(sock.outbound) <= sock.outbound <= old(sock.outbound) + request
      && (completed ==> sock.outbound == old(sock.outbound) + request)
    ensures taken <= |old(sock.inbound)| && sock.inbound == old(sock.inbound)[taken..]
    ensures if completed then IsFrame(old(sock.inbound)[..taken]) else Wanted(old(sock.inbound)[..taken]) > 0
    ensures forall f :: IsFrame(f) && f <= old(sock.inbound) && completed ==> sock.inbound == old(sock.inbound)[|f|..]
  {
    completed, taken := false, 0;
    var hdr := Header(id, size, priority, REQUEST, start);
    ghost var request := Serialize(hdr) + Zeros(size);
    BuiltFrame(hdr, Zeros(size));
    Layout(hdr);
    var ok, sent := SendFrame(sock, hdr, Zeros(size));
    PartSent(old(sock.outbound), request, sent, sock.outbound);
    if !ok { return 0, false, 0; }
    ghost var stream := sock.inbound;
    var resp;
    ghost var got;
    ok, resp, got := RecvHeader(sock);
    taken := got;
    if !ok { return 0, false, taken; }
    var payload;
    ok, payload, got := RecvPayload(sock, resp.payloadSize);
    taken := HEADER + got;
    Front(stream, got);
    if !ok { return 0, false, taken; }
    Framed(stream, sock.inbound);
    completed := true;
    rtt := (end - start) % U64;
  }

  lemma PartSent(out: seq<byte>, frame: seq<byte>, taken: nat, now: seq<byte>)
    requires taken <= |frame| && now == out + frame[..taken]
    ensures out <= now <= out + frame
    ensures taken == |frame| ==> now == out + frame
  {
  }

  /** A header and the payload it announces, taken off a stream, are its one leading frame. */
  lemma Framed(stream: seq<byte>, rest: seq<byte>)
    requires |stream| >= HEADER && HEADER + PayloadSize(stream) <= |stream|
    requires rest == stream[HEADER..][PayloadSize(stream)..]
    ensures var f := stream[..HEADER + PayloadSize(stream)];
      && IsFrame(f) && stream == f + rest && f == stream[..HEADER] + stream[HEADER..][..PayloadSize(stream)]
    ensures forall g :: IsFrame(g) && g <= stream ==> rest == stream[|g|..]
  {
  }

  function Zeros(n: nat): (z: seq<byte>)
    ensures |z| == n && forall i :: 0 <= i < n ==> z[i] == 0
  {
    seq(n, i => 0)
  }

  // ---- the server's loop ----

  function Flatten(fs: seq<seq<byte>>): seq<byte> {
    if fs == [] then [] else Flatten(fs[..|fs| - 1]) + fs[|fs| - 1]
  }

  predicate Requests(fs: seq<seq<byte>>) {
    forall i :: 0 <= i < |fs| ==> IsFrame(fs[i]) && PayloadSize(fs[i]) <= MAX_PAYLOAD_SIZE
  }

  function Replies(fs: seq<seq<byte>>): seq<byte>
    requires Requests(fs)
  {
    if fs == [] then [] else Replies(fs[..|fs| - 1]) + Reply(fs[|fs| - 1])
  }

  /** One turn of the handler's loop: the header read failed, and the bytes it had are lost; the handler gave up on a
      request of which it had got a header and perhaps some payload; or it counted the request `frame`, and `sent` bytes
      of the reply went out. */
  datatype Pass = NoHeader(lost: seq<byte>) | GaveUp(got: seq<byte>) | Counted(frame: seq<byte>, sent: nat)

  /** The handler gives up on an announcement above the limit without reading on, and on a failed payload transfer; what
      it counts is a whole frame within the limit. */
  predicate Possible(p: Pass) {
    match p
    case NoHeader(lost) => |lost| < HEADER
    case GaveUp(got) => |got| >= HEADER && if Oversized(got) then |got| == HEADER else |got| < HEADER + PayloadSize(got)
    case Counted(frame, sent) => IsFrame(frame) && !Oversized(frame) && sent <= |frame|
  }

  predicate Oversized(got: seq<byte>)
    requires |got| >= HEADER
  {
    PayloadSize(got) > MAX_PAYLOAD_SIZE
  }

  type Turn = p: Pass | Possible(p) witness NoHeader([])

  /** The loop goes round again: after a failed header read, and after a request answered in full. */
  predicate GoesOn(p: Turn) {
    p.NoHeader? || (p.Counted? && p.sent == |p.frame|)
  }

  /** The bytes a turn takes off the connection, the bytes it sends, and whether a socket call failed in it. */
  function TakenBy(p: Turn): seq<byte> {
    match p
    case NoHeader(lost) => lost
    case GaveUp(got) => got
    case Counted(frame, _) => frame
  }

  function SentBy(p: Turn): seq<byte> {
    if p.Counted? then Reply(p.frame)[..p.sent] else []
  }

  predicate Failed(p: Turn) {
    match p
    case NoHeader(_) => true
    case GaveUp(got) => !Oversized(got)
    case Counted(frame, sent) => sent < |frame|
  }

  function Taken(ps: seq<Turn>): seq<byte> {
    if ps == [] then [] else Taken(ps[..|ps| - 1]) + TakenBy(ps[|ps| - 1])
  }

  function Sent(ps: seq<Turn>): seq<byte> {
    if ps == [] then [] else Sent(ps[..|ps| - 1]) + SentBy(ps[|ps| - 1])
  }

  function Failures(ps: seq<Turn>): nat {
    if ps == [] then 0 else Failures(ps[..|ps| - 1]) + (if Failed(ps[|ps| - 1]) then 1 else 0)
  }

  /** The requests counted. */
  function Served(ps: seq<Turn>): (fs: seq<seq<byte>>)
    ensures Requests(fs) && |fs| <= |ps|
  {
    if ps == [] then []
    else
      var p := ps[|ps| - 1];
      Served(ps[..|ps| - 1]) + (if p.Counted? then [p.frame] else [])
  }

  /** One turn of the handler's loop body. `size` is the payload of the request it counted, if it counted one. */
  method ServeOne(sock: Socket) returns (goesOn: bool, size: Option<nat>, ghost turn: Turn)
    modifies sock
    ensures goesOn == GoesOn(turn)
    ensures size == if turn.Counted? then Some(PayloadSize(turn.frame)) else None
    ensures old(sock.inbound) == TakenBy(turn) + sock.inbound
    ensures sock.outbound == old(sock.outbound) + SentBy(turn)
    ensures sock.failures == old(sock.failures) + (if Failed(turn) then 1 else 0)
    ensures match turn
      case NoHeader(lost) => |lost| < 22 && sock.failures == old(sock.failures) + 1
      case GaveUp(got) =>
        |got| >= 22 && if PayloadSize(got) > 4 * 1024 * 1024 then |got| == 22 && sock.failures == old(sock.failures)
                       else |got| < 22 + PayloadSize(got) && sock.failures == old(sock.failures) + 1
      case Counted(frame, sent) =>
        && IsFrame(frame) && PayloadSize(frame) <= 4 * 1024 * 1024
        && sock.failures == old(sock.failures) + (if sent < |frame| then 1 else 0)
  {
    ghost var stream := sock.inbound;
    var ok, hdr, taken := RecvHeader(sock);
    if !ok { return true, None, NoHeader(stream[..taken]); }
    Front(stream, 0);
    if hdr.payloadSize > MAX_PAYLOAD_SIZE { return false, None, GaveUp(stream[..HEADER]); }
    var payload;
    ok, payload, taken := RecvPayload(sock, hdr.payloadSize);
    Front(stream, taken);
    if !ok { return false, None, GaveUp(stream[..HEADER + taken]); }
    ghost var frame := stream[..HEADER + hdr.payloadSize];
    assert frame[..HEADER] == stream[..HEADER] && frame[HEADER..] == payload;
    hdr := hdr.(kind := RESPONSE);
    ReplyKeepsAllButType(frame);
    ok, taken := SendFrame(sock, hdr, payload);
    return ok, Some(hdr.payloadSize), Counted(frame, taken);
  }

  /** The first bytes of a stream from a header on: its size field is theirs, and the rest is what is left. */
  lemma Front(stream: seq<byte>, n: nat)
    requires HEADER + n <= |stream|
    ensures PayloadSize(stream[..HEADER + n]) == PayloadSize(stream)
    ensures stream == stream[..HEADER + n] + stream[HEADER..][n..]
  {
  }

  /** The handler of one connection. `checks` is how many times it will find `running_` still set at its loop top;
      `turns` are the turns it makes. They account for every byte taken off the connection, every byte sent and every
      failed socket call, in order, and the two counters for the requests among them. A turn that ends in a failed header
      read or a whole reply is followed by the next as long as `running_` is set; any other is the last. */
  method ConnectionHandler(sock: Socket, checks: nat)
    returns (requestCount: nat, byteCount: nat, ghost turns: seq<Turn>)
    modifies sock
    ensures old(sock.inbound) == Taken(turns) + sock.inbound
    ensures sock.outbound == old(sock.outbound) + Sent(turns)
    ensures sock.failures == old(sock.failures) + Failures(turns)
    ensures requestCount == |Served(turns)| && byteCount == |Flatten(Served(turns))|
    ensures |turns| <= checks && forall i :: 0 <= i < |turns| - 1 ==>
      turns[i].NoHeader? || (turns[i].Counted? && turns[i].sent == |turns[i].frame|)
    ensures |turns| < checks ==>
      && turns != []
      && var last := turns[|turns| - 1]; last.GaveUp? || (last.Counted? && last.sent < |last.frame|)
  {
    requestCount, byteCount, turns := 0, 0, [];
    ghost var stream, out, failures := sock.inbound, sock.outbound, sock.failures;
    var left := checks;
    while left > 0
      invariant |turns| == checks - left && forall i :: 0 <= i < |turns| ==> GoesOn(turns[i])
      invariant Accounts(turns, stream, out, sock.inbound, sock.outbound) && sock.failures == failures + Failures(turns)
      invariant requestCount == |Served(turns)| && byteCount == |Flatten(Served(turns))|
    {
      left := left - 1;
      ghost var before, rest, sent := turns, sock.inbound, sock.outbound;
      var goesOn, size, turn := ServeOne(sock);
      OneMore(before, turn);
      AccountsOneMore(before, turn, stream, out, rest, sent, sock.inbound, sock.outbound);
      turns := before + [turn];
      if size.Some? {
        requestCount := requestCount + 1;
        byteCount := byteCount + HEADER + size.value;
      }
      if !goesOn { break; }
    }
  }

  predicate AllButLastGoOn(turns: seq<Turn>) {
    forall i :: 0 <= i < |turns| - 1 ==> GoesOn(turns[i])
  }

  predicate Accounts(turns: seq<Turn>, stream: seq<byte>, out: seq<byte>, rest: seq<byte>, sent: seq<byte>) {
    stream == Taken(turns) + rest && sent == out + Sent(turns)
  }

  lemma AccountsOneMore(ts: seq<Turn>, t: Turn, stream: seq<byte>, out: seq<byte>, rest: seq<byte>, sent: seq<byte>,
                        rest': seq<byte>, sent': seq<byte>)
    requires Accounts(ts, stream, out, rest, sent) && rest == TakenBy(t) + rest' && sent' == sent + SentBy(t)
    ensures Accounts(ts + [t], stream, out, rest', sent')
  {
    assert (ts + [t])[..|ts|] == ts;
    assert Taken(ts) + (TakenBy(t) + rest') == Taken(ts) + TakenBy(t) + rest';
    assert out + (Sent(ts) + SentBy(t)) == out + Sent(ts) + SentBy(t);
  }

  lemma OneMore(ts: seq<Turn>, t: Turn)
    ensures Failures(ts + [t]) == Failures(ts) + (if Failed(t) then 1 else 0)
    ensures |Served(ts + [t])| == |Served(ts)| + (if t.Counted? then 1 else 0)
    ensures |Flatten(Served(ts + [t]))| == |Flatten(Served(ts))| + (if t.Counted? then |t.frame| else 0)
  {
    assert (ts + [t])[..|ts|] == ts;
    if t.Counted? {
      Snoc(Served(ts), t.frame);
    } else {
      assert Served(ts) + [] == Served(ts);
    }
  }

  lemma Snoc(fs: seq<seq<byte>>, f: seq<byte>)
    requires Requests(fs) && IsFrame(f) && !Oversized(f)
    ensures (fs + [f])[..|fs + [f]| - 1] == fs
    ensures Requests(fs + [f]) && Flatten(fs + [f]) == Flatten(fs) + f && Replies(fs + [f]) == Replies(fs) + Reply(f)
  {
    assert (fs + [f])[..|fs|] == fs;
  }

  // ---- what a handler's turns amount to ----

  /** Turns that all go on have answered every request they counted, in order and in full. */
  lemma {:induction false} AnsweredInFull(ts: seq<Turn>)
    requires forall i :: 0 <= i < |ts| ==> GoesOn(ts[i])
    ensures Sent(ts) == Replies(Served(ts))
  {
    if ts != [] {
      var front, t := ts[..|ts| - 1], ts[|ts| - 1];
      AnsweredInFull(front);
      LastTurn(ts);
      if t.Counted? {
        assert Reply(t.frame)[..t.sent] == Reply(t.frame);
      }
    }
  }

  /** The last turn adds its request, if it counted one, to those served. */
  lemma LastTurn(ts: seq<Turn>)
    requires ts != []
    ensures var (front, t) := (Served(ts[..|ts| - 1]), ts[|ts| - 1]);
      if t.Counted? then
        && Served(ts) == front + [t.frame] && Served(ts)[..|Served(ts)| - 1] == front
        && Flatten(Served(ts)) == Flatten(front) + t.frame && Replies(Served(ts)) == Replies(front) + Reply(t.frame)
      else Served(ts) == front
  {
    var front, t := Served(ts[..|ts| - 1]), ts[|ts| - 1];
    if t.Counted? {
      Snoc(front, t.frame);
    } else {
      assert front + [] == front;
    }
  }

  /** What the handler sends are the replies to the requests it counted, in order; only the last may be cut short. */
  lemma RepliesInOrder(ts: seq<Turn>)
    requires AllButLastGoOn(ts)
    ensures var fs := Served(ts);
      if fs == [] then Sent(ts) == [] else Replies(fs[..|fs| - 1]) <= Sent(ts) <= Replies(fs)
  {
    if ts != [] {
      var front, t := ts[..|ts| - 1], ts[|ts| - 1];
      AnsweredInFull(front);
      LastTurn(ts);
      if t.Counted? {
        PartSent(Sent(front), Reply(t.frame), t.sent, Sent(ts));
      } else {
        assert Sent(front) + [] == Sent(front);
        AnyPrefix(Served(ts));
      }
    }
  }

  lemma AnyPrefix(fs: seq<seq<byte>>)
    requires Requests(fs)
    ensures fs != [] ==> Replies(fs[..|fs| - 1]) <= Replies(fs)
  {
  }

  /** As long as failed header reads lose no bytes, what the handler took off the connection is the requests it counted,
      end to end, and behind them at most the beginning of one it gave up on. */
  lemma {:induction false} TakenAreFrames(ts: seq<Turn>)
    requires AllButLastGoOn(ts) && forall i :: 0 <= i < |ts| && ts[i].NoHeader? ==> ts[i].lost == []
    ensures Taken(ts) == Flatten(Served(ts)) + (if ts != [] && ts[|ts| - 1].GaveUp? then ts[|ts| - 1].got else [])
  {
    if ts != [] {
      var front, t := ts[..|ts| - 1], ts[|ts| - 1];
      TakenAreFrames(front);
      assert front != [] ==> GoesOn(ts[|front| - 1]);
      assert Taken(front) == Flatten(Served(front));
      LastTurn(ts);
    }
  }

  /** If no socket call fails, every turn answers one request in full, and only an announcement above the size limit ends
      the loop before `running_` is cleared. */
  lemma WithoutFailures(ts: seq<Turn>)
    requires AllButLastGoOn(ts) && Failures(ts) == 0
    ensures Sent(ts) == Replies(Served(ts))
    ensures if ts != [] && !GoesOn(ts[|ts| - 1])
      then |Served(ts)| == |ts| - 1 && ts[|ts| - 1].GaveUp? && PayloadSize(ts[|ts| - 1].got) > 4 * 1024 * 1024
           && Taken(ts) == Flatten(Served(ts)) + ts[|ts| - 1].got
      else |Served(ts)| == |ts| && Taken(ts) == Flatten(Served(ts))
  {
    NoneFailed(ts);
    TakenAreFrames(ts);
    if ts != [] && !GoesOn(ts[|ts| - 1]) {
      AnsweredInFull(ts[..|ts| - 1]);
      assert Served(ts) == Served(ts[..|ts| - 1]);
    } else {
      AnsweredInFull(ts);
    }
  }

  lemma {:induction false} NoneFailed(ts: seq<Turn>)
    requires AllButLastGoOn(ts) && Failures(ts) == 0
    ensures forall i :: 0 <= i < |ts| ==> !Failed(ts[i]) && !ts[i].NoHeader?
    ensures |Served(ts)| == |ts| - (if ts != [] && ts[|ts| - 1].GaveUp? then 1 else 0)
  {
    if ts != [] {
      var front := ts[..|ts| - 1];
      NoneFailed(front);
      assert front != [] ==> GoesOn(ts[|front| - 1]);
    }
  }
}
