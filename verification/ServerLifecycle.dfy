/** Start, accept, handle and stop in TcpServer: the caller of stop, the accept thread and one thread per connection,
    with the two mutexes, the lists they guard, and the kernel's table of open descriptors. */
module ServerLifecycle {
  import opened Words

  type Fd = nat

  datatype Who = Main | Acceptor | Conn(h: nat)

  /** Where the caller of stop() is. */
  datatype Stopper =
    | Idle | Checked | Flagged | WantFds | ClosingFds(i: nat)
    | JoiningAccept | WantThreads | Joining(i: nat) | Returned

  /** Where accept_loop is: it holds a mutex exactly in the two Has states. */
  datatype Accepting =
    | Testing | InAccept | NeedsFds(fd: Fd) | HasFds(fd: Fd) | NeedsThreads(fd: Fd) | HasThreads(fd: Fd) | Gone

  /** Where a connection handler is: at its loop top, in the receive of a request, in the send of a reply, or past its
      loop. `ready` says that the request is already in the socket's buffer, `room` that what is left of the reply fits
      into it. */
  datatype Handler =
    | Testing(fd: Fd) | Receiving(fd: Fd, ready: bool) | Sending(fd: Fd, room: bool)
    | Closing(fd: Fd) | Unlisting(fd: Fd) | Erasing(fd: Fd) | Done(fd: Fd)

  /** `open` is the kernel's table: which connection a descriptor number stands for, connections being numbered as they
      are accepted, like their handlers. `shut` holds the connections that were shut down. `listening` is the listener's
      state, `fds` is client_fds_, `threads` is conn_threads_ (by handler number), `joined` the handlers stop has
      joined. */
  datatype State = State(running: bool, listening: bool, stopper: Stopper, accepting: Accepting,
                         handlers: seq<Handler>, open: map<Fd, nat>, shut: set<nat>, fds: seq<Fd>, threads: seq<nat>,
                         joined: set<nat>, fdsOwner: Option<Who>, threadsOwner: Option<Who>)

  /** What can happen in a handler's loop: it tests `running_`, and may find a request buffered; its header receive
      fails; it gives up on a request (a failed payload receive, or an announcement above the limit); the rest of a request
      arrives; the handler takes a buffered request, and its reply may fit; the peer makes room; a reply that fits goes
      out; the peer resets the connection in a send; or the send fails because the connection was shut down. */
  datatype Event =
    | LoopTest(ready: bool) | HeaderFails | GivesUp | RequestArrives | RequestTaken(room: bool)
    | PeerMakesRoom | ReplySent | PeerFails | SendWoken

  datatype Action =
    | StopCheck | StopFlag | StopListener | StopLockFds | StopCloseFd | StopClearFds
    | StopJoinAccept | StopLockThreads | StopJoin | StopClearThreads
    | AcceptTest | AcceptOk(fd: Fd) | AcceptFails | AcceptWoken
    | AcceptLockFds | AcceptPush | AcceptLockThreads | AcceptSpawn
    | HandlerServes(h: nat, e: Event) | HandlerCloses(h: nat) | HandlerLocks(h: nat) | HandlerErases(h: nat)

  /** Steps that wait for something outside the server's control: a connection arrives, accept fails for a passing reason
      (an aborted connection, no descriptor left), bytes arrive, or the peer reads or resets. All others the server takes
      by itself, among them those on bytes already in a socket's buffers. */
  predicate FromOutside(a: Action) {
    || a.AcceptOk? || a.AcceptFails?
    || (a.HandlerServes? && (a.e.RequestArrives? || a.e.PeerMakesRoom? || a.e.PeerFails?))
  }

  /** Just after start(). */
  function Init(): State {
    State(true, true, Idle, Accepting.Testing, [], map[], {}, [], [], {}, None, None)
  }

  predicate CanHappen(at: Handler, shut: bool, e: Event) {
    match e
    case LoopTest(_) => at.Testing?
    case HeaderFails => at.Receiving? && (!at.ready || shut)
    case GivesUp => at.Receiving?
    case RequestArrives => at.Receiving? && !at.ready
    case RequestTaken(_) => at.Receiving? && at.ready
    case PeerMakesRoom => at.Sending? && !at.room
    case ReplySent => at.Sending? && at.room
    case PeerFails => at.Sending?
    case SendWoken => at.Sending? && shut
  }

  function Next(running: bool, at: Handler, shut: bool, e: Event): (to: Handler)
    requires CanHappen(at, shut, e)
    ensures Holds(at) && Holds(to) && to.fd == at.fd
  {
    match e
    case LoopTest(ready) => if running then Receiving(at.fd, ready) else Closing(at.fd)
    case HeaderFails => if running then Handler.Testing(at.fd) else Closing(at.fd)
    case RequestArrives => Receiving(at.fd, true)
    case RequestTaken(room) => Sending(at.fd, room)
    case PeerMakesRoom => Sending(at.fd, true)
    case ReplySent => Handler.Testing(at.fd)
    case _ => Closing(at.fd)
  }

  /** A handler that has not closed its descriptor yet. */
  predicate Holds(h: Handler) {
    h.Testing? || h.Receiving? || h.Sending? || h.Closing?
  }

  /** The kernel may hand out any descriptor number that is not open, also one still standing in client_fds_. A receive
      ends by itself within its timeout; a send has no timeout, and is left only by a step of the peer or once its
      connection has been shut down; accept is left once the listener has been. */
  predicate Enabled(s: State, a: Action) {
    match a
    case StopCheck => s.stopper.Idle? && s.running
    case StopFlag => s.stopper.Checked?
    case StopListener => s.stopper.Flagged?
    case StopLockFds => s.stopper.WantFds? && s.fdsOwner == None
    case StopCloseFd => s.stopper.ClosingFds? && s.stopper.i < |s.fds|
    case StopClearFds => s.stopper.ClosingFds? && s.stopper.i >= |s.fds|
    case StopJoinAccept => s.stopper.JoiningAccept? && s.accepting.Gone?
    case StopLockThreads => s.stopper.WantThreads? && s.threadsOwner == None
    case StopJoin =>
      && s.stopper.Joining? && s.stopper.i < |s.threads|
      && s.threads[s.stopper.i] < |s.handlers| && s.handlers[s.threads[s.stopper.i]].Done?
    case StopClearThreads => s.stopper.Joining? && s.stopper.i >= |s.threads|
    case AcceptTest => s.accepting.Testing?
    case AcceptOk(fd) => s.accepting.InAccept? && s.listening && fd !in s.open
    case AcceptFails => s.accepting.InAccept?
    case AcceptWoken => s.accepting.InAccept? && !s.listening
    case AcceptLockFds => s.accepting.NeedsFds? && s.fdsOwner == None
    case AcceptPush => s.accepting.HasFds?
    case AcceptLockThreads => s.accepting.NeedsThreads? && s.threadsOwner == None
    case AcceptSpawn => s.accepting.HasThreads?
    case HandlerServes(h, e) => h < |s.handlers| && CanHappen(s.handlers[h], h in s.shut, e)
    case HandlerCloses(h) => h < |s.handlers| && s.handlers[h].Closing?
    case HandlerLocks(h) => h < |s.handlers| && s.handlers[h].Unlisting? && s.fdsOwner == None
    case HandlerErases(h) => h < |s.handlers| && s.handlers[h].Erasing?
  }

  /** client_fds_ without any occurrence of fd: the erase-remove idiom. */
  function Without(fds: seq<Fd>, fd: Fd): (r: seq<Fd>)
    ensures |r| <= |fds|
    ensures forall f :: f in r <==> f in fds && f != fd
  {
    if fds == [] then []
    else (if fds[0] == fd then [] else [fds[0]]) + Without(fds[1..], fd)
  }

  function Apply(s: State, a: Action): State
    requires Enabled(s, a)
  {
    match a
    case StopCheck => s.(stopper := Checked)
    case StopFlag => s.(running := false, stopper := Flagged)
    case StopListener => s.(listening := false, stopper := WantFds)
    case StopLockFds => s.(stopper := ClosingFds(0), fdsOwner := Some(Main))
    case StopCloseFd =>
      var fd := s.fds[s.stopper.i];
      s.(shut := if fd in s.open then s.shut + {s.open[fd]} else s.shut,
         open := s.open - {fd}, stopper := ClosingFds(s.stopper.i + 1))
    case StopClearFds => s.(fds := [], stopper := JoiningAccept, fdsOwner := None)
    case StopJoinAccept => s.(stopper := WantThreads)
    case StopLockThreads => s.(stopper := Joining(0), threadsOwner := Some(Main))
    case StopJoin => s.(joined := s.joined + {s.threads[s.stopper.i]}, stopper := Joining(s.stopper.i + 1))
    case StopClearThreads => s.(threads := [], stopper := Returned, threadsOwner := None)
    case AcceptTest => s.(accepting := if s.running then InAccept else Gone)
    case AcceptOk(fd) => s.(open := s.open[fd := |s.handlers|], accepting := NeedsFds(fd))
    case AcceptFails => s.(accepting := if s.running then Accepting.Testing else Gone)
    case AcceptWoken => s.(accepting := if s.running then Accepting.Testing else Gone)
    case AcceptLockFds => s.(accepting := HasFds(s.accepting.fd), fdsOwner := Some(Acceptor))
    case AcceptPush => s.(fds := s.fds + [s.accepting.fd], accepting := NeedsThreads(s.accepting.fd), fdsOwner := None)
    case AcceptLockThreads => s.(accepting := HasThreads(s.accepting.fd), threadsOwner := Some(Acceptor))
    case AcceptSpawn =>
      s.(handlers := s.handlers + [Handler.Testing(s.accepting.fd)], threads := s.threads + [|s.handlers|],
         accepting := Accepting.Testing, threadsOwner := None)
    case HandlerServes(h, e) => Moves(s, h, Next(s.running, s.handlers[h], h in s.shut, e))
    case HandlerCloses(h) => Moves(s, h, Unlisting(s.handlers[h].fd)).(open := s.open - {s.handlers[h].fd})
    case HandlerLocks(h) => Moves(s, h, Erasing(s.handlers[h].fd)).(fdsOwner := Some(Conn(h)))
    case HandlerErases(h) =>
      Moves(s, h, Done(s.handlers[h].fd)).(fds := Without(s.fds, s.handlers[h].fd), fdsOwner := None)
  }

  function Moves(s: State, h: nat, to: Handler): State
    requires h < |s.handlers|
  {
    s.(handlers := s.handlers[h := to])
  }

  ghost predicate IsRun(states: seq<State>, acts: seq<Action>) {
    && |states| == |acts| + 1
    && states[0] == Init()
    && forall i :: 0 <= i < |acts| ==> Enabled(states[i], acts[i]) && states[i + 1] == Apply(states[i], acts[i])
  }

  // ---- the invariant ----

  /** Each mutex is held by the thread whose position says so, and by no other. */
  ghost predicate LocksInv(s: State) {
    FdsLockInv(s) && ThreadsLockInv(s)
  }

  ghost predicate FdsLockInv(s: State) {
    && (s.fdsOwner == Some(Main) <==> s.stopper.ClosingFds?)
    && (s.fdsOwner == Some(Acceptor) <==> s.accepting.HasFds?)
    && (forall h :: 0 <= h < |s.handlers| ==> (s.fdsOwner == Some(Conn(h)) <==> s.handlers[h].Erasing?))
    && (s.fdsOwner.Some? && s.fdsOwner.value.Conn? ==> s.fdsOwner.value.h < |s.handlers|)
  }

  predicate ThreadsLockInv(s: State) {
    && (s.threadsOwner == Some(Main) <==> s.stopper.Joining?)
    && (s.threadsOwner == Some(Acceptor) <==> s.accepting.HasThreads?)
    && (s.threadsOwner.Some? ==> !s.threadsOwner.value.Conn?)
  }

  ghost predicate StopInv(s: State) {
    && (s.running <==> s.stopper.Idle? || s.stopper.Checked?)
    && (s.listening <==> s.stopper.Idle? || s.stopper.Checked? || s.stopper.Flagged?)
    && (s.stopper.WantThreads? || s.stopper.Joining? || s.stopper.Returned? ==> s.accepting.Gone?)
    && (s.accepting.Gone? ==> !s.running)
    && (s.stopper.ClosingFds? ==> s.stopper.i <= |s.fds|)
    && (if s.stopper.Returned? then s.threads == []
        else |s.threads| == |s.handlers| && forall k :: 0 <= k < |s.threads| ==> s.threads[k] == k)
    && (match s.stopper
        case Joining(i) =>
          && i <= |s.threads| && (forall k: nat :: k in s.joined <==> k < i)
          && forall k :: 0 <= k < i ==> s.handlers[k].Done?
        case Returned =>
          && (forall k: nat :: k in s.joined <==> k < |s.handlers|)
          && forall k :: 0 <= k < |s.handlers| ==> s.handlers[k].Done?
        case _ => s.joined == {})
  }

  /** Somebody will still take this descriptor off the list. */
  ghost predicate Owned(s: State, fd: Fd) {
    || (exists h :: 0 <= h < |s.handlers| && !s.handlers[h].Done? && s.handlers[h].fd == fd)
    || s.accepting == NeedsThreads(fd) || s.accepting == HasThreads(fd)
  }

  ghost predicate ListInv(s: State) {
    forall fd :: fd in s.fds ==> Owned(s, fd)
  }

  ghost predicate Inv(s: State) {
    LocksInv(s) && StopInv(s) && ListInv(s)
  }

  lemma ListStep(s: State, a: Action)
    requires Inv(s) && Enabled(s, a)
    ensures ListInv(Apply(s, a))
  {
    var s' := Apply(s, a);
    forall fd | fd in s'.fds ensures Owned(s', fd) {
      if fd in s.fds && !(s.accepting.HasThreads? && fd == s.accepting.fd) {
        assert Owned(s, fd);
        if h :| 0 <= h < |s.handlers| && !s.handlers[h].Done? && s.handlers[h].fd == fd {
          assert s'.handlers[h].fd == fd && !s'.handlers[h].Done?;
        }
      } else if a.AcceptSpawn? {
        assert s'.handlers[|s.handlers|].fd == s.accepting.fd;
      }
    }
  }

  lemma LocksStep(s: State, a: Action)
    requires LocksInv(s) && Enabled(s, a)
    ensures LocksInv(Apply(s, a))
  {
    FdsLockStep(s, a);
    ThreadsLockStep(s, a);
  }

  lemma FdsLockStep(s: State, a: Action)
    requires LocksInv(s) && Enabled(s, a)
    ensures FdsLockInv(Apply(s, a))
  {
    if IsHandlerStep(a) {
      HandlerLockStep(s, a);
    }
  }

  lemma HandlerLockStep(s: State, a: Action)
    requires LocksInv(s) && Enabled(s, a) && IsHandlerStep(a)
    ensures FdsLockInv(Apply(s, a))
  {
  }

  lemma ThreadsLockStep(s: State, a: Action)
    requires LocksInv(s) && Enabled(s, a)
    ensures ThreadsLockInv(Apply(s, a))
  {
  }

  lemma StopStep(s: State, a: Action)
    requires LocksInv(s) && StopInv(s) && Enabled(s, a)
    ensures StopInv(Apply(s, a))
  {
    if IsHandlerStep(a) {
      StopStepOfHandler(s, a);
    } else if a.StopClearThreads? {
      assert s.stopper.i == |s.handlers|;
    }
  }

  lemma StopStepOfHandler(s: State, a: Action)
    requires LocksInv(s) && StopInv(s) && Enabled(s, a) && IsHandlerStep(a)
    ensures StopInv(Apply(s, a))
  {
  }

  lemma StepInv(s: State, a: Action)
    requires Inv(s) && Enabled(s, a)
    ensures Inv(Apply(s, a))
  {
    LocksStep(s, a);
    StopStep(s, a);
    ListStep(s, a);
  }

  lemma {:induction false} RunInv(states: seq<State>, acts: seq<Action>, i: nat)
    requires IsRun(states, acts) && i <= |acts|
    ensures Inv(states[i])
  {
    if i > 0 {
      RunInv(states, acts, i - 1);
      StepInv(states[i - 1], acts[i - 1]);
    }
  }

  /** Shutdown is complete, in every interleaving and whatever descriptor numbers the kernel hands out: when stop returns
      the accept thread is gone, every handler ever spawned has run to its end and been joined, both lists are empty and
      both mutexes are free. */
  lemma StopIsComplete(states: seq<State>, acts: seq<Action>, i: nat)
    requires IsRun(states, acts) && i <= |acts| && states[i].stopper.Returned?
    ensures var s := states[i];
      && !s.running && s.accepting.Gone?
      && (forall h :: 0 <= h < |s.handlers| ==> s.handlers[h].Done? && h in s.joined)
      && s.fds == [] && s.threads == [] && s.fdsOwner == None && s.threadsOwner == None
  {
    RunInv(states, acts, i);
    var s := states[i];
    HasFirst(s.fds);
    OwnerPosition(s);
  }

  lemma HasFirst(fds: seq<Fd>)
    ensures fds == [] || fds[0] in fds
  {
  }

  lemma OwnerPosition(s: State)
    requires LocksInv(s)
    ensures s.fdsOwner == None || s.stopper.ClosingFds? || s.accepting.HasFds?
            || exists h :: 0 <= h < |s.handlers| && s.handlers[h].Erasing?
  {
    match s.fdsOwner
    case Some(Conn(h)) => assert s.handlers[h].Erasing?;
    case _ =>
  }

  /** And it stays so: nothing can happen any more. */
  lemma NothingAfterStop(states: seq<State>, acts: seq<Action>, i: nat, a: Action)
    requires IsRun(states, acts) && i <= |acts| && states[i].stopper.Returned?
    ensures !Enabled(states[i], a)
  {
    StopIsComplete(states, acts, i);
  }

  /** Every open number is that of a connection whose handler, or the accept thread, has yet to close it. */
  ghost predicate OpenInv(s: State) {
    forall fd :: fd in s.open ==>
      || (s.open[fd] < |s.handlers| && Holds(s.handlers[s.open[fd]]) && s.handlers[s.open[fd]].fd == fd)
      || (s.open[fd] == |s.handlers| && HoldsNew(s.accepting) && s.accepting.fd == fd)
  }

  predicate HoldsNew(a: Accepting) {
    a.NeedsFds? || a.HasFds? || a.NeedsThreads? || a.HasThreads?
  }

  lemma OpenStep(s: State, a: Action)
    requires OpenInv(s) && Enabled(s, a)
    ensures OpenInv(Apply(s, a))
  {
    if IsHandlerStep(a) {
      OpenStepOfHandler(s, a);
    }
  }

  lemma OpenStepOfHandler(s: State, a: Action)
    requires OpenInv(s) && Enabled(s, a) && IsHandlerStep(a)
    ensures OpenInv(Apply(s, a))
  {
    var t := Apply(s, a);
    forall fd | fd in t.open
      ensures (t.open[fd] < |t.handlers| && Holds(t.handlers[t.open[fd]]) && t.handlers[t.open[fd]].fd == fd)
           || (t.open[fd] == |t.handlers| && HoldsNew(t.accepting) && t.accepting.fd == fd)
    {
      assert fd in s.open && t.open[fd] == s.open[fd];
    }
  }

  /** No descriptor leaks: closed twice by stop and handler, reused or not, none is open when stop has returned. */
  lemma {:induction false} NoneLeaks(states: seq<State>, acts: seq<Action>, i: nat)
    requires IsRun(states, acts) && i <= |acts|
    ensures OpenInv(states[i])
    ensures states[i].stopper.Returned? ==> states[i].open == map[]
  {
    if i > 0 {
      NoneLeaks(states, acts, i - 1);
      OpenStep(states[i - 1], acts[i - 1]);
    }
    if states[i].stopper.Returned? {
      StopIsComplete(states, acts, i);
      assert forall fd :: fd !in states[i].open;
    }
  }

  /** A number that stop has closed in its pass over the list is not open: nothing new is accepted any more. */
  ghost predicate ClosedInv(s: State) {
    forall fd :: fd in StopClosed(s) ==> fd !in s.open
  }

  lemma ClosedStep(s: State, a: Action)
    requires LocksInv(s) && StopInv(s) && ClosedInv(s) && Enabled(s, a)
    ensures ClosedInv(Apply(s, a))
  {
    if s.stopper.ClosingFds? && !a.StopClearFds? {
      ListUnchanged(s, a);
    }
  }

  lemma {:induction false} ClosedRun(states: seq<State>, acts: seq<Action>, i: nat, j: nat)
    requires IsRun(states, acts) && i <= |acts|
    ensures ClosedInv(states[i])
    ensures var s := states[i];
      s.stopper.ClosingFds? && j < s.stopper.i && j < |s.fds| ==> s.fds[j] !in s.open
  {
    if i > 0 {
      ClosedRun(states, acts, i - 1, 0);
      RunInv(states, acts, i - 1);
      ClosedStep(states[i - 1], acts[i - 1]);
    }
    RunInv(states, acts, i);
    var s := states[i];
    if s.stopper.ClosingFds? && j < s.stopper.i {
      assert s.fds[j] in StopClosed(s);
    }
  }

  /** While the server runs, a handler leaves its loop only when it gives up on a request, or a send fails. */
  lemma KeepsServing(s: State, h: nat, e: Event)
    requires Enabled(s, HandlerServes(h, e)) && s.running
    ensures Apply(s, HandlerServes(h, e)).handlers[h].Closing?
       <==> e == GivesUp || e == PeerFails || e == SendWoken
  {
  }

  // ---- no cyclic waiting ----

  predicate Waits(s: State, t: Who, u: Who) {
    || (WantsFds(s, t) && s.fdsOwner == Some(u))
    || (WantsThreads(s, t) && s.threadsOwner == Some(u))
    || (t.Main? && s.stopper.JoiningAccept? && u.Acceptor? && !s.accepting.Gone?)
    || (t.Main? && s.stopper.Joining? && s.stopper.i < |s.threads| && u == Conn(s.threads[s.stopper.i])
        && u.h < |s.handlers| && !s.handlers[u.h].Done?)
  }

  predicate WantsFds(s: State, t: Who) {
    match t
    case Main => s.stopper.WantFds?
    case Acceptor => s.accepting.NeedsFds?
    case Conn(h) => h < |s.handlers| && s.handlers[h].Unlisting?
  }

  predicate WantsThreads(s: State, t: Who) {
    match t
    case Main => s.stopper.WantThreads?
    case Acceptor => s.accepting.NeedsThreads?
    case Conn(h) => false
  }

  function Level(s: State, t: Who): nat {
    if s.fdsOwner == Some(t) then 0
    else match t
      case Conn(_) => 1
      case Acceptor => 2
      case Main => 3
  }

  /** Whoever is waited for stands lower than the one who waits. */
  lemma WaitsGoDown(s: State, t: Who, u: Who)
    requires Inv(s) && Waits(s, t, u)
    ensures Level(s, u) < Level(s, t)
  {
  }

  ghost predicate WaitChain(s: State, ts: seq<Who>) {
    forall k :: 0 <= k < |ts| - 1 ==> Waits(s, ts[k], ts[k + 1])
  }

  lemma {:induction false} ChainGoesDown(s: State, ts: seq<Who>)
    requires Inv(s) && |ts| >= 1 && WaitChain(s, ts)
    ensures Level(s, ts[|ts| - 1]) + (|ts| - 1) <= Level(s, ts[0])
  {
    if |ts| > 1 {
      WaitsGoDown(s, ts[0], ts[1]);
      forall k | 0 <= k < |ts[1..]| - 1 ensures Waits(s, ts[1..][k], ts[1..][k + 1]) {
        var j := k + 1;
        assert Waits(s, ts[j], ts[j + 1]);
      }
      ChainGoesDown(s, ts[1..]);
    }
  }

  /** In every reachable state the waits on the two mutexes and on thread ends form no cycle, and no chain of them is
      longer than three. */
  lemma NoWaitCycle(states: seq<State>, acts: seq<Action>, i: nat, ts: seq<Who>)
    requires IsRun(states, acts) && i <= |acts| && |ts| >= 2 && WaitChain(states[i], ts)
    ensures ts[0] != ts[|ts| - 1] && |ts| <= 4
  {
    RunInv(states, acts, i);
    ChainGoesDown(states[i], ts);
  }

  /** A thread that has left its code, or was never spawned. */
  predicate Finished(s: State, t: Who) {
    match t
    case Main => s.stopper.Returned?
    case Acceptor => s.accepting.Gone?
    case Conn(h) => h < |s.handlers| ==> s.handlers[h].Done?
  }

  /** The step a thread takes by itself. */
  function StepOf(s: State, t: Who): (a: Action)
    ensures !FromOutside(a)
  {
    match t
    case Main =>
      (match s.stopper
       case Idle => StopCheck
       case Checked => StopFlag
       case Flagged => StopListener
       case WantFds => StopLockFds
       case ClosingFds(i) => if i < |s.fds| then StopCloseFd else StopClearFds
       case JoiningAccept => StopJoinAccept
       case WantThreads => StopLockThreads
       case Joining(i) => if i < |s.threads| then StopJoin else StopClearThreads
       case Returned => StopCheck)
    case Acceptor =>
      (match s.accepting
       case Testing => AcceptTest
       case InAccept => AcceptWoken
       case NeedsFds(_) => AcceptLockFds
       case HasFds(_) => AcceptPush
       case NeedsThreads(_) => AcceptLockThreads
       case HasThreads(_) => AcceptSpawn
       case Gone => AcceptTest)
    case Conn(h) =>
      if h >= |s.handlers| then StopCheck
      else match s.handlers[h]
        case Testing(_) => HandlerServes(h, LoopTest(false))
        case Receiving(_, ready) => HandlerServes(h, if ready then RequestTaken(false) else HeaderFails)
        case Sending(_, room) => HandlerServes(h, if room then ReplySent else SendWoken)
        case Closing(_) => HandlerCloses(h)
        case Unlisting(_) => HandlerLocks(h)
        case Erasing(_) => HandlerErases(h)
        case Done(_) => StopCheck
  }

  /** A handler in a send that does not fit, on a connection nobody has shut down. */
  predicate Stuck(s: State, h: nat) {
    h < |s.handlers| && s.handlers[h].Sending? && !s.handlers[h].room && h !in s.shut
  }

  /** Follow the waits down from stop: they end at a thread that can step by itself, or at the join of a handler stuck in
      a send. */
  lemma SomeoneCanStep(s: State, t: Who) returns (u: Who)
    requires Inv(s) && !Finished(s, t) && (t.Main? || !s.listening)
    ensures !Finished(s, u)
    ensures Enabled(s, StepOf(s, u)) || (u.Conn? && Stuck(s, u.h) && (t == u || s.stopper == Joining(u.h)))
    decreases Level(s, t)
  {
    if Enabled(s, StepOf(s, t)) || (t.Conn? && Stuck(s, t.h)) {
      return t;
    }
    var v := if WantsFds(s, t) then s.fdsOwner.value
             else if WantsThreads(s, t) then s.threadsOwner.value
             else if s.stopper.JoiningAccept? then Acceptor
             else Conn(s.threads[s.stopper.i]);
    WaitsGoDown(s, t, v);
    u := SomeoneCanStep(s, v);
  }

  // ---- stop returns ----

  function HandlerCost(h: Handler): nat {
    match h
    case Receiving(_, ready) => if ready then 7 else 8
    case Sending(_, room) => if room then 5 else 6
    case Testing(_) => 4
    case Closing(_) => 3
    case Unlisting(_) => 2
    case Erasing(_) => 1
    case Done(_) => 0
  }

  function AcceptCost(a: Accepting): nat {
    match a
    case InAccept => 12
    case NeedsFds(_) => 11
    case HasFds(_) => 10
    case NeedsThreads(_) => 8
    case HasThreads(_) => 7
    case Testing => 1
    case Gone => 0
  }

  function StopCost(s: State): nat {
    match s.stopper
    case ClosingFds(i) => 4 + (if i <= |s.fds| then |s.fds| - i else 0) + |s.threads|
    case JoiningAccept => 3 + |s.threads|
    case WantThreads => 2 + |s.threads|
    case Joining(i) => 1 + (if i <= |s.threads| then |s.threads| - i else 0)
    case Returned => 0
    case WantFds => 5 + |s.fds| + |s.threads|
    case _ => 6 + |s.fds| + |s.threads|
  }

  function HandlerCosts(hs: seq<Handler>): seq<nat> {
    seq(|hs|, (h: nat) requires h < |hs| => HandlerCost(hs[h]))
  }

  /** An upper bound on the steps, of all threads together, until stop returns. */
  function Cost(s: State): nat {
    StopCost(s) + AcceptCost(s.accepting) + Sum(HandlerCosts(s.handlers))
  }

  lemma HandlerCostDecreases(s: State, h: nat, to: Handler)
    requires h < |s.handlers| && HandlerCost(to) < HandlerCost(s.handlers[h])
    ensures Sum(HandlerCosts(s.handlers[h := to])) < Sum(HandlerCosts(s.handlers))
  {
    assert HandlerCosts(s.handlers[h := to]) == HandlerCosts(s.handlers)[h := HandlerCost(to)];
    SumUpdate(HandlerCosts(s.handlers), h, HandlerCost(to));
  }

  lemma SpawnCost(hs: seq<Handler>, fd: Fd)
    ensures Sum(HandlerCosts(hs + [Handler.Testing(fd)])) == Sum(HandlerCosts(hs)) + 4
  {
    assert HandlerCosts(hs + [Handler.Testing(fd)]) == HandlerCosts(hs) + [4];
    SumAppend(HandlerCosts(hs), [4]);
    assert Sum([4]) == 4;
  }

  predicate IsHandlerStep(a: Action) {
    a.HandlerServes? || a.HandlerCloses? || a.HandlerLocks? || a.HandlerErases?
  }

  /** The steps of stop and of the accept thread lower their own cost, a spawn by more than the new handler adds. */
  lemma OtherCostDecreases(s: State, a: Action)
    requires StopInv(s) && Enabled(s, a) && !s.running && !IsHandlerStep(a)
    ensures var s' := Apply(s, a);
      StopCost(s') + AcceptCost(s'.accepting) + (if a.AcceptSpawn? then 4 else 0)
        < StopCost(s) + AcceptCost(s.accepting)
  {
  }

  lemma HandlerStepStopCost(s: State, a: Action)
    requires LocksInv(s) && StopInv(s) && Enabled(s, a) && !s.running && IsHandlerStep(a)
    ensures StopCost(Apply(s, a)) <= StopCost(s) && Apply(s, a).accepting == s.accepting
  {
  }

  lemma CostDecreases(s: State, a: Action)
    requires Inv(s) && Enabled(s, a) && !s.running
    ensures Cost(Apply(s, a)) < Cost(s)
  {
    if IsHandlerStep(a) {
      HandlerStepStopCost(s, a);
      HandlerCostDecreases(s, a.h, Apply(s, a).handlers[a.h]);
    } else {
      OtherCostDecreases(s, a);
      if a.AcceptSpawn? {
        SpawnCost(s.handlers, s.accepting.fd);
      }
    }
  }

  /** Once stop has cleared the flag, a run has at most Cost steps left, whoever takes them. */
  lemma {:induction false} FewStepsLeft(states: seq<State>, acts: seq<Action>, i: nat)
    requires IsRun(states, acts) && i <= |acts| && !states[i].running
    ensures |acts| - i <= Cost(states[i])
    decreases |acts| - i
  {
    RunInv(states, acts, i);
    if i < |acts| {
      CostDecreases(states[i], acts[i]);
      FewStepsLeft(states, acts, i + 1);
    }
  }

  /** The server can take no further step by itself. */
  ghost predicate AtRest(s: State) {
    forall a :: Enabled(s, a) ==> FromOutside(a)
  }

  /** And when the server can take no further step by itself, stop has returned, or it is in the join of a handler that
      is stuck in a send. */
  lemma AtTheEnd(s: State)
    requires Inv(s) && !s.running && AtRest(s)
    ensures s.stopper.Returned? || (s.stopper.Joining? && Stuck(s, s.stopper.i))
  {
    if !s.stopper.Returned? {
      var t := SomeoneCanStep(s, Main);
      assert Enabled(s, StepOf(s, t)) ==> FromOutside(StepOf(s, t));
    }
  }

  // ---- descriptor reuse ----

  predicate BeforeClear(s: State) {
    !s.stopper.JoiningAccept? && !s.stopper.WantThreads? && !s.stopper.Joining? && !s.stopper.Returned?
  }

  /** Stop, should it come now, would shut this connection down: it goes by the list. */
  ghost predicate Listed(s: State) {
    BeforeClear(s) ==>
      && (forall h :: 0 <= h < |s.handlers| && !s.handlers[h].Done? ==> s.handlers[h].fd in s.fds)
      && (s.accepting.NeedsThreads? || s.accepting.HasThreads? ==> s.accepting.fd in s.fds)
  }

  /** A handler takes its number off the list while another connection with the same number is on it, the kernel having
      handed the number out again after close(fd) and before the erase. */
  ghost predicate ErasesOther(s: State, a: Action) {
    && a.HandlerErases? && a.h < |s.handlers| && BeforeClear(s)
    && ((exists k :: 0 <= k < |s.handlers| && k != a.h && !s.handlers[k].Done? && s.handlers[k].fd == s.handlers[a.h].fd)
        || ((s.accepting.NeedsThreads? || s.accepting.HasThreads?) && s.accepting.fd == s.handlers[a.h].fd))
  }

  lemma ListedStep(s: State, a: Action)
    requires Inv(s) && Enabled(s, a) && Listed(s)
    ensures Listed(Apply(s, a)) <==> !ErasesOther(s, a)
  {
    if a.HandlerErases? {
      ListedErase(s, a.h);
    } else {
      ListedOther(s, a);
    }
  }

  lemma ListedErase(s: State, h: nat)
    requires Enabled(s, HandlerErases(h)) && Listed(s)
    ensures Listed(Apply(s, HandlerErases(h))) <==> !ErasesOther(s, HandlerErases(h))
  {
    var s', fd := Apply(s, HandlerErases(h)), s.handlers[h].fd;
    if k :| 0 <= k < |s.handlers| && k != h && !s.handlers[k].Done? && s.handlers[k].fd == fd {
      assert s'.handlers[k] == s.handlers[k] && fd !in s'.fds;
    } else if BeforeClear(s) {
      forall k | 0 <= k < |s'.handlers| && !s'.handlers[k].Done? ensures s'.handlers[k].fd in s'.fds {
        assert s'.handlers[k] == s.handlers[k] && s.handlers[k].fd in s.fds;
      }
    }
  }

  lemma ListedOther(s: State, a: Action)
    requires Inv(s) && Enabled(s, a) && Listed(s) && !a.HandlerErases?
    ensures Listed(Apply(s, a))
  {
    var s' := Apply(s, a);
    if BeforeClear(s') {
      forall h | 0 <= h < |s'.handlers| && !s'.handlers[h].Done? ensures s'.handlers[h].fd in s'.fds {
        if h < |s.handlers| {
          assert s.handlers[h].fd == s'.handlers[h].fd && s.handlers[h].fd in s.fds;
        }
      }
    }
  }

  ghost predicate AlwaysListed(states: seq<State>, n: nat)
    requires n < |states|
  {
    forall i :: 0 <= i <= n ==> Listed(states[i])
  }

  ghost predicate NoErasure(states: seq<State>, acts: seq<Action>, n: nat)
    requires n <= |acts| < |states|
  {
    forall i :: 0 <= i < n ==> !ErasesOther(states[i], acts[i])
  }

  /** Exactly when no such erase happens does the list, in every state of the run before stop clears it, name every
      connection that still has a handler. */
  lemma {:induction false} ListedIffNoErasure(states: seq<State>, acts: seq<Action>, n: nat)
    requires IsRun(states, acts) && n <= |acts|
    ensures AlwaysListed(states, n) <==> NoErasure(states, acts, n)
  {
    if n > 0 {
      ListedIffNoErasure(states, acts, n - 1);
      RunInv(states, acts, n - 1);
      assert AlwaysListed(states, n) <==> AlwaysListed(states, n - 1) && Listed(states[n]);
      assert NoErasure(states, acts, n) <==> NoErasure(states, acts, n - 1) && !ErasesOther(states[n - 1], acts[n - 1]);
      if AlwaysListed(states, n - 1) {
        ListedStep(states[n - 1], acts[n - 1]);
      }
    }
  }

  // ---- whom the shutdown reaches ----

  /** The numbers stop has closed so far in its pass over the list. */
  function StopClosed(s: State): seq<Fd> {
    if s.stopper.ClosingFds? && s.stopper.i <= |s.fds| then s.fds[..s.stopper.i] else []
  }

  /** Until stop closes a number, it stands for the connection of the handler that holds it, reused or not. */
  ghost predicate NumbersInv(s: State) {
    BeforeClear(s) ==>
      && (forall h :: 0 <= h < |s.handlers| && Holds(s.handlers[h]) && s.handlers[h].fd !in StopClosed(s) ==>
            s.handlers[h].fd in s.open && s.open[s.handlers[h].fd] == h)
      && (HoldsNew(s.accepting) && s.accepting.fd !in StopClosed(s) ==>
            s.accepting.fd in s.open && s.open[s.accepting.fd] == |s.handlers|)
  }

  /** A connection whose number stop has closed has been shut down. */
  ghost predicate ClosedAreShut(s: State) {
    s.stopper.ClosingFds? ==>
      && (forall h :: 0 <= h < |s.handlers| && Holds(s.handlers[h]) && s.handlers[h].fd in StopClosed(s) ==> h in s.shut)
      && ((s.accepting.NeedsThreads? || s.accepting.HasThreads?) && s.accepting.fd in StopClosed(s) ==>
            |s.handlers| in s.shut)
  }

  ghost predicate ReachInv(s: State) {
    NumbersInv(s) && ClosedAreShut(s)
  }

  lemma ListUnchanged(s: State, a: Action)
    requires LocksInv(s) && StopInv(s) && Enabled(s, a) && s.stopper.ClosingFds? && !a.StopClearFds?
    ensures Apply(s, a).stopper.ClosingFds? && Apply(s, a).fds == s.fds
    ensures StopClosed(Apply(s, a)) == StopClosed(s) + (if a.StopCloseFd? then [s.fds[s.stopper.i]] else [])
  {
  }

  lemma NumbersStep(s: State, a: Action)
    requires LocksInv(s) && StopInv(s) && NumbersInv(s) && Enabled(s, a)
    ensures NumbersInv(Apply(s, a))
  {
    if s.stopper.ClosingFds? && !a.StopClearFds? {
      ListUnchanged(s, a);
    }
    if IsHandlerStep(a) {
      NumbersStepOfHandler(s, a);
    }
  }

  lemma NumbersStepOfHandler(s: State, a: Action)
    requires LocksInv(s) && StopInv(s) && NumbersInv(s) && Enabled(s, a) && IsHandlerStep(a)
    requires s.stopper.ClosingFds? ==> StopClosed(Apply(s, a)) == StopClosed(s)
    ensures NumbersInv(Apply(s, a))
  {
  }

  lemma ClosedAreShutStep(s: State, a: Action)
    requires LocksInv(s) && StopInv(s) && ReachInv(s) && Enabled(s, a)
    ensures ClosedAreShut(Apply(s, a))
  {
    if s.stopper.ClosingFds? && !a.StopClearFds? {
      ListUnchanged(s, a);
      if IsHandlerStep(a) {
        ClosedAreShutStepOfHandler(s, a);
      }
    }
  }

  lemma ClosedAreShutStepOfHandler(s: State, a: Action)
    requires ClosedAreShut(s) && Enabled(s, a) && IsHandlerStep(a) && s.stopper.ClosingFds?
    requires StopClosed(Apply(s, a)) == StopClosed(s)
    ensures ClosedAreShut(Apply(s, a))
  {
  }

  /** After stop has been through the list, nobody is in a transfer on a connection that was not shut down. */
  ghost predicate AllReached(s: State) {
    !BeforeClear(s) ==>
      forall h :: 0 <= h < |s.handlers| && (s.handlers[h].Receiving? || s.handlers[h].Sending?) ==> h in s.shut
  }

  lemma AllReachedStep(s: State, a: Action)
    requires Inv(s) && ReachInv(s) && AllReached(s) && Enabled(s, a)
    requires a.StopClearFds? ==> Listed(s)
    ensures AllReached(Apply(s, a))
  {
    if a.StopClearFds? {
      assert StopClosed(s) == s.fds;
    } else if IsHandlerStep(a) {
      AllReachedStepOfHandler(s, a);
    }
  }

  lemma AllReachedStepOfHandler(s: State, a: Action)
    requires StopInv(s) && AllReached(s) && Enabled(s, a) && IsHandlerStep(a)
    ensures AllReached(Apply(s, a))
  {
  }

  lemma {:induction false} ReachRun(states: seq<State>, acts: seq<Action>, n: nat)
    requires IsRun(states, acts) && n <= |acts|
    ensures ReachInv(states[n])
    ensures NoErasure(states, acts, n) ==> AllReached(states[n])
  {
    if n > 0 {
      ReachRun(states, acts, n - 1);
      RunInv(states, acts, n - 1);
      NumbersStep(states[n - 1], acts[n - 1]);
      ClosedAreShutStep(states[n - 1], acts[n - 1]);
      if NoErasure(states, acts, n) {
        assert NoErasure(states, acts, n - 1);
        ListedIffNoErasure(states, acts, n - 1);
        assert Listed(states[n - 1]);
        AllReachedStep(states[n - 1], acts[n - 1]);
      }
    }
  }

  /** Stop returns without any help from outside, whatever the buffers hold, if no erase hit a reused number: when the
      server can take no further step by itself, stop has returned. */
  lemma StopReturns(states: seq<State>, acts: seq<Action>)
    requires IsRun(states, acts) && NoErasure(states, acts, |acts|) && !states[|acts|].running
    requires AtRest(states[|acts|])
    ensures states[|acts|].stopper.Returned?
  {
    RunInv(states, acts, |acts|);
    AtTheEnd(states[|acts|]);
    ReachRun(states, acts, |acts|);
  }

  /** A handler that is stuck, or may yet get there by itself: it has a request to take and its reply may not fit. */
  predicate Endangered(s: State, h: nat) {
    && h < |s.handlers| && h !in s.shut
    && ((s.handlers[h].Sending? && !s.handlers[h].room) || (s.handlers[h].Receiving? && s.handlers[h].ready))
  }

  /** Only something from outside frees a stuck handler, or puts another one in danger. */
  lemma DangerStays(s: State, a: Action, h: nat)
    requires Enabled(s, a) && !FromOutside(a) && !BeforeClear(s) && !s.running
    ensures !BeforeClear(Apply(s, a)) && !Apply(s, a).running
    ensures Stuck(s, h) ==> Stuck(Apply(s, a), h)
    ensures Endangered(Apply(s, a), h) ==> Endangered(s, h)
  {
  }

  /** A run from a given state on in which nothing comes from outside. */
  ghost predicate SilentRun(s: State, states: seq<State>, acts: seq<Action>) {
    && |states| == |acts| + 1
    && states[0] == s
    && forall i :: 0 <= i < |acts| ==>
         Enabled(states[i], acts[i]) && !FromOutside(acts[i]) && states[i + 1] == Apply(states[i], acts[i])
  }

  /** Whatever the threads do from here on, with nothing coming from outside, stop returns. */
  ghost predicate StopMustReturn(s: State) {
    forall states: seq<State>, acts: seq<Action> ::
      SilentRun(s, states, acts) && AtRest(states[|acts|]) ==> states[|acts|].stopper.Returned?
  }

  lemma {:induction false} SilentRunKeeps(s: State, states: seq<State>, acts: seq<Action>, i: nat, h: nat)
    requires Inv(s) && !BeforeClear(s) && !s.running && SilentRun(s, states, acts) && i <= |acts|
    ensures Inv(states[i]) && !BeforeClear(states[i]) && !states[i].running
    ensures Stuck(s, h) ==> Stuck(states[i], h)
    ensures Endangered(states[i], h) ==> Endangered(s, h)
  {
    if i > 0 {
      SilentRunKeeps(s, states, acts, i - 1, h);
      StepInv(states[i - 1], acts[i - 1]);
      DangerStays(states[i - 1], acts[i - 1], h);
    }
  }

  /** Every silent run can be continued until the server is at rest. */
  lemma {:induction false} RunsOut(s: State) returns (states: seq<State>, acts: seq<Action>)
    requires Inv(s) && !s.running
    ensures SilentRun(s, states, acts) && AtRest(states[|acts|])
    decreases Cost(s)
  {
    states, acts := [s], [];
    if a :| Enabled(s, a) && !FromOutside(a) {
      StepInv(s, a);
      CostDecreases(s, a);
      var rest, more := RunsOut(Apply(s, a));
      OneStepFirst(s, a, rest, more);
      states, acts := [s] + rest, [a] + more;
    }
  }

  lemma StuckRunHangs(s: State, h: nat)
    requires Inv(s) && !BeforeClear(s) && !s.running && Stuck(s, h)
    ensures !StopMustReturn(s)
  {
    var states, acts := RunsOut(s);
    SilentRunKeeps(s, states, acts, |acts|, h);
    assert states[|acts|].handlers[h].Sending?;
  }

  lemma DangerHangs(s: State, h: nat)
    requires Inv(s) && !BeforeClear(s) && !s.running && Endangered(s, h)
    ensures !StopMustReturn(s)
  {
    if s.handlers[h].Sending? {
      StuckRunHangs(s, h);
    } else {
      var a := HandlerServes(h, RequestTaken(false));
      StepInv(s, a);
      DangerStays(s, a, h);
      StuckRunHangs(Apply(s, a), h);
      var states: seq<State>, acts: seq<Action> :|
        SilentRun(Apply(s, a), states, acts) && AtRest(states[|acts|]) && !states[|acts|].stopper.Returned?;
      OneStepFirst(s, a, states, acts);
    }
  }

  lemma OneStepFirst(s: State, a: Action, states: seq<State>, acts: seq<Action>)
    requires Enabled(s, a) && !FromOutside(a) && SilentRun(Apply(s, a), states, acts)
    ensures SilentRun(s, [s] + states, [a] + acts) && ([s] + states)[|[a] + acts|] == states[|acts|]
  {
  }

  lemma MustReturn(s: State)
    requires Inv(s) && !BeforeClear(s)
    ensures StopMustReturn(s) <==> forall h: nat :: !Endangered(s, h)
  {
    if h: nat :| Endangered(s, h) {
      DangerHangs(s, h);
    } else {
      forall ss: seq<State>, aa: seq<Action> | SilentRun(s, ss, aa) && AtRest(ss[|aa|])
        ensures ss[|aa|].stopper.Returned?
      {
        SilentRunKeeps(s, ss, aa, |aa|, 0);
        AtTheEnd(ss[|aa|]);
        if !ss[|aa|].stopper.Returned? {
          SilentRunKeeps(s, ss, aa, |aa|, ss[|aa|].stopper.i);
        }
      }
    }
  }

  /** With or without such an erase, in every run: once stop has been through the list, it returns whatever the threads
      do, without help from outside, if and only if no handler is then, on a connection the shutdown missed, in a send that
      does not fit or before a request already buffered. */
  lemma ReturnsIffNobodyEndangered(states: seq<State>, acts: seq<Action>, i: nat)
    requires IsRun(states, acts) && i <= |acts| && !BeforeClear(states[i])
    ensures StopMustReturn(states[i]) <==> forall h: nat :: !Endangered(states[i], h)
  {
    RunInv(states, acts, i);
    MustReturn(states[i]);
  }

  /** The same state but for what the sockets' buffers hold. */
  predicate SameButBuffers(s: State, t: State) {
    && t == s.(handlers := t.handlers) && |t.handlers| == |s.handlers|
    && forall h :: 0 <= h < |s.handlers| ==> SamePlace(s.handlers[h], t.handlers[h])
  }

  predicate SamePlace(h: Handler, k: Handler) {
    match h
    case Receiving(fd, _) => k.Receiving? && k.fd == fd
    case Sending(fd, _) => k.Sending? && k.fd == fd
    case _ => k == h
  }

  lemma BuffersDoNotMatter(s: State, t: State)
    requires Inv(s) && SameButBuffers(s, t)
    ensures Inv(t)
  {
    forall h | 0 <= h < |s.handlers|
      ensures s.handlers[h].fd == t.handlers[h].fd && (s.handlers[h].Done? <==> t.handlers[h].Done?)
      ensures s.handlers[h].Erasing? <==> t.handlers[h].Erasing?
    {
      assert SamePlace(s.handlers[h], t.handlers[h]);
    }
    forall fd | fd in t.fds ensures Owned(t, fd) {
      assert Owned(s, fd);
    }
  }

  /** Not knowing the buffers: stop must return, whatever they hold, if and only if no handler is in a transfer on a
      connection the shutdown missed. */
  lemma ReturnsIffAllReached(states: seq<State>, acts: seq<Action>, i: nat)
    requires IsRun(states, acts) && i <= |acts| && !BeforeClear(states[i])
    ensures AllReached(states[i]) <==> forall t :: SameButBuffers(states[i], t) ==> StopMustReturn(t)
  {
    var s := states[i];
    RunInv(states, acts, i);
    SafeWhateverBuffered(s);
    forall t | SameButBuffers(s, t) ensures StopMustReturn(t) <==> forall h: nat :: !Endangered(t, h) {
      BuffersDoNotMatter(s, t);
      MustReturn(t);
    }
  }

  lemma SafeWhateverBuffered(s: State)
    requires !BeforeClear(s)
    ensures AllReached(s) <==> forall t, h: nat :: SameButBuffers(s, t) ==> !Endangered(t, h)
  {
    if !AllReached(s) {
      var h :| 0 <= h < |s.handlers| && (s.handlers[h].Receiving? || s.handlers[h].Sending?) && h !in s.shut;
      var fd := s.handlers[h].fd;
      var t := Moves(s, h, if s.handlers[h].Receiving? then Receiving(fd, true) else Sending(fd, false));
      assert SameButBuffers(s, t) && Endangered(t, h);
    } else {
      forall t, h: nat | SameButBuffers(s, t) ensures !Endangered(t, h) {
        if h < |s.handlers| {
          assert SamePlace(s.handlers[h], t.handlers[h]);
        }
      }
    }
  }

  // ---- a run in which it does not ----

  lemma Extend(states: seq<State>, acts: seq<Action>, a: Action) returns (states': seq<State>, acts': seq<Action>)
    requires IsRun(states, acts) && Enabled(states[|acts|], a)
    ensures IsRun(states', acts') && |acts'| == |acts| + 1 && states'[|acts'|] == Apply(states[|acts|], a)
  {
    states', acts' := states + [Apply(states[|acts|], a)], acts + [a];
  }

  lemma Connect(states: seq<State>, acts: seq<Action>, fd: Fd) returns (states': seq<State>, acts': seq<Action>)
    requires IsRun(states, acts)
    requires var s := states[|acts|];
      s.running && s.listening && s.accepting.Testing? && s.fdsOwner == None && fd !in s.open
    ensures IsRun(states', acts')
    ensures var s := states[|acts|];
      states'[|acts'|] == s.(open := s.open[fd := |s.handlers|], fds := s.fds + [fd], accepting := NeedsThreads(fd))
  {
    states', acts' := Extend(states, acts, AcceptTest);
    states', acts' := Extend(states', acts', AcceptOk(fd));
    states', acts' := Extend(states', acts', AcceptLockFds);
    states', acts' := Extend(states', acts', AcceptPush);
  }

  /** One connection accepted and being served. */
  lemma OneServed(fd: Fd) returns (states: seq<State>, acts: seq<Action>)
    ensures IsRun(states, acts)
    ensures states[|acts|]
         == Init().(fds := [fd], handlers := [Receiving(fd, false)], threads := [0], open := map[fd := 0])
  {
    states, acts := [Init()], [];
    states, acts := Connect(states, acts, fd);
    states, acts := Extend(states, acts, AcceptLockThreads);
    states, acts := Extend(states, acts, AcceptSpawn);
    states, acts := Extend(states, acts, HandlerServes(0, LoopTest(false)));
  }

  /** The same connection closed, but not yet off the list. */
  lemma OneClosed(fd: Fd) returns (states: seq<State>, acts: seq<Action>)
    ensures IsRun(states, acts)
    ensures states[|acts|] == Init().(fds := [fd], handlers := [Unlisting(fd)], threads := [0])
  {
    states, acts := OneServed(fd);
    states, acts := Extend(states, acts, HandlerServes(0, GivesUp));
    states, acts := Extend(states, acts, HandlerCloses(0));
    assert map[fd := 0] - {fd} == map[];
  }

  /** Its number handed out again before the erase, which then hits the new connection's entry. */
  lemma ErasesNewEntry(fd: Fd) returns (states: seq<State>, acts: seq<Action>)
    ensures IsRun(states, acts)
    ensures states[|acts|]
         == Init().(handlers := [Done(fd)], threads := [0], open := map[fd := 1], accepting := NeedsThreads(fd))
  {
    states, acts := OneClosed(fd);
    states, acts := Connect(states, acts, fd);
    states, acts := Extend(states, acts, HandlerLocks(0));
    states, acts := Extend(states, acts, HandlerErases(0));
    assert states[|acts|].fds == Without([fd, fd], fd) == [];
  }

  /** So connections whose descriptor is reused can get off the list: here one is being served and is not on it. */
  lemma ErasureCanHappen(fd: Fd) returns (states: seq<State>, acts: seq<Action>)
    ensures IsRun(states, acts)
    ensures states[|acts|]
         == Init().(fds := [], handlers := [Done(fd), Handler.Testing(fd)], threads := [0, 1], open := map[fd := 1])
  {
    states, acts := ErasesNewEntry(fd);
    states, acts := Extend(states, acts, AcceptLockThreads);
    states, acts := Extend(states, acts, AcceptSpawn);
  }

  /** Stop called while that connection's reply is being sent: it finds nothing on the list to shut down. */
  lemma StopFindsNothing(fd: Fd) returns (states: seq<State>, acts: seq<Action>)
    ensures IsRun(states, acts)
    ensures states[|acts|]
         == Init().(running := false, listening := false, stopper := JoiningAccept,
                    handlers := [Done(fd), Sending(fd, false)], threads := [0, 1], open := map[fd := 1])
  {
    states, acts := ErasureCanHappen(fd);
    states, acts := Extend(states, acts, HandlerServes(1, LoopTest(true)));
    states, acts := Extend(states, acts, HandlerServes(1, RequestTaken(false)));
    states, acts := Extend(states, acts, StopCheck);
    states, acts := Extend(states, acts, StopFlag);
    states, acts := Extend(states, acts, StopListener);
    states, acts := Extend(states, acts, StopLockFds);
    states, acts := Extend(states, acts, StopClearFds);
  }

  /** Then stop hangs in the join of that handler: until its peer reads or closes, no thread can take a step. */
  lemma StopCanHang(fd: Fd) returns (states: seq<State>, acts: seq<Action>)
    ensures IsRun(states, acts)
    ensures var s := states[|acts|];
      && !s.running && s.stopper == Joining(1) && Stuck(s, 1)
      && forall a :: Enabled(s, a) ==> a == HandlerServes(1, PeerMakesRoom) || a == HandlerServes(1, PeerFails)
  {
    states, acts := StopFindsNothing(fd);
    states, acts := Extend(states, acts, AcceptTest);
    states, acts := Extend(states, acts, StopJoinAccept);
    states, acts := Extend(states, acts, StopLockThreads);
    states, acts := Extend(states, acts, StopJoin);
  }
}
