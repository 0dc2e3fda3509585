/** What every run of connects, disconnects and requests keeps, whatever the network does. */
module ConnectionLaws {
  import opened Connection

  /** Between calls a client is connected, with an open socket, or disconnected. */
  predicate Sound(s: State) {
    (s.status == Disconnected || s.status == Connected) && (s.status == Connected ==> s.socket == Open)
  }

  /** Inside a disconnect an exchange changes nothing but the count of uses: the recursion ends there. */
  lemma {:induction false} SendsQuietly(s: State, net: Network)
    requires s.socket != NoSocket && (s.status == Disconnecting || s.status == Disconnected)
    ensures Sends(s, net).0 == s.(clock := s.clock + 1)
  {
  }

  /** A disconnect of a client that is not yet disconnected ends disconnected with its socket closed. */
  lemma {:induction false} DisconnectEnds(s: State, net: Network)
    requires s.status == Connecting || (s.status == Connected && s.socket != NoSocket)
    ensures var (s1, ok) := Disconnects(s, net);
      && ok && s1.status == Disconnected && s1.socket == CloseSocket(s).socket
      && s1.abandoned == s.abandoned && s1.size == s.size
      && s1.clock == s.clock + if s.status == Connected then 1 else 0
  {
    if s.status == Connected {
      SendsQuietly(s.(status := Disconnecting), net);
    }
  }

  /** An exchange that is lost closes the socket; one that is answered changes nothing. */
  lemma {:induction false} SendOutcome(s: State, net: Network)
    requires s.socket != NoSocket && (s.status == Connecting || s.status == Connected)
    ensures var (s1, x) := Sends(s, net);
      && (x.Answered? <==> s.socket == Open && net(s.clock).sent && net(s.clock).received)
      && (x.Answered? ==> x.accepted == net(s.clock).accepted && s1 == s.(clock := s.clock + 1))
      && (x.Lost? ==> s1.status == Disconnected && s1.socket == Closed)
      && (x.Lost? ==> s1.abandoned == s.abandoned && s1.size == s.size)
  {
    DisconnectEnds(s.(clock := s.clock + 1), net);
  }

  /** Nothing gets through a closed socket. */
  lemma {:induction false} ClosedLoses(s: State, net: Network)
    requires s.socket == Closed && s.status == Disconnected
    ensures Sends(s, net) == (s.(clock := s.clock + 1), Lost)
  {
    SendsQuietly(s, net);
  }

  /** The network answers its `clock`-th use, if the socket is open. */
  predicate Through(net: Network, clock: nat) {
    net(clock).sent && net(clock).received
  }

  /** The standard forward open gets through and is refused. */
  predicate RefusedAt(net: Network, clock: nat) {
    Through(net, clock) && !net(clock).accepted
  }

  lemma {:induction false} StandardOutcome(s: State, net: Network)
    requires s.status == Connecting && s.socket == Open
    ensures var (s1, ok) := OpensStandard(s, net);
      && (ok <==> Through(net, s.clock) && net(s.clock).accepted)
      && (s1.socket == Open <==> Through(net, s.clock))
      && s1.abandoned == s.abandoned && s1.socket != NoSocket && s1.size == s.size
  {
    SendOutcome(s, net);
  }

  /** The controller accepts at the network's `clock`-th use. */
  predicate AcceptedAt(net: Network, clock: nat) {
    Through(net, clock) && net(clock).accepted
  }

  lemma {:induction false} OpenOutcome(s: State, net: Network)
    requires s.status == Connecting && s.socket == Open
    ensures var (s1, ok) := Opens(s, net);
      && (ok ==> s1.socket == Open)
      && (ok <==> AcceptedAt(net, s.clock)
                  || (s.size > STANDARD_MAX && RefusedAt(net, s.clock) && AcceptedAt(net, s.clock + 1)))
      && s1.size == (if s.size > 511 && !AcceptedAt(net, s.clock) then 511 else s.size)
      && (!ok && s1.socket == Open <==>
        RefusedAt(net, s.clock) && (s.size > STANDARD_MAX ==> RefusedAt(net, s.clock + 1)))
      && s1.abandoned == s.abandoned && s1.socket != NoSocket
  {
    SendOutcome(s, net);
    if s.size > STANDARD_MAX {
      var (s1, x) := Sends(s, net);
      if x == Answered(false) {
        StandardOutcome(s1.(size := STANDARD_MAX), net);
      } else if x == Lost {
        ClosedLoses(s1.(size := STANDARD_MAX), net);
      }
    } else {
      StandardOutcome(s, net);
    }
  }

  /** The size a connect starts from. */
  function StartSize(s: State): nat {
    if s.size == 0 then LARGE_DEFAULT else s.size
  }

  /** The dial and the registration get through, and every forward open is refused. */
  predicate Refused(s: State, net: Network) {
    && net(s.clock).dialed && Through(net, s.clock + 1)
    && RefusedAt(net, s.clock + 2)
    && (StartSize(s) > STANDARD_MAX ==> RefusedAt(net, s.clock + 3))
  }

  /** The dial and the registration get through. */
  predicate Registered(s: State, net: Network) {
    net(s.clock).dialed && Through(net, s.clock + 1)
  }

  /** Large forward open is tried where the size asks for it, standard if it does not or if large was refused. */
  predicate Accepted(s: State, net: Network) {
    && Registered(s, net)
    && (AcceptedAt(net, s.clock + 2)
        || (StartSize(s) > STANDARD_MAX && RefusedAt(net, s.clock + 2) && AcceptedAt(net, s.clock + 3)))
  }

  /**
   A connect succeeds exactly when the controller accepts, and then ends connected, with the standard
   size if it needed the standard forward open. When it fails, its socket stays open, although the
   client is disconnected, exactly when the controller refused.
   */
  lemma {:induction false} ConnectOutcome(s: State, net: Network)
    requires s.status == Disconnected
    ensures var (s1, ok) := Connects(s, net);
      && (ok <==> Accepted(s, net))
      && (ok <==> s1.status == Connected)
      && (!ok <==> s1.status == Disconnected)
      && s1.size == (if StartSize(s) > 511 && Registered(s, net) && !AcceptedAt(net, s.clock + 2) then 511
                     else StartSize(s))
      && (ok ==> s1.socket == Open)
      && (!ok && s1.socket == Open <==> Refused(s, net))
      && s1.abandoned == s.abandoned + if s.socket == Open then 1 else 0
  {
    hide Sends, Opens;
    var s1 := Dials(s.(status := Connecting, size := StartSize(s)), net);
    if s1.socket == Open {
      SendOutcome(s1, net);
      SendsKeepsSocket(s1, net);
      var (s2, x) := Sends(s1, net);
      if x != Lost {
        OpenOutcome(s2, net);
      }
    }
  }

  /**
   A request of a caller: on a connected client it is one exchange; otherwise nothing is sent unless
   the client may connect, and then only if the controller accepts.
   */
  lemma {:induction false} CallOutcome(s: State, auto: bool, net: Network)
    requires Sound(s)
    ensures var (s1, x) := Calls(s, auto, net);
      && (s.status == Connected ==> x.Some? && (x.value.Answered? <==> Through(net, s.clock)))
      && (s.status == Disconnected && !auto ==> x.None? && s1 == s)
      && (s.status == Disconnected && auto ==> (x.Some? <==> Accepted(s, net)))
      && (x.Some? && x.value.Answered? ==> s1.status == Connected)
      && (x.Some? && x.value.Lost? ==> s1.status == Disconnected && s1.socket == Closed)
  {
    hide Connects, Sends, Accepted;
    if s.status == Connected {
      SendOutcome(s, net);
    } else {
      ConnectOutcome(s, net);
      var (s1, ok) := Connects(s, net);
      if ok {
        SendOutcome(s1, net);
      }
    }
  }

  /// Runs

  datatype Op = Connect | Disconnect | Call(auto: bool)

  function Step(s: State, op: Op, net: Network): State {
    match op
    case Connect => Connects(s, net).0
    case Disconnect => if s.status == Connected && s.socket == NoSocket then s else Disconnects(s, net).0
    case Call(auto) => Calls(s, auto, net).0
  }

  function Run(s: State, ops: seq<Op>, net: Network): State
    decreases |ops|
  {
    if ops == [] then s else Run(Step(s, ops[0], net), ops[1..], net)
  }

  lemma {:induction false} StepStaysSound(s: State, op: Op, net: Network)
    requires Sound(s)
    ensures Sound(Step(s, op, net))
  {
    hide Connects, Sends, Disconnects;
    match op {
      case Connect =>
        ConnectStaysSound(s, net);
      case Disconnect =>
        if s.status == Connected {
          DisconnectEnds(s, net);
        } else {
          Idle(s, net);
        }
      case Call(auto) =>
        ConnectStaysSound(s, net);
        var s1 := if s.status == Connected then s else Connects(s, net).0;
        if s1.status == Connected {
          SendOutcome(s1, net);
        }
        if s.status == Disconnected {
          ConnectOutcome(s, net);
        }
    }
  }

  lemma {:induction false} Idle(s: State, net: Network)
    requires s.status == Disconnected
    ensures Disconnects(s, net) == (s, false)
  {
  }

  lemma {:induction false} ConnectStaysSound(s: State, net: Network)
    requires Sound(s)
    ensures Sound(Connects(s, net).0)
  {
    hide Refused;
    if s.status == Disconnected {
      hide Connects;
      ConnectOutcome(s, net);
    }
  }

  /** In every run over every network a connected client has an open socket, and no call ends in between. */
  lemma {:induction false} RunStaysSound(s: State, ops: seq<Op>, net: Network)
    requires Sound(s)
    ensures Sound(Run(s, ops, net))
    decreases |ops|
  {
    hide Step, Sound;
    if ops != [] {
      StepStaysSound(s, ops[0], net);
      RunStaysSound(Step(s, ops[0], net), ops[1..], net);
    }
  }

  /** After a disconnect in any run, the socket is closed unless the client was disconnected before. */
  lemma {:induction false} DisconnectInRun(ops: seq<Op>, net: Network)
    ensures var s := Run(INITIAL, ops, net);
      var s1 := Step(s, Disconnect, net);
      s1.status == Disconnected && (s.status == Connected ==> s1.socket == Closed)
        && (s.status == Disconnected ==> s1 == s)
  {
    hide Run, Disconnects;
    RunStaysSound(INITIAL, ops, net);
    var s := Run(INITIAL, ops, net);
    if s.status == Connected {
      DisconnectEnds(s, net);
    } else {
      Idle(s, net);
    }
  }

  /// Refusals

  /** A controller that can be reached but never opens a connection. */
  function Refusing(clock: nat): Event {
    Event(true, true, true, false)
  }

  function Repeat(n: nat): (ops: seq<Op>)
    ensures |ops| == n
  {
    if n == 0 then [] else [Connect] + Repeat(n - 1)
  }

  lemma {:induction false} RefusedSockets(s: State, n: nat)
    requires s.status == Disconnected && s.socket == Open
    ensures var s1 := Run(s, Repeat(n), Refusing);
      s1.status == Disconnected && s1.socket == Open && s1.abandoned == s.abandoned + n
    decreases n
  {
    hide Connects;
    if n > 0 {
      ConnectOutcome(s, Refusing);
      assert Repeat(n)[1..] == Repeat(n - 1);
      RefusedSockets(Step(s, Connect, Refusing), n - 1);
    }
  }

  /** Each refused connect leaves its socket open and the next one loses hold of it. */
  lemma {:induction false} RefusalsLeak(n: nat)
    requires n > 0
    ensures var s := Run(INITIAL, Repeat(n), Refusing);
      s.status == Disconnected && s.socket == Open && s.abandoned == n - 1
  {
    hide Connects;
    ConnectOutcome(INITIAL, Refusing);
    assert Repeat(n)[1..] == Repeat(n - 1);
    RefusedSockets(Step(INITIAL, Connect, Refusing), n - 1);
  }
}
