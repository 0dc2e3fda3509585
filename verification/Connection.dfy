/** The life of a connection: connect.go, disconnect.go and sendreceive.go, one caller, no keep-alive. */
module Connection {
  import opened Wire

  datatype Status = Disconnected | Connecting | Connected | Disconnecting

  datatype Socket = NoSocket | Open | Closed

  /** `abandoned` counts open sockets that the client no longer holds. */
  datatype State = State(status: Status, socket: Socket, abandoned: nat, size: nat, clock: nat)

  const INITIAL := State(Disconnected, NoSocket, 0, 0, 0)

  /** What the network does when it is used for the `clock`-th time. */
  datatype Event = Event(dialed: bool, sent: bool, received: bool, accepted: bool)

  type Network = nat -> Event

  datatype Exchange = Lost | Answered(accepted: bool)

  const LARGE_DEFAULT: nat := 4000
  const STANDARD_MAX: nat := 511

  /// What the methods do

  function Rank(s: Status): nat {
    if s == Connecting || s == Connected then 1 else 0
  }

  function CloseSocket(s: State): State {
    if s.socket == NoSocket then s else s.(socket := Closed)
  }

  /** An already disconnected or disconnecting client is left alone. */
  function Disconnects(s: State, net: Network): (r: (State, bool))
    requires s.status == Connected ==> s.socket != NoSocket
    decreases Rank(s.status), 0
  {
    if s.status == Disconnected || s.status == Disconnecting then (s, false)
    else
      var s1 := s.(status := Disconnecting);
      var s2 := if s.status == Connecting then s1 else Sends(s1, net).0;
      (CloseSocket(s2).(status := Disconnected), true)
  }

  /** One exchange; a failure, as on a closed socket, forces a disconnect. */
  function Sends(s: State, net: Network): (r: (State, Exchange))
    requires s.socket != NoSocket
    decreases Rank(s.status), 1
  {
    var e, s1 := net(s.clock), s.(clock := s.clock + 1);
    if s.socket == Closed || !e.sent || !e.received then (Disconnects(s1, net).0, Lost)
    else (s1, Answered(e.accepted))
  }

  /** Dialling replaces the socket, whatever its state. */
  function Dials(s: State, net: Network): State {
    var lost := if s.socket == Open then 1 else 0;
    s.(socket := if net(s.clock).dialed then Open else NoSocket, abandoned := s.abandoned + lost, clock := s.clock + 1)
  }

  function Fails(s: State): (State, bool) {
    (s.(status := Disconnected), false)
  }

  /** Large first, where the size asks for it; then standard, unless large did it. */
  function Opens(s: State, net: Network): (State, bool)
    requires s.socket != NoSocket
  {
    if s.size > STANDARD_MAX then
      var (s1, x) := Sends(s, net);
      if x == Answered(true) then (s1, true)
      else
        SendsKeepsSocket(s, net);
        OpensStandard(s1.(size := STANDARD_MAX), net)
    else OpensStandard(s, net)
  }

  function OpensStandard(s: State, net: Network): (State, bool)
    requires s.socket != NoSocket
  {
    var (s1, x) := Sends(s, net);
    (s1, x == Answered(true))
  }

  function Connects(s: State, net: Network): (State, bool) {
    if s.status != Disconnected then (s, false)
    else
      var s1 := Dials(s.(status := Connecting, size := if s.size == 0 then LARGE_DEFAULT else s.size), net);
      if s1.socket == NoSocket then Fails(s1)
      else
        var (s2, x) := Sends(s1, net);
        SendsKeepsSocket(s1, net);
        if x == Lost then Fails(s2)
        else
          var (s3, ok) := Opens(s2, net);
          if ok then (s3.(status := Connected), true) else Fails(s3)
  }

  /** A request of a caller: it may connect first, and is not sent without a connection. */
  function Calls(s: State, auto: bool, net: Network): (State, Maybe<Exchange>) {
    var (s1, ok) := if s.status == Connected then (s, true) else if auto then Connects(s, net) else (s, false);
    if !ok || s1.socket == NoSocket then (s1, None)
    else
      var (s2, x) := Sends(s1, net);
      (s2, Some(x))
  }

  lemma {:induction false} SendsKeepsSocket(s: State, net: Network)
    requires s.socket != NoSocket
    ensures Sends(s, net).0.socket != NoSocket
    decreases Rank(s.status)
  {
    if s.status == Connected {
      SendsKeepsSocket(s.(status := Disconnecting, clock := s.clock + 1), net);
    }
  }

  /// The methods

  class Client {
    var status: Status
    var socket: Socket
    var abandoned: nat
    var size: nat
    var clock: nat
    const net: Network

    function Value(): State
      reads this
    {
      State(status, socket, abandoned, size, clock)
    }

    constructor (net: Network)
      ensures Value() == INITIAL && this.net == net
    {
      this.net := net;
      status, socket, abandoned, size, clock := Disconnected, NoSocket, 0, 0, 0;
    }

    method StartDisconnect() returns (ok: bool)
      modifies this
      ensures ok == !(old(status) == Disconnected || old(status) == Disconnecting)
      ensures Value() == if ok then old(Value()).(status := Disconnecting) else old(Value())
    {
      match status {
        case Disconnected => ok := false;
        case Disconnecting => ok := false;
        case Connecting => status, ok := Disconnecting, true;
        case Connected => status, ok := Disconnecting, true;
      }
    }

    method Disconnect() returns (ok: bool)
      requires status == Connected ==> socket != NoSocket
      modifies this
      ensures (Value(), ok) == Disconnects(old(Value()), net)
      decreases Rank(status), 0
    {
      var before := status;
      ok := StartDisconnect();
      if !ok {
        return;
      }
      if before == Connecting {
        if socket != NoSocket {
          socket := Closed;
        }
        status := Disconnected;
        return;
      }
      var x := SendRecvData();
      if socket != NoSocket {
        socket := Closed;
      }
      status := Disconnected;
    }

    method SendRecvData() returns (x: Exchange)
      requires socket != NoSocket
      modifies this
      ensures (Value(), x) == Sends(old(Value()), net)
      decreases Rank(status), 1
    {
      var e := net(clock);
      clock := clock + 1;
      if socket == Closed || !e.sent {
        var closed := Disconnect();
        return Lost;
      }
      if !e.received {
        var closed := Disconnect();
        return Lost;
      }
      return Answered(e.accepted);
    }

    method StartConnect() returns (ok: bool)
      modifies this
      ensures ok == (old(status) == Disconnected)
      ensures Value() == if ok then old(Value()).(status := Connecting) else old(Value())
    {
      ok := status == Disconnected;
      if ok {
        status := Connecting;
      }
    }

    method Connect() returns (ok: bool)
      modifies this
      ensures (Value(), ok) == Connects(old(Value()), net)
    {
      hide Sends, Opens;
      ok := StartConnect();
      if !ok {
        return;
      }
      if size == 0 {
        size := LARGE_DEFAULT;
      }
      ok := Dial();
      if !ok {
        status := Disconnected;
        return;
      }
      SendsKeepsSocket(Value(), net);
      var registered := SendRecvData();
      if registered == Lost {
        ok, status := false, Disconnected;
        return;
      }
      ok := ForwardOpen();
      status := if ok then Connected else Disconnected;
    }

    method Dial() returns (ok: bool)
      modifies this
      ensures Value() == Dials(old(Value()), net) && ok == (socket != NoSocket)
    {
      if socket == Open {
        abandoned := abandoned + 1;
      }
      ok := net(clock).dialed;
      clock := clock + 1;
      socket := if ok then Open else NoSocket;
    }

    method ForwardOpen() returns (ok: bool)
      requires socket != NoSocket
      modifies this
      ensures (Value(), ok) == Opens(old(Value()), net)
    {
      hide Sends;
      if size > STANDARD_MAX {
        SendsKeepsSocket(Value(), net);
        var large := SendRecvData();
        if large == Answered(true) {
          return true;
        }
        size := STANDARD_MAX;
      }
      var standard := SendRecvData();
      ok := standard == Answered(true);
    }

    method Call(auto: bool) returns (r: Maybe<Exchange>)
      modifies this
      ensures (Value(), r) == Calls(old(Value()), auto, net)
    {
      hide Connects, Sends;
      if status != Connected {
        if !auto {
          return None;
        }
        var ok := Connect();
        if !ok {
          return None;
        }
      }
      if socket == NoSocket {
        return None;
      }
      var x := SendRecvData();
      return Some(x);
    }
  }
}
