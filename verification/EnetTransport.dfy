/** The TCP transport as it runs: fields updated in place, loops, and the timeout set and restored. */
module EnetTransports {
  import opened Wrappers
  import opened Hex
  import opened Packets
  import opened Base
  import opened Ethernet
  import opened Enet

  class ENETTransport {
    const base: Transport
    const config: Config
    var socket: Option<Socket>
    var interface: Option<NetworkInterface>
    var bytesSent: nat
    var bytesReceived: nat

    // the world: its clock, and the sockets the host has created and not closed
    var now: real
    var created: nat
    var unclosed: set<nat>

    ghost function Model(): EnetState
      reads this, base
    {
      EnetState(base.Model(), config, socket, interface, bytesSent, bytesReceived, now, created, unclosed)
    }

    ghost predicate Valid()
      reads this, base
    {
      Model().Ready()
    }

    constructor (config: Config, now: real)
      ensures fresh(base) && Valid()
      ensures Model() == EnetState(Link(Disconnected, None, [], [], []), config, None, None, 0, 0, now, 0, {})
    {
      base := new Transport();
      this.config := config;
      socket, interface, bytesSent, bytesReceived := None, None, 0, 0;
      this.now, created, unclosed := now, 0, {};
    }

    /** `interfaces` is what the host lists; selection is by configured name or by rank. */
    method Connect(interfaces: seq<NetworkInterface>, tcp: TcpAnswer) returns (r: Outcome)
      requires Valid()
      modifies this, base
      ensures Valid()
      ensures (Model(), r) == old(Model()).Connect(Attempt(SelectInterface(config.interface, interfaces), tcp))
    {
      r := ConnectVia(Attempt(SelectInterface(config.interface, interfaces), tcp));
    }

    method ConnectVia(a: Attempt) returns (r: Outcome)
      requires Valid()
      modifies this, base
      ensures Valid()
      ensures (Model(), r) == old(Model()).Connect(a)
    {
      if base.state == Connected {
        return Done;
      }
      if config.host == None || config.port == None {
        return Raised(UnverifiedParameter);
      }
      base.SetState(Connecting, None);
      if a.selected.Failure? {
        base.SetState(Error, Some(NO_INTERFACE));
        return Raised(InterfaceNotFound);
      }
      if !a.selected.value.HasLink() {
        base.SetState(Error, Some(NO_LINK));
        return Raised(InterfaceUnavailable);
      }
      interface := Some(a.selected.value);
      if a.tcp == NoSocket {
        return Raised(SystemError);
      }
      var id := created;
      created := created + 1;
      if !a.tcp.Accepted? {
        base.SetState(Error, Some(if a.tcp == ConnectTimedOut then CONNECT_TIMED_OUT else CONNECT_FAILED));
        return Raised(ConnectionFailed);
      }
      unclosed := unclosed + {id};
      socket := Some(Socket(id, config.receiveTimeout, a.tcp.stream));
      base.SetState(Connected, None);
      return Done;
    }

    method Disconnect()
      modifies this, base
      ensures Valid() && socket == None
      ensures Model() == old(Model()).Disconnect()
    {
      if socket.Some? {
        unclosed := unclosed - {socket.value.id};
        socket := None;
      }
      if base.state != Error {
        base.SetState(Disconnected, None);
      }
    }

    method Reconnect(world: nat -> Attempt) returns (r: Outcome, made: nat, slept: nat)
      modifies this, base
      ensures Valid()
      ensures (Model(), r, made, slept) == old(Model()).Reconnect(world)
    {
      hide EnetState.Connect;
      Disconnect();
      var attempts := if config.reconnectAttempts + 1 > 1 then config.reconnectAttempts + 1 else 1;
      made, slept := 0, 0;
      ghost var expected := Model().Retry(1, 0, attempts, world);
      while true
        invariant 0 <= made < attempts
        invariant Valid() && socket == None
        invariant expected == Model().Retry(made + 1, slept, attempts, world)
        decreases attempts - made
      {
        made := made + 1;
        ghost var before := Model();
        r := AttemptOnce(world(made));
        ghost var after := Model();
        assert (after, r) == before.To(Disconnected, None).Connect(world(made));
        if r != Raised(ConnectionFailed) || made == attempts {
          assert expected == (after, r, made, slept);
          return;
        }
        if config.reconnectDelay != 0.0 {
          now := now + config.reconnectDelay;
          slept := slept + 1;
        }
      }
    }

    /** The body of the retry loop. */
    method AttemptOnce(a: Attempt) returns (r: Outcome)
      requires socket == None
      modifies this, base
      ensures Valid()
      ensures (Model(), r) == old(Model()).To(Disconnected, None).Connect(a)
      ensures r == Raised(ConnectionFailed) ==> socket == None
    {
      base.SetState(Disconnected, None);
      r := ConnectVia(a);
    }

    method Send(data: Bytes, answer: SendAnswer, m: Moment) returns (r: Outcome)
      requires Valid()
      modifies this, base
      ensures Valid()
      ensures (Model(), r) == old(Model()).Send(data, answer, m)
    {
      if base.state != Connected {
        return Raised(NotConnected);
      }
      if answer == WriteTimedOut {
        base.SetState(Error, Some(SEND_TIMED_OUT));
        return Raised(TimedOut);
      }
      if answer == WriteFailed {
        base.SetState(Error, Some(SEND_LOST));
        Disconnect();
        return Raised(ConnectionLost);
      }
      bytesSent := bytesSent + |data|;
      var _ := base.Emit(TX, data, Null, m);
      return Sent(|data|);
    }

    method Receive(size: Size, timeout: Option<Timeout>, a: RecvAnswer) returns (r: Outcome)
      requires Valid()
      modifies this, base
      ensures Valid()
      ensures (Model(), r) == old(Model()).Receive(size, timeout, a)
    {
      if base.state != Connected {
        return Raised(NotConnected);
      }
      var effective: real := if timeout.Some? then timeout.value else config.receiveTimeout;
      var previous := socket.value.timeout;
      if effective != previous {
        socket := Some(socket.value.(timeout := effective));
      }
      var result := Recv(socket.value.unread, size, a);
      now := now + Elapsed(result, socket.value.timeout, a);
      if result == Broken {
        base.SetState(Error, Some(RECEIVE_LOST));
        Disconnect();
        return Raised(ConnectionLost);
      }
      if effective != previous {
        socket := Some(socket.value.(timeout := previous));
      }
      if result == NoData {
        return Raised(TimedOut);
      }
      if result == Eof {
        base.SetState(Error, Some(CLOSED));
        Disconnect();
        return Raised(ConnectionLost);
      }
      var chunk := result.data;
      socket := Some(socket.value.(unread := socket.value.unread[|chunk|..]));
      bytesReceived := bytesReceived + |chunk|;
      var _ := base.Emit(RX, chunk, Null, a.moment);
      return Received(chunk);
    }

    method ReceiveExactly(size: int, timeout: Option<real>, answers: nat -> RecvAnswer) returns (r: Outcome)
      requires Valid()
      modifies this, base
      ensures Valid()
      ensures (Model(), r) == old(Model()).ReceiveExactly(size, timeout, answers)
    {
      hide EnetState.Receive;
      var deadline := now + (if timeout.Some? then timeout.value else config.receiveTimeout);
      var buffer: Bytes := [];
      var n := 0;
      ghost var expected := Model().Assemble(size, deadline, [], answers, 0);
      while |buffer| < size
        invariant Valid()
        invariant expected == Model().Assemble(size, deadline, buffer, answers, n)
        decreases size - |buffer|
      {
        var remaining := deadline - now;
        if remaining <= 0.0 {
          return Raised(TimedOut);
        }
        ghost var before := Model();
        var answer := Receive(size - |buffer|, Some(remaining), answers(n));
        assert (Model(), answer) == before.Receive(size - |buffer|, Some(remaining), answers(n));
        if !answer.Received? {
          return answer;
        }
        buffer := buffer + answer.data;
        n := n + 1;
      }
      return Received(buffer);
    }
  }

  /** `_passive_listen` of cli.py. */
  method PassiveListen(transport: ENETTransport, duration: real, answers: nat -> RecvAnswer) returns (total: nat)
    requires transport.Valid()
    modifies transport, transport.base
    ensures transport.Valid()
    ensures (transport.Model(), total) == old(transport.Model()).Listen(old(transport.now) + duration, 0, answers, 0)
  {
    hide EnetState.Receive;
    var deadline := transport.now + duration;
    var n := 0;
    total := 0;
    while transport.now < deadline
      invariant transport.Valid()
      invariant old(transport.Model()).Listen(deadline, 0, answers, 0)
             == transport.Model().Listen(deadline, total, answers, n)
      decreases |transport.Model().Unread()|, (deadline - transport.now) * 20.0
    {
      var remaining := deadline - transport.now;
      var answer := transport.Receive(4096, Some(Min(0.5, Max(0.05, remaining))), answers(n));
      n := n + 1;
      if answer == Raised(TimedOut) {
        continue;
      }
      if answer.Raised? {
        break;
      }
      total := total + |answer.data|;
    }
  }
}
