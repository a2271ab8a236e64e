/** The TCP transport as a state machine over an adversarial peer (enet.py). */
module Enet {
  import opened Wrappers
  import opened Hex
  import opened Packets
  import opened Base
  import opened Ethernet

  /** Seconds. */
  type Duration = r: real | r >= 0.0 witness 0.0

  type Timeout = r: real | r > 0.0 witness 1.0

  /** A number of bytes to ask `recv` for. */
  type Size = n: nat | n >= 1 witness 1

  datatype Config = Config(
    interface: Option<string>,
    host: Option<string>,
    port: Option<int>,
    receiveTimeout: Timeout,
    reconnectAttempts: int,
    reconnectDelay: Duration)

  /** An open socket; `unread` is everything the peer will ever send on it that was not read yet. */
  datatype Socket = Socket(id: nat, timeout: real, unread: Bytes)

  // ------------------------------------------------- what the world may answer

  /** `NoSocket`: `socket.socket` itself raised. */
  datatype TcpAnswer = NoSocket | ConnectTimedOut | ConnectRefused | Accepted(stream: Bytes)

  /** One connect attempt: what `select_interface` answers, and what comes of the TCP handshake. */
  datatype Attempt = Attempt(selected: Result<NetworkInterface, SelectError>, tcp: TcpAnswer)

  datatype SendAnswer = Written | WriteTimedOut | WriteFailed

  datatype RecvEvent = Deliver(count: nat) | Silence | PeerClosed | ReadFailed

  /** One `recv`: what happens, how long it waits for it, and how late the call returns after that. */
  datatype RecvAnswer = RecvAnswer(event: RecvEvent, wait: Duration, late: Duration, moment: Moment)

  datatype RecvResult = Chunk(data: Bytes) | NoData | Eof | Broken

  /** A delivery is any non-empty stretch of the stream that fits; a peer with nothing left stays silent. */
  function Recv(unread: Bytes, size: Size, a: RecvAnswer): (r: RecvResult)
    ensures r.Chunk? ==> 1 <= |r.data| <= size && r.data <= unread
  {
    match a.event
    case Deliver(count) =>
      if unread == [] then NoData
      else
        var n := if count == 0 then 1 else count;
        var fits := if n > size then size else n;
        Chunk(unread[..if fits > |unread| then |unread| else fits])
    case Silence => NoData
    case PeerClosed => Eof
    case ReadFailed => Broken
  }

  function Min(a: real, b: real): real {
    if a < b then a else b
  }

  function Max(a: real, b: real): real {
    if a > b then a else b
  }

  /** How long `recv` blocks: silence takes the whole timeout, anything else at most that; then it may be late. */
  function Elapsed(r: RecvResult, limit: real, a: RecvAnswer): real {
    (if r.NoData? then limit else Min(a.wait, limit)) + a.late
  }

  // ---------------------------------------------------------------- the transport

  datatype CommsLevel = NoneLevel | InterfacePresent | EthernetLink | TcpConnected

  const NO_INTERFACE := "No such network interface"
  const NO_LINK := "Interface has no active link"
  const CONNECT_TIMED_OUT := "Timed out connecting"
  const CONNECT_FAILED := "Could not connect"
  const SEND_TIMED_OUT := "Timed out sending"
  const SEND_LOST := "Connection lost while sending"
  const RECEIVE_LOST := "Connection lost while receiving"
  const CLOSED := "Peer closed the connection"

  /**
   * The fields of the transport, and of the world it acts on: the clock, the number of sockets created so far
   * (their ids count up), and those of them not closed.
   */
  datatype EnetState = EnetState(
    link: Link,
    config: Config,
    socket: Option<Socket>,
    interface: Option<NetworkInterface>,
    bytesSent: nat,
    bytesReceived: nat,
    now: real,
    created: nat,
    unclosed: set<nat>)
  {
    /** A connected transport has a socket. */
    predicate Ready() {
      link.state == Connected ==> socket.Some?
    }

    function Level(): CommsLevel {
      if link.state == Connected then TcpConnected
      else if interface == None then NoneLevel
      else if interface.value.HasLink() then EthernetLink
      else InterfacePresent
    }

    function Unread(): Bytes {
      if socket.Some? then socket.value.unread else []
    }

    function To(state: ConnectionState, error: Option<string>): EnetState {
      this.(link := link.SetState(state, error))
    }

    function Connect(a: Attempt): (r: (EnetState, Outcome))
      requires Ready()
      ensures r.0.Ready()
    {
      if link.state == Connected then (this, Done)
      else if config.host == None || config.port == None then (this, Raised(UnverifiedParameter))
      else
        var trying := To(Connecting, None);
        match a.selected
        case Failure(_) => (trying.To(Error, Some(NO_INTERFACE)), Raised(InterfaceNotFound))
        case Success(i) =>
          if !i.HasLink() then (trying.To(Error, Some(NO_LINK)), Raised(InterfaceUnavailable))
          else trying.(interface := Some(i)).Handshake(a.tcp)
    }

    function Handshake(answer: TcpAnswer): (EnetState, Outcome) {
      match answer
      case NoSocket => (this, Raised(SystemError))
      case ConnectTimedOut =>
        (this.(created := created + 1).To(Error, Some(CONNECT_TIMED_OUT)), Raised(ConnectionFailed))
      case ConnectRefused =>
        (this.(created := created + 1).To(Error, Some(CONNECT_FAILED)), Raised(ConnectionFailed))
      case Accepted(stream) =>
        (this.(socket := Some(Socket(created, config.receiveTimeout, stream)),
               created := created + 1,
               unclosed := unclosed + {created}).To(Connected, None),
         Done)
    }

    function Disconnect(): (r: EnetState)
      ensures r.socket == None && r.link.state in {Error, Disconnected}
    {
      var closed := if socket.Some? then this.(socket := None, unclosed := unclosed - {socket.value.id}) else this;
      if link.state == Error then closed else closed.To(Disconnected, None)
    }

    function Send(data: Bytes, answer: SendAnswer, m: Moment): (r: (EnetState, Outcome))
      requires Ready()
      ensures r.0.Ready()
    {
      if link.state != Connected then (this, Raised(NotConnected))
      else match answer
        case Written =>
          (this.(bytesSent := bytesSent + |data|, link := link.Emit(TX, data, Null, m)), Sent(|data|))
        case WriteTimedOut => (To(Error, Some(SEND_TIMED_OUT)), Raised(TimedOut))
        case WriteFailed => (To(Error, Some(SEND_LOST)).Disconnect(), Raised(ConnectionLost))
    }

    /** Data shortens the peer's stream; a timeout takes the whole timeout. */
    function Receive(size: Size, timeout: Option<Timeout>, a: RecvAnswer): (r: (EnetState, Outcome))
      requires Ready()
      ensures r.0.Ready()
      ensures r.1.Received? || r.1.Raised?
      ensures r.1.Received? ==> 1 <= |r.1.data| <= size && |r.0.Unread()| < |Unread()|
      ensures r.1 == Raised(TimedOut) ==>
        r.0.Unread() == Unread() && r.0.now >= now + if timeout.Some? then timeout.value else config.receiveTimeout
    {
      if link.state != Connected then (this, Raised(NotConnected))
      else
        var limit := if timeout.Some? then timeout.value else config.receiveTimeout;
        var result := Recv(socket.value.unread, size, a);
        var later := this.(now := now + Elapsed(result, limit, a));
        match result
        case NoData => (later, Raised(TimedOut))
        case Broken => (later.To(Error, Some(RECEIVE_LOST)).Disconnect(), Raised(ConnectionLost))
        case Eof => (later.To(Error, Some(CLOSED)).Disconnect(), Raised(ConnectionLost))
        case Chunk(data) =>
          (later.(socket := Some(socket.value.(unread := socket.value.unread[|data|..])),
                  bytesReceived := bytesReceived + |data|,
                  link := link.Emit(RX, data, Null, a.moment)),
           Received(data))
    }

    /** The loop of `receive_exactly`; its n-th `recv` is answered by `answers(n)`. */
    function Assemble(size: int, deadline: real, buffer: Bytes, answers: nat -> RecvAnswer, n: nat)
        : (r: (EnetState, Outcome))
      requires Ready()
      ensures r.0.Ready()
      decreases size - |buffer|
    {
      if |buffer| >= size then (this, Received(buffer))
      else if deadline - now <= 0.0 then (this, Raised(TimedOut))
      else
        var (next, answer) := Receive(size - |buffer|, Some(deadline - now), answers(n));
        if answer.Received? then next.Assemble(size, deadline, buffer + answer.data, answers, n + 1)
        else (next, answer)
    }

    function ReceiveExactly(size: int, timeout: Option<real>, answers: nat -> RecvAnswer): (r: (EnetState, Outcome))
      requires Ready()
      ensures r.0.Ready()
    {
      Assemble(size, now + (if timeout.Some? then timeout.value else config.receiveTimeout), [], answers, 0)
    }

    /** `reconnect` from its n-th attempt on: the state, the outcome, the attempts made and the sleeps in all. */
    function Retry(n: nat, slept: nat, attempts: nat, world: nat -> Attempt): (r: (EnetState, Outcome, nat, nat))
      requires 1 <= n <= attempts && socket == None
      ensures r.0.Ready()
      decreases attempts - n
    {
      var r := To(Disconnected, None).Connect(world(n));
      if r.1 != Raised(ConnectionFailed) || n == attempts then (r.0, r.1, n, slept)
      else if config.reconnectDelay == 0.0 then r.0.Retry(n + 1, slept, attempts, world)
      else r.0.(now := r.0.now + config.reconnectDelay).Retry(n + 1, slept + 1, attempts, world)
    }

    function Attempts(): nat {
      if config.reconnectAttempts + 1 > 1 then config.reconnectAttempts + 1 else 1
    }

    function Reconnect(world: nat -> Attempt): (r: (EnetState, Outcome, nat, nat))
      ensures r.0.Ready()
    {
      Disconnect().Retry(1, 0, Attempts(), world)
    }

    /** The slice `_passive_listen` gives to one `receive`. */
    function Slice(deadline: real): real {
      Min(0.5, Max(0.05, deadline - now))
    }

    /** The loop of `_passive_listen` (cli.py): read 4096 bytes at a time until the deadline or the link is gone. */
    function Listen(deadline: real, total: nat, answers: nat -> RecvAnswer, n: nat): (r: (EnetState, nat))
      requires Ready()
      ensures r.0.Ready()
      decreases |Unread()|, (deadline - now) * 20.0
    {
      if now >= deadline then (this, total)
      else
        var (next, answer) := Receive(4096, Some(Slice(deadline)), answers(n));
        if answer == Raised(TimedOut) then next.Listen(deadline, total, answers, n + 1)
        else if answer.Raised? then (next, total)
        else next.Listen(deadline, total + |answer.data|, answers, n + 1)
    }
  }
}
