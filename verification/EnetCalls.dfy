/** What each call of the TCP transport does, by what it finds and what the world answers (enet.py, cli.py). */
module EnetCalls {
  import opened Wrappers
  import opened Hex
  import opened Packets
  import opened Base
  import opened Ethernet
  import opened Enet
  import opened EnetRuns
  import EnetReads

  /** Neither the history nor the counters moved. */
  ghost predicate Silent(s: EnetState, t: EnetState) {
    && (t.link.wire, t.link.calls, t.link.observers) == (s.link.wire, s.link.calls, s.link.observers)
    && (t.bytesSent, t.bytesReceived) == (s.bytesSent, s.bytesReceived)
    && t.config == s.config
  }

  // ------------------------------------------------------------- connecting

  /** The socket after a handshake: only an accepted one gives a new socket, open, on the peer's stream. */
  ghost predicate Opened(s: EnetState, t: EnetState, stream: Bytes) {
    && t.socket.Some? && t.Unread() == stream && t.socket.value.timeout == s.config.receiveTimeout
    && t.socket.value.id == s.created < t.created && t.unclosed == s.unclosed + {t.socket.value.id}
  }

  ghost predicate SameSockets(s: EnetState, t: EnetState) {
    t.socket == s.socket && t.unclosed == s.unclosed
  }

  /**
   * `connect`: nothing happens when connected or without a target; otherwise the first obstacle decides what is raised
   * and that the state is ERROR, except for a host out of sockets, which leaves CONNECTING.
   */
  lemma ConnectContract(s: EnetState, a: Attempt)
    requires s.Ready()
    ensures var (t, answer) := s.Connect(a);
            var tries := s.link.state != Connected && s.config.host.Some? && s.config.port.Some?;
            var linked := tries && a.selected.Success? && a.selected.value.HasLink();
            && Silent(s, t) && t.now == s.now
            && (!tries ==> t == s)
            && (answer == Raised(UnverifiedParameter) <==> s.link.state != Connected && !tries)
            && (answer == Raised(InterfaceNotFound) <==> tries && a.selected.Failure?)
            && (answer == Raised(InterfaceUnavailable) <==> tries && a.selected.Success? && !linked)
            && (answer == Raised(SystemError) <==> linked && a.tcp == NoSocket)
            && (answer == Raised(ConnectionFailed) <==> linked && a.tcp in {ConnectTimedOut, ConnectRefused})
            && (answer == Done <==> s.link.state == Connected || (linked && a.tcp.Accepted?))
            && t.interface == (if linked then Some(a.selected.value) else s.interface)
            && (tries && answer != Done ==>
                SameSockets(s, t) && t.link.state == if answer == Raised(SystemError) then Connecting else Error)
            && (tries && answer == Done ==>
                Opened(s, t, a.tcp.stream) && t.link.state == Connected && t.link.lastError == None)
  {
  }

  /** `disconnect`: the socket is closed and forgotten; ERROR and everything else stay. */
  lemma DisconnectContract(s: EnetState)
    ensures var t := s.Disconnect();
            && Silent(s, t) && t.now == s.now && t.socket == None && t.unclosed == s.unclosed - Owned(s)
            && t.interface == s.interface && t.link.lastError == s.link.lastError
            && (t.link.state == Error <==> s.link.state == Error)
            && (t.link.state == Disconnected <==> s.link.state != Error)
  {
  }

  lemma {:induction false} RetryIsSilent(s: EnetState, n: nat, slept: nat, attempts: nat, world: nat -> Attempt)
    requires 1 <= n <= attempts && s.socket == None
    ensures var (t, _, _, sleeps) := s.Retry(n, slept, attempts, world);
            Silent(s, t) && sleeps >= slept && t.now == s.now + (sleeps - slept) as real * s.config.reconnectDelay
    decreases attempts - n
  {
    hide EnetState.Connect;
    var ready := s.To(Disconnected, None);
    ConnectContract(ready, world(n));
    ConnectComesTo(ready, world(n));
    var (next, outcome) := ready.Connect(world(n));
    if outcome == Raised(ConnectionFailed) && n < attempts {
      if s.config.reconnectDelay == 0.0 {
        RetryIsSilent(next, n + 1, slept, attempts, world);
      } else {
        RetryIsSilent(next.(now := next.now + s.config.reconnectDelay), n + 1, slept + 1, attempts, world);
      }
    }
  }

  /** What attempts leave, by the outcome of the deciding one: the state, and a socket only when connected. */
  lemma {:induction false} RetryLeaves(s: EnetState, n: nat, slept: nat, attempts: nat, world: nat -> Attempt)
    requires 1 <= n <= attempts && s.socket == None
    ensures var (t, outcome, made, _) := s.Retry(n, slept, attempts, world);
            && t.link.state == StateAfter(outcome) && (t.socket.Some? <==> outcome == Done)
            && (outcome == Done ==>
                && t.link.lastError == None && world(made).tcp.Accepted? && t.Unread() == world(made).tcp.stream
                && t.socket.value.timeout == s.config.receiveTimeout)
    decreases attempts - n
  {
    hide EnetState.Connect;
    var ready := s.To(Disconnected, None);
    ConnectContract(ready, world(n));
    ConnectComesTo(ready, world(n));
    var (next, outcome) := ready.Connect(world(n));
    if outcome == Raised(ConnectionFailed) && n < attempts {
      if s.config.reconnectDelay == 0.0 {
        RetryLeaves(next, n + 1, slept, attempts, world);
      } else {
        RetryLeaves(next.(now := next.now + s.config.reconnectDelay), n + 1, slept + 1, attempts, world);
      }
    }
  }

  /** The state a connect attempt from a closed transport ends in. */
  function StateAfter(outcome: Outcome): ConnectionState {
    match outcome
    case Done => Connected
    case Raised(SystemError) => Connecting
    case Raised(UnverifiedParameter) => Disconnected
    case _ => Error
  }

  predicate Fails(config: Config, world: nat -> Attempt, k: nat) {
    AttemptOutcome(config, world(k)) == Raised(ConnectionFailed)
  }

  /**
   * How many attempts `reconnect` makes for a setting of retries: one more than the setting when all fail to connect,
   * up to the first that does not otherwise, and exactly one for a negative setting. Only the sleeps take time.
   */
  lemma ReconnectAttempts(s: EnetState, world: nat -> Attempt)
    ensures var (t, outcome, made, slept) := s.Reconnect(world);
            var retries := s.config.reconnectAttempts;
            && Silent(s, t) && t.now == s.now + slept as real * s.config.reconnectDelay
            && (retries >= 0 && (forall k: nat :: 1 <= k <= retries + 1 ==> Fails(s.config, world, k)) ==>
                made == retries + 1 && outcome == Raised(ConnectionFailed) && t.link.state == Error)
            && (forall k: nat ::
                1 <= k <= retries + 1 && !Fails(s.config, world, k)
                && (forall j: nat :: 1 <= j < k ==> Fails(s.config, world, j)) ==>
                made == k && outcome == AttemptOutcome(s.config, world(k)))
            && (retries < 0 ==> made == 1 && outcome == AttemptOutcome(s.config, world(1)))
            && t.link.state == StateAfter(outcome) && (t.socket.Some? <==> outcome == Done)
            && (outcome == Done ==> world(made).tcp.Accepted? && t.Unread() == world(made).tcp.stream)
  {
    hide AttemptOutcome, Decisive, EnetState.Retry;
    ReconnectContract(s, world);
    RetryLeaves(s.Disconnect(), 1, 0, s.Attempts(), world);
    DisconnectContract(s);
    RetryIsSilent(s.Disconnect(), 1, 0, s.Attempts(), world);
    var (_, outcome, made, _) := s.Reconnect(world);
    assert Fails(s.config, world, made) <==> outcome == Raised(ConnectionFailed);
  }

  // ---------------------------------------------------------------- sending

  /** `send`: success exactly when connected and written; a timeout keeps the socket, another failure closes it. */
  lemma SendContract(s: EnetState, data: Bytes, written: SendAnswer, m: Moment)
    requires s.Ready()
    ensures var (t, answer) := s.Send(data, written, m);
            var up := s.link.state == Connected;
            && (answer == Sent(|data|) <==> up && written == Written)
            && (answer == Raised(NotConnected) <==> !up)
            && (answer == Raised(TimedOut) <==> up && written == WriteTimedOut)
            && (answer == Raised(ConnectionLost) <==> up && written == WriteFailed)
            && t.now == s.now && t.interface == s.interface
            && (!up ==> t == s)
            && (answer.Raised? ==> Silent(s, t))
            && (up && answer.Raised? ==> t.link.state == Error && t.link.lastError.Some?)
            && (answer == Raised(TimedOut) ==> SameSockets(s, t))
            && (answer == Raised(ConnectionLost) ==> t.socket == None && t.unclosed == s.unclosed - Owned(s))
            && (answer.Sent? ==>
                && t.link.wire == s.link.wire + [Packet(TX, data, m.timestamp, m.info, None, Null)]
                && t.bytesSent == s.bytesSent + |data| && t.bytesReceived == s.bytesReceived
                && SameSockets(s, t) && t.link.state == Connected)
  {
  }

  /** The data of the sends of a run that were made while connected and written. */
  function DataSent(s: EnetState, calls: seq<EnetCall>): seq<Bytes>
    requires s.Ready()
    decreases calls
  {
    if calls == [] then []
    else (if calls[0].Send? && s.link.state == Connected && calls[0].written == Written then [calls[0].data] else [])
         + DataSent(Step(s, calls[0]).0, calls[1..])
  }

  lemma StepSends(s: EnetState, c: EnetCall)
    requires s.Ready()
    ensures PayloadsOf(Step(s, c).0.link.wire, TX)
         == PayloadsOf(s.link.wire, TX)
            + if c.Send? && s.link.state == Connected && c.written == Written then [c.data] else []
  {
    hide EnetState.Connect, EnetState.Send, EnetState.Receive, EnetState.Assemble, EnetState.Listen, EnetState.Retry;
    hide PayloadsOf;
    match c
    case Connect(a) => ConnectContract(s, a);
    case Disconnect => DisconnectContract(s);
    case Reconnect(world) =>
      DisconnectContract(s);
      RetryIsSilent(s.Disconnect(), 1, 0, s.Attempts(), world);
    case Send(data, written, m) =>
      SendContract(s, data, written, m);
      OneMorePayload(s.link.wire, Packet(TX, data, m.timestamp, m.info, None, Null));
    case Receive(size, timeout, a) => EnetReads.ReceiveReads(s, size, timeout, a);
    case ReceiveExactly(size, timeout, answers) =>
      var data := EnetReads.ReceiveExactlyContract(s, size, timeout, answers);
    case Listen(duration, answers) => var data := EnetReads.ListenReads(s, s.now + duration, 0, answers, 0);
  }

  lemma OneMorePayload(wire: seq<Packet>, p: Packet)
    ensures PayloadsOf(wire + [p], p.direction) == PayloadsOf(wire, p.direction) + [p.rawData]
  {
    PayloadsOfConcat(wire, [p], p.direction);
    assert [p][1..] == [];
  }

  /** Over every run, the TX packets emitted carry exactly the data of the sends that were written, in order. */
  lemma {:induction false} OnlyWrittenDataIsSent(s: EnetState, calls: seq<EnetCall>)
    requires s.Ready()
    ensures PayloadsOf(Run(s, calls).link.wire, TX) == PayloadsOf(s.link.wire, TX) + DataSent(s, calls)
    decreases calls
  {
    hide Step, PayloadsOf;
    if calls != [] {
      StepSends(s, calls[0]);
      OnlyWrittenDataIsSent(Step(s, calls[0]).0, calls[1..]);
    }
  }

  // -------------------------------------------------------------- receiving

  /**
   * `receive`: data exactly when connected and some arrive, at least one byte, from the front of the stream, and no
   * more than asked for; a peer that closes and a failing read cost the socket; silence costs time only.
   */
  lemma ReceiveContract(s: EnetState, size: Size, timeout: Option<Timeout>, a: RecvAnswer)
    requires s.Ready()
    ensures var (t, answer) := s.Receive(size, timeout, a);
            var up := s.link.state == Connected;
            var lost := a.event in {PeerClosed, ReadFailed};
            && (!up ==> t == s)
            && (answer == Raised(NotConnected) <==> !up)
            && (answer == Raised(ConnectionLost) <==> up && lost)
            && (answer == Raised(TimedOut) <==> up && !lost && (a.event == Silence || s.Unread() == []))
            && (answer.Received? <==> up && a.event.Deliver? && s.Unread() != [])
            && t.interface == s.interface && t.config == s.config
            && (answer.Raised? ==> Silent(s, t))
            && (answer == Raised(TimedOut) ==> t == s.(now := t.now))
            && (answer == Raised(ConnectionLost) ==>
                && t.link.state == Error && t.link.lastError.Some?
                && t.socket == None && t.unclosed == s.unclosed - Owned(s))
            && (answer.Received? ==>
                && 1 <= |answer.data| <= size && answer.data <= s.Unread()
                && t.socket == Some(s.socket.value.(unread := s.Unread()[|answer.data|..])) && t.unclosed == s.unclosed
                && t.link.wire == s.link.wire + [Packet(RX, answer.data, a.moment.timestamp, a.moment.info, None, Null)]
                && t.bytesReceived == s.bytesReceived + |answer.data| && t.bytesSent == s.bytesSent
                && t.link.state == Connected)
  {
  }

  /** The listener waits for what is left of its time, but half a second at most and 50 ms at least. */
  lemma SliceOfTime(s: EnetState, deadline: real)
    ensures var slice, left := s.Slice(deadline), deadline - s.now;
            && 0.05 <= slice <= 0.5
            && (0.05 <= left <= 0.5 ==> slice == left)
            && (left < 0.05 ==> slice == 0.05) && (left > 0.5 ==> slice == 0.5)
  {
  }

  /** The level reported, by the connection and by the interface last resolved. */
  lemma LevelExactly(s: EnetState)
    ensures s.Level() == TcpConnected <==> s.link.state == Connected
    ensures s.Level() == NoneLevel <==> s.link.state != Connected && s.interface == None
    ensures s.Level() == EthernetLink
       <==> s.link.state != Connected && s.interface.Some? && s.interface.value.HasLink()
  {
  }
}
