/** What every call and every run of the TCP transport keeps. */
module EnetRuns {
  import opened Wrappers
  import opened Hex
  import opened Packets
  import opened Base
  import opened Ethernet
  import opened Enet
  import Mock

  datatype EnetCall =
    | Connect(attempt: Attempt)
    | Disconnect
    | Reconnect(world: nat -> Attempt)
    | Send(data: Bytes, written: SendAnswer, moment: Moment)
    | Receive(size: Size, timeout: Option<Timeout>, answer: RecvAnswer)
    | ReceiveExactly(total: int, overall: Option<real>, answers: nat -> RecvAnswer)
    | Listen(duration: real, events: nat -> RecvAnswer)

  function Step(s: EnetState, c: EnetCall): (r: (EnetState, Outcome))
    requires s.Ready()
    ensures r.0.Ready()
  {
    match c
    case Connect(a) => s.Connect(a)
    case Disconnect => (s.Disconnect(), Done)
    case Reconnect(world) => var r := s.Reconnect(world); (r.0, r.1)
    case Send(data, written, m) => s.Send(data, written, m)
    case Receive(size, timeout, a) => s.Receive(size, timeout, a)
    case ReceiveExactly(size, timeout, answers) => s.ReceiveExactly(size, timeout, answers)
    case Listen(duration, answers) => (s.Listen(s.now + duration, 0, answers, 0).0, Done)
  }

  function Run(s: EnetState, calls: seq<EnetCall>): (r: EnetState)
    requires s.Ready()
    ensures r.Ready()
    decreases calls
  {
    if calls == [] then s else Run(Step(s, calls[0]).0, calls[1..])
  }

  function Initial(config: Config, now: real): EnetState {
    EnetState(Link(Disconnected, None, [], [], []), config, None, None, 0, 0, now, 0, {})
  }

  // ------------------------------------------------------------------ invariant

  /** The part of the invariant that holds even in the middle of a connect attempt. */
  ghost predicate Sound(s: EnetState) {
    && (s.interface.Some? ==> s.interface.value.HasLink())
    && (s.socket.Some? ==> s.socket.value.timeout == s.config.receiveTimeout && s.socket.value.id in s.unclosed)
    && (forall id <- s.unclosed :: id < s.created)
    && s.bytesSent == |BytesOf(s.link.wire, TX)|
    && s.bytesReceived == |BytesOf(s.link.wire, RX)|
  }

  ghost predicate Inv(s: EnetState) {
    && Sound(s)
    && (s.link.state == Connected ==> s.socket.Some? && s.interface.Some?)
    && (s.link.state == Disconnected ==> s.socket == None)
    && (s.link.state == Error ==> s.link.lastError.Some?)
  }

  /** A socket kept outside CONNECTED. */
  predicate Orphan(s: EnetState) {
    s.socket.Some? && s.link.state != Connected
  }

  function Owned(s: EnetState): set<nat> {
    if s.socket.Some? then {s.socket.value.id} else {}
  }

  /** Sockets that are open although the transport no longer knows them. */
  function Leaked(s: EnetState): set<nat> {
    s.unclosed - Owned(s)
  }

  /** From `s`, reading only, the transport reached `t`: nothing leaked, lost or left behind. */
  ghost predicate Keeps(s: EnetState, t: EnetState) {
    && Inv(t)
    && t.config == s.config
    && Leaked(t) == Leaked(s)
    && t.interface == s.interface
    && (Orphan(t) <==> Orphan(s))
    && (t.socket.Some? ==> s.socket.Some? && t.socket.value.id == s.socket.value.id)
    && (t.link.state == Connecting <==> s.link.state == Connecting)
  }

  lemma ReceiveKeeps(s: EnetState, size: Size, timeout: Option<Timeout>, a: RecvAnswer)
    requires Inv(s) && s.Ready()
    ensures Keeps(s, s.Receive(size, timeout, a).0)
  {
    var answer := s.Receive(size, timeout, a).1;
    if answer.Received? {
      Mock.EmitHistory(s.link, RX, answer.data, Null, a.moment, RX);
      Mock.EmitHistory(s.link, RX, answer.data, Null, a.moment, TX);
    }
  }

  lemma {:induction false} AssembleKeeps(
      s: EnetState, size: int, deadline: real, buffer: Bytes, answers: nat -> RecvAnswer, n: nat)
    requires Inv(s) && s.Ready()
    ensures Keeps(s, s.Assemble(size, deadline, buffer, answers, n).0)
    decreases size - |buffer|
  {
    hide EnetState.Receive;
    if |buffer| < size && deadline - s.now > 0.0 {
      ReceiveKeeps(s, size - |buffer|, Some(deadline - s.now), answers(n));
      var (next, answer) := s.Receive(size - |buffer|, Some(deadline - s.now), answers(n));
      if answer.Received? {
        AssembleKeeps(next, size, deadline, buffer + answer.data, answers, n + 1);
      }
    }
  }

  lemma {:induction false} ListenKeeps(s: EnetState, deadline: real, total: nat, answers: nat -> RecvAnswer, n: nat)
    requires Inv(s) && s.Ready()
    ensures Keeps(s, s.Listen(deadline, total, answers, n).0)
    decreases |s.Unread()|, (deadline - s.now) * 20.0
  {
    hide EnetState.Receive;
    if s.now < deadline {
      ReceiveKeeps(s, 4096, Some(s.Slice(deadline)), answers(n));
      var (next, answer) := s.Receive(4096, Some(s.Slice(deadline)), answers(n));
      if answer == Raised(TimedOut) {
        ListenKeeps(next, deadline, total, answers, n + 1);
      } else if answer.Received? {
        ListenKeeps(next, deadline, total + |answer.data|, answers, n + 1);
      }
    }
  }

  lemma SendKeeps(s: EnetState, data: Bytes, answer: SendAnswer, m: Moment)
    requires Inv(s) && s.Ready()
    ensures var t := s.Send(data, answer, m).0;
            && Inv(t) && t.config == s.config && Leaked(t) == Leaked(s) && t.interface == s.interface
            && (t.link.state == Connecting <==> s.link.state == Connecting)
            && (Orphan(t) <==> Orphan(s) || (s.link.state == Connected && answer == WriteTimedOut))
            && (t.socket.Some? ==> s.socket.Some? && t.socket.value.id == s.socket.value.id)
  {
    Mock.EmitHistory(s.link, TX, data, Null, m, TX);
    Mock.EmitHistory(s.link, TX, data, Null, m, RX);
  }

  lemma DisconnectKeeps(s: EnetState)
    requires Inv(s)
    ensures var t := s.Disconnect();
            && Inv(t) && t.config == s.config && Leaked(t) == Leaked(s) && t.interface == s.interface
            && t.socket == None && t.link.state == (if s.link.state == Error then Error else Disconnected)
  {
  }

  // ------------------------------------------------------------ connect attempts

  predicate HasTarget(config: Config) {
    config.host.Some? && config.port.Some?
  }

  /** Whether an attempt gets as far as a linked interface. */
  predicate Linked(config: Config, a: Attempt) {
    HasTarget(config) && a.selected.Success? && a.selected.value.HasLink()
  }

  /** Whether a `connect` in this state gets as far as a linked interface. */
  predicate Resolves(s: EnetState, a: Attempt) {
    s.link.state != Connected && Linked(s.config, a)
  }

  lemma HandshakeKeeps(s: EnetState, answer: TcpAnswer)
    requires Sound(s) && s.interface.Some? && s.link.state == Connecting
    ensures var t := s.Handshake(answer).0;
            && Inv(t) && t.config == s.config && t.interface == s.interface
            && (answer.Accepted? ==> Leaked(t) == s.unclosed && t.link.state == Connected && t.link.lastError == None)
            && (!answer.Accepted? ==> t.socket == s.socket && t.unclosed == s.unclosed)
            && (!answer.Accepted? ==> t.link.state == if answer == NoSocket then Connecting else Error)
  {
  }

  /** What one `connect` does, by its guards. It leaks exactly when it opens a socket while an orphan is still held. */
  lemma {:induction false} ConnectKeeps(s: EnetState, a: Attempt)
    requires Inv(s) && s.Ready()
    ensures var t := s.Connect(a).0;
            var opens := Resolves(s, a) && a.tcp.Accepted?;
            && Inv(t) && t.config == s.config
            && Leaked(t) == Leaked(s) + (if Orphan(s) && opens then Owned(s) else {})
            && t.interface == (if Resolves(s, a) then Some(a.selected.value) else s.interface)
            && (Orphan(t) <==> Orphan(s) && !opens)
            && (!opens ==> t.socket == s.socket)
            && (opens ==> t.link.state == Connected && t.link.lastError == None)
            && (t.link.state == Connecting <==>
                (Resolves(s, a) && a.tcp == NoSocket) || (s.link.state == Connecting && !HasTarget(s.config)))
  {
    if Resolves(s, a) {
      HandshakeKeeps(s.To(Connecting, None).(interface := Some(a.selected.value)), a.tcp);
    }
  }

  /** What one attempt from a closed transport comes to, whatever happened before. */
  function AttemptOutcome(config: Config, a: Attempt): Outcome {
    if !HasTarget(config) then Raised(UnverifiedParameter)
    else if a.selected.Failure? then Raised(InterfaceNotFound)
    else if !a.selected.value.HasLink() then Raised(InterfaceUnavailable)
    else match a.tcp
      case NoSocket => Raised(SystemError)
      case Accepted(_) => Done
      case _ => Raised(ConnectionFailed)
  }

  lemma ConnectComesTo(s: EnetState, a: Attempt)
    requires s.Ready() && s.link.state == Disconnected
    ensures var (t, outcome) := s.Connect(a);
            && outcome == AttemptOutcome(s.config, a)
            && t.now == s.now && t.config == s.config
            && (outcome == Raised(ConnectionFailed) ==> t.link.state == Error && t.socket == s.socket)
            && (outcome == Done ==> t.link.state == Connected)
  {
  }

  // ------------------------------------------------------------------ reconnect

  /** The attempt `reconnect` stops at: the first one that does not fail to connect, or the last one allowed. */
  function Decisive(config: Config, world: nat -> Attempt, n: nat, attempts: nat): nat
    requires n <= attempts
    decreases attempts - n
  {
    if AttemptOutcome(config, world(n)) != Raised(ConnectionFailed) || n == attempts then n
    else Decisive(config, world, n + 1, attempts)
  }

  /** The interface stored by the attempts from number `n` on: that of the last one to find a linked interface. */
  function InterfaceOfRetry(
      config: Config, world: nat -> Attempt, n: nat, attempts: nat, before: Option<NetworkInterface>)
      : Option<NetworkInterface>
    requires n <= attempts
    decreases attempts - n
  {
    var found := if Linked(config, world(n)) then Some(world(n).selected.value) else before;
    if AttemptOutcome(config, world(n)) != Raised(ConnectionFailed) || n == attempts then found
    else InterfaceOfRetry(config, world, n + 1, attempts, found)
  }

  /** From a transport without a socket, attempts reached `t`: in CONNECTING exactly if `stuck`, with this interface. */
  ghost predicate Reopens(s: EnetState, t: EnetState, stuck: bool, interface: Option<NetworkInterface>) {
    && Inv(t) && t.config == s.config && Leaked(t) == Leaked(s) && !Orphan(t)
    && t.interface == interface
    && (t.link.state == Connecting <==> stuck)
  }

  lemma AttemptReopens(s: EnetState, a: Attempt, later: real)
    requires Inv(s) && s.socket == None
    ensures var r := s.To(Disconnected, None).Connect(a);
            var found := if Linked(s.config, a) then Some(a.selected.value) else s.interface;
            && r.1 == AttemptOutcome(s.config, a)
            && Reopens(s, r.0, Linked(s.config, a) && a.tcp == NoSocket, found)
            && (r.1 == Raised(ConnectionFailed) ==> r.0.socket == None && Reopens(s, r.0.(now := later), false, found))
  {
    ConnectKeeps(s.To(Disconnected, None), a);
    ConnectComesTo(s.To(Disconnected, None), a);
  }

  lemma {:induction false} RetryReopens(s: EnetState, n: nat, slept: nat, attempts: nat, world: nat -> Attempt)
    requires Inv(s) && s.socket == None && 1 <= n <= attempts
    ensures var last := world(Decisive(s.config, world, n, attempts));
            Reopens(s, s.Retry(n, slept, attempts, world).0, Linked(s.config, last) && last.tcp == NoSocket,
                    InterfaceOfRetry(s.config, world, n, attempts, s.interface))
    decreases attempts - n
  {
    hide EnetState.Connect, AttemptOutcome, Linked;
    var r := s.To(Disconnected, None).Connect(world(n));
    var later := r.0.now + s.config.reconnectDelay;
    AttemptReopens(s, world(n), r.0.now);
    AttemptReopens(s, world(n), later);
    if r.1 == Raised(ConnectionFailed) && n < attempts {
      var next := if s.config.reconnectDelay == 0.0 then r.0 else r.0.(now := later);
      RetryReopens(next, n + 1, if s.config.reconnectDelay == 0.0 then slept else slept + 1, attempts, world);
    }
  }

  lemma {:induction false} RetryContract(s: EnetState, n: nat, slept: nat, attempts: nat, world: nat -> Attempt)
    requires 1 <= n <= attempts && s.socket == None
    ensures var (t, outcome, made, sleeps) := s.Retry(n, slept, attempts, world);
            && n <= made <= attempts && made == Decisive(s.config, world, n, attempts)
            && outcome == AttemptOutcome(s.config, world(made))
            && (forall k :: n <= k < made ==> AttemptOutcome(s.config, world(k)) == Raised(ConnectionFailed))
            && (outcome == Raised(ConnectionFailed) ==> made == attempts && t.link.state == Error)
            && (outcome == Done ==> t.link.state == Connected)
            && sleeps == slept + (if s.config.reconnectDelay == 0.0 then 0 else made - n)
    decreases attempts - n
  {
    hide EnetState.Connect, AttemptOutcome;
    var ready := s.To(Disconnected, None);
    ConnectComesTo(ready, world(n));
    var (next, outcome) := ready.Connect(world(n));
    if outcome == Raised(ConnectionFailed) && n < attempts {
      if s.config.reconnectDelay == 0.0 {
        RetryContract(next, n + 1, slept, attempts, world);
      } else {
        RetryContract(next.(now := next.now + s.config.reconnectDelay), n + 1, slept + 1, attempts, world);
      }
    }
  }

  /**
   * `reconnect` returns the outcome of the first attempt that does not fail to connect, or of the last one it
   * may make; it sleeps once between attempts unless the delay is zero, and returning means CONNECTED.
   */
  lemma ReconnectContract(s: EnetState, world: nat -> Attempt)
    ensures var (t, outcome, made, slept) := s.Reconnect(world);
            && 1 <= made <= s.Attempts() && made == Decisive(s.config, world, 1, s.Attempts())
            && (forall k :: 1 <= k < made ==> AttemptOutcome(s.config, world(k)) == Raised(ConnectionFailed))
            && outcome == AttemptOutcome(s.config, world(made))
            && (outcome == Raised(ConnectionFailed) ==> made == s.Attempts() && t.link.state == Error)
            && (outcome == Done ==> t.link.state == Connected)
            && slept == (if s.config.reconnectDelay == 0.0 then 0 else made - 1)
  {
    hide AttemptOutcome;
    RetryContract(s.Disconnect(), 1, 0, s.Attempts(), world);
  }

  // ----------------------------------------------------------------- every call

  /** Whether the call ends in a handshake for which the host creates no socket. */
  predicate HitsNoSocket(s: EnetState, c: EnetCall) {
    match c
    case Connect(a) => Resolves(s, a) && a.tcp == NoSocket
    case Reconnect(world) =>
      var a := world(Decisive(s.config, world, 1, s.Attempts())); Linked(s.config, a) && a.tcp == NoSocket
    case _ => false
  }

  /** Whether the call leaves CONNECTING behind: every one but reads, sends and a `connect` without a target. */
  predicate Settles(config: Config, c: EnetCall) {
    c.Disconnect? || c.Reconnect? || (c.Connect? && HasTarget(config))
  }

  predicate TimesOutSending(s: EnetState, c: EnetCall) {
    c.Send? && s.link.state == Connected && c.written == WriteTimedOut
  }

  /** Whether the call closes or replaces the socket of a transport that is not connected. */
  predicate Replaces(s: EnetState, c: EnetCall) {
    c.Disconnect? || c.Reconnect? || (c.Connect? && Resolves(s, c.attempt) && c.attempt.tcp.Accepted?)
  }

  /** The one call that leaks: a `connect` that opens a socket while an orphan is still held. */
  predicate Leaks(s: EnetState, c: EnetCall) {
    c.Connect? && Orphan(s) && Resolves(s, c.attempt) && c.attempt.tcp.Accepted?
  }

  function InterfaceAfter(s: EnetState, c: EnetCall): Option<NetworkInterface> {
    match c
    case Connect(a) => if Resolves(s, a) then Some(a.selected.value) else s.interface
    case Reconnect(world) => InterfaceOfRetry(s.config, world, 1, s.Attempts(), s.interface)
    case _ => s.interface
  }

  /**
   * Every call keeps the invariant, and by the guards of its branches: which interface it stores, which socket it
   * leaks, when it leaves an orphan (a send timed out, or there was one the call does not replace, and it is then
   * the same socket), and when it ends in CONNECTING (no socket was created, or it was so and the call left it).
   */
  lemma StepKeepsInv(s: EnetState, c: EnetCall)
    requires Inv(s) && s.Ready()
    ensures var t := Step(s, c).0;
            && Inv(t) && t.config == s.config
            && t.interface == InterfaceAfter(s, c)
            && Leaked(t) == Leaked(s) + (if Leaks(s, c) then Owned(s) else {})
            && (Orphan(t) <==> TimesOutSending(s, c) || (Orphan(s) && !Replaces(s, c)))
            && (Orphan(t) ==> s.socket.Some? && t.socket.value.id == s.socket.value.id)
            && (t.link.state == Connecting <==>
                HitsNoSocket(s, c) || (s.link.state == Connecting && !Settles(s.config, c)))
  {
    hide EnetState.Connect, EnetState.Receive, EnetState.Assemble, EnetState.Listen, EnetState.Retry, EnetState.Send;
    hide Linked, Decisive, InterfaceOfRetry;
    match c
    case Connect(a) => ConnectKeeps(s, a); ResolvingNeedsTarget(s, a);
    case Disconnect => DisconnectKeeps(s);
    case Reconnect(world) =>
      DisconnectKeeps(s);
      RetryReopens(s.Disconnect(), 1, 0, s.Attempts(), world);
    case Send(data, written, m) => SendKeeps(s, data, written, m);
    case Receive(size, timeout, a) => ReceiveKeeps(s, size, timeout, a);
    case ReceiveExactly(size, timeout, answers) =>
      var limit := if timeout.Some? then timeout.value else s.config.receiveTimeout;
      AssembleKeeps(s, size, s.now + limit, [], answers, 0);
    case Listen(duration, answers) => ListenKeeps(s, s.now + duration, 0, answers, 0);
  }

  lemma ResolvingNeedsTarget(s: EnetState, a: Attempt)
    ensures Resolves(s, a) ==> HasTarget(s.config)
  {
  }

  lemma {:induction false} RetryInterfaceStays(
      config: Config, world: nat -> Attempt, n: nat, attempts: nat, before: Option<NetworkInterface>)
    requires n <= attempts
    ensures InterfaceOfRetry(config, world, n, attempts, before).Some? <==> before.Some? || Linked(config, world(n))
    decreases attempts - n
  {
    var found := if Linked(config, world(n)) then Some(world(n).selected.value) else before;
    if AttemptOutcome(config, world(n)) == Raised(ConnectionFailed) && n < attempts {
      RetryInterfaceStays(config, world, n + 1, attempts, found);
    }
  }

  /** Whether the call finds a linked interface: `connect` in its attempt, `reconnect` in its first. */
  predicate Finds(s: EnetState, c: EnetCall) {
    (c.Connect? && Resolves(s, c.attempt)) || (c.Reconnect? && Linked(s.config, c.world(1)))
  }

  lemma InterfaceStays(s: EnetState, c: EnetCall)
    ensures InterfaceAfter(s, c).Some? <==> s.interface.Some? || Finds(s, c)
  {
    if c.Reconnect? {
      RetryInterfaceStays(s.config, c.world, 1, s.Attempts(), s.interface);
    }
  }

  predicate EverLeaks(s: EnetState, calls: seq<EnetCall>)
    requires s.Ready()
    decreases calls
  {
    calls != [] && (Leaks(s, calls[0]) || EverLeaks(Step(s, calls[0]).0, calls[1..]))
  }

  /** Over every run: the invariant, evidence never lost, and a socket leaked exactly when some call leaks one. */
  lemma {:induction false} RunKeepsInv(s: EnetState, calls: seq<EnetCall>)
    requires Inv(s) && s.Ready()
    ensures var t := Run(s, calls);
            && Inv(t) && t.config == s.config
            && (s.interface.Some? ==> t.interface.Some?)
            && Leaked(s) <= Leaked(t)
            && (Leaked(t) == Leaked(s) <==> !EverLeaks(s, calls))
    decreases calls
  {
    if calls != [] {
      StepKeepsInv(s, calls[0]);
      InterfaceStays(s, calls[0]);
      RunKeepsInv(Step(s, calls[0]).0, calls[1..]);
      if Leaks(s, calls[0]) {
        assert s.socket.value.id in Leaked(Run(s, calls)) && s.socket.value.id !in Leaked(s);
      }
    }
  }

  /** Connecting again after a send timed out, without disconnecting first, leaks the first socket. */
  lemma ConnectAfterSendTimeoutLeaks(config: Config, i: NetworkInterface, a: Bytes, b: Bytes, data: Bytes, m: Moment)
    requires config.host.Some? && config.port.Some? && i.HasLink()
    ensures var calls := [
              Connect(Attempt(Success(i), Accepted(a))),
              EnetCall.Send(data, WriteTimedOut, m),
              Connect(Attempt(Success(i), Accepted(b)))];
            Leaked(Run(Initial(config, 0.0), calls)) == {0}
  {
    var first, send := Connect(Attempt(Success(i), Accepted(a))), EnetCall.Send(data, WriteTimedOut, m);
    var again := Connect(Attempt(Success(i), Accepted(b)));
    var s := Initial(config, 0.0);
    var connected := Step(s, first).0;
    var stuck := Step(connected, send).0;
    var last := Step(stuck, again).0;
    assert [first, send, again][1..] == [send, again] && [send, again][1..] == [again] && [again][1..] == [];
    assert Run(s, [first, send, again]) == Run(connected, [send, again]) == Run(stuck, [again]) == last;
  }

  /** A host out of sockets leaves the transport in CONNECTING. */
  lemma NoSocketLeavesConnecting(config: Config, i: NetworkInterface)
    requires config.host.Some? && config.port.Some? && i.HasLink()
    ensures Step(Initial(config, 0.0), Connect(Attempt(Success(i), NoSocket))).0.link.state == Connecting
  {
  }

  /** Whether every send that timed out is followed by a `disconnect` or `reconnect` before the next `connect`. */
  predicate CleansUp(s: EnetState, calls: seq<EnetCall>, dirty: bool)
    requires s.Ready()
    decreases calls
  {
    if calls == [] then true
    else
      && !(calls[0].Connect? && dirty)
      && CleansUp(Step(s, calls[0]).0, calls[1..], DirtyAfter(s, calls[0], dirty))
  }

  predicate DirtyAfter(s: EnetState, c: EnetCall, dirty: bool) {
    !(c.Disconnect? || c.Reconnect?) && (dirty || TimesOutSending(s, c))
  }

  lemma {:induction false} CleanRunsNeverLeak(s: EnetState, calls: seq<EnetCall>, dirty: bool)
    requires Inv(s) && s.Ready() && (Orphan(s) ==> dirty) && CleansUp(s, calls, dirty)
    ensures !EverLeaks(s, calls)
    decreases calls
  {
    hide Step, Resolves;
    if calls != [] {
      StepKeepsInv(s, calls[0]);
      CleanRunsNeverLeak(Step(s, calls[0]).0, calls[1..], DirtyAfter(s, calls[0], dirty));
    }
  }

  /** On such runs from a new transport, at most the transport's own socket is open. */
  lemma AtMostOneSocket(config: Config, now: real, calls: seq<EnetCall>)
    requires CleansUp(Initial(config, now), calls, false)
    ensures var t := Run(Initial(config, now), calls);
            t.unclosed == Owned(t) && |t.unclosed| <= 1
  {
    var s := Initial(config, now);
    CleanRunsNeverLeak(s, calls, false);
    RunKeepsInv(s, calls);
    var t := Run(s, calls);
    assert Leaked(s) == {};
    assert t.unclosed - Owned(t) == {};
    if t.socket.Some? {
      assert t.unclosed == {t.socket.value.id};
    }
  }
}
