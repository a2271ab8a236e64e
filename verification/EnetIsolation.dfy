/** Observers cannot disturb the TCP transport, whichever of them raise, over whole runs. */
module EnetIsolation {
  import opened Wrappers
  import opened Hex
  import opened Packets
  import opened Base
  import opened Ethernet
  import opened Enet
  import opened EnetRuns

  function WithoutError(s: EnetState): EnetState {
    s.(link := s.link.(lastError := None))
  }

  function Calm(a: RecvAnswer): RecvAnswer {
    a.(moment := a.moment.(raising := {}))
  }

  /** Equal up to the observers that raise. */
  ghost predicate AlikeAnswers(answers: nat -> RecvAnswer, others: nat -> RecvAnswer) {
    forall n: nat :: Calm(answers(n)) == Calm(others(n))
  }

  ghost predicate Alike(c: EnetCall, d: EnetCall) {
    match c
    case Send(data, written, m) =>
      d.Send? && d.data == data && d.written == written && d.moment.(raising := {}) == m.(raising := {})
    case Receive(size, timeout, a) => d.Receive? && d.size == size && d.timeout == timeout && Calm(d.answer) == Calm(a)
    case ReceiveExactly(total, overall, answers) =>
      d.ReceiveExactly? && d.total == total && d.overall == overall && AlikeAnswers(answers, d.answers)
    case Listen(duration, events) => d.Listen? && d.duration == duration && AlikeAnswers(events, d.events)
    case _ => d == c
  }

  /** The same outcome, and states that differ in `lastError` at most. */
  ghost predicate SameResult(r: (EnetState, Outcome), q: (EnetState, Outcome)) {
    r.1 == q.1 && WithoutError(r.0) == WithoutError(q.0)
  }

  lemma ConnectIsolated(s: EnetState, t: EnetState, a: Attempt)
    requires s.Ready() && t.Ready() && WithoutError(s) == WithoutError(t)
    ensures SameResult(s.Connect(a), t.Connect(a))
  {
    hide NetworkInterface.HasLink;
  }

  lemma {:induction false} RetryIsolated(
      s: EnetState, t: EnetState, n: nat, slept: nat, attempts: nat, world: nat -> Attempt)
    requires WithoutError(s) == WithoutError(t) && s.socket == None && 1 <= n <= attempts
    ensures var (r, q) := (s.Retry(n, slept, attempts, world), t.Retry(n, slept, attempts, world));
            SameResult((r.0, r.1), (q.0, q.1)) && (r.2, r.3) == (q.2, q.3)
    decreases attempts - n
  {
    hide EnetState.Connect;
    var (ready, other) := (s.To(Disconnected, None), t.To(Disconnected, None));
    ConnectIsolated(ready, other, world(n));
    ConnectComesTo(ready, world(n));
    var (r, q) := (ready.Connect(world(n)), other.Connect(world(n)));
    if r.1 == Raised(ConnectionFailed) && n < attempts {
      if s.config.reconnectDelay == 0.0 {
        RetryIsolated(r.0, q.0, n + 1, slept, attempts, world);
      } else {
        var delay := s.config.reconnectDelay;
        RetryIsolated(r.0.(now := r.0.now + delay), q.0.(now := q.0.now + delay), n + 1, slept + 1, attempts, world);
      }
    }
  }

  lemma ReceiveIsolated(
      s: EnetState, t: EnetState, size: Size, timeout: Option<Timeout>, a: RecvAnswer, b: RecvAnswer)
    requires s.Ready() && t.Ready() && WithoutError(s) == WithoutError(t) && Calm(a) == Calm(b)
    ensures SameResult(s.Receive(size, timeout, a), t.Receive(size, timeout, b))
  {
    assert a.event == Calm(a).event && a.wait == Calm(a).wait && a.late == Calm(a).late;
    assert b.event == Calm(b).event && b.wait == Calm(b).wait && b.late == Calm(b).late;
    EmitIsolated(s.link, t.link, RX, s.Receive(size, timeout, a).1, a.moment, b.moment);
  }

  lemma EmitIsolated(l: Link, k: Link, d: Direction, answer: Outcome, m: Moment, n: Moment)
    requires l.(lastError := None) == k.(lastError := None) && m.(raising := {}) == n.(raising := {})
    ensures answer.Received? ==>
              l.Emit(d, answer.data, Null, m).(lastError := None) == k.Emit(d, answer.data, Null, n).(lastError := None)
  {
    assert m.timestamp == m.(raising := {}).timestamp && m.info == m.(raising := {}).info;
    assert n.timestamp == n.(raising := {}).timestamp && n.info == n.(raising := {}).info;
  }

  lemma {:induction false} AssembleIsolated(
      s: EnetState, t: EnetState, size: int, deadline: real, buffer: Bytes, answers: nat -> RecvAnswer,
      others: nat -> RecvAnswer, n: nat)
    requires s.Ready() && t.Ready() && WithoutError(s) == WithoutError(t) && AlikeAnswers(answers, others)
    ensures SameResult(s.Assemble(size, deadline, buffer, answers, n), t.Assemble(size, deadline, buffer, others, n))
    decreases size - |buffer|
  {
    hide EnetState.Receive, Calm;
    if |buffer| < size && deadline - s.now > 0.0 {
      ReceiveIsolated(s, t, size - |buffer|, Some(deadline - s.now), answers(n), others(n));
      var r := s.Receive(size - |buffer|, Some(deadline - s.now), answers(n));
      var q := t.Receive(size - |buffer|, Some(deadline - s.now), others(n));
      if r.1.Received? {
        AssembleIsolated(r.0, q.0, size, deadline, buffer + r.1.data, answers, others, n + 1);
      }
    }
  }

  lemma {:induction false} ListenIsolated(
      s: EnetState, t: EnetState, deadline: real, total: nat, answers: nat -> RecvAnswer, others: nat -> RecvAnswer,
      n: nat)
    requires s.Ready() && t.Ready() && WithoutError(s) == WithoutError(t) && AlikeAnswers(answers, others)
    ensures var (r, q) := (s.Listen(deadline, total, answers, n), t.Listen(deadline, total, others, n));
            WithoutError(r.0) == WithoutError(q.0) && r.1 == q.1
    decreases |s.Unread()|, (deadline - s.now) * 20.0
  {
    hide EnetState.Receive, Calm;
    if s.now < deadline {
      ReceiveIsolated(s, t, 4096, Some(s.Slice(deadline)), answers(n), others(n));
      var r := s.Receive(4096, Some(s.Slice(deadline)), answers(n));
      var q := t.Receive(4096, Some(t.Slice(deadline)), others(n));
      if r.1 == Raised(TimedOut) {
        ListenIsolated(r.0, q.0, deadline, total, answers, others, n + 1);
      } else if r.1.Received? {
        ListenIsolated(r.0, q.0, deadline, total + |r.1.data|, answers, others, n + 1);
      }
    }
  }

  lemma StepIsolated(s: EnetState, t: EnetState, c: EnetCall, d: EnetCall)
    requires s.Ready() && t.Ready() && WithoutError(s) == WithoutError(t) && Alike(c, d)
    ensures SameResult(Step(s, c), Step(t, d))
  {
    hide EnetState.Connect, EnetState.Receive, EnetState.Assemble, EnetState.Listen, EnetState.Retry, Calm;
    match c
    case Connect(a) => ConnectIsolated(s, t, a);
    case Disconnect =>
    case Reconnect(world) => RetryIsolated(s.Disconnect(), t.Disconnect(), 1, 0, s.Attempts(), world);
    case Send(data, written, m) => EmitIsolated(s.link, t.link, TX, Received(data), m, d.moment);
    case Receive(size, timeout, a) => ReceiveIsolated(s, t, size, timeout, a, d.answer);
    case ReceiveExactly(size, timeout, answers) =>
      var limit := if timeout.Some? then timeout.value else s.config.receiveTimeout;
      AssembleIsolated(s, t, size, s.now + limit, [], answers, d.answers, 0);
    case Listen(duration, events) => ListenIsolated(s, t, s.now + duration, 0, events, d.events, 0);
  }

  function Answers(s: EnetState, calls: seq<EnetCall>): seq<Outcome>
    requires s.Ready()
    decreases calls
  {
    if calls == [] then [] else [Step(s, calls[0]).1] + Answers(Step(s, calls[0]).0, calls[1..])
  }

  /**
   * Two runs that differ only in which observers raise, at any packet of any call, the reads inside
   * `receive_exactly` and the listener included, answer every call alike and end differing in `lastError` only.
   */
  lemma {:induction false} RaisingChangesNothing(
      s: EnetState, t: EnetState, calls: seq<EnetCall>, others: seq<EnetCall>)
    requires s.Ready() && t.Ready() && WithoutError(s) == WithoutError(t)
    requires |calls| == |others| && forall i :: 0 <= i < |calls| ==> Alike(calls[i], others[i])
    ensures Answers(s, calls) == Answers(t, others)
    ensures WithoutError(Run(s, calls)) == WithoutError(Run(t, others))
    decreases calls
  {
    hide Step, Alike;
    if calls != [] {
      StepIsolated(s, t, calls[0], others[0]);
      RaisingChangesNothing(Step(s, calls[0]).0, Step(t, others[0]).0, calls[1..], others[1..]);
    }
  }
}
