/** What `receive_exactly` and the passive listener read, and when they stop. */
module EnetReads {
  import opened Wrappers
  import opened Hex
  import opened Packets
  import opened Base
  import opened Enet
  import Mock

  /**
   * From `s` to `t` the transport read exactly `data`: the next bytes of the peer's stream and none beyond
   * them, counted and emitted as RX packets, while nothing was sent.
   */
  ghost predicate Reads(s: EnetState, t: EnetState, data: Bytes) {
    && data <= s.Unread()
    && (t.socket.Some? ==> t.Unread() == s.Unread()[|data|..])
    && BytesOf(t.link.wire, RX) == BytesOf(s.link.wire, RX) + data
    && PayloadsOf(t.link.wire, TX) == PayloadsOf(s.link.wire, TX)
    && t.bytesReceived == s.bytesReceived + |data|
    && t.bytesSent == s.bytesSent
    && s.now <= t.now
  }

  lemma ReadsNothing(s: EnetState)
    ensures Reads(s, s, [])
  {
    assert s.Unread()[0..] == s.Unread();
  }

  lemma ReadsOn(s: EnetState, m: EnetState, a: Bytes, t: EnetState, b: Bytes)
    requires Reads(s, m, a) && Reads(m, t, b) && m.socket.Some?
    ensures Reads(s, t, a + b)
  {
    assert s.Unread() == a + m.Unread();
    assert a + b == s.Unread()[..|a| + |b|];
  }

  /** One `receive`: what it read, what the link became, and how long it took at most. */
  lemma ReceiveReads(s: EnetState, size: Size, timeout: Option<Timeout>, a: RecvAnswer)
    requires s.Ready()
    ensures var (t, answer) := s.Receive(size, timeout, a);
            var limit := if timeout.Some? then timeout.value else s.config.receiveTimeout;
            && Reads(s, t, if answer.Received? then answer.data else [])
            && (answer.Received? ==> 1 <= |answer.data| <= size)
            && (answer.Received? || answer == Raised(TimedOut) ==>
                && t.link.state == s.link.state == Connected
                && t.socket.Some? && t.socket.value.timeout == s.socket.value.timeout)
            && (answer == Raised(ConnectionLost) ==>
                t.link.state == Error && t.socket == None && s.link.state == Connected)
            && (answer == Raised(NotConnected) <==> s.link.state != Connected)
            && (answer.Raised? ==> answer.fault in {TimedOut, ConnectionLost, NotConnected})
            && !answer.Sent? && !answer.Done?
            && (answer == Raised(NotConnected) ==> t == s)
            && t.now <= s.now + limit + a.late
            && (answer == Raised(TimedOut) ==> t.now >= s.now + limit)
  {
    ReadsNothing(s);
    var answer := s.Receive(size, timeout, a).1;
    if answer.Received? {
      Mock.EmitHistory(s.link, RX, answer.data, Null, a.moment, RX);
      Mock.EmitHistory(s.link, RX, answer.data, Null, a.moment, TX);
    }
  }

  // -------------------------------------------------------------- receive_exactly

  /** No `recv` returns more than `late` after it should. */
  ghost predicate Punctual(answers: nat -> RecvAnswer, late: real) {
    forall n: nat :: answers(n).late <= late
  }

  /** How an assembly that read `data` on top of `buffer` may end. */
  ghost predicate Assembled(
      s: EnetState, t: EnetState, outcome: Outcome, size: int, deadline: real, buffer: Bytes, data: Bytes)
  {
    && Reads(s, t, data)
    && match outcome
       case Received(all) =>
         && all == buffer + data && (|all| == size || (data == [] && |buffer| > size))
         && t.link.state == s.link.state
       case Raised(TimedOut) => |buffer + data| < size && t.link.state == s.link.state && t.now >= deadline
       case Raised(ConnectionLost) => |buffer + data| < size && t.link.state == Error && t.socket == None
       case Raised(NotConnected) => data == [] && t == s && s.link.state != Connected
       case _ => false
  }

  lemma AssembledOn(
      s: EnetState, m: EnetState, t: EnetState, outcome: Outcome, size: int, deadline: real, buffer: Bytes,
      a: Bytes, b: Bytes)
    requires Reads(s, m, a) && m.socket.Some? && s.link.state == m.link.state == Connected
    requires Assembled(m, t, outcome, size, deadline, buffer + a, b) && |buffer + a| <= size
    ensures Assembled(s, t, outcome, size, deadline, buffer, a + b)
  {
    ReadsOn(s, m, a, t, b);
    assert buffer + a + b == buffer + (a + b);
  }

  lemma {:induction false} AssembleReads(
      s: EnetState, size: int, deadline: real, buffer: Bytes, answers: nat -> RecvAnswer, n: nat) returns (data: Bytes)
    requires s.Ready()
    ensures var (t, outcome) := s.Assemble(size, deadline, buffer, answers, n);
            Assembled(s, t, outcome, size, deadline, buffer, data)
    decreases size - |buffer|
  {
    hide EnetState.Receive;
    if |buffer| >= size || deadline - s.now <= 0.0 {
      ReadsNothing(s);
      data := [];
      assert buffer + data == buffer;
    } else {
      var r := s.Receive(size - |buffer|, Some(deadline - s.now), answers(n));
      ReceiveReads(s, size - |buffer|, Some(deadline - s.now), answers(n));
      if r.1.Received? {
        var more := AssembleReads(r.0, size, deadline, buffer + r.1.data, answers, n + 1);
        var q := r.0.Assemble(size, deadline, buffer + r.1.data, answers, n + 1);
        AssembledOn(s, r.0, q.0, q.1, size, deadline, buffer, r.1.data, more);
        data := r.1.data + more;
      } else {
        data := [];
        assert buffer + data == buffer;
      }
    }
  }

  lemma {:induction false} AssembleIsPunctual(
      s: EnetState, size: int, deadline: real, buffer: Bytes, answers: nat -> RecvAnswer, n: nat, late: real)
    requires s.Ready() && Punctual(answers, late) && s.now <= deadline + late
    ensures s.Assemble(size, deadline, buffer, answers, n).0.now <= deadline + late
    decreases size - |buffer|
  {
    hide EnetState.Receive;
    if |buffer| < size && deadline - s.now > 0.0 {
      var r := s.Receive(size - |buffer|, Some(deadline - s.now), answers(n));
      ReceiveReads(s, size - |buffer|, Some(deadline - s.now), answers(n));
      if r.1.Received? {
        AssembleIsPunctual(r.0, size, deadline, buffer + r.1.data, answers, n + 1, late);
      }
    }
  }

  function Limit(s: EnetState, timeout: Option<real>): real {
    if timeout.Some? then timeout.value else s.config.receiveTimeout
  }

  /**
   * `receive_exactly` under any fragmentation. On success the result is exactly the next `size` bytes of the
   * peer's stream, and no byte beyond them is consumed. On timeout fewer than `size` bytes were consumed (and
   * counted and emitted), the link stays up, and the deadline has passed.
   */
  lemma ReceiveExactlyContract(s: EnetState, size: int, timeout: Option<real>, answers: nat -> RecvAnswer)
      returns (data: Bytes)
    requires s.Ready()
    ensures var r := s.ReceiveExactly(size, timeout, answers);
            && Reads(s, r.0, data)
            && match r.1
               case Received(all) =>
                 all == data && |data| == (if size > 0 then size else 0) && r.0.link.state == s.link.state
               case Raised(TimedOut) =>
                 |data| < size && r.0.link.state == s.link.state && r.0.now >= s.now + Limit(s, timeout)
               case Raised(ConnectionLost) => |data| < size && r.0.link.state == Error && r.0.socket == None
               case Raised(NotConnected) => r.0 == s && s.link.state != Connected
               case _ => false
  {
    hide EnetState.Assemble, Reads;
    var deadline := s.now + Limit(s, timeout);
    data := AssembleReads(s, size, deadline, [], answers, 0);
    assert [] + data == data;
    var r := s.Assemble(size, deadline, [], answers, 0);
    assert Assembled(s, r.0, r.1, size, deadline, [], data);
  }

  /** It ends no later than its deadline plus the lateness of a single `recv`. */
  lemma ReceiveExactlyEndsInTime(s: EnetState, size: int, timeout: Option<real>, answers: nat -> RecvAnswer, late: real)
    requires s.Ready() && Punctual(answers, late) && Limit(s, timeout) >= 0.0
    ensures s.ReceiveExactly(size, timeout, answers).0.now <= s.now + Limit(s, timeout) + late
  {
    hide EnetState.Assemble;
    assert answers(0).late <= late;
    AssembleIsPunctual(s, size, s.now + Limit(s, timeout), [], answers, 0, late);
  }

  // -------------------------------------------------------------- passive listening

  lemma {:induction false} ListenReads(s: EnetState, deadline: real, total: nat, answers: nat -> RecvAnswer, n: nat)
      returns (data: Bytes)
    requires s.Ready()
    ensures Reads(s, s.Listen(deadline, total, answers, n).0, data)
    ensures s.Listen(deadline, total, answers, n).1 == total + |data|
    decreases |s.Unread()|, (deadline - s.now) * 20.0
  {
    hide EnetState.Receive, Reads;
    if s.now >= deadline {
      ReadsNothing(s);
      data := [];
    } else {
      var r := s.Receive(4096, Some(s.Slice(deadline)), answers(n));
      ReceiveReads(s, 4096, Some(s.Slice(deadline)), answers(n));
      if r.1 == Raised(TimedOut) {
        var more := ListenReads(r.0, deadline, total, answers, n + 1);
        ReadsOn(s, r.0, [], r.0.Listen(deadline, total, answers, n + 1).0, more);
        data := [] + more;
      } else if r.1.Raised? {
        data := [];
      } else {
        var more := ListenReads(r.0, deadline, total + |r.1.data|, answers, n + 1);
        ReadsOn(s, r.0, r.1.data, r.0.Listen(deadline, total + |r.1.data|, answers, n + 1).0, more);
        data := r.1.data + more;
      }
    }
  }

  lemma {:induction false} ListenStops(
      s: EnetState, deadline: real, total: nat, answers: nat -> RecvAnswer, n: nat, late: real)
    requires s.Ready() && Punctual(answers, late) && s.now <= deadline + 0.05 + late
    ensures var t := s.Listen(deadline, total, answers, n).0;
            && t.now <= deadline + 0.05 + late
            && (t.now >= deadline || t.link.state != Connected)
    decreases |s.Unread()|, (deadline - s.now) * 20.0
  {
    hide EnetState.Receive;
    if s.now < deadline {
      var r := s.Receive(4096, Some(s.Slice(deadline)), answers(n));
      ReceiveReads(s, 4096, Some(s.Slice(deadline)), answers(n));
      if r.1 == Raised(TimedOut) {
        ListenStops(r.0, deadline, total, answers, n + 1, late);
      } else if r.1.Received? {
        ListenStops(r.0, deadline, total + |r.1.data|, answers, n + 1, late);
      }
    }
  }

  /**
   * Passive listening sends nothing, returns exactly the increase of `bytes_received`, and stops once the
   * deadline has passed or the link is gone: at most 50 ms, plus the lateness of a single `recv`, too late.
   */
  lemma ListenContract(s: EnetState, duration: real, answers: nat -> RecvAnswer, late: real) returns (data: Bytes)
    requires s.Ready() && duration > 0.0 && Punctual(answers, late)
    ensures var (t, total) := s.Listen(s.now + duration, 0, answers, 0);
            && Reads(s, t, data)
            && total == |data| == t.bytesReceived - s.bytesReceived
            && t.now <= s.now + duration + 0.05 + late
            && (t.now >= s.now + duration || t.link.state != Connected)
  {
    hide EnetState.Listen;
    data := ListenReads(s, s.now + duration, 0, answers, 0);
    assert answers(0).late <= late;
    ListenStops(s, s.now + duration, 0, answers, 0, late);
  }
}
