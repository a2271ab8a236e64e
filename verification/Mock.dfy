/** The scripted in-memory transport (mock.py). */
module Mock {
  import opened Wrappers
  import opened Hex
  import opened Packets
  import opened Base

  const PEER_CLOSED := "Mock peer closed the connection"

  datatype MockState = MockState(
    link: Link,
    queue: seq<Bytes>,
    sent: seq<Bytes>,
    failOnConnect: Option<string>,
    dropAfterSends: Option<int>)
  {
    function Connect(): (MockState, Outcome) {
      if failOnConnect.Some? then (this.(link := link.SetState(Error, failOnConnect)), Raised(ConnectionFailed))
      else (this.(link := link.SetState(Connected, None)), Done)
    }

    function Disconnect(): MockState {
      if link.state == Error then this else this.(link := link.SetState(Disconnected, None))
    }

    predicate Dropped() {
      dropAfterSends.Some? && |sent| >= dropAfterSends.value
    }

    /** `reply` is what the responder answers to `data`: none without a responder or when it stays silent. */
    function Send(data: Bytes, reply: Option<Bytes>, m: Moment): (MockState, Outcome) {
      if link.state != Connected then (this, Raised(NotConnected))
      else if Dropped() then (this.(link := link.SetState(Error, Some(PEER_CLOSED))), Raised(ConnectionLost))
      else (
        this.(sent := sent + [data],
              link := link.Emit(TX, data, Null, m),
              queue := if reply.Some? then queue + [reply.value] else queue),
        Sent(|data|))
    }

    function Receive(size: nat, m: Moment): (MockState, Outcome) {
      if link.state != Connected then (this, Raised(NotConnected))
      else if queue == [] then (this, Raised(TimedOut))
      else
        var payload := Front(queue[0], size);
        (this.(queue := Remainder(queue[0], size) + queue[1..],
               link := link.Emit(RX, payload, Null, m)),
         Received(payload))
    }
  }

  class MockTransport {
    const base: Transport
    var queue: seq<Bytes>
    var sent: seq<Bytes>
    var failOnConnect: Option<string>
    const dropAfterSends: Option<int>

    ghost function Model(): MockState
      reads this, base
    {
      MockState(base.Model(), queue, sent, failOnConnect, dropAfterSends)
    }

    constructor (responses: seq<Bytes>, fail: Option<string>, drop: Option<int>)
      ensures fresh(base)
      ensures Model() == MockState(Link(Disconnected, None, [], [], []), responses, [], fail, drop)
    {
      base := new Transport();
      queue, sent, failOnConnect, dropAfterSends := responses, [], fail, drop;
    }

    method QueueResponse(data: Bytes)
      modifies this`queue
      ensures Model() == old(Model()).(queue := old(queue) + [data])
    {
      queue := queue + [data];
    }

    method SetFailOnConnect(message: Option<string>)
      modifies this`failOnConnect
      ensures Model() == old(Model()).(failOnConnect := message)
    {
      failOnConnect := message;
    }

    method Connect() returns (r: Outcome)
      modifies this, base
      ensures (Model(), r) == old(Model()).Connect()
    {
      if failOnConnect.Some? {
        base.SetState(Error, failOnConnect);
        return Raised(ConnectionFailed);
      }
      base.SetState(Connected, None);
      return Done;
    }

    method Disconnect()
      modifies this, base
      ensures Model() == old(Model()).Disconnect()
    {
      if base.state != Error {
        base.SetState(Disconnected, None);
      }
    }

    method Send(data: Bytes, reply: Option<Bytes>, m: Moment) returns (r: Outcome)
      modifies this, base
      ensures (Model(), r) == old(Model()).Send(data, reply, m)
    {
      if base.state != Connected {
        return Raised(NotConnected);
      }
      if dropAfterSends.Some? && |sent| >= dropAfterSends.value {
        base.SetState(Error, Some(PEER_CLOSED));
        return Raised(ConnectionLost);
      }
      sent := sent + [data];
      var _ := base.Emit(TX, data, Null, m);
      if reply.Some? {
        queue := queue + [reply.value];
      }
      return Sent(|data|);
    }

    method Receive(size: nat, m: Moment) returns (r: Outcome)
      modifies this, base
      ensures (Model(), r) == old(Model()).Receive(size, m)
    {
      if base.state != Connected {
        return Raised(NotConnected);
      }
      if queue == [] {
        return Raised(TimedOut);
      }
      var payload := queue[0];
      queue := queue[1..];
      if |payload| > size {
        queue := [payload[size..]] + queue;
        payload := payload[..size];
      }
      assert queue == Remainder(old(queue)[0], size) + old(queue)[1..];
      var _ := base.Emit(RX, payload, Null, m);
      return Received(payload);
    }
  }

  // ---------------------------------------------------------------- whole runs

  datatype MockCall =
    | Connect
    | Disconnect
    | SetFailOnConnect(message: Option<string>)
    | QueueResponse(response: Bytes)
    | Send(data: Bytes, reply: Option<Bytes>, moment: Moment)
    | Receive(size: nat, moment: Moment)

  function Step(s: MockState, c: MockCall): (MockState, Outcome) {
    match c
    case Connect => s.Connect()
    case Disconnect => (s.Disconnect(), Done)
    case SetFailOnConnect(message) => (s.(failOnConnect := message), Done)
    case QueueResponse(data) => (s.(queue := s.queue + [data]), Done)
    case Send(data, reply, m) => s.Send(data, reply, m)
    case Receive(size, m) => s.Receive(size, m)
  }

  function Run(s: MockState, calls: seq<MockCall>): (MockState, seq<Outcome>)
    decreases calls
  {
    if calls == [] then (s, [])
    else
      var (next, outcome) := Step(s, calls[0]);
      var (last, outcomes) := Run(next, calls[1..]);
      (last, [outcome] + outcomes)
  }

  function Flatten(queue: seq<Bytes>): Bytes {
    if queue == [] then [] else queue[0] + Flatten(queue[1..])
  }

  lemma {:induction false} FlattenConcat(a: seq<Bytes>, b: seq<Bytes>)
    ensures Flatten(a + b) == Flatten(a) + Flatten(b)
  {
    if a == [] {
      assert a + b == b;
    } else {
      assert (a + b)[1..] == a[1..] + b;
      FlattenConcat(a[1..], b);
    }
  }

  /** The bytes a call puts at the reader's disposal. */
  function Arriving(c: MockCall, outcome: Outcome): Bytes {
    match c
    case QueueResponse(data) => data
    case Send(_, reply, _) => if outcome.Sent? && reply.Some? then reply.value else []
    case _ => []
  }

  function Arrivals(calls: seq<MockCall>, outcomes: seq<Outcome>): Bytes {
    if calls == [] || outcomes == [] then []
    else Arriving(calls[0], outcomes[0]) + Arrivals(calls[1..], outcomes[1..])
  }

  /** Every byte delivered to the reader so far, then every byte still queued. */
  function Stream(s: MockState): Bytes {
    BytesOf(s.link.wire, RX) + Flatten(s.queue)
  }

  /** What every run keeps: `sent` is the emitted TX payloads, and the drop limit bounds it. */
  ghost predicate Inv(s: MockState) {
    && PayloadsOf(s.link.wire, TX) == s.sent
    && (s.dropAfterSends.Some? ==> |s.sent| <= if s.dropAfterSends.value > 0 then s.dropAfterSends.value else 0)
    && (s.link.state == Error ==> s.link.lastError.Some?)
  }

  lemma EmitHistory(l: Link, d: Direction, data: Bytes, note: Json, m: Moment, other: Direction)
    ensures BytesOf(l.Emit(d, data, note, m).wire, other) == BytesOf(l.wire, other) + if d == other then data else []
    ensures PayloadsOf(l.Emit(d, data, note, m).wire, other)
         == PayloadsOf(l.wire, other) + if d == other then [data] else []
  {
    var packet := NewPacket(d, data, note, m);
    BytesOfConcat(l.wire, [packet], other);
    PayloadsOfConcat(l.wire, [packet], other);
    assert [packet][1..] == [];
  }

  lemma FrontAndRemainder(payload: Bytes, size: nat)
    ensures Front(payload, size) + Flatten(Remainder(payload, size)) == payload
  {
    if |payload| > size {
      assert Flatten([payload[size..]]) == payload[size..];
    }
  }

  lemma SendConserves(s: MockState, data: Bytes, reply: Option<Bytes>, m: Moment)
    requires s.Send(data, reply, m).1.Sent?
    ensures Stream(s.Send(data, reply, m).0) == Stream(s) + if reply.Some? then reply.value else []
  {
    EmitHistory(s.link, TX, data, Null, m, RX);
    if reply.Some? {
      FlattenConcat(s.queue, [reply.value]);
      assert Flatten([reply.value]) == reply.value;
    }
  }

  lemma ReceiveConserves(s: MockState, size: nat, m: Moment)
    requires s.Receive(size, m).1.Received?
    ensures Stream(s.Receive(size, m).0) == Stream(s)
  {
    EmitHistory(s.link, RX, Front(s.queue[0], size), Null, m, RX);
    FlattenConcat(Remainder(s.queue[0], size), s.queue[1..]);
    FrontAndRemainder(s.queue[0], size);
  }

  lemma StepConserves(s: MockState, c: MockCall)
    ensures Stream(Step(s, c).0) == Stream(s) + Arriving(c, Step(s, c).1)
  {
    match c
    case QueueResponse(data) =>
      FlattenConcat(s.queue, [data]);
      assert Flatten([data]) == data;
    case Send(data, reply, m) =>
      hide Flatten, BytesOf;
      if s.Send(data, reply, m).1.Sent? {
        SendConserves(s, data, reply, m);
      }
    case Receive(size, m) =>
      if s.Receive(size, m).1.Received? {
        ReceiveConserves(s, size, m);
      }
    case _ =>
  }

  lemma StepKeepsInv(s: MockState, c: MockCall)
    requires Inv(s)
    ensures Inv(Step(s, c).0)
    ensures s.link.state == Error && !c.Connect? ==> Step(s, c).0.link.state == Error
    ensures s.link.state != Connected && Step(s, c).0.link.state == Connected ==>
              c.Connect? && s.failOnConnect == None && Step(s, c).0.link.lastError == None
  {
    hide BytesOf, PayloadsOf;
    match c
    case Send(data, reply, m) => EmitHistory(s.link, TX, data, Null, m, TX);
    case Receive(size, m) =>
      if s.link.state == Connected && s.queue != [] {
        EmitHistory(s.link, RX, s.Receive(size, m).1.data, Null, m, TX);
      }
    case _ =>
  }

  /** When the mock answers, and that a failed request changes neither queue, nor `sent`, nor history. */
  lemma FailuresMoveNothing(s: MockState, c: MockCall)
    requires c.Send? || c.Receive?
    ensures var (next, answer) := Step(s, c);
            && (c.Send? ==> (answer.Sent? <==> s.link.state == Connected && !s.Dropped()))
            && (c.Receive? ==> (answer.Received? <==> s.link.state == Connected && s.queue != []))
            && (answer.Raised? <==> !answer.Sent? && !answer.Received?)
            && (answer.Raised? ==>
                next.(link := s.link) == s && next.link.wire == s.link.wire && next.link.calls == s.link.calls)
            && (answer == Raised(ConnectionLost) <==> s.link.state == Connected && next.link.state == Error)
  {
  }

  /** What connecting and disconnecting do: the data are kept, and a disconnected mock is not CONNECTED. */
  lemma Lifecycle(s: MockState)
    ensures var (t, answer) := s.Connect();
            && t.(link := s.link) == s && (t.link.wire, t.link.calls) == (s.link.wire, s.link.calls)
            && (s.failOnConnect == None ==> answer == Done && t.link.state == Connected && t.link.lastError == None)
            && (s.failOnConnect.Some? ==>
                answer == Raised(ConnectionFailed) && t.link.state == Error && t.link.lastError == s.failOnConnect)
    ensures var t := s.Disconnect();
            && t.(link := s.link) == s && t.link == s.link.(state := t.link.state)
            && (t.link.state == Error <==> s.link.state == Error)
            && (t.link.state == Disconnected <==> s.link.state != Error)
  {
  }

  /**
   * A `send` succeeds exactly while connected with fewer sends made than the limit allows, and then keeps and emits
   * its data and queues the reply; a `receive` returns what fits of the head of the queue and keeps the rest there.
   */
  lemma RequestsAreAnswered(s: MockState, data: Bytes, reply: Option<Bytes>, size: nat, m: Moment)
    ensures var (t, answer) := s.Send(data, reply, m);
            var allowed := s.dropAfterSends == None || |s.sent| < s.dropAfterSends.value;
            && (answer == Raised(NotConnected) <==> s.link.state != Connected)
            && (answer == Raised(ConnectionLost) <==> s.link.state == Connected && !allowed)
            && (answer == Raised(ConnectionLost) ==> t.link.state == Error && t.link.lastError == Some(PEER_CLOSED))
            && (s.link.state == Connected && allowed ==>
                && answer == Sent(|data|) && t.sent == s.sent + [data]
                && t.link.wire == s.link.wire + [Packet(TX, data, m.timestamp, m.info, None, Null)]
                && t.queue == s.queue + (if reply.Some? then [reply.value] else []) && t.link.state == Connected)
    ensures var (t, answer) := s.Receive(size, m);
            && (answer == Raised(NotConnected) <==> s.link.state != Connected)
            && (answer == Raised(TimedOut) <==> s.link.state == Connected && s.queue == [])
            && (s.link.state == Connected && s.queue != [] ==>
                var n := if |s.queue[0]| < size then |s.queue[0]| else size;
                && answer == Received(s.queue[0][..n]) && t.link.state == Connected && t.sent == s.sent
                && t.link.wire == s.link.wire + [Packet(RX, s.queue[0][..n], m.timestamp, m.info, None, Null)]
                && t.queue == (if n < |s.queue[0]| then [s.queue[0][n..]] else []) + s.queue[1..])
  {
    if s.link.state == Connected && s.queue != [] {
      ShortRead(s.queue[0], size);
      EmitOnce(s.link, RX, s.Receive(size, m).1.data, Null, m);
    }
    EmitOnce(s.link, TX, data, Null, m);
  }

  lemma DropLimitIsFixed(s: MockState, c: MockCall)
    ensures Step(s, c).0.dropAfterSends == s.dropAfterSends
  {
  }

  /**
   * For any read sizes, replies, failures and reconnects: what was delivered followed by what is still
   * queued is exactly what arrived, in arrival order.
   */
  lemma {:induction false} RunConserves(s: MockState, calls: seq<MockCall>)
    ensures Stream(Run(s, calls).0) == Stream(s) + Arrivals(calls, Run(s, calls).1)
    ensures Inv(s) ==> Inv(Run(s, calls).0)
    ensures Run(s, calls).0.dropAfterSends == s.dropAfterSends
    decreases calls
  {
    hide Step, Stream, Inv;
    if calls != [] {
      DropLimitIsFixed(s, calls[0]);
      var (next, outcome) := Step(s, calls[0]);
      StepConserves(s, calls[0]);
      if Inv(s) {
        StepKeepsInv(s, calls[0]);
      }
      RunConserves(next, calls[1..]);
      assert Run(s, calls).1[1..] == Run(next, calls[1..]).1;
    }
  }

  // -------------------------------------------- observers cannot disturb the I/O

  function Calm(c: MockCall): MockCall {
    match c
    case Send(_, _, m) => MockCall.Send(c.data, c.reply, m.(raising := {}))
    case Receive(_, m) => MockCall.Receive(c.size, m.(raising := {}))
    case _ => c
  }

  function WithoutError(s: MockState): MockState {
    s.(link := s.link.(lastError := None))
  }

  /** Two runs that differ only in which observers raise answer every call alike and differ only in `lastError`. */
  lemma {:induction false} RaisingChangesNothing(
      s: MockState, t: MockState, calls: seq<MockCall>, others: seq<MockCall>)
    requires WithoutError(s) == WithoutError(t)
    requires |calls| == |others| && forall i :: 0 <= i < |calls| ==> Calm(calls[i]) == Calm(others[i])
    ensures Run(s, calls).1 == Run(t, others).1
    ensures WithoutError(Run(s, calls).0) == WithoutError(Run(t, others).0)
    decreases calls
  {
    if calls != [] {
      assert Calm(calls[0]) == Calm(others[0]);
      RaisingChangesNothing(Step(s, calls[0]).0, Step(t, others[0]).0, calls[1..], others[1..]);
    }
  }
}
