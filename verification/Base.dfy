/** What every transport shares: lifecycle state, observers and packet emission (base.py). */
module Base {
  import opened Wrappers
  import opened Hex
  import opened Packets

  datatype ConnectionState = Disconnected | Connecting | Connected | Error

  /** The exceptions an operation can raise. */
  datatype Fault =
    | NotConnected | ConnectionFailed | ConnectionLost | TimedOut | ReplayMismatch
    | UnverifiedParameter | InterfaceNotFound | InterfaceUnavailable | SystemError

  datatype Outcome = Done | Sent(count: nat) | Received(data: Bytes) | Raised(fault: Fault)

  /** What a client asks of a transport. */
  datatype Request = Send(data: Bytes) | Receive(size: nat)

  /** A registered callback; the same callback may be registered more than once. */
  datatype Observer = Observer(id: nat)

  datatype Call = Call(observer: Observer, packet: Packet)

  /** What is outside the transport when it emits: the clock, the interface info, the callbacks that raise. */
  datatype Moment = Moment(timestamp: real, info: Dict, raising: set<Observer>)

  /**
   * The value of the shared part of a transport. `wire` and `calls` are its history: every packet
   * emitted so far, and every call made to an observer.
   */
  datatype Link = Link(
    state: ConnectionState,
    lastError: Option<string>,
    observers: seq<Observer>,
    wire: seq<Packet>,
    calls: seq<Call>)
  {
    function SetState(newState: ConnectionState, error: Option<string>): Link {
      this.(state := newState,
            lastError := if error.Some? then error else if newState == Connected then None else lastError)
    }

    /** Every registered observer is called once, in order, whether or not the others raise. */
    function Emit(direction: Direction, data: Bytes, note: Json, m: Moment): Link {
      var packet := NewPacket(direction, data, note, m);
      this.(wire := wire + [packet],
            calls := calls + CallsFor(observers, packet),
            lastError := if AnyRaises(observers, m.raising) then Some(OBSERVER_FAILED) else lastError)
    }
  }

  const OBSERVER_FAILED := "packet observer failed"

  function NewPacket(direction: Direction, data: Bytes, note: Json, m: Moment): Packet {
    Packet(direction, data, m.timestamp, m.info, None, note)
  }

  function CallsFor(observers: seq<Observer>, packet: Packet): seq<Call> {
    seq(|observers|, i requires 0 <= i < |observers| => Call(observers[i], packet))
  }

  predicate AnyRaises(observers: seq<Observer>, raising: set<Observer>) {
    exists o <- observers :: o in raising
  }

  /** `list.remove`: the list without the first occurrence of `o`. */
  function Removed(observers: seq<Observer>, o: Observer): seq<Observer> {
    if observers == [] then []
    else if observers[0] == o then observers[1..]
    else [observers[0]] + Removed(observers[1..], o)
  }

  /** An error stays readable until a connection without one: only then is it cleared, or when another replaces it. */
  lemma ErrorsStay(l: Link, state: ConnectionState, error: Option<string>)
    ensures var after := l.SetState(state, error);
            && after.state == state && (after.wire, after.calls, after.observers) == (l.wire, l.calls, l.observers)
            && (after.lastError == None <==> error == None && (state == Connected || l.lastError == None))
            && (error.Some? ==> after.lastError == error)
            && (error == None && state != Connected ==> after.lastError == l.lastError)
  {
  }

  class Transport {
    var state: ConnectionState
    var lastError: Option<string>
    var observers: seq<Observer>
    ghost var wire: seq<Packet>
    ghost var calls: seq<Call>

    ghost function Model(): Link
      reads this
    {
      Link(state, lastError, observers, wire, calls)
    }

    constructor ()
      ensures Model() == Link(Disconnected, None, [], [], [])
    {
      state, lastError, observers := Disconnected, None, [];
      wire, calls := [], [];
    }

    method SetState(newState: ConnectionState, error: Option<string>)
      modifies this
      ensures Model() == old(Model()).SetState(newState, error)
    {
      state := newState;
      if error.Some? {
        lastError := error;
      } else if newState == Connected {
        lastError := None;
      }
    }

    method AddObserver(o: Observer)
      modifies this`observers
      ensures observers == old(observers) + [o]
    {
      observers := observers + [o];
    }

    method RemoveObserver(o: Observer)
      modifies this`observers
      ensures observers == Removed(old(observers), o)
    {
      if o in observers {
        observers := Removed(observers, o);
      } else {
        RemoveAbsent(observers, o);
      }
    }

    method Emit(direction: Direction, data: Bytes, note: Json, m: Moment) returns (packet: Packet)
      modifies this
      ensures packet == NewPacket(direction, data, note, m)
      ensures Model() == old(Model()).Emit(direction, data, note, m)
    {
      packet := Packet(direction, data, m.timestamp, m.info, None, note);
      wire := wire + [packet];
      for i := 0 to |observers|
        invariant state == old(state) && observers == old(observers)
        invariant wire == old(wire) + [packet]
        invariant calls == old(calls) + CallsFor(observers[..i], packet)
        invariant lastError == if AnyRaises(observers[..i], m.raising) then Some(OBSERVER_FAILED) else old(lastError)
      {
        assert observers[..i + 1] == observers[..i] + [observers[i]];
        calls := calls + [Call(observers[i], packet)];
        if observers[i] in m.raising {
          lastError := Some(OBSERVER_FAILED);
        }
      }
      assert observers[..|observers|] == observers;
    }
  }

  // ---------------------------------------------------------------- short reads

  /** What a read of at most `size` bytes returns of a payload. */
  function Front(payload: Bytes, size: nat): Bytes {
    if |payload| > size then payload[..size] else payload
  }

  /** What such a read leaves of it: nothing, or one non-empty payload. */
  function Remainder(payload: Bytes, size: nat): seq<Bytes> {
    if |payload| > size then [payload[size..]] else []
  }

  /** A short read returns as much as fits, from the front, and leaves exactly the rest. */
  lemma ShortRead(payload: Bytes, size: nat)
    ensures var front, rest := Front(payload, size), Remainder(payload, size);
            && front <= payload && |front| == (if |payload| < size then |payload| else size)
            && (rest == [] <==> |payload| <= size)
            && (rest != [] ==> rest == [payload[|front|..]])
  {
  }

  // ------------------------------------------------------- reading the history

  /** The bytes of the packets going one way, in order. */
  function BytesOf(packets: seq<Packet>, direction: Direction): Bytes {
    if packets == [] then []
    else (if packets[0].direction == direction then packets[0].rawData else [])
         + BytesOf(packets[1..], direction)
  }

  function PayloadsOf(packets: seq<Packet>, direction: Direction): seq<Bytes> {
    if packets == [] then []
    else (if packets[0].direction == direction then [packets[0].rawData] else [])
         + PayloadsOf(packets[1..], direction)
  }

  /** The packets one observer was called with, in order. */
  function SeenBy(o: Observer, calls: seq<Call>): seq<Packet> {
    if calls == [] then []
    else (if calls[0].observer == o then [calls[0].packet] else []) + SeenBy(o, calls[1..])
  }

  lemma {:induction false} BytesOfConcat(a: seq<Packet>, b: seq<Packet>, d: Direction)
    ensures BytesOf(a + b, d) == BytesOf(a, d) + BytesOf(b, d)
  {
    if a == [] {
      assert a + b == b;
    } else {
      assert (a + b)[1..] == a[1..] + b;
      BytesOfConcat(a[1..], b, d);
    }
  }

  lemma {:induction false} PayloadsOfConcat(a: seq<Packet>, b: seq<Packet>, d: Direction)
    ensures PayloadsOf(a + b, d) == PayloadsOf(a, d) + PayloadsOf(b, d)
  {
    if a == [] {
      assert a + b == b;
    } else {
      assert (a + b)[1..] == a[1..] + b;
      PayloadsOfConcat(a[1..], b, d);
    }
  }

  lemma {:induction false} SeenByConcat(o: Observer, a: seq<Call>, b: seq<Call>)
    ensures SeenBy(o, a + b) == SeenBy(o, a) + SeenBy(o, b)
  {
    if a == [] {
      assert a + b == b;
    } else {
      assert (a + b)[1..] == a[1..] + b;
      SeenByConcat(o, a[1..], b);
    }
  }

  function Times(n: nat, packet: Packet): seq<Packet> {
    seq(n, _ => packet)
  }

  lemma CountOfFirst(o: Observer, observers: seq<Observer>)
    requires observers != []
    ensures multiset(observers)[o] == multiset(observers[1..])[o] + (if observers[0] == o then 1 else 0)
  {
    assert observers == [observers[0]] + observers[1..];
  }

  lemma {:induction false} SeenInOneRound(o: Observer, observers: seq<Observer>, packet: Packet)
    ensures SeenBy(o, CallsFor(observers, packet)) == Times(multiset(observers)[o], packet)
  {
    if observers != [] {
      var first, rest := observers[0], observers[1..];
      SeenInOneRound(o, rest, packet);
      CountOfFirst(o, observers);
      assert CallsFor(observers, packet)[1..] == CallsFor(rest, packet);
    }
  }

  /**
   * Observers cannot disturb each other or the I/O: an observer sees each packet exactly as often as it
   * is registered, and only `lastError` depends on which observers raise.
   */
  lemma ObserverIsolation(
      l: Link, d: Direction, data: Bytes, note: Json, m: Moment, raising: set<Observer>, o: Observer)
    ensures var after := l.Emit(d, data, note, m);
            && SeenBy(o, after.calls)
               == SeenBy(o, l.calls) + Times(multiset(l.observers)[o], NewPacket(d, data, note, m))
            && after.(lastError := None) == l.Emit(d, data, note, m.(raising := raising)).(lastError := None)
            && ((exists x <- l.observers :: x in m.raising) ==> after.lastError == Some(OBSERVER_FAILED))
            && (after.lastError != l.lastError ==> exists x <- l.observers :: x in m.raising)
  {
    var packet := NewPacket(d, data, note, m);
    SeenByConcat(o, l.calls, CallsFor(l.observers, packet));
    SeenInOneRound(o, l.observers, packet);
    assert packet == NewPacket(d, data, note, m.(raising := raising));
  }

  /** One emission: one packet on the wire with these data, one call an observer, in the order of registration. */
  lemma EmitOnce(l: Link, d: Direction, data: Bytes, note: Json, m: Moment)
    ensures var after, n := l.Emit(d, data, note, m), |l.calls|;
            var packet := Packet(d, data, m.timestamp, m.info, None, note);
            && after.wire == l.wire + [packet]
            && after.calls[..n] == l.calls && |after.calls| == n + |l.observers|
            && (forall i :: 0 <= i < |l.observers| ==> after.calls[n + i] == Call(l.observers[i], packet))
            && after.state == l.state && after.observers == l.observers
  {
  }

  lemma {:induction false} RemoveAbsent(observers: seq<Observer>, o: Observer)
    requires o !in observers
    ensures Removed(observers, o) == observers
  {
    if observers != [] {
      RemoveAbsent(observers[1..], o);
    }
  }

  /** Removing an observer takes out its earliest registration and no other callback's. */
  lemma {:induction false} RemoveTakesTheFirst(a: seq<Observer>, o: Observer, b: seq<Observer>)
    requires o !in a
    ensures Removed(a + [o] + b, o) == a + b
  {
    if a == [] {
      assert a + [o] + b == [o] + b;
      assert a + b == b;
    } else {
      assert (a + [o] + b)[1..] == a[1..] + [o] + b;
      RemoveTakesTheFirst(a[1..], o, b);
    }
  }
}
