/** The replay transport itself: the tape behind a connection (`ReplayTransport` of replay.py). */
module Replaying {
  import opened Wrappers
  import opened Hex
  import opened Packets
  import opened Base
  import opened Replay
  import Decoding

  const NO_PACKETS := "Capture contains no packets to replay"

  function Decimal(n: nat): string {
    (if n < 10 then "" else Decimal(n / 10)) + [Digit(n % 10)]
  }

  function IndexNote(index: nat): Json {
    Text("replay index " + Decimal(index))
  }

  datatype ReplayState = ReplayState(link: Link, tape: Tape) {
    function Connect(): (ReplayState, Outcome) {
      if tape.packets == [] then (this.(link := link.SetState(Error, Some(NO_PACKETS))), Raised(ConnectionFailed))
      else (ReplayState(link.SetState(Connected, None), tape.Rewind()), Done)
    }

    function Disconnect(): ReplayState {
      if link.state == Error then this else this.(link := link.SetState(Disconnected, None))
    }

    function Send(data: Bytes, m: Moment): (ReplayState, Outcome)
      requires tape.Valid()
    {
      if link.state != Connected then (this, Raised(NotConnected))
      else
        var (next, answer) := tape.Send(data);
        if answer.Raised? then (this.(tape := next), answer)
        else (ReplayState(link.Emit(TX, data, IndexNote(tape.Next(TX).value), m), next), answer)
    }

    function Receive(size: nat, m: Moment): (ReplayState, Outcome)
      requires tape.Valid()
    {
      if link.state != Connected then (this, Raised(NotConnected))
      else
        var (next, answer) := tape.Receive(size);
        if answer.Raised? then (this, answer)
        else (ReplayState(link.Emit(RX, answer.data, IndexNote(tape.Next(RX).value), m), next), answer)
    }
  }

  class ReplayTransport {
    const base: Transport
    var packets: seq<Packet>
    var cursor: nat
    var mismatches: seq<Mismatch>
    const strict: bool

    ghost function Model(): ReplayState
      reads this, base
    {
      ReplayState(base.Model(), Tape(packets, cursor, mismatches, strict))
    }

    ghost predicate Valid()
      reads this
    {
      cursor <= |packets|
    }

    constructor (source: seq<Packet>, strict: bool)
      ensures fresh(base) && Valid()
      ensures Model() == ReplayState(Link(Disconnected, None, [], [], []), Tape(source, 0, [], strict))
    {
      base := new Transport();
      packets, cursor, mismatches := source, 0, [];
      this.strict := strict;
    }

    method Rewind()
      modifies this
      ensures Valid()
      ensures Model() == old(Model()).(tape := old(Model()).tape.Rewind())
    {
      cursor, mismatches := 0, [];
    }

    method Connect() returns (r: Outcome)
      requires Valid()
      modifies this, base
      ensures Valid()
      ensures (Model(), r) == old(Model()).Connect()
    {
      if packets == [] {
        base.SetState(Error, Some(NO_PACKETS));
        return Raised(ConnectionFailed);
      }
      cursor, mismatches := 0, [];
      base.SetState(Connected, None);
      return Done;
    }

    method Disconnect()
      modifies this, base
      ensures Model() == old(Model()).Disconnect()
    {
      if base.state != Error {
        base.SetState(Disconnected, None);
      }
    }

    method FindNext(direction: Direction) returns (index: Option<nat>)
      requires Valid()
      ensures index == NextIndex(packets, cursor, direction)
    {
      for i := cursor to |packets|
        invariant NextIndex(packets, cursor, direction) == NextIndex(packets, i, direction)
      {
        if packets[i].direction == direction {
          return Some(i);
        }
      }
      return None;
    }

    method Send(data: Bytes, m: Moment) returns (r: Outcome)
      requires Valid()
      modifies this, base
      ensures Valid()
      ensures (Model(), r) == old(Model()).Send(data, m)
    {
      if base.state != Connected {
        return Raised(NotConnected);
      }
      var index := FindNext(TX);
      if index == None {
        return Raised(TimedOut);
      }
      var expected := packets[index.value].rawData;
      if expected != data {
        mismatches := mismatches + [Mismatch(index.value, expected, data)];
        if strict {
          return Raised(ReplayMismatch);
        }
      }
      cursor := index.value + 1;
      var _ := base.Emit(TX, data, IndexNote(index.value), m);
      return Sent(|data|);
    }

    method Receive(size: nat, m: Moment) returns (r: Outcome)
      requires Valid()
      modifies this, base
      ensures Valid()
      ensures (Model(), r) == old(Model()).Receive(size, m)
    {
      if base.state != Connected {
        return Raised(NotConnected);
      }
      var index := FindNext(RX);
      if index == None {
        return Raised(TimedOut);
      }
      var packet := packets[index.value];
      var payload := packet.rawData;
      cursor := index.value + 1;
      if |payload| > size {
        var remainder := payload[size..];
        payload := payload[..size];
        packets := packets[..cursor] + [SplitPacket(packet, remainder)] + packets[cursor..];
      }
      assert packets == old(packets)[..cursor] + Inserted(packet, size) + old(packets)[cursor..];
      var _ := base.Emit(RX, payload, IndexNote(index.value), m);
      return Received(payload);
    }
  }

  // ---------------------------------------------------------------- whole runs

  datatype ReplayCall =
    | Connect
    | Disconnect
    | Rewind
    | Send(data: Bytes, moment: Moment)
    | Receive(size: nat, moment: Moment)

  function Step(s: ReplayState, c: ReplayCall): (r: (ReplayState, Outcome))
    requires s.tape.Valid()
    ensures r.0.tape.Valid()
  {
    match c
    case Connect => s.Connect()
    case Disconnect => (s.Disconnect(), Done)
    case Rewind => (s.(tape := s.tape.Rewind()), Done)
    case Send(data, m) => s.Send(data, m)
    case Receive(size, m) => s.Receive(size, m)
  }

  function Run(s: ReplayState, calls: seq<ReplayCall>): (r: (ReplayState, seq<Outcome>))
    requires s.tape.Valid()
    ensures r.0.tape.Valid()
    decreases calls
  {
    if calls == [] then (s, [])
    else
      var (next, answer) := Step(s, calls[0]);
      var (last, answers) := Run(next, calls[1..]);
      (last, [answer] + answers)
  }

  /** The number in a note is the decimal writing of the index. */
  lemma {:induction false} DecimalReads(n: nat)
    ensures Decoding.Reading(Decimal(n)) == Some(n)
  {
    var front: string := if n < 10 then "" else Decimal(n / 10);
    if n >= 10 {
      DecimalReads(n / 10);
    }
    Decoding.ReadingSnoc(front, Digit(n % 10));
    Decoding.DecimalDigit(n % 10);
  }

  /**
   * Connected, a request is answered by the tape, and only a success emits: the data that crossed, noting the index of
   * the packet just passed. Not connected, every request is refused and nothing happens.
   */
  lemma RequestsAreEmitted(s: ReplayState, r: Request, m: Moment)
    requires s.tape.Valid()
    ensures var (t, answer) := if r.Send? then s.Send(r.data, m) else s.Receive(r.size, m);
            && (s.link.state != Connected ==> t == s && answer == Raised(NotConnected))
            && (s.link.state == Connected ==> (t.tape, answer) == Do(s.tape, r) && t.link.state == Connected)
            && (answer.Raised? ==> t.link == s.link)
            && (answer.Sent? ==>
                r.Send? && t.tape.cursor > 0 && t.link.wire == s.link.wire
                + [Packet(TX, r.data, m.timestamp, m.info, None, IndexNote(t.tape.cursor - 1))])
            && (answer.Received? ==>
                r.Receive? && t.tape.cursor > 0 && t.link.wire == s.link.wire
                + [Packet(RX, answer.data, m.timestamp, m.info, None, IndexNote(t.tape.cursor - 1))])
  {
    hide NextIndex;
  }

  /** What connecting and disconnecting do: the packets are kept, and a disconnected replay is not CONNECTED. */
  lemma Lifecycle(s: ReplayState)
    ensures var (t, answer) := s.Connect();
            && t.tape.packets == s.tape.packets && t.tape.strict == s.tape.strict
            && (t.link.wire, t.link.calls) == (s.link.wire, s.link.calls)
            && (answer == Raised(ConnectionFailed) <==> s.tape.packets == [])
            && (answer == Done <==> s.tape.packets != [])
            && (answer == Done ==>
                t.link.state == Connected && t.link.lastError == None && t.tape.cursor == 0 && t.tape.mismatches == [])
            && (answer != Done ==> t.link.state == Error && t.link.lastError == Some(NO_PACKETS) && t.tape == s.tape)
    ensures var t := s.Disconnect();
            && t.tape == s.tape && t.link == s.link.(state := t.link.state)
            && (t.link.state == Error <==> s.link.state == Error)
            && (t.link.state == Disconnected <==> s.link.state != Error)
  {
  }

  /** In lenient mode the log stays truthful over every run, despite later remainder insertions. */
  lemma {:induction false} LenientLogStaysTruthful(s: ReplayState, calls: seq<ReplayCall>)
    requires LenientLog(s.tape) && !s.tape.strict
    ensures LenientLog(Run(s, calls).0.tape)
    decreases calls
  {
    if calls != [] {
      match calls[0] {
        case Send(data, m) => LenientLogKept(s.tape, Request.Send(data));
        case Receive(size, m) => LenientLogKept(s.tape, Request.Receive(size));
        case _ =>
      }
      LenientLogStaysTruthful(Step(s, calls[0]).0, calls[1..]);
    }
  }

  /**
   * Whether the strict log is truthful after a run, given whether it was before: a read that splits a packet below
   * one of its entries spoils it, and a `connect` or `rewind` empties it.
   */
  predicate LogSurvives(s: ReplayState, calls: seq<ReplayCall>, truthful: bool)
    requires s.tape.Valid()
    decreases calls
  {
    if calls == [] then truthful else LogSurvives(Step(s, calls[0]).0, calls[1..], SurvivesStep(s, calls[0], truthful))
  }

  predicate SurvivesStep(s: ReplayState, c: ReplayCall, truthful: bool)
    requires s.tape.Valid()
  {
    match c
    case Connect => true
    case Rewind => true
    case Receive(size, _) => truthful && !(s.link.state == Connected && SplitsBelowEntry(s.tape, size))
    case _ => truthful
  }

  lemma StrictStep(s: ReplayState, c: ReplayCall)
    requires StrictEntries(s.tape)
    ensures StrictEntries(Step(s, c).0.tape)
    ensures TruthfulLog(Step(s, c).0.tape) <==> SurvivesStep(s, c, TruthfulLog(s.tape))
  {
    hide NextIndex, SplitsBelowEntry, Tape.Send, Tape.Receive;
    match c
    case Connect => NothingLogged(s.tape);
    case Rewind => NothingLogged(s.tape);
    case Send(data, _) => StrictSendKeepsLog(s.tape, data); FailedReadKeepsTape(s.tape, 0);
    case Receive(size, _) => StrictLogBreaksOnSplit(s.tape, size); FailedReadKeepsTape(s.tape, size);
    case Disconnect =>
  }

  lemma NothingLogged(t: Tape)
    requires StrictEntries(t)
    ensures StrictEntries(t.Rewind()) && TruthfulLog(t.Rewind())
    ensures t.packets == [] ==> TruthfulLog(t)
  {
    assert forall k :: 0 <= k < |t.mismatches| ==> t.mismatches[k] in t.mismatches;
  }

  lemma FailedReadKeepsTape(t: Tape, size: nat)
    requires t.Valid()
    ensures t.Receive(size).1.Raised? ==> t.Receive(size).0 == t
  {
  }

  /**
   * Over every run, resets included, the mismatch log of a transport (in strict mode too) points at TX packets with
   * the bytes it says exactly when no read since the last reset split a packet below one of its entries.
   */
  lemma {:induction false} StrictLogSurvives(s: ReplayState, calls: seq<ReplayCall>)
    requires StrictEntries(s.tape)
    ensures TruthfulLog(Run(s, calls).0.tape) <==> LogSurvives(s, calls, TruthfulLog(s.tape))
    ensures StrictEntries(Run(s, calls).0.tape)
    decreases calls
  {
    hide Step, TruthfulLog, SurvivesStep;
    if calls != [] {
      StrictStep(s, calls[0]);
      StrictLogSurvives(Step(s, calls[0]).0, calls[1..]);
    }
  }

  // -------------------------------------------- observers cannot disturb the replay

  function Calm(c: ReplayCall): ReplayCall {
    match c
    case Send(_, m) => ReplayCall.Send(c.data, m.(raising := {}))
    case Receive(_, m) => ReplayCall.Receive(c.size, m.(raising := {}))
    case _ => c
  }

  function WithoutError(s: ReplayState): ReplayState {
    s.(link := s.link.(lastError := None))
  }

  /** Two runs that differ only in which observers raise answer alike and end differing in `lastError` only. */
  lemma {:induction false} RaisingChangesNothing(
      s: ReplayState, t: ReplayState, calls: seq<ReplayCall>, others: seq<ReplayCall>)
    requires s.tape.Valid() && WithoutError(s) == WithoutError(t)
    requires |calls| == |others| && forall i :: 0 <= i < |calls| ==> Calm(calls[i]) == Calm(others[i])
    ensures Run(s, calls).1 == Run(t, others).1
    ensures WithoutError(Run(s, calls).0) == WithoutError(Run(t, others).0)
    decreases calls
  {
    hide Tape.Send, Tape.Receive;
    if calls != [] {
      assert Calm(calls[0]) == Calm(others[0]);
      RaisingChangesNothing(Step(s, calls[0]).0, Step(t, others[0]).0, calls[1..], others[1..]);
    }
  }

  // ------------------------------------------------------------- the rewind law

  predicate StepSplits(s: ReplayState, c: ReplayCall)
    requires s.tape.Valid()
  {
    c.Receive? && s.link.state == Connected && s.tape.Splits(c.size)
  }

  predicate NeverSplits(s: ReplayState, calls: seq<ReplayCall>)
    requires s.tape.Valid()
    decreases calls
  {
    calls == [] || (!StepSplits(s, calls[0]) && NeverSplits(Step(s, calls[0]).0, calls[1..]))
  }

  /** The bytes of the remainders inserted along a run. */
  function InsertedCount(s: ReplayState, calls: seq<ReplayCall>): nat
    requires s.tape.Valid()
    decreases calls
  {
    if calls == [] then 0
    else (if StepSplits(s, calls[0])
          then |s.tape.packets[s.tape.Next(RX).value].rawData| - calls[0].size else 0)
         + InsertedCount(Step(s, calls[0]).0, calls[1..])
  }

  /** The RX bytes a reader sees from the start of the recording. */
  function Total(s: ReplayState): nat {
    |BytesOf(s.tape.packets, RX)|
  }

  lemma SplitGrowth(t: Tape, size: nat)
    requires t.Valid() && t.Next(RX).Some?
    ensures var p := t.packets[t.Next(RX).value];
            && |BytesOf(t.Receive(size).0.packets, RX)|
               == |BytesOf(t.packets, RX)| + (if t.Splits(size) then |p.rawData| - size else 0)
            && (!t.Splits(size) ==> t.Receive(size).0.packets == t.packets)
  {
    var i := t.Next(RX).value;
    var before, inserted, after := t.packets[..i + 1], Inserted(t.packets[i], size), t.packets[i + 1..];
    assert t.packets == before + after;
    BytesOfConcat(before, after, RX);
    BytesOfConcat(before + inserted, after, RX);
    BytesOfConcat(before, inserted, RX);
    assert inserted != [] ==> inserted[1..] == [];
  }

  lemma StepGrowth(s: ReplayState, c: ReplayCall)
    requires s.tape.Valid()
    ensures Total(Step(s, c).0) == Total(s) + InsertedCount(s, [c])
    ensures !StepSplits(s, c) ==> Step(s, c).0.tape.packets == s.tape.packets
    ensures Step(s, c).0.tape.strict == s.tape.strict
  {
    hide NextIndex, BytesOf;
    assert [c][1..] == [];
    if c.Receive? && s.link.state == Connected && s.tape.Next(RX).Some? {
      SplitGrowth(s.tape, c.size);
    }
  }

  /** Each split makes the recording, seen from its start, longer by exactly the remainder it inserted. */
  lemma {:induction false} SplitsGrowTheRecording(s: ReplayState, calls: seq<ReplayCall>)
    requires s.tape.Valid()
    ensures Total(Run(s, calls).0) == Total(s) + InsertedCount(s, calls)
    ensures InsertedCount(s, calls) == 0 <==> NeverSplits(s, calls)
    ensures NeverSplits(s, calls) ==> Run(s, calls).0.tape.packets == s.tape.packets
    ensures Run(s, calls).0.tape.strict == s.tape.strict
    decreases calls
  {
    if calls != [] {
      StepGrowth(s, calls[0]);
      assert [calls[0]][1..] == [];
      SplitsGrowTheRecording(Step(s, calls[0]).0, calls[1..]);
    }
  }

  /** Answers depend on the tape and the connection state only. */
  lemma {:induction false} SameTapeSameAnswers(s: ReplayState, t: ReplayState, calls: seq<ReplayCall>)
    requires s.tape.Valid() && s.tape == t.tape && s.link.state == t.link.state
    ensures Run(s, calls).1 == Run(t, calls).1
    decreases calls
  {
    if calls != [] {
      SameTapeSameAnswers(Step(s, calls[0]).0, Step(t, calls[0]).0, calls[1..]);
    }
  }

  function RequestsOf(calls: seq<ReplayCall>): seq<Request>
    requires forall i :: 0 <= i < |calls| ==> calls[i].Send? || calls[i].Receive?
  {
    seq(|calls|, i requires 0 <= i < |calls| =>
      match calls[i]
      case Send(data, _) => Request.Send(data)
      case Receive(size, _) => Request.Receive(size)
      case _ => Request.Receive(0))
  }

  /** Connected, the transport answers as the bare tape does. */
  lemma {:induction false} ConnectedRunFollowsTape(s: ReplayState, calls: seq<ReplayCall>)
    requires s.tape.Valid() && s.link.state == Connected
    requires forall i :: 0 <= i < |calls| ==> calls[i].Send? || calls[i].Receive?
    ensures (Run(s, calls).0.tape, Run(s, calls).1) == DoAll(s.tape, RequestsOf(calls))
    decreases calls
  {
    if calls != [] {
      assert RequestsOf(calls)[1..] == RequestsOf(calls[1..]);
      assert calls[0].Send? || calls[0].Receive?;
      ConnectedRunFollowsTape(Step(s, calls[0]).0, calls[1..]);
    } else {
      assert RequestsOf(calls) == [];
    }
  }

  function Reads(n: nat, size: nat): seq<Request> {
    seq(n, _ => Request.Receive(size))
  }

  /** Enough reads, each large enough for any packet, return every RX byte still on the tape. */
  lemma {:induction false} DrainReadsEverything(t: Tape, n: nat, size: nat)
    requires t.Valid() && n >= |t.packets| - t.cursor
    requires forall i :: 0 <= i < |t.packets| ==> |t.packets[i].rawData| <= size
    ensures Delivered(DoAll(t, Reads(n, size)).1) == BytesOf(t.Pending(), RX)
    decreases n
  {
    hide NextIndex;
    if t.Next(RX) == None {
      OtherDirection(t.Pending(), RX);
      ReadsConserve(t, Reads(n, size));
    } else {
      var next := t.Receive(size).0;
      assert next.packets == t.packets;
      DrainReadsEverything(next, n - 1, size);
      ReceiveConserves(t, size);
      assert Reads(n, size)[1..] == Reads(n - 1, size);
      assert DoAll(t, Reads(n, size)).1[1..] == DoAll(next, Reads(n - 1, size)).1;
    }
  }

  function Largest(packets: seq<Packet>): (n: nat)
    ensures forall i :: 0 <= i < |packets| ==> |packets[i].rawData| <= n
  {
    if packets == [] then 0
    else
      var rest := Largest(packets[1..]);
      if |packets[0].rawData| > rest then |packets[0].rawData| else rest
  }

  /** Reconnected replays whose recordings hold different numbers of RX bytes can be told apart by reading. */
  lemma DrainTellsApart(s: ReplayState, t: ReplayState)
    requires s.tape.packets != [] && t.tape.packets != [] && Total(s) != Total(t)
    ensures exists later: seq<ReplayCall> :: Run(s.Connect().0, later).1 != Run(t.Connect().0, later).1
  {
    var n := |s.tape.packets| + |t.tape.packets|;
    var size := Largest(s.tape.packets) + Largest(t.tape.packets);
    var m := Moment(0.0, map[], {});
    var later := seq(n, _ => ReplayCall.Receive(size, m));
    assert RequestsOf(later) == Reads(n, size);
    forall r: ReplayState | r == s || r == t
      ensures |Delivered(Run(r.Connect().0, later).1)| == Total(r)
    {
      var start := r.Connect().0;
      ConnectedRunFollowsTape(start, later);
      DrainReadsEverything(start.tape, n, size);
      assert start.tape.Pending() == r.tape.packets;
    }
    assert Run(s.Connect().0, later).1 != Run(t.Connect().0, later).1;
  }

  /** No later call sequence tells the two states apart. */
  ghost predicate Indistinguishable(s: ReplayState, t: ReplayState)
    requires s.tape.Valid() && t.tape.Valid()
  {
    forall later: seq<ReplayCall> :: Run(s, later).1 == Run(t, later).1
  }

  /**
   * After a run, reconnecting makes the replay behave as the first time, for every later call sequence,
   * exactly when the run never split a packet.
   */
  lemma {:induction false} RewindLaw(s: ReplayState, calls: seq<ReplayCall>)
    requires s.tape.Valid() && s.tape.packets != []
    ensures Indistinguishable(Run(s, calls).0.Connect().0, s.Connect().0) <==> NeverSplits(s, calls)
  {
    var after := Run(s, calls).0;
    SplitsGrowTheRecording(s, calls);
    if NeverSplits(s, calls) {
      forall later: seq<ReplayCall>
        ensures Run(after.Connect().0, later).1 == Run(s.Connect().0, later).1
      {
        SameTapeSameAnswers(after.Connect().0, s.Connect().0, later);
      }
    } else {
      assert after.tape.packets != [];
      DrainTellsApart(after, s);
    }
  }

  /** `rewind` brings back the tape as it was at the start exactly when the run never split a packet. */
  lemma {:induction false} RewindRestoresTheTape(s: ReplayState, calls: seq<ReplayCall>)
    requires s.tape.Valid()
    ensures Run(s, calls).0.tape.Rewind() == s.tape.Rewind() <==> NeverSplits(s, calls)
  {
    SplitsGrowTheRecording(s, calls);
  }

  /** A recording of two bytes, read one at a time and connected again, is three bytes long. */
  lemma RewindRepeatsAfterSplit()
    ensures var rx := Packet(RX, [1, 2], 0.0, map[], None, Null);
            var s := ReplayState(Link(Connected, None, [], [], []), Tape([rx], 0, [], true));
            Total(s) == 2 && Total(Run(s, [ReplayCall.Receive(1, Moment(0.0, map[], {}))]).0.Connect().0) == 3
  {
    var rx := Packet(RX, [1, 2], 0.0, map[], None, Null);
    var s := ReplayState(Link(Connected, None, [], [], []), Tape([rx], 0, [], true));
    var calls := [ReplayCall.Receive(1, Moment(0.0, map[], {}))];
    assert [rx][1..] == [] && calls[1..] == [];
    assert s.tape.Next(RX) == Some(0);
    assert InsertedCount(s, calls) == 1;
    SplitsGrowTheRecording(s, calls);
  }
}
