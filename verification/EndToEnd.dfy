/** From live TCP traffic, through a capture file, to a replay that answers alike. */
module EndToEnd {
  import opened Wrappers
  import opened Hex
  import opened Packets
  import opened Base
  import opened Replay
  import opened Transcripts
  import opened Enet
  import R = Replaying
  import C = Capture
  import E = EnetRuns
  import EnetCalls
  import Fidelity

  // ------------------------------------------------------- what is said over TCP

  /** One `send` or `receive` of the transport, its answer, and the moment it was made. */
  datatype Spoken = Spoken(request: Request, answer: Outcome, moment: Moment)

  function PacketOf(x: Spoken): seq<Packet> {
    match x.request
    case Send(data) => if x.answer.Sent? then [NewPacket(TX, data, Null, x.moment)] else []
    case Receive(_) => if x.answer.Received? then [NewPacket(RX, x.answer.data, Null, x.moment)] else []
  }

  /** The packets emitted for what was said: one per success. */
  function PacketsOf(talk: seq<Spoken>): seq<Packet> {
    if talk == [] then [] else PacketOf(talk[0]) + PacketsOf(talk[1..])
  }

  function Exchanges(talk: seq<Spoken>): seq<Exchange> {
    seq(|talk|, i requires 0 <= i < |talk| => Exchange(talk[i].request, talk[i].answer))
  }

  /** The reads of `receive_exactly`. */
  function AssembleTalk(
      s: EnetState, size: int, deadline: real, buffer: Bytes, answers: nat -> RecvAnswer, n: nat): seq<Spoken>
    requires s.Ready()
    decreases size - |buffer|
  {
    if |buffer| >= size || deadline - s.now <= 0.0 then []
    else
      var (next, answer) := s.Receive(size - |buffer|, Some(deadline - s.now), answers(n));
      [Spoken(Request.Receive(size - |buffer|), answer, answers(n).moment)]
      + if answer.Received? then AssembleTalk(next, size, deadline, buffer + answer.data, answers, n + 1) else []
  }

  /** The reads of the passive listener. */
  function ListenTalk(s: EnetState, deadline: real, answers: nat -> RecvAnswer, n: nat): seq<Spoken>
    requires s.Ready()
    decreases |s.Unread()|, (deadline - s.now) * 20.0
  {
    if s.now >= deadline then []
    else
      var (next, answer) := s.Receive(4096, Some(s.Slice(deadline)), answers(n));
      [Spoken(Request.Receive(4096), answer, answers(n).moment)]
      + if answer == Raised(TimedOut) || !answer.Raised? then ListenTalk(next, deadline, answers, n + 1) else []
  }

  function CallTalk(s: EnetState, c: E.EnetCall): seq<Spoken>
    requires s.Ready()
  {
    match c
    case Send(data, _, m) => [Spoken(Request.Send(data), E.Step(s, c).1, m)]
    case Receive(size, _, a) => [Spoken(Request.Receive(size), E.Step(s, c).1, a.moment)]
    case ReceiveExactly(size, timeout, answers) =>
      AssembleTalk(s, size, s.now + (if timeout.Some? then timeout.value else s.config.receiveTimeout), [], answers, 0)
    case Listen(duration, answers) => ListenTalk(s, s.now + duration, answers, 0)
    case _ => []
  }

  /** Every `send` and `receive` made during a run. */
  function Talk(s: EnetState, calls: seq<E.EnetCall>): seq<Spoken>
    requires s.Ready()
    decreases calls
  {
    if calls == [] then [] else CallTalk(s, calls[0]) + Talk(E.Step(s, calls[0]).0, calls[1..])
  }

  // ------------------------------------------------------------ what is recorded

  /** From `s` to `t` this was said, and the observer saw exactly its packets. */
  ghost predicate Observed(o: Observer, s: EnetState, t: EnetState, talk: seq<Spoken>) {
    && t.link.observers == s.link.observers
    && SeenBy(o, t.link.calls) == SeenBy(o, s.link.calls) + PacketsOf(talk)
    && Recorded(Exchanges(talk), PacketsOf(talk))
  }

  lemma NothingSaid(o: Observer, s: EnetState, t: EnetState)
    requires t.link.observers == s.link.observers && t.link.calls == s.link.calls
    ensures Observed(o, s, t, [])
  {
    assert Exchanges([]) == [];
  }

  lemma {:induction false} PacketsOfConcat(a: seq<Spoken>, b: seq<Spoken>)
    ensures PacketsOf(a + b) == PacketsOf(a) + PacketsOf(b)
    ensures Exchanges(a + b) == Exchanges(a) + Exchanges(b)
  {
    if a == [] {
      assert a + b == b;
    } else {
      assert (a + b)[1..] == a[1..] + b;
      PacketsOfConcat(a[1..], b);
    }
  }

  lemma ObservedOn(o: Observer, s: EnetState, a: seq<Spoken>, m: EnetState, b: seq<Spoken>, t: EnetState)
    requires Observed(o, s, m, a) && Observed(o, m, t, b)
    ensures Observed(o, s, t, a + b)
  {
    hide Recorded, PacketsOf, Exchanges, SeenBy;
    PacketsOfConcat(a, b);
    RecordedConcat(Exchanges(a), PacketsOf(a), Exchanges(b), PacketsOf(b));
  }

  lemma OneSaid(x: Spoken)
    requires x.answer.Raised? || (x.request.Send? && x.answer == Sent(|x.request.data|))
          || (x.request.Receive? && x.answer.Received? && |x.answer.data| <= x.request.size)
    ensures PacketsOf([x]) == PacketOf(x) && Recorded(Exchanges([x]), PacketsOf([x]))
  {
    assert [x][1..] == [] && Exchanges([x]) == [Exchange(x.request, x.answer)];
    assert Exchanges([x])[1..] == [];
  }

  lemma SendObserved(o: Observer, s: EnetState, data: Bytes, written: SendAnswer, m: Moment)
    requires s.Ready() && multiset(s.link.observers)[o] == 1
    ensures var (t, answer) := s.Send(data, written, m);
            Observed(o, s, t, [Spoken(Request.Send(data), answer, m)])
  {
    hide SeenBy, Recorded, PacketsOf, Exchanges;
    OneSaid(Spoken(Request.Send(data), s.Send(data, written, m).1, m));
    ObserverIsolation(s.link, TX, data, Null, m, {}, o);
  }

  lemma ReceiveObserved(o: Observer, s: EnetState, size: Size, timeout: Option<Timeout>, a: RecvAnswer)
    requires s.Ready() && multiset(s.link.observers)[o] == 1
    ensures var (t, answer) := s.Receive(size, timeout, a);
            Observed(o, s, t, [Spoken(Request.Receive(size), answer, a.moment)])
  {
    hide SeenBy, Recorded, PacketsOf, Exchanges;
    var answer := s.Receive(size, timeout, a).1;
    OneSaid(Spoken(Request.Receive(size), answer, a.moment));
    if answer.Received? {
      ObserverIsolation(s.link, RX, answer.data, Null, a.moment, {}, o);
    }
  }

  lemma {:induction false} AssembleObserved(
      o: Observer, s: EnetState, size: int, deadline: real, buffer: Bytes, answers: nat -> RecvAnswer, n: nat)
    requires s.Ready() && multiset(s.link.observers)[o] == 1
    ensures Observed(o, s, s.Assemble(size, deadline, buffer, answers, n).0,
                     AssembleTalk(s, size, deadline, buffer, answers, n))
    decreases size - |buffer|
  {
    hide EnetState.Receive, Recorded, PacketsOf, Exchanges, SeenBy;
    NothingSaid(o, s, s);
    if |buffer| < size && deadline - s.now > 0.0 {
      ReceiveObserved(o, s, size - |buffer|, Some(deadline - s.now), answers(n));
      var (next, answer) := s.Receive(size - |buffer|, Some(deadline - s.now), answers(n));
      var said := [Spoken(Request.Receive(size - |buffer|), answer, answers(n).moment)];
      if answer.Received? {
        AssembleObserved(o, next, size, deadline, buffer + answer.data, answers, n + 1);
        ObservedOn(o, s, said, next, AssembleTalk(next, size, deadline, buffer + answer.data, answers, n + 1),
                   next.Assemble(size, deadline, buffer + answer.data, answers, n + 1).0);
      } else {
        assert said + [] == said;
      }
    }
  }

  lemma {:induction false} ListenObserved(
      o: Observer, s: EnetState, deadline: real, total: nat, answers: nat -> RecvAnswer, n: nat)
    requires s.Ready() && multiset(s.link.observers)[o] == 1
    ensures Observed(o, s, s.Listen(deadline, total, answers, n).0, ListenTalk(s, deadline, answers, n))
    decreases |s.Unread()|, (deadline - s.now) * 20.0
  {
    hide EnetState.Receive, Recorded, PacketsOf, Exchanges, SeenBy;
    NothingSaid(o, s, s);
    if s.now < deadline {
      ReceiveObserved(o, s, 4096, Some(s.Slice(deadline)), answers(n));
      var (next, answer) := s.Receive(4096, Some(s.Slice(deadline)), answers(n));
      var said := [Spoken(Request.Receive(4096), answer, answers(n).moment)];
      if answer == Raised(TimedOut) || !answer.Raised? {
        var more := if answer.Raised? then total else total + |answer.data|;
        ListenObserved(o, next, deadline, more, answers, n + 1);
        ObservedOn(o, s, said, next, ListenTalk(next, deadline, answers, n + 1),
                   next.Listen(deadline, more, answers, n + 1).0);
      } else {
        assert said + [] == said;
      }
    }
  }

  lemma CallObserved(o: Observer, s: EnetState, c: E.EnetCall)
    requires s.Ready() && multiset(s.link.observers)[o] == 1
    ensures Observed(o, s, E.Step(s, c).0, CallTalk(s, c))
  {
    hide EnetState.Connect, EnetState.Send, EnetState.Receive, EnetState.Assemble, EnetState.Listen, EnetState.Retry;
    hide Observed, AssembleTalk, ListenTalk;
    match c
    case Connect(a) => EnetCalls.ConnectContract(s, a); NothingSaid(o, s, s.Connect(a).0);
    case Disconnect => NothingSaid(o, s, s.Disconnect());
    case Reconnect(world) =>
      EnetCalls.RetryIsSilent(s.Disconnect(), 1, 0, s.Attempts(), world);
      NothingSaid(o, s, s.Reconnect(world).0);
    case Send(data, written, m) => SendObserved(o, s, data, written, m);
    case Receive(size, timeout, a) => ReceiveObserved(o, s, size, timeout, a);
    case ReceiveExactly(size, timeout, answers) =>
      AssembleObserved(
        o, s, size, s.now + (if timeout.Some? then timeout.value else s.config.receiveTimeout), [], answers, 0);
    case Listen(duration, answers) => ListenObserved(o, s, s.now + duration, 0, answers, 0);
  }

  /**
   * Whatever is done with the TCP transport, an observer registered once sees exactly the packets of the sends and
   * receives made, those inside `receive_exactly` and the passive listener included: one per success, none per failure.
   */
  lemma {:induction false} ConversationIsRecorded(s: EnetState, calls: seq<E.EnetCall>, o: Observer)
    requires s.Ready() && multiset(s.link.observers)[o] == 1
    ensures Observed(o, s, E.Run(s, calls), Talk(s, calls))
    decreases calls
  {
    hide E.Step, CallTalk, Recorded, PacketsOf, Exchanges, SeenBy;
    if calls == [] {
      NothingSaid(o, s, s);
    } else {
      var next := E.Step(s, calls[0]).0;
      CallObserved(o, s, calls[0]);
      ConversationIsRecorded(next, calls[1..], o);
      ObservedOn(o, s, CallTalk(s, calls[0]), next, Talk(next, calls[1..]), E.Run(s, calls));
    }
  }

  // ----------------------------------------------------------- on one connection

  ghost predicate AllRaised(talk: seq<Spoken>) {
    forall x <- talk :: x.answer.Raised?
  }

  /** While not connected, every `send` and `receive` of a call that does not connect fails. */
  lemma DownStaysDown(s: EnetState, c: E.EnetCall)
    requires s.Ready() && s.link.state != Connected && !c.Connect? && !c.Reconnect?
    ensures E.Step(s, c).0.link.state != Connected && AllRaised(CallTalk(s, c))
  {
  }

  lemma {:induction false} DownRunsFail(s: EnetState, calls: seq<E.EnetCall>)
    requires s.Ready() && s.link.state != Connected
    requires forall i :: 0 <= i < |calls| ==> !calls[i].Connect? && !calls[i].Reconnect?
    ensures AllRaised(Talk(s, calls))
    decreases calls
  {
    hide E.Step, CallTalk;
    if calls != [] {
      DownStaysDown(s, calls[0]);
      DownRunsFail(E.Step(s, calls[0]).0, calls[1..]);
    }
  }

  lemma {:induction false} FailuresSucceedAtNothing(talk: seq<Spoken>, d: Direction)
    requires AllRaised(talk)
    ensures Succeeded(Exchanges(talk), d) == []
  {
    if talk != [] {
      assert talk[0] in talk && Exchanges(talk)[1..] == Exchanges(talk[1..]);
      FailuresSucceedAtNothing(talk[1..], d);
    }
  }

  /** While nothing connects again, a failed `send` is the last one, so only failed receives matter to a replay. */
  lemma {:induction false} OneConnectionOverTcp(s: EnetState, calls: seq<E.EnetCall>, strict: bool)
    requires s.Ready()
    requires forall i :: 0 <= i < |calls| ==> !calls[i].Connect? && !calls[i].Reconnect?
    ensures Replayable(Exchanges(Talk(s, calls)), strict) <==> NoneAfterMiss(Exchanges(Talk(s, calls)))
  {
    SendsEndOverTcp(s, calls);
    OneConnection(Exchanges(Talk(s, calls)), strict);
  }

  lemma {:induction false} SendsEndOverTcp(s: EnetState, calls: seq<E.EnetCall>)
    requires s.Ready()
    requires forall i :: 0 <= i < |calls| ==> !calls[i].Connect? && !calls[i].Reconnect?
    ensures SendsEndWithFailure(Exchanges(Talk(s, calls)))
    decreases calls
  {
    hide E.Step, CallTalk, Exchanges, SendsEndWithFailure;
    if calls == [] {
      NothingSends([], []);
    } else {
      var first, next := CallTalk(s, calls[0]), E.Step(s, calls[0]).0;
      var rest := Talk(next, calls[1..]);
      SendsEndOverTcp(next, calls[1..]);
      if OnlyReads(first) {
        NothingSends(first, rest);
      } else {
        SendIsTheWholeTalk(s, calls[0]);
        if first[0].answer.Raised? {
          DownRunsFail(next, calls[1..]);
          FailuresSucceedAtNothing(rest, TX);
        }
        OneSends(first[0], rest);
        assert first == [first[0]];
      }
    }
  }

  ghost predicate OnlyReads(talk: seq<Spoken>) {
    forall x <- talk :: x.request.Receive?
  }

  lemma NothingSends(first: seq<Spoken>, rest: seq<Spoken>)
    requires OnlyReads(first) && (SendsEndWithFailure(Exchanges(rest)) || first + rest == [])
    ensures SendsEndWithFailure(Exchanges(first + rest))
  {
    hide Succeeded;
    var xs, ys := Exchanges(first + rest), Exchanges(rest);
    assert forall j :: 0 <= j < |first| ==> first[j] in first;
    forall i | 0 <= i < |xs| && xs[i].request.Send? && xs[i].answer.Raised?
      ensures Succeeded(xs[i + 1..], TX) == []
    {
      assert i >= |first|;
      assert xs[i] == ys[i - |first|];
      assert xs[i + 1..] == ys[i - |first| + 1..];
    }
  }

  lemma OneSends(x: Spoken, rest: seq<Spoken>)
    requires SendsEndWithFailure(Exchanges(rest)) && (x.answer.Raised? ==> Succeeded(Exchanges(rest), TX) == [])
    ensures SendsEndWithFailure(Exchanges([x] + rest))
  {
    hide Succeeded;
    var xs, ys := Exchanges([x] + rest), Exchanges(rest);
    assert xs[1..] == ys;
    forall i | 0 <= i < |xs| && xs[i].request.Send? && xs[i].answer.Raised?
      ensures Succeeded(xs[i + 1..], TX) == []
    {
      if i > 0 {
        assert xs[i] == ys[i - 1];
        assert xs[i + 1..] == ys[i..];
      }
    }
  }

  /** A call that does not only read is one `send`; when it fails the transport is not connected. */
  lemma SendIsTheWholeTalk(s: EnetState, c: E.EnetCall)
    requires s.Ready() && !OnlyReads(CallTalk(s, c))
    ensures |CallTalk(s, c)| == 1
    ensures CallTalk(s, c)[0].answer.Raised? ==> E.Step(s, c).0.link.state != Connected
  {
    hide AssembleTalk, ListenTalk, EnetState.Receive, EnetState.Connect, EnetState.Retry;
    match c
    case ReceiveExactly(size, timeout, answers) =>
      AssembleOnlyReads(
        s, size, s.now + (if timeout.Some? then timeout.value else s.config.receiveTimeout), [], answers, 0);
    case Listen(duration, answers) => ListenOnlyReads(s, s.now + duration, answers, 0);
    case _ =>
  }

  lemma {:induction false} AssembleOnlyReads(
      s: EnetState, size: int, deadline: real, buffer: Bytes, answers: nat -> RecvAnswer, n: nat)
    requires s.Ready()
    ensures OnlyReads(AssembleTalk(s, size, deadline, buffer, answers, n))
    decreases size - |buffer|
  {
    hide EnetState.Receive;
    if |buffer| < size && deadline - s.now > 0.0 {
      var (next, answer) := s.Receive(size - |buffer|, Some(deadline - s.now), answers(n));
      if answer.Received? {
        AssembleOnlyReads(next, size, deadline, buffer + answer.data, answers, n + 1);
      }
    }
  }

  lemma {:induction false} ListenOnlyReads(s: EnetState, deadline: real, answers: nat -> RecvAnswer, n: nat)
    requires s.Ready()
    ensures OnlyReads(ListenTalk(s, deadline, answers, n))
    decreases |s.Unread()|, (deadline - s.now) * 20.0
  {
    hide EnetState.Receive;
    if s.now < deadline {
      var (next, answer) := s.Receive(4096, Some(s.Slice(deadline)), answers(n));
      if answer == Raised(TimedOut) || !answer.Raised? {
        ListenOnlyReads(next, deadline, answers, n + 1);
      }
    }
  }

  // ------------------------------------------------------------- through the file

  function RecordCalls(packets: seq<Packet>): seq<C.LogCall> {
    seq(|packets|, i requires 0 <= i < |packets| => C.LogCall.Record(packets[i]))
  }

  /** The calls on a logger that is opened, given these entries, and closed. */
  function SessionCalls(entries: seq<C.LogCall>): seq<C.LogCall> {
    [C.LogCall.Open] + entries + [C.LogCall.Close]
  }

  /** A new logger on a file that holds the lines of earlier sessions. */
  function LogOn(earlier: seq<Json>, m: C.Metadata): C.Log {
    C.Log(true, false, m, [], map[TX := 0, RX := 0], earlier)
  }

  function FileOf(
      earlier: seq<Json>, m: C.Metadata, entries: seq<C.LogCall>, marker: bool, host: Host): C.File
  {
    C.JsonLines(C.Run(LogOn(earlier, m), SessionCalls(entries), host).lines, marker)
  }

  /**
   * What loading gives after a session that observed these packets was appended to a file read as `before`: all
   * packets with the session's metadata, unless the layout is mistaken, which spares a lone header.
   */
  ghost predicate LoadsAs(
      earlier: seq<Json>, before: C.Capture, packets: seq<Packet>, m: C.Metadata, marker: bool, saver: Host,
      loader: Host)
  {
    var loaded := C.Load(FileOf(earlier, m, RecordCalls(packets), marker, saver), loader);
    && (loaded.Success? <==> !marker || (earlier == [] && packets == []))
    && (loaded.Success? ==> loaded.value == C.Capture(before.packets + packets, m.ToJson()))
  }

  const NOTHING := C.Capture([], Object(map[]))

  /** Whether the calls on a newly connected replay of the packets are answered as in the transcript. */
  ghost predicate ReplayAgrees(xs: seq<Exchange>, packets: seq<Packet>, strict: bool, replay: seq<R.ReplayCall>) {
    AllAgree(xs, R.Run(Fidelity.Replayer(packets, strict).Connect().0, replay).1)
  }

  lemma {:induction false} RecordingWhileOpen(
      log: C.Log, packets: seq<Packet>, host: Host, loader: Host, before: Json)
    requires log.isOpen
    ensures var calls := RecordCalls(packets) + [C.LogCall.Close];
            && C.PacketsWritten(C.TrackOf(log), calls, loader) == packets
            && C.LastSession(C.TrackOf(log), calls, before) == before
            && !C.EverSpoils(C.TrackOf(log), calls, loader)
            && |C.Run(log, calls, host).lines| == |log.lines| + |packets|
    decreases packets
  {
    hide ToDict, C.ImitatesPacket, C.PacketOfEvent, C.EventRecord;
    var calls := RecordCalls(packets) + [C.LogCall.Close];
    if packets == [] {
      assert calls == [C.LogCall.Close] && calls[1..] == [];
    } else {
      assert calls[0] == C.LogCall.Record(packets[0]);
      assert calls[1..] == RecordCalls(packets[1..]) + [C.LogCall.Close];
      RecordingWhileOpen(C.Step(log, calls[0], host), packets[1..], host, loader, before);
    }
  }

  /** A logger session appended to any readable file, also an empty one: how the file then loads. */
  lemma SessionFileLoads(
      earlier: seq<Json>, before: C.Capture, packets: seq<Packet>, m: C.Metadata, marker: bool, saver: Host,
      loader: Host)
    requires C.StartsWithHeader(earlier) && C.ReadLines(earlier, loader) == Success(before)
    ensures LoadsAs(earlier, before, packets, m, marker, saver, loader)
  {
    hide C.Load, C.ReadLines, C.StartsWithHeader;
    var log, calls := LogOn(earlier, m), SessionCalls(RecordCalls(packets));
    var open := C.Step(log, C.LogCall.Open, saver);
    assert calls[0] == C.LogCall.Open && calls[1..] == RecordCalls(packets) + [C.LogCall.Close];
    RecordingWhileOpen(open, packets, saver, loader, m.ToJson());
    C.SaveAndLoad(log, calls, marker, saver, loader, before);
    assert C.PacketsWritten(C.TrackOf(log), calls, loader) == packets;
    assert C.LastSession(C.TrackOf(log), calls, before.session) == m.ToJson();
  }

  lemma NothingReads(loader: Host)
    ensures C.StartsWithHeader([]) && C.ReadLines([], loader) == Success(NOTHING)
  {
    C.EmptyFileReads(loader);
  }

  // ------------------------------------------------------------- the two commands

  /** The commands that capture TCP traffic: `connect` and `capture`. */
  datatype Command = ConnectCommand | CaptureCommand

  /**
   * What a command writes after the header, by what comes of its connect: the level and then the traffic; or, from
   * one command, that it failed. An error that is not one of the program's own ends the command at once.
   */
  function EntriesOf(
      command: Command, connected: Outcome, stamp: string, level: string, error: string, packets: seq<Packet>)
      : seq<C.LogCall>
  {
    match connected
    case Raised(SystemError) => []
    case Raised(_) =>
      if command.ConnectCommand? then [C.LogCall.RecordEvent(stamp, "connect_failed", map["error" := Text(error)])]
      else []
    case _ => [C.LogCall.UpdateCommsLevel(stamp, level)] + RecordCalls(packets)
  }

  /** Whether the command gets through its connect. */
  predicate Opens(s: EnetState, a: Attempt) {
    s.link.state == Connected || (E.Resolves(s, a) && a.tcp.Accepted?)
  }

  /** A session whose first entry is an event that imitates nothing never loads, whatever follows. */
  lemma FirstEventSpoils(
      earlier: seq<Json>, before: C.Capture, m: C.Metadata, entries: seq<C.LogCall>, marker: bool, saver: Host,
      loader: Host)
    requires C.StartsWithHeader(earlier) && C.ReadLines(earlier, loader) == Success(before)
    requires entries != [] && C.Spoils(C.Track(true, true, m), entries[0], loader)
    ensures C.Load(FileOf(earlier, m, entries, marker, saver), loader).Failure?
  {
    hide C.Load, C.ReadLines, C.Spoils, C.StartsWithHeader;
    var log, calls := LogOn(earlier, m), SessionCalls(entries);
    C.SaveAndLoad(log, calls, marker, saver, loader, before);
    assert calls[1..][0] == entries[0];
    assert C.TrackOf(log).After(calls[0]) == C.Track(true, true, m);
  }

  /**
   * The file of a command loads exactly when nothing followed the header: when the command did not get through its
   * connect and either does not report that, or stopped at an error not its own. In particular no capture of a
   * command that connected ever loads, whatever traffic follows. What loads is the header alone.
   */
  lemma {:induction false} CommandFileLoads(
      command: Command, s: EnetState, a: Attempt, m: C.Metadata, stamp: string, level: string, error: string,
      packets: seq<Packet>, marker: bool, saver: Host, loader: Host)
    requires s.Ready() && E.HasTarget(s.config)
    ensures var entries := EntriesOf(command, s.Connect(a).1, stamp, level, error, packets);
            var loaded := C.Load(FileOf([], m, entries, marker, saver), loader);
            && (loaded.Success? <==> entries == [])
            && (loaded.Success? <==>
                !Opens(s, a) && (command.CaptureCommand? || (E.Resolves(s, a) && a.tcp == NoSocket)))
            && (loaded.Success? ==> loaded.value == C.Capture([], m.ToJson()))
  {
    hide C.Load, FileOf, C.ReadLines, C.StartsWithHeader, LoadsAs;
    var entries := EntriesOf(command, s.Connect(a).1, stamp, level, error, packets);
    NothingReads(loader);
    if entries == [] {
      assert RecordCalls([]) == [];
      HeaderAloneLoads(m, marker, saver, loader);
    } else {
      FirstEventSpoils([], NOTHING, m, entries, marker, saver, loader);
    }
  }

  lemma HeaderAloneLoads(m: C.Metadata, marker: bool, saver: Host, loader: Host)
    ensures C.Load(FileOf([], m, [], marker, saver), loader) == Success(C.Capture([], m.ToJson()))
  {
    hide C.Load, C.ReadLines, C.StartsWithHeader;
    NothingReads(loader);
    SessionFileLoads([], NOTHING, [], m, marker, saver, loader);
    assert RecordCalls([]) == [] && NOTHING.packets + [] == [];
  }

  // ------------------------------------------------------------------ the recipe

  /**
   * The library recipe of docs/usage.md:350-385, on a file that does not exist yet. Whatever is done with a TCP
   * transport, reconnects and listening included, while a logger observes it: the file loads as exactly the packets
   * of what was said, unless it holds one and the layout is mistaken; and a replay of them, asked the same, agrees
   * with every answer exactly when the conversation is replayable. Without packets, the replay refuses to connect.
   */
  lemma {:induction false} ConverseSaveLoadReplay(
      s: EnetState, calls: seq<E.EnetCall>, logger: Observer, m: C.Metadata, marker: bool, saver: Host, loader: Host,
      strict: bool, replay: seq<R.ReplayCall>)
    requires s.Ready()
    requires multiset(s.link.observers)[logger] == 1 && SeenBy(logger, s.link.calls) == []
    requires forall i :: 0 <= i < |replay| ==> replay[i].Send? || replay[i].Receive?
    requires R.RequestsOf(replay) == Requests(Exchanges(Talk(s, calls)))
    ensures var (xs, seen) := (Exchanges(Talk(s, calls)), SeenBy(logger, E.Run(s, calls).link.calls));
            && seen == PacketsOf(Talk(s, calls))
            && LoadsAs([], NOTHING, seen, m, marker, saver, loader)
            && (seen == [] ==> Fidelity.Replayer(seen, strict).Connect().1 == Raised(ConnectionFailed))
            && (seen != [] ==> (ReplayAgrees(xs, seen, strict, replay) <==> Replayable(xs, strict)))
  {
    hide LoadsAs, AllAgree, Replayable, RunsOut, AllRefusals, Recorded, R.Run;
    hide Talk, E.Run, PacketsOf, Exchanges, SeenBy, C.ReadLines;
    var seen := SeenBy(logger, E.Run(s, calls).link.calls);
    ConversationIsRecorded(s, calls, logger);
    assert seen == [] + PacketsOf(Talk(s, calls)) == PacketsOf(Talk(s, calls));
    NothingReads(loader);
    SessionFileLoads([], NOTHING, seen, m, marker, saver, loader);
    if seen != [] {
      Fidelity.ReplayOfRecording(Exchanges(Talk(s, calls)), seen, seen, strict, replay);
    }
  }
}
