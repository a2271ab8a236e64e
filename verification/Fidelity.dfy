/** Recording a session on the mock transport and replaying the recording. */
module Fidelity {
  import opened Wrappers
  import opened Hex
  import opened Packets
  import opened Base
  import opened Mock
  import opened Replay
  import opened Transcripts
  import R = Replaying

  /** What the client asked in one call and the answer, if it asked. */
  function ExchangeOf(c: MockCall, answer: Outcome): seq<Exchange> {
    match c
    case Send(data, _, _) => [Exchange(Request.Send(data), answer)]
    case Receive(size, _) => [Exchange(Request.Receive(size), answer)]
    case _ => []
  }

  function Transcript(s: MockState, calls: seq<MockCall>): seq<Exchange>
    decreases calls
  {
    if calls == [] then []
    else
      var (next, answer) := Mock.Step(s, calls[0]);
      ExchangeOf(calls[0], answer) + Transcript(next, calls[1..])
  }

  /** The packet a call emits, if it emits one. */
  function EmittedBy(c: MockCall, answer: Outcome): seq<Packet> {
    match c
    case Send(data, _, m) => if answer.Sent? then [NewPacket(TX, data, Null, m)] else []
    case Receive(_, m) => if answer.Received? then [NewPacket(RX, answer.data, Null, m)] else []
    case _ => []
  }

  function Emitted(s: MockState, calls: seq<MockCall>): seq<Packet>
    decreases calls
  {
    if calls == [] then []
    else
      var (next, answer) := Mock.Step(s, calls[0]);
      EmittedBy(calls[0], answer) + Emitted(next, calls[1..])
  }

  lemma ObserverSeesOneCall(s: MockState, c: MockCall, o: Observer)
    requires multiset(s.link.observers)[o] == 1
    ensures var (next, answer) := Mock.Step(s, c);
            && SeenBy(o, next.link.calls) == SeenBy(o, s.link.calls) + EmittedBy(c, answer)
            && next.link.observers == s.link.observers
  {
    var answer := Mock.Step(s, c).1;
    if answer.Sent? && c.Send? {
      ObserverIsolation(s.link, TX, c.data, Null, c.moment, {}, o);
    } else if answer.Received? && c.Receive? {
      ObserverIsolation(s.link, RX, answer.data, Null, c.moment, {}, o);
    }
  }

  /** An observer registered exactly once sees exactly the packets emitted, whichever observers raise. */
  lemma {:induction false} ObserverSeesTheSession(s: MockState, calls: seq<MockCall>, o: Observer)
    requires multiset(s.link.observers)[o] == 1
    ensures SeenBy(o, Mock.Run(s, calls).0.link.calls) == SeenBy(o, s.link.calls) + Emitted(s, calls)
    decreases calls
  {
    if calls != [] {
      ObserverSeesOneCall(s, calls[0], o);
      ObserverSeesTheSession(Mock.Step(s, calls[0]).0, calls[1..], o);
    }
  }

  lemma CallIsRecorded(s: MockState, c: MockCall)
    ensures var answer := Mock.Step(s, c).1; Recorded(ExchangeOf(c, answer), EmittedBy(c, answer))
  {
    if c.Send? || c.Receive? {
      FailuresMoveNothing(s, c);
      var answer := Mock.Step(s, c).1;
      assert ExchangeOf(c, answer)[1..] == [];
      if !answer.Raised? {
        assert EmittedBy(c, answer)[1..] == [];
      }
    }
  }

  /** What the mock emits is what a session leaves: in particular every RX packet fits the read that got it. */
  lemma {:induction false} SessionIsRecorded(s: MockState, calls: seq<MockCall>)
    ensures Recorded(Transcript(s, calls), Emitted(s, calls))
    decreases calls
  {
    hide Recorded, Mock.Step;
    if calls == [] {
      EmptyIsRecorded();
    } else {
      var (next, answer) := Mock.Step(s, calls[0]);
      CallIsRecorded(s, calls[0]);
      SessionIsRecorded(next, calls[1..]);
      RecordedConcat(ExchangeOf(calls[0], answer), EmittedBy(calls[0], answer),
                     Transcript(next, calls[1..]), Emitted(next, calls[1..]));
    }
  }

  lemma EmptyIsRecorded()
    ensures Recorded([], [])
  {
  }

  /** A new replay transport over the packets. */
  function Replayer(packets: seq<Packet>, strict: bool): R.ReplayState {
    R.ReplayState(Link(Disconnected, None, [], [], []), Tape(packets, 0, [], strict))
  }

  /** The requests of a transcript, made to a newly connected replay of what the conversation left. */
  lemma {:induction false} ReplayOfRecording(
      xs: seq<Exchange>, left: seq<Packet>, recording: seq<Packet>, strict: bool, replay: seq<R.ReplayCall>)
    requires Recorded(xs, left) && SameTraffic(recording, left) && recording != []
    requires forall i :: 0 <= i < |replay| ==> replay[i].Send? || replay[i].Receive?
    requires R.RequestsOf(replay) == Requests(xs)
    ensures var (end, answers) := R.Run(Replayer(recording, strict).Connect().0, replay);
            && (AllAgree(xs, answers) <==> Replayable(xs, strict))
            && (Replayable(xs, strict) ==> RunsOut(Tape(recording, 0, [], strict), end.tape, AllRefusals(xs)))
  {
    hide Recorded, AllAgree, Replayable, RunsOut, AllRefusals;
    var tape := Tape(recording, 0, [], strict);
    assert tape.Pending() == recording;
    Lockstep(xs, left, tape);
    R.ConnectedRunFollowsTape(Replayer(recording, strict).Connect().0, replay);
  }

  /**
   * Record and replay. Whatever a client and its surroundings do with a mock transport, connects and disconnects
   * included, a replay of the recorded packets, asked the same again, agrees with every answer exactly when no
   * `receive` succeeded after a failed one, and no `send` after a failed one unless a strict replay refuses the
   * failed one for its other bytes. The replay has then passed every packet and split none.
   */
  lemma {:induction false} RecordThenReplay(
      s: MockState, session: seq<MockCall>, logger: Observer, recording: seq<Packet>, strict: bool,
      replay: seq<R.ReplayCall>)
    requires multiset(s.link.observers)[logger] == 1 && SeenBy(logger, s.link.calls) == []
    requires SameTraffic(recording, SeenBy(logger, Mock.Run(s, session).0.link.calls)) && recording != []
    requires forall i :: 0 <= i < |replay| ==> replay[i].Send? || replay[i].Receive?
    requires R.RequestsOf(replay) == Requests(Transcript(s, session))
    ensures var (end, answers) := R.Run(Replayer(recording, strict).Connect().0, replay);
            var xs := Transcript(s, session);
            && (AllAgree(xs, answers) <==> Replayable(xs, strict))
            && (Replayable(xs, strict) ==> RunsOut(Tape(recording, 0, [], strict), end.tape, AllRefusals(xs)))
  {
    hide Recorded, AllAgree, Replayable, RunsOut, AllRefusals, R.Run, Mock.Run, Transcript, Emitted;
    ObserverSeesTheSession(s, session, logger);
    SessionIsRecorded(s, session);
    ReplayOfRecording(Transcript(s, session), Emitted(s, session), recording, strict, replay);
  }

  // -------------------------------------------------------- recording a replay

  /** The requests made to a replay, each with its answer. */
  function ReplayExchanges(requests: seq<Request>, answers: seq<Outcome>): seq<Exchange>
    requires |requests| == |answers|
  {
    seq(|requests|, i requires 0 <= i < |requests| => Exchange(requests[i], answers[i]))
  }

  lemma OneReplayed(r: R.ReplayState, c: R.ReplayCall)
    requires r.tape.Valid() && r.link.state == Connected && (c.Send? || c.Receive?)
    ensures var (next, answer) := R.Step(r, c);
            var x := Exchange(R.RequestsOf([c])[0], answer);
            && next.link.state == Connected
            && (answer.Raised? ==> next.link.wire == r.link.wire)
            && (!answer.Raised? ==>
                |next.link.wire| == |r.link.wire| + 1 && next.link.wire[..|r.link.wire|] == r.link.wire
                && Leaves(x, next.link.wire[|r.link.wire|]))
  {
    R.RequestsAreEmitted(r, R.RequestsOf([c])[0], c.moment);
  }

  /** What a replay emits is what its own conversation leaves. */
  lemma {:induction false} ReplayIsRecorded(r: R.ReplayState, replay: seq<R.ReplayCall>)
    requires r.tape.Valid() && r.link.state == Connected
    requires forall i :: 0 <= i < |replay| ==> replay[i].Send? || replay[i].Receive?
    ensures var (end, answers) := R.Run(r, replay);
            && |answers| == |replay| && r.link.wire <= end.link.wire
            && Recorded(ReplayExchanges(R.RequestsOf(replay), answers), end.link.wire[|r.link.wire|..])
    decreases replay
  {
    hide R.Step, Leaves;
    if replay != [] {
      var (next, answer) := R.Step(r, replay[0]);
      OneReplayed(r, replay[0]);
      ReplayIsRecorded(next, replay[1..]);
      var (end, answers) := R.Run(r, replay);
      var rest := R.Run(next, replay[1..]).1;
      assert answers == [answer] + rest;
      assert R.RequestsOf([replay[0]])[0] == R.RequestsOf(replay)[0];
      assert ReplayExchanges(R.RequestsOf(replay), answers)[1..] == ReplayExchanges(R.RequestsOf(replay[1..]), rest);
      if !answer.Raised? {
        var n := |r.link.wire|;
        assert end.link.wire[n] == next.link.wire[n] && end.link.wire[n..][1..] == end.link.wire[n + 1..];
      }
    }
  }

  lemma {:induction false} RecordedDetermines(xs: seq<Exchange>, ps: seq<Packet>, qs: seq<Packet>)
    requires Recorded(xs, ps) && Recorded(xs, qs)
    ensures SameTraffic(ps, qs)
    decreases xs
  {
    if xs != [] {
      if xs[0].answer.Raised? {
        RecordedDetermines(xs[1..], ps, qs);
      } else {
        RecordedDetermines(xs[1..], ps[1..], qs[1..]);
      }
    }
  }

  /** Answers that agree leave the same. */
  lemma {:induction false} AgreeingLeavesTheSame(xs: seq<Exchange>, answers: seq<Outcome>, packets: seq<Packet>)
    requires AllAgree(xs, answers) && Recorded(ReplayExchanges(Requests(xs), answers), packets)
    ensures Recorded(xs, packets)
    decreases xs
  {
    if xs != [] {
      var ys := ReplayExchanges(Requests(xs), answers);
      AllAgreeCons(xs, answers);
      assert Requests(xs)[1..] == Requests(xs[1..]);
      assert ys[1..] == ReplayExchanges(Requests(xs[1..]), answers[1..]);
      AgreeingLeavesTheSame(xs[1..], answers[1..], if ys[0].answer.Raised? then packets else packets[1..]);
    }
  }

  /** Recording the replay of a replayable conversation gives the recording again. */
  lemma {:induction false} ReplayRecordsTheSame(
      xs: seq<Exchange>, left: seq<Packet>, recording: seq<Packet>, strict: bool, replay: seq<R.ReplayCall>)
    requires Recorded(xs, left) && SameTraffic(recording, left) && recording != []
    requires forall i :: 0 <= i < |replay| ==> replay[i].Send? || replay[i].Receive?
    requires R.RequestsOf(replay) == Requests(xs) && Replayable(xs, strict)
    ensures SameTraffic(R.Run(Replayer(recording, strict).Connect().0, replay).0.link.wire, recording)
  {
    hide Recorded, AllAgree, Replayable, RunsOut, AllRefusals, R.Run;
    var r := Replayer(recording, strict).Connect().0;
    var (end, answers) := R.Run(r, replay);
    ReplayOfRecording(xs, left, recording, strict, replay);
    ReplayIsRecorded(r, replay);
    assert end.link.wire[0..] == end.link.wire;
    AgreeingLeavesTheSame(xs, answers, end.link.wire);
    RecordedDetermines(xs, left, end.link.wire);
  }

  // ------------------------------------------------------------- whole sessions

  /** What a replay answers when it is also asked to connect first and to disconnect last. */
  lemma {:induction false} AroundReplay(r: R.ReplayState, replay: seq<R.ReplayCall>)
    requires r.tape.Valid()
    ensures R.Run(r, [R.ReplayCall.Connect] + replay + [R.ReplayCall.Disconnect]).1
         == [r.Connect().1] + R.Run(r.Connect().0, replay).1 + [Done]
    ensures |R.Run(r.Connect().0, replay).1| == |replay|
  {
    var all := [R.ReplayCall.Connect] + replay + [R.ReplayCall.Disconnect];
    assert all[1..] == replay + [R.ReplayCall.Disconnect];
    ThenDisconnect(r.Connect().0, replay);
  }

  lemma {:induction false} ThenDisconnect(r: R.ReplayState, replay: seq<R.ReplayCall>)
    requires r.tape.Valid()
    ensures R.Run(r, replay + [R.ReplayCall.Disconnect]).1 == R.Run(r, replay).1 + [Done]
    ensures |R.Run(r, replay).1| == |replay|
    decreases replay
  {
    var all := replay + [R.ReplayCall.Disconnect];
    if replay == [] {
      assert all == [R.ReplayCall.Disconnect] && all[1..] == [];
    } else {
      hide R.Step;
      assert all[1..] == replay[1..] + [R.ReplayCall.Disconnect];
      ThenDisconnect(R.Step(r, replay[0]).0, replay[1..]);
    }
  }

  ghost predicate AllRaised(answers: seq<Outcome>) {
    forall i :: 0 <= i < |answers| ==> answers[i].Raised?
  }

  /** A replay that is not connected refuses everything. */
  lemma {:induction false} DownReplayRefuses(r: R.ReplayState, replay: seq<R.ReplayCall>)
    requires r.tape.Valid() && r.link.state != Connected
    requires forall i :: 0 <= i < |replay| ==> replay[i].Send? || replay[i].Receive?
    ensures AllRaised(R.Run(r, replay).1)
    decreases replay
  {
    if replay != [] {
      assert replay[0].Send? || replay[0].Receive?;
      DownReplayRefuses(r, replay[1..]);
      assert R.Step(r, replay[0]) == (r, Raised(NotConnected));
    }
  }

  /** Until it is connected, a mock emits nothing and answers no request. */
  lemma {:induction false} DownMockIsSilent(s: MockState, calls: seq<MockCall>)
    requires s.link.state != Connected && forall i :: 0 <= i < |calls| ==> !calls[i].Connect?
    ensures Emitted(s, calls) == []
    ensures forall x <- Transcript(s, calls) :: x.answer.Raised?
    decreases calls
  {
    if calls != [] {
      DownMockIsSilent(Mock.Step(s, calls[0]).0, calls[1..]);
    }
  }

  /** The answers of a repeated session, its connect and disconnect included, agree with the session's. */
  ghost predicate SessionAgrees(connected: Outcome, xs: seq<Exchange>, answers: seq<Outcome>) {
    && |answers| == |xs| + 2
    && Agree(connected, answers[0]) && AllAgree(xs, answers[1..|xs| + 1]) && Agree(Done, answers[|xs| + 1])
  }

  /**
   * A client that connects, talks and disconnects, and then does all of it again over a replay of the recording:
   * it is answered alike exactly when its connect had failed, or the recording holds a packet and the talk is
   * replayable.
   */
  lemma {:induction false} WholeSessionThenReplay(
      s: MockState, traffic: seq<MockCall>, logger: Observer, recording: seq<Packet>, strict: bool,
      replay: seq<R.ReplayCall>)
    requires multiset(s.link.observers)[logger] == 1 && SeenBy(logger, s.link.calls) == []
    requires forall i :: 0 <= i < |traffic| ==> !traffic[i].Connect?
    requires forall i :: 0 <= i < |replay| ==> replay[i].Send? || replay[i].Receive?
    requires var session := [MockCall.Connect] + traffic + [MockCall.Disconnect];
             && SameTraffic(recording, SeenBy(logger, Mock.Run(s, session).0.link.calls))
             && R.RequestsOf(replay) == Requests(Transcript(s, session))
    ensures var xs := Transcript(s, [MockCall.Connect] + traffic + [MockCall.Disconnect]);
            var repeated := [R.ReplayCall.Connect] + replay + [R.ReplayCall.Disconnect];
            SessionAgrees(s.Connect().1, xs, R.Run(Replayer(recording, strict), repeated).1)
            <==> s.failOnConnect.Some? || (recording != [] && Replayable(xs, strict))
  {
    hide R.Run, Mock.Run, Transcript, Emitted, Replayable, AllAgree, RunsOut, AllRefusals;
    var session := [MockCall.Connect] + traffic + [MockCall.Disconnect];
    var xs, r := Transcript(s, session), Replayer(recording, strict);
    var mid := R.Run(r.Connect().0, replay).1;
    AroundReplay(r, replay);
    assert |replay| == |R.RequestsOf(replay)| == |xs|;
    assert ([r.Connect().1] + mid + [Done])[1..|xs| + 1] == mid;
    if s.failOnConnect.Some? {
      FailedConnectIsSilent(s, traffic);
      ObserverSeesTheSession(s, session, logger);
      assert recording == [];
      DownReplayRefuses(r.Connect().0, replay);
      RefusalsAgree(xs, mid);
    } else if recording != [] {
      RecordThenReplay(s, session, logger, recording, strict, replay);
    }
  }

  lemma FailedConnectIsSilent(s: MockState, traffic: seq<MockCall>)
    requires s.failOnConnect.Some? && forall i :: 0 <= i < |traffic| ==> !traffic[i].Connect?
    ensures var session := [MockCall.Connect] + traffic + [MockCall.Disconnect];
            Emitted(s, session) == [] && forall x <- Transcript(s, session) :: x.answer.Raised?
  {
    var session := [MockCall.Connect] + traffic + [MockCall.Disconnect];
    assert session[1..] == traffic + [MockCall.Disconnect];
    DownMockIsSilent(s.Connect().0, session[1..]);
  }

  lemma RefusalsAgree(xs: seq<Exchange>, answers: seq<Outcome>)
    requires |xs| == |answers| && AllRaised(answers) && forall x <- xs :: x.answer.Raised?
    ensures AllAgree(xs, answers)
  {
  }

  /** A `receive` that timed out and was answered later: the replay answers it at once. */
  lemma LateAnswerDiverges()
    ensures var m := Moment(0.0, map[], {});
            var s := MockState(Link(Connected, None, [], [], []), [], [], None, None);
            var session := [MockCall.Receive(1, m), MockCall.QueueResponse([7]), MockCall.Receive(1, m)];
            var tape := Tape(Emitted(s, session), 0, [], true);
            var request := Request.Receive(1);
            && Transcript(s, session) == [Exchange(request, Raised(TimedOut)), Exchange(request, Received([7]))]
            && DoAll(tape, Requests(Transcript(s, session))).1 == [Received([7]), Raised(TimedOut)]
  {
    var m := Moment(0.0, map[], {});
    var s := MockState(Link(Connected, None, [], [], []), [], [], None, None);
    var session := [MockCall.Receive(1, m), MockCall.QueueResponse([7]), MockCall.Receive(1, m)];
    var queued := s.(queue := [[7]]);
    var request := Request.Receive(1);
    assert session[1..] == [MockCall.QueueResponse([7]), MockCall.Receive(1, m)];
    assert session[1..][1..] == [MockCall.Receive(1, m)] && session[1..][1..][1..] == [];
    assert [] + [[7]] == [[7]];
    assert Mock.Step(queued, MockCall.Receive(1, m)).1 == Received([7]);
    var last := Mock.Step(queued, MockCall.Receive(1, m)).0;
    assert Transcript(queued, [MockCall.Receive(1, m)])
        == [Exchange(request, Received([7]))] + Transcript(last, []);
    var packet := NewPacket(RX, [7], Null, m);
    assert Emitted(queued, [MockCall.Receive(1, m)]) == [packet] + Emitted(last, []);
    assert Emitted(s, session) == [packet];
    var tape := Tape([packet], 0, [], true);
    assert tape.packets[..1] + [] + tape.packets[1..] == tape.packets;
    assert Do(tape, request) == (tape.(cursor := 1), Received([7]));
    var requests := [request, request];
    assert Requests(Transcript(s, session)) == requests && requests[1..] == [request] && requests[1..][1..] == [];
    assert DoAll(tape.(cursor := 1), [request]).1 == [Raised(TimedOut)] + DoAll(tape.(cursor := 1), []).1;
  }

  /** A `send` refused while disconnected and repeated once connected: even a strict replay answers the first. */
  lemma RepeatedSendDiverges()
    ensures var m := Moment(0.0, map[], {});
            var s := MockState(Link(Disconnected, None, [], [], []), [], [], None, None);
            var session := [MockCall.Send([1], None, m), MockCall.Connect, MockCall.Send([1], None, m)];
            var request := Request.Send([1]);
            && Transcript(s, session) == [Exchange(request, Raised(NotConnected)), Exchange(request, Sent(1))]
            && NoneAfterMiss(Transcript(s, session))
            && DoAll(Tape(Emitted(s, session), 0, [], true), Requests(Transcript(s, session))).1
               == [Sent(1), Raised(TimedOut)]
  {
    var m := Moment(0.0, map[], {});
    var s := MockState(Link(Disconnected, None, [], [], []), [], [], None, None);
    var send := MockCall.Send([1], None, m);
    var session := [send, MockCall.Connect, send];
    var request := Request.Send([1]);
    var linked := s.Connect().0;
    var last := Mock.Step(linked, send).0;
    assert session[1..] == [MockCall.Connect, send] && session[1..][1..] == [send] && session[1..][1..][1..] == [];
    assert Transcript(linked, [send]) == [Exchange(request, Sent(1))] + Transcript(last, []);
    var packet := NewPacket(TX, [1], Null, m);
    assert Emitted(linked, [send]) == [packet] + Emitted(last, []);
    assert Emitted(s, session) == [packet];
    var tape := Tape([packet], 0, [], true);
    assert Do(tape, request) == (tape.(cursor := 1), Sent(1));
    assert Requests(Transcript(s, session)) == [request, request] && [request, request][1..] == [request];
    assert DoAll(tape.(cursor := 1), [request]).1 == [Raised(TimedOut)] + DoAll(tape.(cursor := 1), []).1;
  }
}
