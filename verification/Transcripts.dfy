/**
 * Replaying a recorded conversation: what a replay answers, request by request, when the recording holds
 * the packets a live transport emitted during the conversation.
 */
module Transcripts {
  import opened Hex
  import opened Packets
  import opened Base
  import opened Replay

  /** One request of the client and the answer it got. */
  datatype Exchange = Exchange(request: Request, answer: Outcome)

  /** The packet a successful exchange leaves: what was sent, or what was received, which fits the read size. */
  predicate Leaves(x: Exchange, p: Packet) {
    match x.request
    case Send(data) => x.answer == Sent(|data|) && p.direction == TX && p.rawData == data
    case Receive(size) => x.answer == Received(p.rawData) && p.direction == RX && |p.rawData| <= size
  }

  /** The packets a conversation leaves behind on a live transport: one per success and none per failure. */
  ghost predicate Recorded(xs: seq<Exchange>, packets: seq<Packet>) {
    if xs == [] then packets == []
    else if xs[0].answer.Raised? then Recorded(xs[1..], packets)
    else packets != [] && Leaves(xs[0], packets[0]) && Recorded(xs[1..], packets[1..])
  }

  /** What two stretches of a conversation leave, one after the other. */
  lemma {:induction false} RecordedConcat(xs: seq<Exchange>, ps: seq<Packet>, ys: seq<Exchange>, qs: seq<Packet>)
    requires Recorded(xs, ps) && Recorded(ys, qs)
    ensures Recorded(xs + ys, ps + qs)
    decreases xs
  {
    if xs == [] {
      assert xs + ys == ys && ps + qs == qs;
    } else {
      assert (xs + ys)[1..] == xs[1..] + ys;
      if xs[0].answer.Raised? {
        RecordedConcat(xs[1..], ps, ys, qs);
      } else {
        assert (ps + qs)[1..] == ps[1..] + qs;
        RecordedConcat(xs[1..], ps[1..], ys, qs);
      }
    }
  }

  /** Same directions and same bytes; timestamps, transport info and notes are free. */
  ghost predicate SameTraffic(a: seq<Packet>, b: seq<Packet>) {
    |a| == |b| && forall i :: 0 <= i < |a| ==> a[i].direction == b[i].direction && a[i].rawData == b[i].rawData
  }

  /** Two answers agree when both failed, or both succeeded with the same value. */
  predicate Agree(a: Outcome, b: Outcome) {
    if a.Raised? then b.Raised? else a == b
  }

  ghost predicate AllAgree(xs: seq<Exchange>, answers: seq<Outcome>) {
    |xs| == |answers| && forall i :: 0 <= i < |answers| ==> Agree(xs[i].answer, answers[i])
  }

  function Requests(xs: seq<Exchange>): seq<Request> {
    seq(|xs|, i requires 0 <= i < |xs| => xs[i].request)
  }

  /** The data of the successful requests of one kind, in order. */
  function Succeeded(xs: seq<Exchange>, direction: Direction): seq<Bytes> {
    if xs == [] then []
    else
      var x := xs[0];
      (if x.answer.Raised? || (x.request.Send? != (direction == TX)) then []
       else if x.request.Send? then [x.request.data]
       else if x.answer.Received? then [x.answer.data] else [])
      + Succeeded(xs[1..], direction)
  }

  /**
   * Whether a failure is answered by a failure again, given what happens after it: no `receive` succeeds after
   * a failed one, and no `send` after a failed one unless a strict replay refuses it for its other bytes.
   */
  predicate Repeatable(x: Exchange, rest: seq<Exchange>, strict: bool) {
    x.answer.Raised? ==>
      match x.request
      case Receive(_) => Succeeded(rest, RX) == []
      case Send(data) => var later := Succeeded(rest, TX); later == [] || (strict && later[0] != data)
  }

  ghost predicate Replayable(xs: seq<Exchange>, strict: bool) {
    forall i :: 0 <= i < |xs| ==> Repeatable(xs[i], xs[i + 1..], strict)
  }

  lemma ReplayableCons(xs: seq<Exchange>, strict: bool)
    requires xs != []
    ensures Replayable(xs, strict) <==> Repeatable(xs[0], xs[1..], strict) && Replayable(xs[1..], strict)
  {
    var rest := xs[1..];
    assert forall i :: 0 <= i < |rest| ==> rest[i] == xs[i + 1] && rest[i + 1..] == xs[i + 2..];
    if Repeatable(xs[0], rest, strict) && Replayable(rest, strict) {
      forall i | 0 <= i < |xs| ensures Repeatable(xs[i], xs[i + 1..], strict) {
        if i > 0 {
          assert Repeatable(rest[i - 1], rest[i..], strict);
        }
      }
    }
    if Replayable(xs, strict) {
      forall i | 0 <= i < |rest| ensures Repeatable(rest[i], rest[i + 1..], strict) {
        assert Repeatable(xs[i + 1], xs[i + 2..], strict);
      }
    }
  }

  lemma {:induction false} RecordedPayloads(xs: seq<Exchange>, packets: seq<Packet>, d: Direction)
    requires Recorded(xs, packets)
    ensures PayloadsOf(packets, d) == Succeeded(xs, d)
    decreases xs
  {
    if xs != [] {
      RecordedPayloads(xs[1..], if xs[0].answer.Raised? then packets else packets[1..], d);
    }
  }

  lemma {:induction false} SameTrafficSamePayloads(a: seq<Packet>, b: seq<Packet>, d: Direction)
    requires SameTraffic(a, b)
    ensures PayloadsOf(a, d) == PayloadsOf(b, d)
  {
    if a != [] {
      SameTrafficSamePayloads(a[1..], b[1..], d);
    }
  }

  lemma AllAgreeCons(xs: seq<Exchange>, answers: seq<Outcome>)
    requires xs != [] && answers != []
    ensures AllAgree(xs, answers) <==> Agree(xs[0].answer, answers[0]) && AllAgree(xs[1..], answers[1..])
  {
    if AllAgree(xs[1..], answers[1..]) && Agree(xs[0].answer, answers[0]) {
      forall i | 0 <= i < |answers| ensures Agree(xs[i].answer, answers[i]) {
        if i > 0 {
          assert Agree(xs[1..][i - 1].answer, answers[1..][i - 1]);
        }
      }
    }
  }

  lemma {:induction false} AgreeCons(xs: seq<Exchange>, t: Tape)
    requires t.Valid() && xs != []
    ensures var (next, answer) := Do(t, xs[0].request);
            && DoAll(t, Requests(xs)).0 == DoAll(next, Requests(xs[1..])).0
            && (AllAgree(xs, DoAll(t, Requests(xs)).1)
                <==> Agree(xs[0].answer, answer) && AllAgree(xs[1..], DoAll(next, Requests(xs[1..])).1))
  {
    var (next, answer) := Do(t, xs[0].request);
    assert Requests(xs)[1..] == Requests(xs[1..]);
    var tail := DoAll(next, Requests(xs[1..])).1;
    assert DoAll(t, Requests(xs)).1 == [answer] + tail;
    AllAgreeCons(xs, [answer] + tail);
    assert ([answer] + tail)[1..] == tail;
  }

  /** A successful exchange finds its own packet under the cursor and passes it without splitting. */
  lemma TapeFollows(x: Exchange, t: Tape)
    requires t.Valid() && t.cursor < |t.packets| && Leaves(x, t.packets[t.cursor])
    ensures Do(t, x.request) == (t.(cursor := t.cursor + 1), x.answer)
  {
    if x.request.Receive? {
      var packet := t.packets[t.cursor];
      assert Inserted(packet, x.request.size) == [];
      assert t.packets[..t.cursor + 1] + [] + t.packets[t.cursor + 1..] == t.packets;
    }
  }

  /** A failed request fails again on the tape exactly when it is repeatable, and then leaves the tape where it was. */
  lemma TapeOnFailure(x: Exchange, rest: seq<Exchange>, packets: seq<Packet>, t: Tape)
    requires t.Valid() && x.answer.Raised?
    requires Recorded(rest, packets) && SameTraffic(t.Pending(), packets)
    ensures Do(t, x.request).1.Raised? <==> Repeatable(x, rest, t.strict)
    ensures Repeatable(x, rest, t.strict) ==>
              var next := Do(t, x.request).0;
              next.(mismatches := t.mismatches) == t && |next.mismatches| == |t.mismatches| + Refusals(x, rest)
  {
    hide Recorded, SameTraffic, PayloadsOf, Succeeded;
    var d := if x.request.Send? then TX else RX;
    RecordedPayloads(rest, packets, d);
    SameTrafficSamePayloads(t.Pending(), packets, d);
    if x.request.Send? {
      AnswersFollowPending(t, x.request.data, 0);
    } else {
      AnswersFollowPending(t, [], x.request.size);
    }
  }

  /** How many mismatches the replay logs for a failed request: one for a `send` that a later one outdoes. */
  function Refusals(x: Exchange, rest: seq<Exchange>): nat {
    if x.answer.Raised? && x.request.Send? && Succeeded(rest, TX) != [] then 1 else 0
  }

  function AllRefusals(xs: seq<Exchange>): nat {
    if xs == [] then 0 else Refusals(xs[0], xs[1..]) + AllRefusals(xs[1..])
  }

  /** The tape run to its end, unsplit, with this many more mismatches. */
  ghost predicate RunsOut(t: Tape, end: Tape, refusals: nat) {
    end.(mismatches := t.mismatches) == t.(cursor := |t.packets|) && |end.mismatches| == |t.mismatches| + refusals
  }

  /**
   * Replaying from anywhere in a conversation, with the tape on the packets still to come: the replay agrees with
   * every answer exactly when the conversation is replayable. It then runs to the end of the tape, splits nothing,
   * and logs one mismatch for each failed `send` followed by a successful one.
   */
  lemma {:induction false} Lockstep(xs: seq<Exchange>, packets: seq<Packet>, t: Tape)
    requires t.Valid() && Recorded(xs, packets) && SameTraffic(t.Pending(), packets)
    ensures AllAgree(xs, DoAll(t, Requests(xs)).1) <==> Replayable(xs, t.strict)
    ensures Replayable(xs, t.strict) ==> RunsOut(t, DoAll(t, Requests(xs)).0, AllRefusals(xs))
    decreases xs
  {
    hide Succeeded, Repeatable, Replayable, AllAgree, Agree;
    if xs == [] {
      NothingToReplay(t);
    } else {
      ReplayableCons(xs, t.strict);
      AgreeCons(xs, t);
      if xs[0].answer.Raised? {
        LockstepOnFailure(xs, packets, t);
      } else {
        assert t.Pending()[0] == t.packets[t.cursor];
        TapeFollows(xs[0], t);
        SuccessesAgree(xs[0], xs[1..], t.strict);
        var next := t.(cursor := t.cursor + 1);
        assert next.Pending() == t.Pending()[1..];
        Lockstep(xs[1..], packets[1..], next);
      }
    }
  }

  lemma {:induction false} LockstepOnFailure(xs: seq<Exchange>, packets: seq<Packet>, t: Tape)
    requires xs != [] && xs[0].answer.Raised?
    requires t.Valid() && Recorded(xs, packets) && SameTraffic(t.Pending(), packets)
    ensures var (next, answer) := Do(t, xs[0].request);
            && (Agree(xs[0].answer, answer) && AllAgree(xs[1..], DoAll(next, Requests(xs[1..])).1)
                <==> Repeatable(xs[0], xs[1..], t.strict) && Replayable(xs[1..], t.strict))
            && (Repeatable(xs[0], xs[1..], t.strict) && Replayable(xs[1..], t.strict) ==>
                RunsOut(t, DoAll(next, Requests(xs[1..])).0, AllRefusals(xs)))
    decreases xs, 0
  {
    hide Succeeded, Repeatable, Replayable, AllAgree, Do, DoAll, Refusals;
    TapeOnFailure(xs[0], xs[1..], packets, t);
    if Repeatable(xs[0], xs[1..], t.strict) {
      var next := Do(t, xs[0].request).0;
      assert next.Pending() == t.Pending();
      Lockstep(xs[1..], packets, next);
    }
  }

  lemma NothingToReplay(t: Tape)
    requires t.Valid() && t.cursor == |t.packets|
    ensures Requests([]) == [] && DoAll(t, Requests([])).0 == t
    ensures AllAgree([], DoAll(t, Requests([])).1) && Replayable([], t.strict)
  {
  }

  lemma SuccessesAgree(x: Exchange, rest: seq<Exchange>, strict: bool)
    requires !x.answer.Raised?
    ensures Repeatable(x, rest, strict) && Agree(x.answer, x.answer) && Refusals(x, rest) == 0
  {
  }

  // ------------------------------------------------------------- special cases

  /** No `receive` succeeds after another `receive` failed. */
  ghost predicate NoneAfterMiss(xs: seq<Exchange>) {
    forall i :: 0 <= i < |xs| && xs[i].request.Receive? && xs[i].answer.Raised? ==> Succeeded(xs[i + 1..], RX) == []
  }

  /** A failed `send` ends the sending: the way of one connection. */
  ghost predicate SendsEndWithFailure(xs: seq<Exchange>) {
    forall i :: 0 <= i < |xs| && xs[i].request.Send? && xs[i].answer.Raised? ==> Succeeded(xs[i + 1..], TX) == []
  }

  /** On one connection only the failed receives matter, and strictness does not. */
  lemma OneConnection(xs: seq<Exchange>, strict: bool)
    requires SendsEndWithFailure(xs)
    ensures Replayable(xs, strict) <==> NoneAfterMiss(xs)
  {
  }

  /** When every exchange succeeded, the replay gives the very same answers, without a mismatch or a split. */
  lemma {:induction false} SuccessesReplayExactly(xs: seq<Exchange>, packets: seq<Packet>, t: Tape)
    requires t.Valid() && Recorded(xs, packets) && SameTraffic(t.Pending(), packets)
    requires forall i :: 0 <= i < |xs| ==> !xs[i].answer.Raised?
    ensures forall i :: 0 <= i < |xs| ==> DoAll(t, Requests(xs)).1[i] == xs[i].answer
    ensures DoAll(t, Requests(xs)).0 == t.(cursor := |t.packets|)
    decreases xs
  {
    if xs == [] {
      assert Requests(xs) == [];
    } else {
      assert t.Pending()[0] == t.packets[t.cursor];
      TapeFollows(xs[0], t);
      var next := t.(cursor := t.cursor + 1);
      assert next.Pending() == t.Pending()[1..];
      SuccessesReplayExactly(xs[1..], packets[1..], next);
      assert Requests(xs)[1..] == Requests(xs[1..]);
      assert DoAll(t, Requests(xs)).1[1..] == DoAll(next, Requests(xs[1..])).1;
    }
  }
}
