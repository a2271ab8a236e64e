/** The recording as a tape: how replay.py walks it, splits it and logs mismatches. */
module Replay {
  import opened Wrappers
  import opened Hex
  import opened Packets
  import opened Base

  /** A send that differed from the recording: the packet's index, its bytes, and the bytes sent. */
  datatype Mismatch = Mismatch(index: nat, expected: Bytes, actual: Bytes)

  function NextIndex(packets: seq<Packet>, from: nat, direction: Direction): (r: Option<nat>)
    requires from <= |packets|
    ensures r.Some? ==> from <= r.value < |packets| && packets[r.value].direction == direction
    ensures forall j :: from <= j < (if r.Some? then r.value else |packets|) ==> packets[j].direction != direction
    decreases |packets| - from
  {
    if from == |packets| then None
    else if packets[from].direction == direction then Some(from)
    else NextIndex(packets, from + 1, direction)
  }

  function SplitPacket(p: Packet, rest: Bytes): Packet {
    Packet(RX, rest, p.timestamp, p.transport, None, Text("replay split remainder"))
  }

  /** The packets `receive` inserts after packet `p`: none, or one holding what a short read left. */
  function Inserted(p: Packet, size: nat): seq<Packet> {
    if |p.rawData| > size then [SplitPacket(p, p.rawData[size..])] else []
  }

  datatype Tape = Tape(packets: seq<Packet>, cursor: nat, mismatches: seq<Mismatch>, strict: bool) {
    predicate Valid() {
      cursor <= |packets|
    }

    function Rewind(): Tape {
      this.(cursor := 0, mismatches := [])
    }

    function Next(direction: Direction): Option<nat>
      requires Valid()
    {
      NextIndex(packets, cursor, direction)
    }

    function Send(data: Bytes): (r: (Tape, Outcome))
      requires Valid()
      ensures r.0.Valid()
    {
      match Next(TX)
      case None => (this, Raised(TimedOut))
      case Some(i) =>
        var expected := packets[i].rawData;
        var noted := if expected == data then this
                     else this.(mismatches := mismatches + [Mismatch(i, expected, data)]);
        if expected != data && strict then (noted, Raised(ReplayMismatch))
        else (noted.(cursor := i + 1), Sent(|data|))
    }

    function Receive(size: nat): (r: (Tape, Outcome))
      requires Valid()
      ensures r.0.Valid()
    {
      match Next(RX)
      case None => (this, Raised(TimedOut))
      case Some(i) =>
        (this.(cursor := i + 1,
               packets := packets[..i + 1] + Inserted(packets[i], size) + packets[i + 1..]),
         Received(Front(packets[i].rawData, size)))
    }

    /** The recorded packets not yet replayed. */
    function Pending(): seq<Packet>
      requires Valid()
    {
      packets[cursor..]
    }

    /** Whether a `receive` of this size would return only part of the next RX packet. */
    predicate Splits(size: nat)
      requires Valid()
    {
      Next(RX).Some? && |packets[Next(RX).value].rawData| > size
    }
  }

  function Do(t: Tape, r: Request): (res: (Tape, Outcome))
    requires t.Valid()
    ensures res.0.Valid()
  {
    match r
    case Send(data) => t.Send(data)
    case Receive(size) => t.Receive(size)
  }

  function DoAll(t: Tape, requests: seq<Request>): (res: (Tape, seq<Outcome>))
    requires t.Valid()
    ensures res.0.Valid() && |res.1| == |requests|
    decreases requests
  {
    if requests == [] then (t, [])
    else
      var (next, answer) := Do(t, requests[0]);
      var (last, answers) := DoAll(next, requests[1..]);
      (last, [answer] + answers)
  }

  // ------------------------------------------------------- stream conservation

  ghost predicate IsSuffix<T>(a: seq<T>, b: seq<T>) {
    |a| <= |b| && b[|b| - |a|..] == a
  }

  lemma {:induction false} OtherDirection(packets: seq<Packet>, d: Direction)
    requires forall i :: 0 <= i < |packets| ==> packets[i].direction != d
    ensures BytesOf(packets, d) == [] && PayloadsOf(packets, d) == []
  {
    if packets != [] {
      OtherDirection(packets[1..], d);
    }
  }

  /** Up to the next packet of direction `d`, the tape holds nothing of that direction. */
  lemma PendingAt(t: Tape, d: Direction)
    requires t.Valid() && t.Next(d).Some?
    ensures var i := t.Next(d).value;
            && BytesOf(t.Pending(), d) == t.packets[i].rawData + BytesOf(t.packets[i + 1..], d)
            && PayloadsOf(t.Pending(), d) == [t.packets[i].rawData] + PayloadsOf(t.packets[i + 1..], d)
  {
    var i := t.Next(d).value;
    var skipped, rest := t.packets[t.cursor..i], t.packets[i..];
    assert t.Pending() == skipped + rest;
    OtherDirection(skipped, d);
    BytesOfConcat(skipped, rest, d);
    PayloadsOfConcat(skipped, rest, d);
    assert rest[1..] == t.packets[i + 1..];
  }

  lemma LaterIsSuffix(packets: seq<Packet>, from: nat, to: nat, d: Direction)
    requires from <= to <= |packets|
    ensures IsSuffix(BytesOf(packets[to..], d), BytesOf(packets[from..], d))
    ensures IsSuffix(PayloadsOf(packets[to..], d), PayloadsOf(packets[from..], d))
  {
    assert packets[from..] == packets[from..to] + packets[to..];
    BytesOfConcat(packets[from..to], packets[to..], d);
    PayloadsOfConcat(packets[from..to], packets[to..], d);
  }

  lemma InsertedBytes(p: Packet, size: nat, rest: seq<Packet>)
    ensures Front(p.rawData, size) + BytesOf(Inserted(p, size) + rest, RX) == p.rawData + BytesOf(rest, RX)
    ensures PayloadsOf(Inserted(p, size) + rest, TX) == PayloadsOf(rest, TX)
  {
    if |p.rawData| > size {
      assert (Inserted(p, size) + rest)[1..] == rest;
      assert p.rawData == p.rawData[..size] + p.rawData[size..];
    } else {
      assert Inserted(p, size) + rest == rest;
    }
  }

  /** A successful `receive`: delivered + pending RX bytes after = pending RX bytes before; TX only skipped over. */
  lemma ReceiveConserves(t: Tape, size: nat)
    requires t.Valid() && t.Receive(size).1.Received?
    ensures var (next, answer) := t.Receive(size);
            && answer.data + BytesOf(next.Pending(), RX) == BytesOf(t.Pending(), RX)
            && IsSuffix(PayloadsOf(next.Pending(), TX), PayloadsOf(t.Pending(), TX))
  {
    hide NextIndex, BytesOf, PayloadsOf;
    var i := t.Next(RX).value;
    var next := t.Receive(size).0;
    assert next.Pending() == Inserted(t.packets[i], size) + t.packets[i + 1..];
    PendingAt(t, RX);
    InsertedBytes(t.packets[i], size, t.packets[i + 1..]);
    LaterIsSuffix(t.packets, t.cursor, i + 1, TX);
  }

  /** A successful `send` takes exactly the head of the pending TX payloads; RX bytes are only skipped over. */
  lemma SendConsumesHead(t: Tape, data: Bytes)
    requires t.Valid() && t.Send(data).1.Sent?
    ensures var (next, answer) := t.Send(data);
            && PayloadsOf(t.Pending(), TX) != []
            && (t.strict ==> PayloadsOf(t.Pending(), TX)[0] == data)
            && PayloadsOf(next.Pending(), TX) == PayloadsOf(t.Pending(), TX)[1..]
            && IsSuffix(BytesOf(next.Pending(), RX), BytesOf(t.Pending(), RX))
            && answer.count == |data|
  {
    hide NextIndex, BytesOf, PayloadsOf;
    PendingAt(t, TX);
    LaterIsSuffix(t.packets, t.cursor, t.Next(TX).value + 1, RX);
  }

  // ----------------------------------------------- the tape as a list being consumed

  /** What is left of the pending packets from the first one of a direction on. */
  function From(pending: seq<Packet>, d: Direction): seq<Packet> {
    if pending == [] || pending[0].direction == d then pending else From(pending[1..], d)
  }

  /** The replay without indices: a request skips to the first packet of its direction and consumes it. */
  function Consume(pending: seq<Packet>, r: Request, strict: bool): (seq<Packet>, Outcome) {
    match r
    case Send(data) =>
      var rest := From(pending, TX);
      if rest == [] then (pending, Raised(TimedOut))
      else if strict && rest[0].rawData != data then (pending, Raised(ReplayMismatch))
      else (rest[1..], Sent(|data|))
    case Receive(size) =>
      var rest := From(pending, RX);
      if rest == [] then (pending, Raised(TimedOut))
      else
        var payload := rest[0].rawData;
        if |payload| <= size then (rest[1..], Received(payload))
        else
          var p := rest[0];
          var remainder := Packet(RX, payload[size..], p.timestamp, p.transport, None, Text("replay split remainder"));
          ([remainder] + rest[1..], Received(payload[..size]))
  }

  function ConsumeAll(pending: seq<Packet>, requests: seq<Request>, strict: bool): (seq<Packet>, seq<Outcome>)
    decreases requests
  {
    if requests == [] then (pending, [])
    else
      var (next, answer) := Consume(pending, requests[0], strict);
      var (last, answers) := ConsumeAll(next, requests[1..], strict);
      (last, [answer] + answers)
  }

  lemma {:induction false} FromIsNext(packets: seq<Packet>, from: nat, d: Direction)
    requires from <= |packets|
    ensures var i := NextIndex(packets, from, d);
            From(packets[from..], d) == packets[if i.Some? then i.value else |packets|..]
    decreases |packets| - from
  {
    if from < |packets| && packets[from].direction != d {
      assert packets[from..][1..] == packets[from + 1..];
      FromIsNext(packets, from + 1, d);
    }
  }

  lemma FromPending(t: Tape, d: Direction)
    requires t.Valid()
    ensures t.Next(d) == None <==> From(t.Pending(), d) == []
    ensures t.Next(d).Some? ==>
              var i, rest := t.Next(d).value, From(t.Pending(), d);
              t.cursor <= i < |t.packets| && rest != [] && rest[0] == t.packets[i] && rest[1..] == t.packets[i + 1..]
  {
    hide NextIndex, From;
    FromIsNext(t.packets, t.cursor, d);
  }

  /** What a `receive` leaves pending, and what stays in the list behind the cursor. */
  lemma PendingAfterReceive(t: Tape, size: nat)
    requires t.Valid() && t.Next(RX).Some?
    ensures var next, i := t.Receive(size).0, t.Next(RX).value;
            && next.Pending() == Inserted(t.packets[i], size) + t.packets[i + 1..]
            && next.packets[..t.cursor] == t.packets[..t.cursor]
  {
    hide NextIndex, Inserted;
  }

  /** One request: what was passed stays in the list behind the cursor, and what is pending is consumed. */
  lemma ConsumesPending(t: Tape, r: Request)
    requires t.Valid()
    ensures var (next, answer) := Do(t, r);
            && (next.Pending(), answer) == Consume(t.Pending(), r, t.strict)
            && next.strict == t.strict && t.cursor <= next.cursor
            && next.packets[..t.cursor] == t.packets[..t.cursor]
            && (r.Send? ==> next.packets == t.packets)
  {
    hide NextIndex, From;
    FromPending(t, if r.Send? then TX else RX);
    if r.Receive? && t.Next(RX).Some? {
      hide Tape.Pending;
      PendingAfterReceive(t, r.size);
    }
  }

  /** Whatever is asked, walking the recording with a cursor answers as consuming the pending packets does. */
  lemma {:induction false} TapeRefinesList(t: Tape, requests: seq<Request>)
    requires t.Valid()
    ensures (DoAll(t, requests).0.Pending(), DoAll(t, requests).1) == ConsumeAll(t.Pending(), requests, t.strict)
    decreases requests
  {
    hide Do, Consume;
    if requests != [] {
      ConsumesPending(t, requests[0]);
      TapeRefinesList(Do(t, requests[0]).0, requests[1..]);
    }
  }

  /** Position `k` holds the first packet of direction `d`. */
  ghost predicate IsFirst(packets: seq<Packet>, d: Direction, k: nat) {
    k < |packets| && packets[k].direction == d && forall j :: 0 <= j < k ==> packets[j].direction != d
  }

  lemma {:induction false} FromIsFirst(pending: seq<Packet>, d: Direction, k: nat)
    requires IsFirst(pending, d, k)
    ensures From(pending, d) == pending[k..]
  {
    if k > 0 {
      assert IsFirst(pending[1..], d, k - 1);
      FromIsFirst(pending[1..], d, k - 1);
    }
  }

  /** The cursor stops right behind the packet a request used: what lies beyond stays pending. */
  lemma CursorStopsBehind(t: Tape, r: Request, k: nat)
    requires t.Valid() && IsFirst(t.Pending(), if r.Send? then TX else RX, k)
    ensures var (next, answer) := Do(t, r);
            var p := t.Pending()[k];
            && (r.Send? && answer.Sent? ==> next.packets == t.packets && next.Pending() == t.Pending()[k + 1..])
            && (r.Receive? ==>
                && answer == Received(if |p.rawData| > r.size then p.rawData[..r.size] else p.rawData)
                && (|p.rawData| <= r.size ==> next.Pending() == t.Pending()[k + 1..])
                && (|p.rawData| > r.size ==>
                    && next.Pending() != [] && next.Pending()[1..] == t.Pending()[k + 1..]
                    && next.Pending()[0].direction == RX && next.Pending()[0].rawData == p.rawData[r.size..]))
  {
    hide Do, From;
    ConsumesPending(t, r);
    FromIsFirst(t.Pending(), if r.Send? then TX else RX, k);
    assert t.Pending()[k..][1..] == t.Pending()[k + 1..];
  }

  /**
   * How a request is answered, by what is pending: a `send` times out when no TX is left and is refused when
   * strict and the head differs, which is logged; a `receive` times out when no RX is left; and no failure
   * moves the tape.
   */
  lemma AnswersFollowPending(t: Tape, data: Bytes, size: nat)
    requires t.Valid()
    ensures var (next, answer) := t.Send(data);
            var pending := PayloadsOf(t.Pending(), TX);
            && (answer == Raised(TimedOut) <==> pending == [])
            && (answer == Raised(ReplayMismatch) <==> t.strict && pending != [] && pending[0] != data)
            && (answer.Raised? ==> next.(mismatches := t.mismatches) == t)
            && (pending == [] || pending[0] == data ==> next.mismatches == t.mismatches)
            && (pending != [] && pending[0] != data ==>
                next.mismatches == t.mismatches + [Mismatch(t.Next(TX).value, pending[0], data)])
    ensures var (next, answer) := t.Receive(size);
            && (answer == Raised(TimedOut) <==> PayloadsOf(t.Pending(), RX) == [])
            && (answer.Raised? ==> answer == Raised(TimedOut) && next == t)
  {
    hide NextIndex, PayloadsOf, BytesOf;
    if t.Next(TX).Some? {
      PendingAt(t, TX);
    } else {
      OtherDirection(t.Pending(), TX);
    }
    if t.Next(RX).Some? {
      PendingAt(t, RX);
    } else {
      OtherDirection(t.Pending(), RX);
    }
  }

  function Delivered(answers: seq<Outcome>): Bytes {
    if answers == [] then []
    else (if answers[0].Received? then answers[0].data else []) + Delivered(answers[1..])
  }

  ghost predicate OnlyReads(requests: seq<Request>) {
    forall i :: 0 <= i < |requests| ==> requests[i].Receive?
  }

  lemma {:induction false} ReadsConserve(t: Tape, requests: seq<Request>)
    requires t.Valid() && OnlyReads(requests)
    ensures Delivered(DoAll(t, requests).1) + BytesOf(DoAll(t, requests).0.Pending(), RX) == BytesOf(t.Pending(), RX)
    decreases requests
  {
    hide NextIndex, Tape.Send, BytesOf, PayloadsOf, Inserted;
    if requests != [] {
      assert requests[0].Receive?;
      var (next, answer) := Do(t, requests[0]);
      if answer.Received? {
        ReceiveConserves(t, requests[0].size);
      }
      ReadsConserve(next, requests[1..]);
      assert DoAll(t, requests).1[1..] == DoAll(next, requests[1..]).1;
    }
  }

  /** However the reads are cut, equally many bytes read are the same bytes. */
  lemma {:induction false} ReadsAreSizeBlind(t: Tape, requests: seq<Request>, others: seq<Request>)
    requires t.Valid() && OnlyReads(requests) && OnlyReads(others)
    ensures var a, b := Delivered(DoAll(t, requests).1), Delivered(DoAll(t, others).1);
            |a| <= |b| ==> a == b[..|a|]
  {
    ReadsConserve(t, requests);
    ReadsConserve(t, others);
    var a, b := Delivered(DoAll(t, requests).1), Delivered(DoAll(t, others).1);
    var all := BytesOf(t.Pending(), RX);
    assert a == all[..|a|] && b == all[..|b|];
  }

  // ---------------------------------------------------------------- termination

  /** Unread RX bytes plus packets not yet passed. */
  function Left(t: Tape): nat
    requires t.Valid()
  {
    |BytesOf(t.Pending(), RX)| + |t.packets| - t.cursor
  }

  /** A `receive` makes progress unless it returns nothing of a packet that the cursor is already on. */
  lemma ReceiveProgress(t: Tape, size: nat)
    requires t.Valid() && t.Receive(size).1.Received?
    ensures Left(t.Receive(size).0) <= Left(t)
    ensures Left(t.Receive(size).0) < Left(t) <==> !(size == 0 && t.Splits(0) && t.Next(RX).value == t.cursor)
  {
    ReceiveConserves(t, size);
  }

  lemma SendProgress(t: Tape, data: Bytes)
    requires t.Valid() && t.Send(data).1.Sent?
    ensures Left(t.Send(data).0) < Left(t)
  {
    SendConsumesHead(t, data);
  }

  function Successes(answers: seq<Outcome>): nat {
    if answers == [] then 0 else (if answers[0].Raised? then 0 else 1) + Successes(answers[1..])
  }

  /** Without a reset, at most `Left` calls can succeed, however the calls are mixed. */
  lemma {:induction false} RunsAreBounded(t: Tape, requests: seq<Request>)
    requires t.Valid()
    requires forall i :: 0 <= i < |requests| && requests[i].Receive? ==> requests[i].size >= 1
    ensures Successes(DoAll(t, requests).1) + Left(DoAll(t, requests).0) <= Left(t)
    decreases requests
  {
    if requests != [] {
      var (next, answer) := Do(t, requests[0]);
      match requests[0] {
        case Send(data) =>
          if answer.Sent? { SendProgress(t, data); }
        case Receive(size) =>
          if answer.Received? { ReceiveProgress(t, size); }
      }
      RunsAreBounded(next, requests[1..]);
      assert DoAll(t, requests).1[1..] == DoAll(next, requests[1..]).1;
    }
  }

  // ------------------------------------------------------- the mismatch log

  /** Packet `m.index` is the TX packet the mismatch was logged against. */
  ghost predicate Truthful(m: Mismatch, packets: seq<Packet>) {
    && m.index < |packets| && packets[m.index].direction == TX
    && packets[m.index].rawData == m.expected != m.actual
  }

  ghost predicate TruthfulLog(t: Tape) {
    forall k :: 0 <= k < |t.mismatches| ==> Truthful(t.mismatches[k], t.packets)
  }

  /** The lenient log: every entry truthful, strictly increasing, and below the cursor. */
  ghost predicate LenientLog(t: Tape) {
    && t.Valid() && TruthfulLog(t)
    && (forall k :: 0 <= k < |t.mismatches| ==> t.mismatches[k].index < t.cursor)
    && (forall j, k :: 0 <= j < k < |t.mismatches| ==> t.mismatches[j].index < t.mismatches[k].index)
  }

  lemma LenientLogKept(t: Tape, r: Request)
    requires LenientLog(t) && !t.strict
    ensures LenientLog(Do(t, r).0) && !Do(t, r).0.strict
  {
  }

  /**
   * The strict log: an entry at or above the cursor waits for the cursor behind RX packets only, since a
   * strict mismatch leaves the cursor where it was. An entry that is not truthful has come to lie on an RX packet.
   */
  ghost predicate StrictEntries(t: Tape) {
    && t.Valid()
    && (forall m <- t.mismatches :: m.index < |t.packets|)
    && (forall m <- t.mismatches :: Truthful(m, t.packets) || t.packets[m.index].direction == RX)
    && (forall m, j :: m in t.mismatches && t.cursor <= j < m.index ==> t.packets[j].direction == RX)
  }

  /** Whether a `receive` of this size splits a packet below an entry of the log. */
  predicate SplitsBelowEntry(t: Tape, size: nat)
    requires t.Valid()
  {
    t.Splits(size) && exists m <- t.mismatches :: m.index > t.Next(RX).value
  }

  /** A `send` adds truthful entries only. */
  lemma StrictSendKeepsLog(t: Tape, data: Bytes)
    requires StrictEntries(t)
    ensures StrictEntries(t.Send(data).0)
    ensures TruthfulLog(t.Send(data).0) <==> TruthfulLog(t)
  {
    hide NextIndex;
    var next := t.Send(data).0;
    assert forall k :: 0 <= k < |t.mismatches| ==> next.mismatches[k] == t.mismatches[k];
  }

  /** The log is truthful after a `receive` exactly when it was before and the read splits no packet below an entry. */
  lemma StrictLogBreaksOnSplit(t: Tape, size: nat)
    requires StrictEntries(t)
    ensures StrictEntries(t.Receive(size).0)
    ensures TruthfulLog(t.Receive(size).0) <==> TruthfulLog(t) && !SplitsBelowEntry(t, size)
  {
    hide NextIndex;
    if t.Next(RX).Some? {
      var next := t.Receive(size).0;
      var i := t.Next(RX).value;
      forall m | m in t.mismatches
        ensures m.index < |next.packets|
        ensures Truthful(m, next.packets) <==> Truthful(m, t.packets) && !(t.Splits(size) && m.index > i)
        ensures Truthful(m, next.packets) || next.packets[m.index].direction == RX
        ensures forall j :: next.cursor <= j < m.index ==> next.packets[j].direction == RX
      {
        EntryAfterReceive(t, size, m);
      }
      assert next.mismatches == t.mismatches;
    }
  }

  /** One entry across a `receive`: a split below it leaves an RX packet at its index. */
  lemma EntryAfterReceive(t: Tape, size: nat, m: Mismatch)
    requires StrictEntries(t) && m in t.mismatches && t.Next(RX).Some?
    ensures var (next, i) := (t.Receive(size).0, t.Next(RX).value);
            && m.index < |next.packets|
            && (Truthful(m, next.packets) <==> Truthful(m, t.packets) && !(t.Splits(size) && m.index > i))
            && (Truthful(m, next.packets) || next.packets[m.index].direction == RX)
            && forall j :: next.cursor <= j < m.index ==> next.packets[j].direction == RX
  {
    hide NextIndex;
    var next := t.Receive(size).0;
    var i := t.Next(RX).value;
    if t.Splits(size) {
      assert forall j :: 0 <= j < |next.packets| ==>
        next.packets[j] == if j <= i then t.packets[j]
                           else if j == i + 1 then Inserted(t.packets[i], size)[0] else t.packets[j - 1];
    } else {
      assert next.packets == t.packets;
    }
  }

  /** A strict log that a short read makes lie: the packet at the logged index becomes an RX packet. */
  lemma StrictLogCanLie()
    ensures var rx := Packet(RX, [1, 2], 0.0, map[], None, Null);
            var tx := Packet(TX, [3], 0.0, map[], None, Null);
            var t := Tape([rx, tx], 0, [], true).Send([4]).0;
            StrictEntries(t) && TruthfulLog(t) && !TruthfulLog(t.Receive(1).0)
  {
    var rx := Packet(RX, [1, 2], 0.0, map[], None, Null);
    var tx := Packet(TX, [3], 0.0, map[], None, Null);
    var start := Tape([rx, tx], 0, [], true);
    assert NextIndex([rx, tx], 1, TX) == Some(1);
    assert start.Next(TX) == Some(1);
    var t := start.Send([4]).0;
    assert t.mismatches == [Mismatch(1, [3], [4])];
    assert t.Next(RX) == Some(0);
    assert t.mismatches[0].index > 0;
    assert SplitsBelowEntry(t, 1);
    StrictLogBreaksOnSplit(t, 1);
  }
}
