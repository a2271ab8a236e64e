/** What a whole run of the TCP transport leaves behind, traced to the call that left it. */
module EnetHistory {
  import opened Wrappers
  import opened Hex
  import opened Packets
  import opened Base
  import opened Ethernet
  import opened Enet
  import opened EnetRuns

  /** The state in which call number `i` of the run is made. */
  function Before(s: EnetState, calls: seq<EnetCall>, i: nat): (t: EnetState)
    requires s.Ready() && i <= |calls|
    ensures t.Ready()
  {
    Run(s, calls[..i])
  }

  lemma {:induction false} RunSnoc(s: EnetState, calls: seq<EnetCall>, c: EnetCall)
    requires s.Ready()
    ensures Run(s, calls + [c]) == Step(Run(s, calls), c).0
    decreases calls
  {
    if calls == [] {
      assert calls + [c] == [c] && [c][1..] == [];
    } else {
      assert (calls + [c])[1..] == calls[1..] + [c];
      RunSnoc(Step(s, calls[0]).0, calls[1..], c);
    }
  }

  /** The last call of a run, and the run before it. */
  lemma {:induction false} LastCall(s: EnetState, calls: seq<EnetCall>)
    requires s.Ready() && calls != []
    ensures var n := |calls| - 1;
            && Run(s, calls) == Step(Before(s, calls, n), calls[n]).0
            && forall i :: 0 <= i <= n ==> Before(s, calls[..n], i) == Before(s, calls, i)
  {
    var n := |calls| - 1;
    assert calls == calls[..n] + [calls[n]];
    RunSnoc(s, calls[..n], calls[n]);
    assert forall i :: 0 <= i <= n ==> calls[..n][..i] == calls[..i];
  }

  // ------------------------------------------------------------------ CONNECTING

  /** Call number `i` found no socket, and nothing after it left CONNECTING. */
  ghost predicate StuckSince(s: EnetState, calls: seq<EnetCall>, i: nat)
    requires s.Ready()
  {
    && i < |calls| && HitsNoSocket(Before(s, calls, i), calls[i])
    && forall j :: i < j < |calls| ==> !Settles(s.config, calls[j])
  }

  /** Over every run, CONNECTING is seen afterwards exactly when some call found no socket and none settled it since. */
  lemma {:induction false} ConnectingIsSeen(s: EnetState, calls: seq<EnetCall>)
    requires Inv(s) && s.Ready() && s.link.state != Connecting
    ensures Run(s, calls).link.state == Connecting <==> exists i: nat :: StuckSince(s, calls, i)
    decreases |calls|
  {
    hide HitsNoSocket, Settles, Step, Inv;
    if calls != [] {
      var n := |calls| - 1;
      var early, c := calls[..n], calls[n];
      LastCall(s, calls);
      ConnectingIsSeen(s, early);
      RunKeepsInv(s, early);
      StepKeepsInv(Run(s, early), c);
      forall i: nat | i < n ensures StuckSince(s, calls, i) <==> StuckSince(s, early, i) && !Settles(s.config, c) {
        StuckOneLonger(s, calls, i);
      }
      assert StuckSince(s, calls, n) <==> HitsNoSocket(Run(s, early), c);
      if Run(s, calls).link.state == Connecting && !HitsNoSocket(Run(s, early), c) {
        var i: nat :| StuckSince(s, early, i);
        assert StuckSince(s, calls, i);
      }
    }
  }

  lemma StuckOneLonger(s: EnetState, calls: seq<EnetCall>, i: nat)
    requires s.Ready() && i + 1 < |calls|
    ensures var n := |calls| - 1;
            StuckSince(s, calls, i) <==> StuckSince(s, calls[..n], i) && !Settles(s.config, calls[n])
  {
    hide HitsNoSocket, Settles;
    var n := |calls| - 1;
    assert calls[..n][..i] == calls[..i];
    assert forall j :: 0 <= j < n ==> calls[..n][j] == calls[j];
  }

  /** No attempt of the call is answered by a host out of sockets. */
  ghost predicate AlwaysSockets(c: EnetCall) {
    (c.Connect? ==> c.attempt.tcp != NoSocket) && (c.Reconnect? ==> forall k: nat :: c.world(k).tcp != NoSocket)
  }

  /** While the host has sockets, CONNECTING is never seen between calls. */
  lemma {:induction false} NeverConnecting(config: Config, now: real, calls: seq<EnetCall>)
    requires forall i :: 0 <= i < |calls| ==> AlwaysSockets(calls[i])
    ensures Run(Initial(config, now), calls).link.state != Connecting
  {
    var s := Initial(config, now);
    ConnectingIsSeen(s, calls);
    forall i: nat | i < |calls| ensures !HitsNoSocket(Before(s, calls, i), calls[i]) {
      assert AlwaysSockets(calls[i]);
    }
  }

  // --------------------------------------------------------------- orphan sockets

  /** Call number `i` is a send that timed out, and nothing after it closed or replaced the socket. */
  ghost predicate OrphanSince(s: EnetState, calls: seq<EnetCall>, i: nat)
    requires s.Ready()
  {
    && i < |calls| && TimesOutSending(Before(s, calls, i), calls[i])
    && forall j :: i < j < |calls| ==> !Replaces(Before(s, calls, j), calls[j])
  }

  /**
   * Over every run, a socket is held outside CONNECTED exactly when some send timed out and nothing closed or
   * replaced its socket since; and it is the socket of that send.
   */
  lemma {:induction false} OrphansComeFromSends(s: EnetState, calls: seq<EnetCall>)
    requires Inv(s) && s.Ready() && !Orphan(s)
    ensures Orphan(Run(s, calls)) <==> exists i: nat :: OrphanSince(s, calls, i)
    ensures forall i: nat :: OrphanSince(s, calls, i) ==> SameSocket(Before(s, calls, i), Run(s, calls))
    decreases |calls|
  {
    hide Replaces, Step, Inv, TimesOutSending;
    if calls != [] {
      var n := |calls| - 1;
      var early, c := calls[..n], calls[n];
      LastCall(s, calls);
      OrphansComeFromSends(s, early);
      RunKeepsInv(s, early);
      StepKeepsInv(Run(s, early), c);
      forall i: nat | i < n
        ensures OrphanSince(s, calls, i) <==> OrphanSince(s, early, i) && !Replaces(Run(s, early), c)
      {
        OrphanOneLonger(s, calls, i);
      }
      assert OrphanSince(s, calls, n) <==> TimesOutSending(Run(s, early), c);
      if Orphan(Run(s, calls)) && !TimesOutSending(Run(s, early), c) {
        var i: nat :| OrphanSince(s, early, i);
        assert OrphanSince(s, calls, i);
      }
    }
  }

  ghost predicate SameSocket(s: EnetState, t: EnetState) {
    s.socket.Some? && t.socket.Some? && s.socket.value.id == t.socket.value.id
  }

  lemma OrphanOneLonger(s: EnetState, calls: seq<EnetCall>, i: nat)
    requires s.Ready() && i + 1 < |calls|
    ensures var n := |calls| - 1;
            OrphanSince(s, calls, i) <==> OrphanSince(s, calls[..n], i) && !Replaces(Before(s, calls, n), calls[n])
  {
    hide Replaces, TimesOutSending;
    var n := |calls| - 1;
    assert forall j :: 0 <= j < n ==> calls[..n][j] == calls[j] && calls[..n][..j] == calls[..j];
  }

  /** An orphan is held in ERROR, or in CONNECTING exactly when a later attempt found no socket. */
  lemma OrphanStates(config: Config, now: real, calls: seq<EnetCall>)
    ensures var s := Initial(config, now);
            var t := Run(s, calls);
            && (Orphan(t) ==> t.link.state in {Error, Connecting})
            && (Orphan(t) && t.link.state != Error <==> Orphan(t) && exists i: nat :: StuckSince(s, calls, i))
  {
    var s := Initial(config, now);
    RunKeepsInv(s, calls);
    ConnectingIsSeen(s, calls);
  }

  /** Connect, a send that times out, connect again with no socket to be had: CONNECTING, with the old socket. */
  lemma OrphanInConnecting(config: Config, i: NetworkInterface, a: Bytes, data: Bytes, m: Moment)
    requires HasTarget(config) && i.HasLink()
    ensures var calls := [
              Connect(Attempt(Success(i), Accepted(a))),
              EnetCall.Send(data, WriteTimedOut, m),
              Connect(Attempt(Success(i), NoSocket))];
            var t := Run(Initial(config, 0.0), calls);
            t.link.state == Connecting && Orphan(t) && t.socket.value.id == 0
  {
    var first, send := Connect(Attempt(Success(i), Accepted(a))), EnetCall.Send(data, WriteTimedOut, m);
    var again := Connect(Attempt(Success(i), NoSocket));
    var s := Initial(config, 0.0);
    var connected := Step(s, first).0;
    var stuck := Step(connected, send).0;
    assert [first, send, again][1..] == [send, again] && [send, again][1..] == [again] && [again][1..] == [];
    assert Run(s, [first, send, again]) == Run(connected, [send, again]) == Run(stuck, [again]) == Step(stuck, again).0;
  }

  // ------------------------------------------------------------- evidence ladder

  /** Call number `i` is the last one of the run to find a linked interface. */
  ghost predicate FoundLast(s: EnetState, calls: seq<EnetCall>, i: nat)
    requires s.Ready()
  {
    && i < |calls| && Finds(Before(s, calls, i), calls[i])
    && forall j :: i < j < |calls| ==> !Finds(Before(s, calls, j), calls[j])
  }

  /** The interface of a run is the one stored by the last call to find one, be it a `connect` or a `reconnect`. */
  lemma {:induction false} InterfaceIsTheLastFound(s: EnetState, calls: seq<EnetCall>)
    requires Inv(s) && s.Ready() && s.interface == None
    ensures Run(s, calls).interface.Some? <==> exists i: nat :: FoundLast(s, calls, i)
    ensures forall i: nat :: FoundLast(s, calls, i) ==>
              Run(s, calls).interface == InterfaceAfter(Before(s, calls, i), calls[i])
    decreases |calls|
  {
    hide Finds, Step, Inv, InterfaceAfter;
    if calls != [] {
      var n := |calls| - 1;
      var early, c := calls[..n], calls[n];
      LastCall(s, calls);
      InterfaceIsTheLastFound(s, early);
      RunKeepsInv(s, early);
      StepKeepsInv(Run(s, early), c);
      InterfaceStays(Run(s, early), c);
      NotFoundKeeps(Run(s, early), c);
      forall i: nat | i < n ensures FoundLast(s, calls, i) <==> FoundLast(s, early, i) && !Finds(Run(s, early), c) {
        FoundOneLonger(s, calls, i);
      }
      assert FoundLast(s, calls, n) <==> Finds(Run(s, early), c);
      if Run(s, calls).interface.Some? && !Finds(Run(s, early), c) {
        var i: nat :| FoundLast(s, early, i);
        assert FoundLast(s, calls, i);
      }
    }
  }

  /** A call that finds no linked interface stores none. */
  lemma NotFoundKeeps(s: EnetState, c: EnetCall)
    ensures !Finds(s, c) ==> InterfaceAfter(s, c) == s.interface
  {
  }

  lemma FoundOneLonger(s: EnetState, calls: seq<EnetCall>, i: nat)
    requires s.Ready() && i + 1 < |calls|
    ensures var n := |calls| - 1;
            FoundLast(s, calls, i) <==> FoundLast(s, calls[..n], i) && !Finds(Before(s, calls, n), calls[n])
  {
    hide Finds;
    var n := |calls| - 1;
    assert forall j :: 0 <= j < n ==> calls[..n][j] == calls[j] && calls[..n][..j] == calls[..j];
  }

  /**
   * Over every run from a new transport: only three rungs of the ladder are ever reported, the top one exactly
   * while CONNECTED, and NONE exactly as long as no `connect` or `reconnect` has found a linked interface.
   */
  lemma {:induction false} ReportedLevels(config: Config, now: real, calls: seq<EnetCall>)
    ensures var s := Initial(config, now);
            var t := Run(s, calls);
            && t.Level() in {NoneLevel, EthernetLink, TcpConnected}
            && (t.Level() == TcpConnected <==> t.link.state == Connected)
            && (t.Level() == NoneLevel <==> !exists i: nat :: FoundLast(s, calls, i))
  {
    RunKeepsInv(Initial(config, now), calls);
    InterfaceIsTheLastFound(Initial(config, now), calls);
  }

  /** Once a call finds a linked interface, no later call brings the level back to NONE. */
  lemma EvidenceIsNeverLost(s: EnetState, c: EnetCall, calls: seq<EnetCall>)
    requires Inv(s) && s.Ready()
    requires Finds(s, c) || s.Level() != NoneLevel
    ensures Run(s, [c] + calls).Level() != NoneLevel
  {
    hide Finds, InterfaceAfter;
    var t := Step(s, c).0;
    StepKeepsInv(s, c);
    InterfaceStays(s, c);
    assert ([c] + calls)[1..] == calls;
    RunKeepsInv(t, calls);
  }

  /** What src/f10diag/status.py says of ETHERNET_LINK beyond the link. */
  ghost predicate CarriesAddress(t: EnetState) {
    t.interface.Some? && t.interface.value.ipv4 != []
  }

  /** A reported ETHERNET_LINK carries an address exactly when the interface found last had one when it was found. */
  lemma LinkCarriesAddress(config: Config, now: real, calls: seq<EnetCall>) returns (i: nat)
    requires Run(Initial(config, now), calls).Level() == EthernetLink
    ensures var s := Initial(config, now);
            && FoundLast(s, calls, i)
            && InterfaceAfter(Before(s, calls, i), calls[i]).Some?
            && (CarriesAddress(Run(s, calls)) <==> InterfaceAfter(Before(s, calls, i), calls[i]).value.ipv4 != [])
  {
    var s := Initial(config, now);
    ReportedLevels(config, now, calls);
    InterfaceIsTheLastFound(s, calls);
    i :| FoundLast(s, calls, i);
  }

  /** A refused handshake over a linked interface without any address is reported as ETHERNET_LINK. */
  lemma LinkWithoutAddress(config: Config, i: NetworkInterface)
    requires HasTarget(config) && i.HasLink() && i.ipv4 == []
    ensures var t := Step(Initial(config, 0.0), Connect(Attempt(Success(i), ConnectRefused))).0;
            t.Level() == EthernetLink && !CarriesAddress(t)
  {
  }
}
