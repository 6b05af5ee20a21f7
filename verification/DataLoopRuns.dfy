/**
 * That the data loop can do its work: runs that carry any packets in both directions without loss and
 * then end with every goroutine finished.
 */
module DataLoopRuns {
  import opened Bytes
  import opened Framing
  import opened LoopErrors
  import opened DataLoop
  import opened DataLoopProofs
  import opened DataLoopTheorems
  import opened DataLoopErrors

  ghost predicate Reachable(s: State) {
    exists trace: seq<State>, actions: seq<Action> :: Run(trace, actions) && trace[|actions|] == s
  }

  lemma ReachStep(s: State, a: Action)
    requires Reachable(s) && Enabled(s, a)
    ensures Reachable(Apply(s, a))
  {
    var trace: seq<State>, actions: seq<Action> :| Run(trace, actions) && trace[|actions|] == s;
    StepsSnoc(trace, actions, (p, b, q) => Enabled(p, b) && q == Apply(p, b), a, Apply(s, a));
    var trace', actions' := trace + [Apply(s, a)], actions + [a];
    assert Run(trace', actions') && trace'[|actions'|] == Apply(s, a);
  }

  /** A session is up, nothing is on its way and nobody has asked for the end. */
  predicate Idle(s: State) {
    && s.up.reader == Reading && s.up.queue == [] && s.up.dropped == []
    && s.writer == Selecting && s.keepaliver == Ticking
    && s.down.receiver == Checking && s.down.pending == []
    && Usable(s.conn)
    && s.control == Control(WaitingForEnd, false, false, false, [], false, 0)
  }

  /** The writer is about to write a packet that came from the TUN device. */
  function AboutToWrite(s: State, p: bytes): State {
    s.(up := s.up.(fromTun := s.up.fromTun + [p], taken := s.up.taken + [p]),
       writer := Writing(p),
       stats := s.stats.(bytesSent := s.stats.bytesSent + |p|, packetsSent := s.stats.packetsSent + 1))
  }

  lemma ReachesWriter(s: State, p: bytes)
    requires Reachable(s) && Idle(s) && p != []
    ensures Reachable(AboutToWrite(s, p))
  {
    ReachStep(s, ByTunReader(TunReturns(p)));
    var s1 := s.(up := s.up.(reader := Offering(p), fromTun := s.up.fromTun + [p]));
    ReachStep(s1, ByTunReader(Enqueue));
    var s2 := s1.(up := s1.up.(reader := Reading, queue := [p]));
    ReachStep(s2, ByWriter(WriterTakes));
    var s3 := s2.(up := s2.up.(queue := [], taken := s2.up.taken + [p]), writer := Counting(p));
    ReachStep(s3, ByWriter(WriterCounts));
  }

  lemma PassesPacket(s: State, p: bytes) returns (s': State)
    requires Reachable(s) && Idle(s) && p != []
    ensures Reachable(s') && Idle(s') && s'.down == s.down
    ensures s'.up.fromTun == s.up.fromTun + [p] && s'.written == s.written + [p]
    ensures s'.conn == AfterWrite(s.conn, Data(p))
  {
    ReachesWriter(s, p);
    var s4 := AboutToWrite(s, p);
    ReachStep(s4, ByWriter(WriterWrites));
    s' := WriterApply(s4, WriterWrites);
  }

  lemma {:induction false} PassesPackets(s: State, packets: seq<bytes>) returns (s': State)
    requires Reachable(s) && Idle(s) && forall i | 0 <= i < |packets| :: packets[i] != []
    ensures Reachable(s') && Idle(s') && s'.down == s.down
    ensures s'.up.fromTun == s.up.fromTun + packets && s'.written == s.written + packets
    decreases |packets|
  {
    if packets == [] {
      NothingMore(s.up.fromTun);
      NothingMore(s.written);
      return s;
    }
    var n := |packets| - 1;
    var before := PassesPackets(s, packets[..n]);
    s' := PassesPacket(before, packets[n]);
    OneMore(s.up.fromTun, packets);
    OneMore(s.written, packets);
  }

  function Pings(n: nat): seq<Frame> {
    if n == 0 then [] else Pings(n - 1) + [Keepalive]
  }

  lemma {:induction false} SendsKeepalives(s: State, n: nat) returns (s': State)
    requires Reachable(s) && Idle(s)
    ensures Reachable(s') && Idle(s') && s'.down == s.down && s'.up == s.up && s'.written == s.written
    ensures s'.conn.frames == s.conn.frames + Pings(n)
  {
    if n == 0 {
      assert s.conn.frames + [] == s.conn.frames;
      return s;
    }
    var before := SendsKeepalives(s, n - 1);
    ReachStep(before, ByKeepaliver(KeepaliveTick));
    var ticked := before.(keepaliver := Pinging);
    ReachStep(ticked, ByKeepaliver(KeepaliveWrites));
    s' := KeepaliveApply(ticked, KeepaliveWrites);
    assert s.conn.frames + Pings(n - 1) + [Keepalive] == s.conn.frames + Pings(n);
  }

  lemma NothingMore(items: seq<bytes>)
    ensures items + [] == items
  {
  }

  lemma OneMore(items: seq<bytes>, more: seq<bytes>)
    requires more != []
    ensures items + more[..|more| - 1] + [more[|more| - 1]] == items + more
  {
  }

  /** What readLoop makes of one frame, back at its check. */
  function AfterFrame(d: Downlink, f: Frame): Downlink {
    AfterDispatch(d.(arrived := d.arrived + FrameBytes(f)), PacketOf(f)).(receiver := Checking)
  }

  /** These bytes have arrived and readLoop is about to read them. */
  function Arrived(s: State, stream: bytes): State {
    s.(down := s.down.(arrived := s.down.arrived + stream, pending := stream, receiver := Awaiting))
  }

  lemma StreamArrives(s: State, stream: bytes)
    requires Reachable(s) && Idle(s)
    ensures Reachable(Arrived(s, stream))
  {
    ReachStep(s, ByEnvironment(PeerSends(stream)));
    assert [] + stream == stream;
    var s1 := s.(down := s.down.(arrived := s.down.arrived + stream, pending := stream));
    ReachStep(s1, ByReceiver(ReceiverProceeds));
  }

  lemma AwaitedFrame(d: Downlink, c: Control, f: Frame)
    requires d.receiver == Awaiting && d.pending == FrameBytes(f) && Fits(f)
    ensures var read := ReceiverReads(|FrameBytes(f)|, Broken);
            ReceiverEnabled(d, c, read) && ReceiverApply(d, c, read) == d.(receiver := Holding(PacketOf(f)), pending := [])
  {
    FrameRoundTrip(f, [], Broken);
    assert FrameBytes(f)[..|FrameBytes(f)|] == FrameBytes(f) == FrameBytes(f) + [];
    assert FrameBytes(f)[|FrameBytes(f)|..] == [];
  }

  lemma ReadsFrame(s: State, f: Frame)
    requires Reachable(s) && Idle(s) && Fits(f)
    ensures Reachable(s.(down := s.down.(arrived := s.down.arrived + FrameBytes(f), receiver := Holding(PacketOf(f)))))
  {
    StreamArrives(s, FrameBytes(f));
    var s1 := Arrived(s, FrameBytes(f));
    AwaitedFrame(s1.down, s.control, f);
    ReachStep(s1, ByReceiver(ReceiverReads(|FrameBytes(f)|, Broken)));
  }

  lemma ReceivesFrame(s: State, f: Frame) returns (s': State)
    requires Reachable(s) && Idle(s) && Fits(f)
    ensures Reachable(s') && Idle(s') && s'.up == s.up && s'.written == s.written && s'.conn == s.conn
    ensures s'.down == AfterFrame(s.down, f)
  {
    ReadsFrame(s, f);
    var s3 := s.(down := s.down.(arrived := s.down.arrived + FrameBytes(f), receiver := Holding(PacketOf(f))));
    ReachStep(s3, ByReceiver(ReceiverDispatches));
    var s4 := Apply(s3, ByReceiver(ReceiverDispatches));
    if s4.down.receiver == Delivering {
      ReachStep(s4, ByReceiver(DeviceWrites(true)));
      s' := Apply(s4, ByReceiver(DeviceWrites(true)));
    } else {
      s' := s4;
    }
  }

  lemma {:induction false} ReceivesFrames(s: State, frames: seq<Frame>) returns (s': State)
    requires Reachable(s) && Idle(s) && forall i | 0 <= i < |frames| :: Fits(frames[i])
    ensures Reachable(s') && Idle(s') && s'.up == s.up && s'.written == s.written && s'.conn == s.conn
    ensures s'.down.offered == s.down.offered + DataOf(frames)
    decreases |frames|
  {
    if frames == [] {
      NothingMore(s.down.offered);
      return s;
    }
    var front, last := frames[..|frames| - 1], frames[|frames| - 1];
    var before := ReceivesFrames(s, front);
    s' := ReceivesFrame(before, last);
    var payload := if last.Data? && last.payload != [] then [last.payload] else [];
    assert s'.down.offered == before.down.offered + payload;
    ConcatAssociates(s.down.offered, DataOf(front), payload);
  }

  /** Cancelled from outside, the caller closes the connection and returns. */
  lemma CallerEnds(s: State) returns (s': State)
    requires Reachable(s) && Idle(s)
    ensures Reachable(s')
    ensures s' == s.(control := s'.control, conn := s.conn.(closed := true))
    ensures s'.control == Control(LoopReturned(Some(Cancelled), true), true, true, true, [], false, 0)
  {
    ReachStep(s, ByEnvironment(OuterCancel));
    var s1 := s.(control := s.control.(outerCancelled := true));
    ReachStep(s1, ByCaller(SeeDone));
    var s2 := CallerApply(s1, SeeDone);
    ReachStep(s2, ByCaller(CloseConn));
    var s3 := CallerApply(s2, CloseConn);
    ReachStep(s3, ByCaller(ReturnSession));
    var s4 := CallerApply(s3, ReturnSession);
    ReachStep(s4, ByCaller(ReturnLoop));
    s' := CallerApply(s4, ReturnLoop);
  }

  lemma WriterEnds(s: State) returns (s': State)
    requires Reachable(s) && SessionDone(s.control) && s.control.errCh == [] && s.writer == Selecting
    ensures Reachable(s')
    ensures s' == s.(writer := WriterDone([]), control := Send(s.control, Some(Cancelled)))
  {
    ReachStep(s, ByWriter(WriterSeesDone));
    var s1 := s.(writer := WriterReports(Some(Cancelled), []));
    ReachStep(s1, ByWriter(WriterSends));
    s' := WriterApply(s1, WriterSends);
  }

  lemma ReceiverEnds(s: State) returns (s': State)
    requires Reachable(s) && SessionDone(s.control) && |s.control.errCh| == 1 && s.down.receiver == Checking
    ensures Reachable(s')
    ensures s' == s.(down := s.down.(receiver := ReceiverDone), control := Send(s.control, Some(Cancelled)))
  {
    ReachStep(s, ByReceiver(ReceiverSeesDone));
    var s1 := s.(down := s.down.(receiver := ReceiverReports(Some(Cancelled))));
    ReachStep(s1, ByReceiver(ReceiverSends));
    s' := Apply(s1, ByReceiver(ReceiverSends));
  }

  lemma WorkersEnd(s: State) returns (s': State)
    requires Reachable(s) && SessionDone(s.control) && s.control.errCh == []
    requires s.writer == Selecting && s.keepaliver == Ticking && s.down.receiver == Checking
    ensures Reachable(s') && Work(s') == 0
    ensures s'.control.main == s.control.main
    ensures s'.up == s.up && s'.conn == s.conn && s'.written == s.written && s'.down.offered == s.down.offered
  {
    var s1 := WriterEnds(s);
    ReachStep(s1, ByKeepaliver(KeepaliveSeesDone));
    var s2 := s1.(keepaliver := KeepaliveDone(false));
    s' := ReceiverEnds(s2);
  }

  lemma LoopStarts() returns (s0: State)
    ensures Reachable(s0) && s0.control.main == Starting
    ensures s0 == State(Uplink(Reading, [], [], [], [], []), WriterUnstarted, KeepaliveUnstarted,
                        Conn(false, [], [], None), [], Downlink(ReceiverUnstarted, [], [], [], []),
                        Control(Starting, false, false, false, [], false, 0), Stats(0, 0, 0, 0))
  {
    s0 := State(Uplink(Reading, [], [], [], [], []), WriterUnstarted, KeepaliveUnstarted,
                    Conn(false, [], [], None), [], Downlink(ReceiverUnstarted, [], [], [], []),
                    Control(Starting, false, false, false, [], false, 0), Stats(0, 0, 0, 0));
    var trace: seq<State>, actions: seq<Action> := [s0], [];
    assert Run(trace, actions) && trace[|actions|] == s0;
  }

  lemma SessionStarts() returns (s: State)
    ensures Reachable(s) && Idle(s)
    ensures s.up.fromTun == [] && s.written == [] && s.down.offered == [] && s.conn.frames == []
  {
    var s0 := LoopStarts();
    ReachStep(s0, ByCaller(StartSession(true)));
    s := CallerApply(s0, StartSession(true));
  }

  /** For any nonempty packets one way, any well-sized frames the other way and any number of keepalives
      there is a run that writes all the packets and then the keepalives, offers all the payloads and,
      once cancelled, ends with the caller returned and no goroutine left with work. */
  lemma LosslessSession(packets: seq<bytes>, frames: seq<Frame>, keepalives: nat)
    requires forall i | 0 <= i < |packets| :: packets[i] != []
    requires forall i | 0 <= i < |frames| :: Fits(frames[i])
    ensures exists s: State, before: seq<Frame> ::
              && Reachable(s)
              && s.up.fromTun == packets && s.written == packets && s.up.dropped == []
              && s.conn.frames == before + Pings(keepalives) && DataOf(before) == packets
              && s.down.offered == DataOf(frames)
              && s.control.main == LoopReturned(Some(Cancelled), true)
              && Work(s) == 0
  {
    var s0 := SessionStarts();
    var s1 := PassesPackets(s0, packets);
    assert [] + packets == packets && [] + DataOf(frames) == DataOf(frames);
    WrittenIsData(s1);
    var s2 := SendsKeepalives(s1, keepalives);
    var s3 := ReceivesFrames(s2, frames);
    var s4 := CallerEnds(s3);
    var s5 := WorkersEnd(s4);
    assert s5.conn.frames == s1.conn.frames + Pings(keepalives) && DataOf(s1.conn.frames) == packets;
  }

  lemma WrittenIsData(s: State)
    requires Reachable(s)
    ensures DataOf(s.conn.frames) == s.written
  {
    var trace: seq<State>, actions: seq<Action> :| Run(trace, actions) && trace[|actions|] == s;
    RunKeepsInv(trace, actions, |actions|);
  }

  // ----- The errors a session can end with -----

  /** Somebody else may close the connection at any time. */
  lemma MayCloseAnytime(s: State)
    requires Reachable(s)
    ensures Reachable(s.(conn := s.conn.(closed := true)))
  {
    ReachStep(s, ByEnvironment(CloseElsewhere));
  }

  /** A failing Write may leave any part of its frame on the wire. */
  lemma MayTearAnywhere(s: State, p: bytes, kept: nat)
    requires Reachable(s) && Idle(s) && p != [] && kept <= |FrameBytes(Data(p))|
    ensures exists s': State ::
              Reachable(s') && s'.conn.wire == s.conn.wire + FrameBytes(Data(p))[..kept] && s'.written == s.written
  {
    ReachesWriter(s, p);
    ReachStep(AboutToWrite(s, p), ByWriter(WriterFails(kept)));
    var s' := WriterApply(AboutToWrite(s, p), WriterFails(kept));
    assert s'.conn.wire == s.conn.wire + FrameBytes(Data(p))[..kept];
  }

  lemma ReturnsTaken(s: State, e: LoopError)
    requires Reachable(s) && s.control.main == Cancelling(Some(e))
    ensures CanReturn(e, true)
  {
    ReachStep(s, ByCaller(CancelSession));
    var s1 := CallerApply(s, CancelSession);
    ReachStep(s1, ByCaller(CloseConn));
    var s2 := CallerApply(s1, CloseConn);
    ReachStep(s2, ByCaller(ReturnSession));
    var s3 := CallerApply(s2, ReturnSession);
    ReachStep(s3, ByCaller(ReturnLoop));
    var s4 := CallerApply(s3, ReturnLoop);
    assert Reachable(s4) && s4.control.main == LoopReturned(Some(e), true);
  }

  /** Some run of the data loop returns e, after a session or without one. */
  ghost predicate CanReturn(e: LoopError, afterSession: bool) {
    exists s: State :: Reachable(s) && s.control.main == LoopReturned(Some(e), afterSession)
  }

  lemma ReturnsSent(s: State, e: LoopError)
    requires Reachable(s) && s.control.main == WaitingForEnd && s.control.errCh == [Some(e)]
    ensures CanReturn(e, true)
  {
    ReachStep(s, ByCaller(TakeError));
    ReturnsTaken(CallerApply(s, TakeError), e);
  }

  lemma FailsAwaited(d: Downlink, c: Control, stream: bytes, end: StreamEnd, x: ReadError)
    requires d.receiver == Awaiting && d.pending == stream && !SessionDone(c)
    requires Parse(stream, end).result == Failed(x) && x != BareEof
    ensures var read := ReceiverReads(|stream|, end);
            && ReceiverEnabled(d, c, read)
            && ReceiverApply(d, c, read) == d.(receiver := ReceiverReports(Some(ReadingFailed(x))))
  {
    assert stream[..|stream|] == stream;
  }

  lemma ReadingCanFail(s: State, stream: bytes, end: StreamEnd, x: ReadError)
    requires Reachable(s) && Idle(s) && Parse(stream, end).result == Failed(x) && x != BareEof
    ensures CanReturn(ReadingFailed(x), true)
  {
    StreamArrives(s, stream);
    var s1 := Arrived(s, stream);
    FailsAwaited(s1.down, s1.control, stream, end, x);
    ReachStep(s1, ByReceiver(ReceiverReads(|stream|, end)));
    ReportCounts(s1.(down := s1.down.(receiver := ReceiverReports(Some(ReadingFailed(x))))), ReadingFailed(x));
  }

  lemma ReportCounts(s: State, e: LoopError)
    requires Reachable(s) && s.control.main == WaitingForEnd && s.control.errCh == []
    requires s.down.receiver == ReceiverReports(Some(e))
    ensures CanReturn(e, true)
  {
    ReachStep(s, ByReceiver(ReceiverSends));
    ReturnsSent(Apply(s, ByReceiver(ReceiverSends)), e);
  }

  /** A stream on which ReadPacket fails in this way. */
  lemma FailingStream(x: ReadError) returns (stream: bytes, end: StreamEnd)
    requires x != BareEof
    ensures Parse(stream, end).result == Failed(x)
  {
    match x {
      case HeaderError(Eof) => stream, end := [], AtEof;
      case HeaderError(UnexpectedEof) => stream, end := [0], AtEof;
      case HeaderError(ReadFailure) => stream, end := [], Broken;
      case BadMagic =>
        stream, end := seq(16, i => 0), AtEof;
        assert stream[..4][0] == 0;
      case PayloadError(Eof) => stream, end := FrameBytes(Data([0, 0]))[..16], AtEof; CutFrame(Data([0, 0]), 16, end);
      case PayloadError(UnexpectedEof) => stream, end := FrameBytes(Data([0, 0]))[..17], AtEof; CutFrame(Data([0, 0]), 17, end);
      case PayloadError(ReadFailure) => stream, end := FrameBytes(Data([0, 0]))[..16], Broken; CutFrame(Data([0, 0]), 16, end);
    }
    ParseByBytes(stream, end);
  }

  lemma Delivers(s: State, f: Frame)
    requires Reachable(s) && Idle(s) && Fits(f) && f.Data? && f.payload != []
    ensures exists s': State :: Reachable(s') && s'.control == s.control && s'.down.receiver == Delivering
  {
    ReadsFrame(s, f);
    var s1 := s.(down := s.down.(arrived := s.down.arrived + FrameBytes(f), receiver := Holding(PacketOf(f))));
    ReachStep(s1, ByReceiver(ReceiverDispatches));
    var s2 := Apply(s1, ByReceiver(ReceiverDispatches));
    assert s2.control == s.control && s2.down.receiver == Delivering;
  }

  lemma DeviceCanFail(s: State)
    requires Reachable(s) && Idle(s)
    ensures CanReturn(TunWriteFailed, true)
  {
    Delivers(s, Data([0]));
    var s1: State :| Reachable(s1) && s1.control == s.control && s1.down.receiver == Delivering;
    ReachStep(s1, ByReceiver(DeviceWrites(false)));
    ReportCounts(s1.(down := s1.down.(receiver := ReceiverReports(Some(TunWriteFailed)))), TunWriteFailed);
  }

  lemma WriteCanFail(s: State)
    requires Reachable(s) && Idle(s)
    ensures CanReturn(TunnelWriteFailed, true)
  {
    ReachesWriter(s, [0]);
    var s1 := AboutToWrite(s, [0]);
    ReachStep(s1, ByWriter(WriterFails(0)));
    var s2 := WriterApply(s1, WriterFails(0));
    ReachStep(s2, ByWriter(WriterSends));
    ReturnsSent(WriterApply(s2, WriterSends), TunnelWriteFailed);
  }

  lemma KeepaliveCanFail(s: State)
    requires Reachable(s) && Idle(s)
    ensures CanReturn(KeepaliveFailed, true)
  {
    ReachStep(s, ByKeepaliver(KeepaliveTick));
    var s1 := s.(keepaliver := Pinging);
    ReachStep(s1, ByKeepaliver(KeepaliveFails(0)));
    var s2 := KeepaliveApply(s1, KeepaliveFails(0));
    ReachStep(s2, ByKeepaliver(KeepaliveSends));
    ReturnsSent(KeepaliveApply(s2, KeepaliveSends), KeepaliveFailed);
  }

  lemma TunReadCanFail(s: State)
    requires Reachable(s) && Idle(s)
    ensures CanReturn(TunReadFailed, true)
  {
    ReachStep(s, ByTunReader(TunFails));
    var s1 := Apply(s, ByTunReader(TunFails));
    ReachStep(s1, ByCaller(TakeTunError));
    ReturnsTaken(CallerApply(s1, TakeTunError), TunReadFailed);
  }

  lemma CanBeUnconnected()
    ensures CanReturn(NotConnected, false)
  {
    var s0 := LoopStarts();
    ReachStep(s0, ByCaller(StartSession(false)));
    var s := CallerApply(s0, StartSession(false));
    assert Reachable(s) && s.control.main == LoopReturned(Some(NotConnected), false);
  }

  lemma CanBeCancelled(s: State)
    requires Reachable(s) && Idle(s)
    ensures CanReturn(Cancelled, true)
  {
    var s' := CallerEnds(s);
    assert Reachable(s') && s'.control.main == LoopReturned(Some(Cancelled), true);
  }

  lemma EachCanReturn(s: State, e: LoopError)
    requires Reachable(s) && Idle(s)
    requires e != ClosedByServer && e != ReadingFailed(BareEof) && e != NotConnected
    ensures CanReturn(e, true)
  {
    match e {
      case Cancelled => CanBeCancelled(s);
      case ReadingFailed(x) =>
        var stream, end := FailingStream(x);
        ReadingCanFail(s, stream, end, x);
      case TunWriteFailed => DeviceCanFail(s);
      case TunnelWriteFailed => WriteCanFail(s);
      case KeepaliveFailed => KeepaliveCanFail(s);
      case TunReadFailed => TunReadCanFail(s);
    }
  }

  lemma ReturnedIsPossible(e: LoopError, afterSession: bool)
    requires CanReturn(e, afterSession)
    ensures e != ClosedByServer && e != ReadingFailed(BareEof) && (afterSession <==> e != NotConnected)
  {
    var s: State :| Reachable(s) && s.control.main == LoopReturned(Some(e), afterSession);
    var trace: seq<State>, actions: seq<Action> :| Run(trace, actions) && trace[|actions|] == s;
    LoopNeverReturnsNil(trace, actions, |actions|);
  }

  /** An error can be returned, after a session or without one, if and only if it says that there is no
      connection and there was no session, or there was one and it is neither that nor that the server
      closed the tunnel nor a bare EOF. */
  lemma CanReturnIff(e: LoopError, afterSession: bool)
    ensures CanReturn(e, afterSession)
       <==> e != ClosedByServer && e != ReadingFailed(BareEof) && (afterSession <==> e != NotConnected)
  {
    if e != ClosedByServer && e != ReadingFailed(BareEof) && (afterSession <==> e != NotConnected) {
      if afterSession {
        var s := SessionStarts();
        EachCanReturn(s, e);
      } else {
        CanBeUnconnected();
      }
    }
    if CanReturn(e, afterSession) {
      ReturnedIsPossible(e, afterSession);
    }
  }
}
