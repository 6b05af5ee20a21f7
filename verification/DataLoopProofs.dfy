/**
 * Invariants of the data loop and what they mean for delivery, conservation, counters and shutdown.
 */
module DataLoopProofs {
  import opened Bytes
  import opened Framing
  import opened LoopErrors
  import opened DataLoop

  // ----- The queue of outgoing packets -----

  /** The packet the TUN reader has read but not yet queued, dropped or abandoned. */
  function Held(r: TunReader): seq<bytes> {
    if r.Offering? then [r.data] else []
  }

  /** settled is everything the TUN reader is done with. */
  ghost predicate QueueInv(u: Uplink, settled: seq<bytes>) {
    && u.fromTun == settled + Held(u.reader)
    && Subsequence(u.taken + u.queue, settled)
    && (forall d <- u.fromTun :: d != [])
    && (forall d <- u.taken + u.queue :: d != [])
  }

  ghost predicate CountInv(u: Uplink) {
    && |u.queue| <= QUEUE_SLOTS
    && multiset(u.fromTun) == multiset(u.dropped) + multiset(u.queue) + multiset(u.taken)
                              + multiset(u.abandoned) + multiset(Held(u.reader))
    && |u.abandoned| + |Held(u.reader)| <= 1
    && (u.abandoned != [] ==> u.reader == Stopped)
  }

  ghost predicate UplinkInv(u: Uplink) {
    CountInv(u) && exists settled :: QueueInv(u, settled)
  }

  lemma UplinkReads(u: Uplink, data: bytes)
    requires UplinkInv(u) && u.reader == Reading && data != []
    ensures UplinkInv(u.(reader := Offering(data), fromTun := u.fromTun + [data]))
  {
    var u' := u.(reader := Offering(data), fromTun := u.fromTun + [data]);
    var settled :| QueueInv(u, settled);
    assert settled == u.fromTun;
    assert QueueInv(u', u.fromTun);
  }

  lemma UplinkEnqueues(u: Uplink)
    requires UplinkInv(u) && u.reader.Offering? && |u.queue| < QUEUE_SLOTS
    ensures UplinkInv(u.(reader := Reading, queue := u.queue + [u.reader.data]))
  {
    var data := u.reader.data;
    var u' := u.(reader := Reading, queue := u.queue + [data]);
    var settled :| QueueInv(u, settled);
    EnqueueSettles(u, u', settled);
    assert CountInv(u');
  }

  lemma EnqueueSettles(u: Uplink, u': Uplink, settled: seq<bytes>)
    requires QueueInv(u, settled) && u.reader.Offering?
    requires u' == u.(reader := Reading, queue := u.queue + [u.reader.data])
    ensures QueueInv(u', u.fromTun)
  {
    var data := u.reader.data;
    SubsequenceKeep(u.taken + u.queue, settled, data);
    NonemptySnoc(u.taken + u.queue, settled, data, u.fromTun);
    ConcatAssociates(u.taken, u.queue, [data]);
    assert u.fromTun + [] == u.fromTun;
  }

  lemma NonemptySnoc(items: seq<bytes>, before: seq<bytes>, item: bytes, all: seq<bytes>)
    requires all == before + [item]
    requires (forall d <- items :: d != []) && (forall d <- all :: d != [])
    ensures forall d <- items + [item] :: d != []
  {
    assert item in all;
  }

  lemma UplinkLetsGo(u: Uplink, u': Uplink)
    requires UplinkInv(u) && u.reader.Offering?
    requires || u' == u.(reader := Reading, dropped := u.dropped + [u.reader.data])
             || u' == u.(reader := Stopped, abandoned := u.abandoned + [u.reader.data])
    ensures UplinkInv(u')
  {
    var settled :| QueueInv(u, settled);
    SubsequenceSkip(u.taken + u.queue, settled, u.reader.data);
    assert QueueInv(u', u.fromTun);
  }

  lemma UplinkStops(u: Uplink)
    requires UplinkInv(u) && u.reader == Reading
    ensures UplinkInv(u.(reader := Stopped))
  {
    var settled :| QueueInv(u, settled);
    assert QueueInv(u.(reader := Stopped), settled);
  }

  lemma UplinkTakes(u: Uplink)
    requires UplinkInv(u) && u.queue != []
    ensures UplinkInv(u.(queue := u.queue[1..], taken := u.taken + [u.queue[0]]))
    ensures u.queue[0] != []
  {
    var u' := u.(queue := u.queue[1..], taken := u.taken + [u.queue[0]]);
    var settled :| QueueInv(u, settled);
    assert u.queue == [u.queue[0]] + u.queue[1..];
    assert u'.taken + u'.queue == u.taken + u.queue;
    assert u.queue[0] in u.taken + u.queue;
    assert QueueInv(u', settled);
  }

  lemma UplinkNonempty(u: Uplink)
    requires UplinkInv(u)
    ensures QueueNonempty(u)
  {
    forall d <- u.queue ensures d != [] {
      assert d in u.taken + u.queue;
    }
  }

  lemma TunKeepsUplink(u: Uplink, c: Control, a: TunAction)
    requires UplinkInv(u) && TunEnabled(u, c, a)
    ensures UplinkInv(TunApply(u, a))
  {
    match a {
      case TunReturns(data) => if data != [] { UplinkReads(u, data); }
      case TunFails => UplinkStops(u);
      case Enqueue => UplinkEnqueues(u);
      case Drop => UplinkLetsGo(u, TunApply(u, a));
      case Abandon => UplinkLetsGo(u, TunApply(u, a));
    }
  }

  lemma StepKeepsUplink(s: State, a: Action)
    requires UplinkInv(s.up) && Enabled(s, a)
    ensures UplinkInv(Apply(s, a).up)
  {
    if a.ByTunReader? {
      TunKeepsUplink(s.up, s.control, a.tun);
    } else if a == ByWriter(WriterTakes) {
      UplinkTakes(s.up);
    } else {
      assert Apply(s, a).up == s.up;
    }
  }

  // ----- The wire -----

  function TornBytes(t: Option<Torn>): bytes
    requires t.Some? ==> t.value.kept <= |FrameBytes(t.value.frame)|
  {
    if t.Some? then FrameBytes(t.value.frame)[..t.value.kept] else []
  }

  ghost predicate WireInv(c: Conn) {
    && (c.torn.Some? ==> c.torn.value.kept <= |FrameBytes(c.torn.value.frame)|)
    && c.wire == Wire(c.frames) + TornBytes(c.torn)
  }

  lemma WireGrows(c: Conn, f: Frame)
    requires WireInv(c) && Usable(c)
    ensures WireInv(AfterWrite(c, f))
  {
    WireAppend(c.frames, [f]);
    WireOne(f);
    assert Wire(c.frames) + [] == Wire(c.frames);
    assert Wire(c.frames + [f]) + [] == Wire(c.frames + [f]);
  }

  lemma WireTears(c: Conn, f: Frame, kept: nat)
    requires WireInv(c) && MayKeep(c, f, kept)
    ensures WireInv(AfterFailedWrite(c, f, kept))
  {
    if c.torn.Some? {
      assert FrameBytes(f)[..0] == [];
      assert c.wire + [] == c.wire;
    } else {
      assert Wire(c.frames) + [] == Wire(c.frames);
    }
  }

  lemma StepKeepsWire(s: State, a: Action)
    requires WireInv(s.conn) && Enabled(s, a)
    ensures WireInv(Apply(s, a).conn)
  {
    match a {
      case ByWriter(WriterWrites) => WireGrows(s.conn, Data(s.writer.data));
      case ByWriter(WriterFails(kept)) => WireTears(s.conn, Data(s.writer.data), kept);
      case ByKeepaliver(KeepaliveWrites) => WireGrows(s.conn, Keepalive);
      case ByKeepaliver(KeepaliveFails(kept)) => WireTears(s.conn, Keepalive, kept);
      case _ => assert Apply(s, a).conn == s.conn.(closed := Apply(s, a).conn.closed);
    }
  }

  // ----- The writer -----

  /** Packets the writer took and has not written: the one in hand, or the one lost to a failed Write. */
  function InHand(w: Writer): seq<bytes> {
    match w
    case Counting(data) => [data]
    case Writing(data) => [data]
    case WriterReports(_, lost) => lost
    case WriterDone(lost) => lost
    case _ => []
  }

  predicate WriterStopped(w: Writer) {
    w.WriterReports? || w.WriterDone?
  }

  /** The packets already counted as sent. */
  function CountedPackets(taken: seq<bytes>, w: Writer): seq<bytes>
    requires w.Counting? ==> taken != []
  {
    if w.Counting? then taken[..|taken| - 1] else taken
  }

  /** What the writer's invariants are about. */
  datatype Sending = Sending(
    writer: Writer,
    taken: seq<bytes>,
    written: seq<bytes>,
    frames: seq<Frame>,
    torn: Option<Torn>,
    packetsSent: nat,
    bytesSent: nat)

  function SendingOf(s: State): Sending {
    Sending(s.writer, s.up.taken, s.written, s.conn.frames, s.conn.torn, s.stats.packetsSent, s.stats.bytesSent)
  }

  ghost predicate WriterInv(o: Sending) {
    && DataOf(o.frames) == o.written
    && o.taken == o.written + InHand(o.writer)
    && |InHand(o.writer)| <= 1
    && (o.torn.Some? && o.torn.value.frame.Data? ==>
          WriterStopped(o.writer) && InHand(o.writer) == [o.torn.value.frame.payload])
    && (forall d <- o.taken :: d != [])
  }

  ghost predicate SentInv(o: Sending) {
    && (o.writer.Counting? ==> o.taken != [])
    && o.packetsSent == |CountedPackets(o.taken, o.writer)|
    && o.bytesSent == TotalLength(CountedPackets(o.taken, o.writer))
  }

  ghost predicate SendingInv(o: Sending) {
    WriterInv(o) && SentInv(o)
  }

  lemma SendingTakes(o: Sending, data: bytes)
    requires SendingInv(o) && o.writer == Selecting && data != []
    ensures SendingInv(o.(writer := Counting(data), taken := o.taken + [data]))
  {
    assert (o.taken + [data])[..|o.taken|] == o.taken;
  }

  lemma SendingCounts(o: Sending)
    requires SendingInv(o) && o.writer.Counting?
    ensures SendingInv(o.(writer := Writing(o.writer.data),
                          packetsSent := o.packetsSent + 1, bytesSent := o.bytesSent + |o.writer.data|))
  {
    assert (o.written + [o.writer.data])[..|o.written|] == o.written;
    TotalLengthSnoc(o.written, o.writer.data);
  }

  function AfterSending(o: Sending): Sending
    requires o.writer.Writing?
  {
    o.(writer := Selecting, written := o.written + [o.writer.data], frames := o.frames + [Data(o.writer.data)])
  }

  lemma SendingWrites(o: Sending)
    requires SendingInv(o) && o.writer.Writing? && o.torn.None?
    ensures SendingInv(AfterSending(o))
  {
    WriterWritesOn(o);
    assert CountedPackets(o.taken, AfterSending(o).writer) == CountedPackets(o.taken, o.writer);
  }

  lemma WriterWritesOn(o: Sending)
    requires WriterInv(o) && o.writer.Writing? && o.torn.None?
    ensures WriterInv(AfterSending(o))
  {
    LastTaken(o.written, o.writer.data, o.taken);
    DataOfSnoc(o.frames, Data(o.writer.data));
  }

  lemma LastTaken(written: seq<bytes>, data: bytes, taken: seq<bytes>)
    requires taken == written + [data] && forall d <- taken :: d != []
    ensures data != [] && taken == written + [data] + []
  {
    assert data in taken;
  }

  lemma SendingFails(o: Sending, torn: Torn)
    requires SendingInv(o) && o.writer.Writing? && torn.frame == Data(o.writer.data)
    ensures SendingInv(o.(writer := WriterReports(Some(TunnelWriteFailed), [o.writer.data]),
                          torn := if o.torn.Some? then o.torn else Some(torn)))
  {
  }

  lemma SendingPings(o: Sending)
    requires SendingInv(o)
    ensures SendingInv(o.(frames := o.frames + [Keepalive]))
  {
    DataOfSnoc(o.frames, Keepalive);
  }

  lemma SendingMoves(o: Sending, w: Writer)
    requires SendingInv(o) && !o.writer.Counting? && !w.Counting?
    requires InHand(w) == InHand(o.writer) && (WriterStopped(o.writer) ==> WriterStopped(w))
    ensures SendingInv(o.(writer := w))
  {
  }

  lemma SendingStops(o: Sending, torn: Torn)
    requires SendingInv(o) && o.torn.None? && torn.frame == Keepalive
    ensures SendingInv(o.(torn := Some(torn)))
  {
  }

  lemma SendingReports(o: Sending, o': Sending)
    requires SendingInv(o) && o.writer.WriterReports? && o' == o.(writer := WriterDone(o.writer.lost))
    ensures SendingInv(o')
  {
    SendingMoves(o, WriterDone(o.writer.lost));
  }

  predicate QueueNonempty(u: Uplink) {
    forall d <- u.queue :: d != []
  }

  lemma WriterKeepsSending(s: State, a: WriterAction, o: Sending, o': Sending)
    requires WriterEnabled(s, a) && QueueNonempty(s.up)
    requires o == SendingOf(s) && o' == SendingOf(WriterApply(s, a)) && SendingInv(o)
    ensures SendingInv(o')
  {
    match a {
      case WriterTakes => assert s.up.queue[0] in s.up.queue; SendingTakes(o, s.up.queue[0]);
      case WriterCounts => SendingCounts(o);
      case WriterWrites => SendingWrites(o);
      case WriterFails(kept) => SendingFails(o, Torn(Data(s.writer.data), kept));
      case WriterSeesDone => SendingMoves(o, o'.writer);
      case WriterSends => SendingReports(o, o');
    }
  }

  lemma CallerKeepsSending(s: State, a: CallerAction, o: Sending, o': Sending)
    requires CallerEnabled(s.control, a) && PhaseInv(s)
    requires o == SendingOf(s) && o' == SendingOf(CallerApply(s, a)) && SendingInv(o)
    ensures SendingInv(o')
  {
    if a == StartSession(true) {
      SendingMoves(o, Selecting);
    } else {
      assert o' == o;
    }
  }

  lemma KeepaliverKeepsSending(s: State, a: KeepaliveAction, o: Sending, o': Sending)
    requires KeepaliveEnabled(s, a)
    requires o == SendingOf(s) && o' == SendingOf(KeepaliveApply(s, a)) && SendingInv(o)
    ensures SendingInv(o')
  {
    if a.KeepaliveWrites? {
      SendingPings(o);
    } else if o' != o {
      SendingStops(o, Torn(Keepalive, a.kept));
    }
  }

  lemma StepKeepsSending(s: State, a: Action, o: Sending, o': Sending)
    requires Enabled(s, a) && QueueNonempty(s.up) && PhaseInv(s)
    requires o == SendingOf(s) && o' == SendingOf(Apply(s, a)) && SendingInv(o)
    ensures SendingInv(o')
  {
    match a {
      case ByWriter(w) => WriterKeepsSending(s, w, o, o');
      case ByCaller(c) => CallerKeepsSending(s, c, o, o');
      case ByKeepaliver(k) => KeepaliverKeepsSending(s, k, o, o');
      case ByEnvironment(_) => OthersKeepSending(s, a);
      case ByTunReader(_) => OthersKeepSending(s, a);
      case ByReceiver(_) => OthersKeepSending(s, a);
    }
  }

  lemma OthersKeepSending(s: State, a: Action)
    requires Enabled(s, a) && (a.ByEnvironment? || a.ByTunReader? || a.ByReceiver?)
    ensures SendingOf(Apply(s, a)) == SendingOf(s)
  {
  }

  // ----- The receiver -----

  function InReceiver(r: Receiver): seq<Packet> {
    if r.Holding? then [r.packet] else []
  }

  ghost predicate DownlinkInv(d: Downlink) {
    && Consumed(d.arrived, d.packets + InReceiver(d.receiver), d.pending)
    && d.offered == Payloads(d.packets)
  }

  ghost predicate ReceivedInv(s: State) {
    && s.stats.packetsReceived == |s.down.offered|
    && s.stats.bytesReceived == TotalLength(s.down.offered)
  }

  lemma DownlinkReads(d: Downlink, cut: nat, end: StreamEnd)
    requires DownlinkInv(d) && d.receiver == Awaiting && cut <= |d.pending|
    requires Parse(d.pending[..cut], end).result.Received?
    ensures var p := Parse(d.pending[..cut], end);
            DownlinkInv(d.(receiver := Holding(p.result.packet), pending := p.rest + d.pending[cut..]))
  {
    var p := Parse(d.pending[..cut], end);
    assert d.pending == d.pending[..cut] + d.pending[cut..];
    ParseStable(d.pending[..cut], end, d.pending[cut..], Broken);
    assert d.packets + [] == d.packets;
    ConsumedStep(d.arrived, d.packets, d.pending, p.result.packet, p.rest + d.pending[cut..]);
  }

  lemma DownlinkDispatches(d: Downlink)
    requires DownlinkInv(d) && d.receiver.Holding?
    ensures DownlinkInv(AfterDispatch(d, d.receiver.packet))
  {
    PayloadsSnoc(d.packets, d.receiver.packet);
    assert d.packets + [d.receiver.packet] + [] == d.packets + [d.receiver.packet];
  }

  lemma DownlinkMoves(d: Downlink, receiver: Receiver)
    requires DownlinkInv(d) && !d.receiver.Holding? && !receiver.Holding?
    ensures DownlinkInv(d.(receiver := receiver))
  {
  }

  lemma ReceiverKeepsDownlink(d: Downlink, c: Control, a: ReceiverAction)
    requires DownlinkInv(d) && ReceiverEnabled(d, c, a)
    ensures DownlinkInv(ReceiverApply(d, c, a))
  {
    if a.ReceiverReads? && Parse(d.pending[..a.cut], a.end).result.Received? {
      DownlinkReads(d, a.cut, a.end);
    } else if a.ReceiverDispatches? {
      DownlinkDispatches(d);
    } else {
      DownlinkMoves(d, ReceiverApply(d, c, a).receiver);
    }
  }

  lemma StepKeepsDownlink(s: State, a: Action)
    requires DownlinkInv(s.down) && PhaseInv(s) && Enabled(s, a)
    ensures DownlinkInv(Apply(s, a).down)
  {
    var d := s.down;
    match a {
      case ByReceiver(r) => ReceiverKeepsDownlink(d, s.control, r);
      case ByEnvironment(PeerSends(data)) =>
        ConsumedGrows(d.arrived, d.packets + InReceiver(d.receiver), d.pending, data);
      case ByCaller(StartSession(_)) => DownlinkMoves(d, Apply(s, a).down.receiver);
      case _ => assert Apply(s, a).down == d;
    }
  }

  lemma StepKeepsReceived(s: State, a: Action)
    requires ReceivedInv(s) && Enabled(s, a)
    ensures ReceivedInv(Apply(s, a))
  {
    if a == ByReceiver(ReceiverDispatches) {
      TotalLengthSnoc(s.down.offered, s.down.receiver.packet.payload);
    }
  }

  // ----- Errors, contexts and the caller -----

  /** An error that a session can have, which is neither that the server closed the tunnel nor that
      there is no connection. */
  predicate Proper(e: Option<LoopError>) {
    && e.Some?
    && e.value != ClosedByServer && e.value != NotConnected && e.value != ReadingFailed(BareEof)
  }

  /** Every error on its way to the caller is a proper one. */
  ghost predicate ProperInv(s: State) {
    var m := s.control.main;
    && (forall e <- s.control.errCh :: Proper(e))
    && (s.writer.WriterReports? ==> Proper(s.writer.error))
    && (s.keepaliver.KeepaliveReports? ==> Proper(s.keepaliver.error))
    && (s.down.receiver.ReceiverReports? ==> Proper(s.down.receiver.error))
    && (!m.Starting? && !m.WaitingForEnd? ==>
          if m.LoopReturned? && !m.ranSession then m.error == Some(NotConnected) else Proper(m.error))
  }

  /** How many goroutines have sent their error. */
  function Reported(w: Writer, k: Keepaliver, r: Receiver): nat {
    (if w.WriterDone? then 1 else 0)
    + (if k == KeepaliveDone(true) then 1 else 0)
    + (if r.ReceiverDone? then 1 else 0)
  }

  ghost predicate SendsInv(s: State) {
    && s.control.sends == Reported(s.writer, s.keepaliver, s.down.receiver)
    && |s.control.errCh| <= s.control.sends
  }

  predicate Unstarted(s: State) {
    s.writer == WriterUnstarted && s.keepaliver == KeepaliveUnstarted && s.down.receiver == ReceiverUnstarted
  }

  /** How far shutdown has come is visible in the contexts and the connection. */
  ghost predicate PhaseInv(s: State) {
    var m := s.control.main;
    && (m.Starting? || (m.LoopReturned? && !m.ranSession) ==> Unstarted(s))
    && (m.Starting? || m.WaitingForEnd? || m.Cancelling? ==> !s.control.loopCancelled && !s.control.sessionCancelled)
    && (m.Closing? || m.Returning? ==> SessionDone(s.control))
    && (m.SessionReturned? || (m.LoopReturned? && m.ranSession) ==> s.control.sessionCancelled)
    && (m.Returning? || m.SessionReturned? || (m.LoopReturned? && m.ranSession) ==> s.conn.closed)
    && (m.LoopReturned? ==> s.control.loopCancelled)
  }

  lemma CallerKeepsProper(s: State, a: CallerAction)
    requires ProperInv(s) && PhaseInv(s) && CallerEnabled(s.control, a)
    ensures ProperInv(CallerApply(s, a))
  {
  }

  lemma WriterKeepsProper(s: State, a: WriterAction)
    requires ProperInv(s) && WriterEnabled(s, a)
    ensures ProperInv(WriterApply(s, a))
  {
  }

  lemma KeepaliverKeepsProper(s: State, a: KeepaliveAction)
    requires ProperInv(s) && KeepaliveEnabled(s, a)
    ensures ProperInv(KeepaliveApply(s, a))
  {
  }

  lemma ReceiverKeepsProper(s: State, a: ReceiverAction)
    requires ProperInv(s) && Enabled(s, ByReceiver(a))
    ensures ProperInv(Apply(s, ByReceiver(a)))
  {
    if a.ReceiverReads? {
      ParseNeverBareEof(s.down.pending[..a.cut], a.end);
    }
  }

  lemma StepKeepsProper(s: State, a: Action)
    requires ProperInv(s) && PhaseInv(s) && Enabled(s, a)
    ensures ProperInv(Apply(s, a))
  {
    match a {
      case ByCaller(c) => CallerKeepsProper(s, c);
      case ByWriter(w) => WriterKeepsProper(s, w);
      case ByKeepaliver(k) => KeepaliverKeepsProper(s, k);
      case ByReceiver(r) => ReceiverKeepsProper(s, r);
      case ByEnvironment(_) =>
      case ByTunReader(_) =>
    }
  }

  lemma WriterKeepsSends(s: State, a: WriterAction)
    requires SendsInv(s) && WriterEnabled(s, a)
    ensures SendsInv(WriterApply(s, a))
  {
  }

  lemma KeepaliverKeepsSends(s: State, a: KeepaliveAction)
    requires SendsInv(s) && KeepaliveEnabled(s, a)
    ensures SendsInv(KeepaliveApply(s, a))
  {
  }

  lemma ReceiverKeepsSends(s: State, a: ReceiverAction)
    requires SendsInv(s) && Enabled(s, ByReceiver(a))
    ensures SendsInv(Apply(s, ByReceiver(a)))
  {
  }

  lemma CallerKeepsSends(s: State, a: CallerAction)
    requires SendsInv(s) && PhaseInv(s) && CallerEnabled(s.control, a)
    ensures SendsInv(CallerApply(s, a))
  {
  }

  lemma StepKeepsSends(s: State, a: Action)
    requires SendsInv(s) && PhaseInv(s) && Enabled(s, a)
    ensures SendsInv(Apply(s, a))
  {
    match a {
      case ByCaller(c) => CallerKeepsSends(s, c);
      case ByWriter(w) => WriterKeepsSends(s, w);
      case ByKeepaliver(k) => KeepaliverKeepsSends(s, k);
      case ByReceiver(r) => ReceiverKeepsSends(s, r);
      case ByEnvironment(_) =>
      case ByTunReader(_) =>
    }
  }

  lemma StepKeepsPhase(s: State, a: Action)
    requires PhaseInv(s) && Enabled(s, a)
    ensures PhaseInv(Apply(s, a))
  {
  }

  // ----- The invariant over runs -----

  ghost predicate Inv(s: State) {
    && UplinkInv(s.up)
    && WireInv(s.conn)
    && SendingInv(SendingOf(s))
    && DownlinkInv(s.down)
    && ReceivedInv(s)
    && ProperInv(s)
    && SendsInv(s)
    && PhaseInv(s)
  }

  lemma InitKeepsInv(s: State)
    requires Init(s)
    ensures Inv(s)
  {
    assert QueueInv(s.up, []);
  }

  lemma StepKeepsInv(s: State, a: Action)
    requires Inv(s) && Enabled(s, a)
    ensures Inv(Apply(s, a))
  {
    StepKeepsUplink(s, a);
    StepKeepsWire(s, a);
    UplinkNonempty(s.up);
    StepKeepsSending(s, a, SendingOf(s), SendingOf(Apply(s, a)));
    StepKeepsDownlink(s, a);
    StepKeepsReceived(s, a);
    StepKeepsProper(s, a);
    StepKeepsSends(s, a);
    StepKeepsPhase(s, a);
  }

  lemma {:induction false} RunKeepsInv(trace: seq<State>, actions: seq<Action>, i: nat)
    requires Run(trace, actions) && i < |trace|
    ensures Inv(trace[i])
  {
    if i == 0 {
      InitKeepsInv(trace[0]);
    } else {
      RunKeepsInv(trace, actions, i - 1);
      StepKeepsInv(trace[i - 1], actions[i - 1]);
    }
  }
}
