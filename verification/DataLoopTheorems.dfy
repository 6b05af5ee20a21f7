/**
 * What the invariants of the data loop mean: delivery, conservation, counters and shutdown, for every
 * state of every run.
 */
module DataLoopTheorems {
  import opened Bytes
  import opened Framing
  import opened LoopErrors
  import opened DataLoop
  import opened DataLoopProofs

  // ----- Delivery from the TUN device to the wire -----

  predicate Sized(payloads: seq<bytes>) {
    forall d <- payloads :: |d| <= MAX_PAYLOAD
  }

  /** The packet of a Write that failed although its whole frame had reached the wire. */
  function Unacknowledged(c: Conn): seq<bytes> {
    if c.torn.Some? && c.torn.value.frame.Data? && c.torn.value.kept == |FrameBytes(c.torn.value.frame)|
    then [c.torn.value.frame.payload] else []
  }

  function Delivered(s: State): seq<bytes> {
    s.written + Unacknowledged(s.conn)
  }

  lemma {:induction false} SizedFramesFit(frames: seq<Frame>)
    requires Sized(DataOf(frames))
    ensures forall f <- frames :: Fits(f)
  {
    if frames != [] {
      var front, last := frames[..|frames| - 1], frames[|frames| - 1];
      assert frames == front + [last];
      DataOfSnoc(front, last);
      forall d <- DataOf(front) ensures |d| <= MAX_PAYLOAD {
        assert d in DataOf(frames);
      }
      SizedFramesFit(front);
      if last.Data? && last.payload != [] {
        assert last.payload in DataOf(frames);
      }
    }
  }

  lemma TakenFromTun(s: State)
    requires Inv(s)
    ensures forall d <- s.up.taken :: d in s.up.fromTun && d != []
  {
    var settled :| QueueInv(s.up, settled);
    SubsequenceMembers(s.up.taken + s.up.queue, settled);
    forall d <- s.up.taken ensures d in s.up.fromTun && d != [] {
      assert d in s.up.taken + s.up.queue;
      assert d in settled;
    }
  }

  /** The wire decodes to the written packets when none of the attempted ones is too long. */
  lemma WireDecodesToWritten(c: Conn, written: seq<bytes>, end: StreamEnd)
    requires WireInv(c) && DataOf(c.frames) == written && Sized(written)
    requires c.torn.Some? ==> Fits(c.torn.value.frame)
    requires c.torn.Some? && c.torn.value.frame.Data? ==> c.torn.value.frame.payload != []
    ensures Payloads(ParseAll(c.wire, end).packets) == written + Unacknowledged(c)
  {
    SizedFramesFit(c.frames);
    if c.torn.None? {
      assert Wire(c.frames) + [] == Wire(c.frames);
      WholeWireDecodes(c.frames, end);
      PayloadsOfFrames(c.frames);
    } else {
      var torn := c.torn.value;
      TornDecodes(c.frames, torn.frame, torn.kept, end);
      DataOfSnoc(c.frames, torn.frame);
      PayloadsOfFrames(c.frames);
      PayloadsOfFrames(c.frames + [torn.frame]);
    }
  }

  /** In every reachable state, if the TUN device returned no oversize packet, reading the wire and
      discarding keepalives gives exactly the successfully written packets, in order and byte for
      byte, plus at most the one packet whose failed Write had transmitted all of its frame; and they
      are among the packets read from the device, in the order read. */
  lemma WireDelivery(trace: seq<State>, actions: seq<Action>, i: nat, end: StreamEnd)
    requires Run(trace, actions) && i < |trace|
    requires Sized(trace[i].up.fromTun)
    ensures var s := trace[i];
            && Payloads(ParseAll(s.conn.wire, end).packets) == Delivered(s)
            && Subsequence(Delivered(s), s.up.fromTun)
  {
    RunKeepsInv(trace, actions, i);
    var s := trace[i];
    TakenFromTun(s);
    forall d <- s.written ensures |d| <= MAX_PAYLOAD {
      assert d in s.up.taken;
    }
    if s.conn.torn.Some? && s.conn.torn.value.frame.Data? {
      assert s.conn.torn.value.frame.payload in s.up.taken;
    }
    WireDecodesToWritten(s.conn, s.written, end);
    DeliveredTaken(s);
    DeliveredInOrder(s.up, Delivered(s));
  }

  lemma DeliveredTaken(s: State)
    requires Inv(s)
    ensures Delivered(s) <= s.up.taken
  {
    assert s.written + [] == s.written;
  }

  lemma DeliveredInOrder(u: Uplink, delivered: seq<bytes>)
    requires UplinkInv(u) && delivered <= u.taken
    ensures Subsequence(delivered, u.fromTun)
  {
    var settled :| QueueInv(u, settled);
    var n := |delivered|;
    assert (u.taken + u.queue)[..n] == delivered;
    SubsequencePrefix(u.taken + u.queue, n, settled);
    if u.reader.Offering? {
      SubsequenceSkip(delivered, settled, u.reader.data);
    } else {
      assert settled + [] == settled;
    }
  }

  /** As long as no Write has failed, the receiving end recovers the written packets if and only if
      every one of them fits the 16-bit length field. */
  lemma DeliveryIffSized(trace: seq<State>, actions: seq<Action>, i: nat, end: StreamEnd)
    requires Run(trace, actions) && i < |trace| && trace[i].conn.torn.None?
    ensures Payloads(ParseAll(trace[i].conn.wire, end).packets) == trace[i].written <==> Sized(trace[i].written)
  {
    RunKeepsInv(trace, actions, i);
    var s := trace[i];
    if Sized(s.written) {
      WireDecodesToWritten(s.conn, s.written, end);
      assert s.written + [] == s.written;
    }
    var packets := ParseAll(s.conn.wire, end).packets;
    ParsedPayloadsFit(s.conn.wire, end);
    PayloadsFit(packets);
  }

  // ----- Conservation -----

  /** No packet is created or lost unaccounted for: what the device returned was dropped, is queued,
      was taken by the writer, or is the one packet the reader holds or abandoned. */
  lemma Conservation(trace: seq<State>, actions: seq<Action>, i: nat)
    requires Run(trace, actions) && i < |trace|
    ensures var u := trace[i].up;
            var atReader := u.abandoned + Held(u.reader);
            && multiset(u.fromTun) == multiset(u.dropped + u.queue + u.taken + atReader)
            && |u.fromTun| == |u.dropped| + |u.queue| + |u.taken| + |atReader|
            && |atReader| <= 1
            && |u.queue| <= 64
  {
    RunKeepsInv(trace, actions, i);
    var u := trace[i].up;
    var all := u.dropped + u.queue + u.taken + (u.abandoned + Held(u.reader));
    assert multiset(u.fromTun) == multiset(all);
    assert |multiset(u.fromTun)| == |u.fromTun| && |multiset(all)| == |all|;
  }

  /** A packet is dropped only by the step that finds all 64 slots taken before any cancellation. */
  lemma DropsOnlyWhenFull(trace: seq<State>, actions: seq<Action>, i: nat)
    requires Run(trace, actions) && i < |actions|
    requires trace[i + 1].up.dropped != trace[i].up.dropped
    ensures var u := trace[i].up;
            && |u.queue| == 64 && !LoopDone(trace[i].control) && u.reader.Offering?
            && trace[i + 1].up == u.(reader := Reading, dropped := u.dropped + [u.reader.data])
  {
    Conservation(trace, actions, i);
    assert trace[i + 1] == Apply(trace[i], actions[i]);
    if actions[i].ByTunReader? {
      assert actions[i].tun == Drop;
    }
  }

  /** The TUN reader never waits: with a packet in hand it can queue it, drop it or give it up. */
  lemma TunReaderNeverBlocks(u: Uplink, c: Control)
    requires u.reader.Offering?
    ensures TunEnabled(u, c, Enqueue) || TunEnabled(u, c, Drop) || TunEnabled(u, c, Abandon)
    ensures |u.queue| < 64 <==> TunEnabled(u, c, Enqueue)
  {
  }

  /** The reader gives up a packet only after a cancellation. */
  lemma {:induction false} AbandonsOnlyWhenDone(trace: seq<State>, actions: seq<Action>, i: nat)
    requires Run(trace, actions) && i < |trace|
    ensures trace[i].up.abandoned != [] ==> LoopDone(trace[i].control)
  {
    if i > 0 {
      AbandonsOnlyWhenDone(trace, actions, i - 1);
      AbandonStep(trace[i - 1], actions[i - 1]);
    }
  }

  lemma AbandonStep(s: State, a: Action)
    requires Enabled(s, a) && (s.up.abandoned != [] ==> LoopDone(s.control))
    ensures Apply(s, a).up.abandoned != [] ==> LoopDone(Apply(s, a).control)
  {
    match a {
      case ByTunReader(_) =>
      case ByCaller(_) =>
      case ByWriter(_) =>
      case _ => assert Apply(s, a).up == s.up;
    }
  }

  // ----- Counters -----

  /** The sent counters are those of the packets the writer has counted: every written packet, and at
      most one more, which is being written or was lost to a failed Write. */
  lemma SentCounters(trace: seq<State>, actions: seq<Action>, i: nat)
    requires Run(trace, actions) && i < |trace|
    ensures var s := trace[i];
            var extra := if s.writer.Counting? then [] else InHand(s.writer);
            && s.stats.packetsSent == |s.written| + |extra|
            && s.stats.bytesSent == TotalLength(s.written + extra)
            && |extra| <= 1
            && (s.writer == Selecting ==> s.stats.packetsSent == |s.written|)
            && s.written + extra <= s.up.taken
  {
    RunKeepsInv(trace, actions, i);
    CountedSoFar(SendingOf(trace[i]));
  }

  lemma CountedSoFar(o: Sending)
    requires SendingInv(o)
    ensures var extra := if o.writer.Counting? then [] else InHand(o.writer);
            && o.packetsSent == |o.written| + |extra|
            && o.bytesSent == TotalLength(o.written + extra)
            && |extra| <= 1
            && o.written + extra <= o.taken
  {
    if o.writer.Counting? {
      assert o.taken[..|o.taken| - 1] == o.written;
      assert o.written + [] == o.written;
    }
  }

  /** The received counters are those of the payloads passed to the device. */
  lemma ReceivedCounters(trace: seq<State>, actions: seq<Action>, i: nat)
    requires Run(trace, actions) && i < |trace|
    ensures trace[i].stats.packetsReceived == |trace[i].down.offered|
    ensures trace[i].stats.bytesReceived == TotalLength(trace[i].down.offered)
  {
    RunKeepsInv(trace, actions, i);
  }

  lemma {:induction false} CountersGrow(trace: seq<State>, actions: seq<Action>, i: nat, j: nat)
    requires Run(trace, actions) && i <= j < |trace|
    ensures var a, b := trace[i].stats, trace[j].stats;
            && a.bytesSent <= b.bytesSent && a.packetsSent <= b.packetsSent
            && a.bytesReceived <= b.bytesReceived && a.packetsReceived <= b.packetsReceived
    decreases j
  {
    if i < j {
      CountersGrow(trace, actions, i, j - 1);
      assert trace[j] == Apply(trace[j - 1], actions[j - 1]);
    }
  }

  // ----- Receiving -----

  /** The device has been offered exactly the nonempty IPv4 and IPv6 payloads of the packets dealt with
      so far, which are the first packets of the arrived bytes; keepalive and unknown frames are
      skipped without losing the frame boundary. */
  lemma IncomingOrder(trace: seq<State>, actions: seq<Action>, i: nat)
    requires Run(trace, actions) && i < |trace|
    ensures var d := trace[i].down;
            && d.offered == Payloads(d.packets)
            && d.packets <= ParseAll(d.arrived, Broken).packets
            && Consumed(d.arrived, d.packets + InReceiver(d.receiver), d.pending)
  {
    RunKeepsInv(trace, actions, i);
    var d := trace[i].down;
    ConsumedIsPrefix(d.arrived, d.packets + InReceiver(d.receiver), d.pending);
  }

  lemma {:induction false} MoreBytesMorePackets(stream: bytes, more: bytes)
    ensures ParseAll(stream, Broken).packets <= ParseAll(stream + more, Broken).packets
    decreases |stream|
  {
    var p := Parse(stream, Broken);
    if p.result.Received? {
      ParseStable(stream, Broken, more, Broken);
      MoreBytesMorePackets(p.rest, more);
    }
  }

  lemma DecodesToPrefix(stream: bytes, whole: bytes, packets: seq<Packet>)
    requires stream <= whole && packets <= ParseAll(stream, Broken).packets
    ensures Payloads(packets) <= Payloads(ParseAll(whole, Broken).packets)
  {
    assert whole == stream + whole[|stream|..];
    MoreBytesMorePackets(stream, whole[|stream|..]);
    var all := ParseAll(whole, Broken).packets;
    assert packets == all[..|packets|];
    PayloadsPrefix(all, |packets|);
  }

  /** Two data loops joined by a network that delivers a prefix of the sender's wire: the far device is
      offered a prefix of what the sender delivered, in the order the near device produced it. */
  lemma EndToEnd(sending: seq<State>, sendActions: seq<Action>, i: nat,
                 receiving: seq<State>, receiveActions: seq<Action>, j: nat)
    requires Run(sending, sendActions) && i < |sending|
    requires Run(receiving, receiveActions) && j < |receiving|
    requires Sized(sending[i].up.fromTun)
    requires receiving[j].down.arrived <= sending[i].conn.wire
    ensures receiving[j].down.offered <= Delivered(sending[i])
    ensures Subsequence(receiving[j].down.offered, sending[i].up.fromTun)
  {
    IncomingOrder(receiving, receiveActions, j);
    WireDelivery(sending, sendActions, i, Broken);
    var offered, delivered := receiving[j].down.offered, Delivered(sending[i]);
    DecodesToPrefix(receiving[j].down.arrived, sending[i].conn.wire, receiving[j].down.packets);
    PrefixIsSubsequence(offered, delivered, sending[i].up.fromTun);
  }

  lemma PrefixIsSubsequence(offered: seq<bytes>, delivered: seq<bytes>, whole: seq<bytes>)
    requires offered <= delivered && Subsequence(delivered, whole)
    ensures Subsequence(offered, whole)
  {
    assert offered == delivered[..|offered|];
    SubsequencePrefix(delivered, |offered|, whole);
  }

  // ----- Shutdown -----

  /** At most three errors are ever sent on the error channel, and a goroutine that wants to send one
      always finds a free slot. */
  lemma SendersNeverBlock(trace: seq<State>, actions: seq<Action>, i: nat)
    requires Run(trace, actions) && i < |trace|
    ensures var s := trace[i];
            && s.control.sends <= 3
            && (s.writer.WriterReports? ==> Enabled(s, ByWriter(WriterSends)))
            && (s.keepaliver.KeepaliveReports? ==> Enabled(s, ByKeepaliver(KeepaliveSends)))
            && (s.down.receiver.ReceiverReports? ==> Enabled(s, ByReceiver(ReceiverSends)))
  {
    RunKeepsInv(trace, actions, i);
  }

  predicate SessionOver(m: Main) {
    m.SessionReturned? || (m.LoopReturned? && m.ranSession)
  }

  /** Whatever way runSession returns, it returns an error, its context is cancelled and the connection
      is closed. */
  lemma ReturnsCleanedUp(trace: seq<State>, actions: seq<Action>, i: nat)
    requires Run(trace, actions) && i < |trace| && SessionOver(trace[i].control.main)
    ensures SessionDone(trace[i].control) && trace[i].conn.closed && Proper(trace[i].control.main.error)
  {
    RunKeepsInv(trace, actions, i);
  }

  /** RunDataLoop never returns nil: without a session it says that there is no connection, and after one
      it has an error that is neither this nor that the server closed the tunnel. */
  lemma LoopNeverReturnsNil(trace: seq<State>, actions: seq<Action>, i: nat)
    requires Run(trace, actions) && i < |trace| && trace[i].control.main.LoopReturned?
    ensures var m := trace[i].control.main;
            && m.error.Some? && m.error.value != ClosedByServer && m.error.value != ReadingFailed(BareEof)
            && (m.error.value == NotConnected <==> !m.ranSession)
  {
    RunKeepsInv(trace, actions, i);
  }

  /** Once the connection is closed, which it is when runSession returns, the wire never changes. */
  lemma {:induction false} WireFrozen(trace: seq<State>, actions: seq<Action>, i: nat, j: nat)
    requires Run(trace, actions) && i <= j < |trace| && trace[i].conn.closed
    ensures trace[j].conn.closed && trace[j].conn.wire == trace[i].conn.wire
    decreases j
  {
    if i < j {
      WireFrozen(trace, actions, i, j - 1);
      ClosedStaysQuiet(trace[j - 1], actions[j - 1]);
    }
  }

  lemma ClosedStaysQuiet(s: State, a: Action)
    requires s.conn.closed && Enabled(s, a)
    ensures Apply(s, a).conn.closed && Apply(s, a).conn.wire == s.conn.wire
  {
    match a {
      case ByWriter(WriterFails(kept)) => assert s.conn.wire + [] == s.conn.wire;
      case ByKeepaliver(KeepaliveFails(kept)) => assert s.conn.wire + [] == s.conn.wire;
      case _ =>
    }
  }

  /** The caller has left the waiting state for good: context done, connection closed. */
  predicate ShuttingDown(s: State) {
    !s.control.main.Starting? && SessionDone(s.control) && s.conn.closed
  }

  function WriterWork(w: Writer): nat {
    match w
    case Selecting => 4
    case Counting(_) => 3
    case Writing(_) => 2
    case WriterReports(_, _) => 1
    case _ => 0
  }

  function KeepaliveWork(k: Keepaliver): nat {
    match k
    case Ticking => 3
    case Pinging => 2
    case KeepaliveReports(_) => 1
    case _ => 0
  }

  function ReceiverWork(r: Receiver): nat {
    match r
    case Awaiting => 5
    case Holding(_) => 4
    case Delivering => 3
    case Checking => 2
    case ReceiverReports(_) => 1
    case _ => 0
  }

  /** How many steps the three goroutines can still take during shutdown, ticks of the statistics
      timer aside. */
  function Work(s: State): (n: nat)
    ensures n <= 12
  {
    WriterWork(s.writer) + KeepaliveWork(s.keepaliver) + ReceiverWork(s.down.receiver)
  }

  predicate IsWork(a: Action) {
    match a
    case ByWriter(_) => true
    case ByKeepaliver(k) => !k.StatsTick?
    case ByReceiver(_) => true
    case _ => false
  }

  lemma WriterWorkDecreases(s: State, a: WriterAction)
    requires QueueNonempty(s.up) && ShuttingDown(s) && WriterEnabled(s, a)
    ensures ShuttingDown(WriterApply(s, a)) && Work(WriterApply(s, a)) < Work(s)
  {
    if a.WriterTakes? {
      assert s.up.queue[0] in s.up.queue;
    }
  }

  lemma KeepaliveWorkDecreases(s: State, a: KeepaliveAction)
    requires ShuttingDown(s) && KeepaliveEnabled(s, a)
    ensures ShuttingDown(KeepaliveApply(s, a))
    ensures Work(KeepaliveApply(s, a)) + (if a.StatsTick? then 0 else 1) <= Work(s)
  {
  }

  lemma ReceiverWorkDecreases(s: State, a: ReceiverAction)
    requires ShuttingDown(s) && Enabled(s, ByReceiver(a))
    ensures ShuttingDown(Apply(s, ByReceiver(a))) && Work(Apply(s, ByReceiver(a))) < Work(s)
  {
  }

  lemma WorkDecreases(s: State, a: Action)
    requires QueueNonempty(s.up) && ShuttingDown(s) && Enabled(s, a)
    ensures ShuttingDown(Apply(s, a))
    ensures Work(Apply(s, a)) + (if IsWork(a) then 1 else 0) <= Work(s)
  {
    match a {
      case ByWriter(w) => WriterWorkDecreases(s, w);
      case ByKeepaliver(k) => KeepaliveWorkDecreases(s, k);
      case ByReceiver(r) => ReceiverWorkDecreases(s, r);
      case ByCaller(_) =>
      case _ =>
    }
  }

  /** How many of the actions from i up to j are work of the three goroutines. */
  function WorkBetween(actions: seq<Action>, i: nat, j: nat): nat
    requires i <= j <= |actions|
  {
    if i == j then 0 else WorkBetween(actions, i, j - 1) + if IsWork(actions[j - 1]) then 1 else 0
  }

  lemma RunWorkDecreases(trace: seq<State>, actions: seq<Action>, i: nat)
    requires Run(trace, actions) && i < |actions| && ShuttingDown(trace[i])
    ensures ShuttingDown(trace[i + 1])
    ensures Work(trace[i + 1]) + (if IsWork(actions[i]) then 1 else 0) <= Work(trace[i])
  {
    RunKeepsInv(trace, actions, i);
    UplinkNonempty(trace[i].up);
    WorkDecreases(trace[i], actions[i]);
  }

  lemma {:induction false} ShutdownLasts(trace: seq<State>, actions: seq<Action>, i: nat, j: nat)
    requires Run(trace, actions) && i <= j < |trace| && ShuttingDown(trace[i])
    ensures ShuttingDown(trace[j])
    decreases j
  {
    if i < j {
      ShutdownLasts(trace, actions, i, j - 1);
      RunWorkDecreases(trace, actions, j - 1);
    }
  }

  lemma {:induction false} WorkTelescopes(actions: seq<Action>, work: seq<nat>, i: nat, j: nat)
    requires i <= j <= |actions| && |work| == |actions| + 1
    requires forall k | i <= k < j :: work[k + 1] + (if IsWork(actions[k]) then 1 else 0) <= work[k]
    ensures WorkBetween(actions, i, j) + work[j] <= work[i]
    decreases j
  {
    if i < j {
      WorkTelescopes(actions, work, i, j - 1);
      assert work[j - 1 + 1] == work[j];
    }
  }

  /** From any moment of shutdown on, the writer, the keepalive goroutine and the receiver together
      take at most twelve more steps, statistics ticks aside. */
  lemma ShutdownBound(trace: seq<State>, actions: seq<Action>, i: nat, j: nat)
    requires Run(trace, actions) && i <= j < |trace| && ShuttingDown(trace[i])
    ensures WorkBetween(actions, i, j) + Work(trace[j]) <= Work(trace[i]) <= 12
  {
    var work := seq(|trace|, k requires 0 <= k < |trace| => Work(trace[k]));
    forall k | i <= k < j
      ensures work[k + 1] + (if IsWork(actions[k]) then 1 else 0) <= work[k]
    {
      ShutdownLasts(trace, actions, i, k);
      RunWorkDecreases(trace, actions, k);
    }
    WorkTelescopes(actions, work, i, j);
  }

  /** And none of them is ever stuck: during shutdown every unfinished goroutine has a step to take. */
  lemma ShutdownProgress(trace: seq<State>, actions: seq<Action>, i: nat)
    requires Run(trace, actions) && i < |trace| && ShuttingDown(trace[i])
    ensures var s := trace[i];
            && (WriterWork(s.writer) > 0 ==> exists w: WriterAction :: WriterEnabled(s, w))
            && (KeepaliveWork(s.keepaliver) > 0 ==> exists k: KeepaliveAction :: !k.StatsTick? && KeepaliveEnabled(s, k))
            && (ReceiverWork(s.down.receiver) > 0 ==> exists r: ReceiverAction :: ReceiverEnabled(s.down, s.control, r))
  {
    SendersNeverBlock(trace, actions, i);
    var s := trace[i];
    var w := match s.writer
      case Selecting => WriterSeesDone
      case Counting(_) => WriterCounts
      case Writing(_) => WriterFails(0)
      case _ => WriterSends;
    assert WriterWork(s.writer) > 0 ==> WriterEnabled(s, w);
    var k := match s.keepaliver
      case Ticking => KeepaliveSeesDone
      case Pinging => KeepaliveFails(0)
      case _ => KeepaliveSends;
    assert KeepaliveWork(s.keepaliver) > 0 ==> KeepaliveEnabled(s, k);
    var r := match s.down.receiver
      case Awaiting => ReceiverReads(0, Broken)
      case Holding(_) => ReceiverDispatches
      case Delivering => DeviceWrites(true)
      case Checking => ReceiverSeesDone
      case _ => ReceiverSends;
    assert ReceiverWork(s.down.receiver) > 0 ==> ReceiverEnabled(s.down, s.control, r);
  }

  /** runSession starts shutdown on every way out, so the bound covers every return. */
  lemma ReturnMeansShuttingDown(trace: seq<State>, actions: seq<Action>, i: nat)
    requires Run(trace, actions) && i < |trace|
    requires trace[i].control.main.Returning? || SessionOver(trace[i].control.main)
    ensures ShuttingDown(trace[i])
  {
    RunKeepsInv(trace, actions, i);
  }

  // ----- The TUN reader after a cancellation -----

  /** The writer takes no more packets: it has stopped, or never starts. */
  predicate WriterGone(s: State) {
    WriterStopped(s.writer) || (s.writer == WriterUnstarted && !s.control.main.Starting?)
  }

  predicate NobodyTakes(s: State) {
    LoopDone(s.control) && WriterGone(s)
  }

  /** From a to b packets have only been put into the queue. */
  predicate Fills(a: Uplink, b: Uplink) {
    b.taken == a.taken && b.dropped == a.dropped && a.queue <= b.queue
  }

  lemma FillsTransitive(a: Uplink, b: Uplink, c: Uplink)
    requires Fills(a, b) && Fills(b, c)
    ensures Fills(a, c)
  {
  }

  lemma QueueOnlyFills(s: State, a: Action)
    requires NobodyTakes(s) && PhaseInv(s) && Enabled(s, a)
    ensures NobodyTakes(Apply(s, a)) && Fills(s.up, Apply(s, a).up)
  {
    match a {
      case ByTunReader(_) =>
      case ByWriter(_) =>
      case ByCaller(_) =>
      case _ =>
    }
  }

  lemma RunKeepsPhase(trace: seq<State>, actions: seq<Action>, i: nat)
    requires Run(trace, actions) && i < |trace|
    ensures PhaseInv(trace[i])
  {
    RunKeepsInv(trace, actions, i);
  }

  lemma QueueOnlyFillsAt(trace: seq<State>, actions: seq<Action>, i: nat)
    requires Run(trace, actions) && i < |actions| && NobodyTakes(trace[i])
    ensures NobodyTakes(trace[i + 1]) && Fills(trace[i].up, trace[i + 1].up)
  {
    RunKeepsPhase(trace, actions, i);
    QueueOnlyFills(trace[i], actions[i]);
  }

  lemma {:induction false} QueueOnlyFillsInRun(trace: seq<State>, actions: seq<Action>, i: nat, j: nat)
    requires Run(trace, actions) && i <= j < |trace| && NobodyTakes(trace[i])
    ensures NobodyTakes(trace[j]) && Fills(trace[i].up, trace[j].up)
    decreases j
  {
    if i < j {
      QueueOnlyFillsInRun(trace, actions, i, j - 1);
      QueueOnlyFillsAt(trace, actions, j - 1);
      FillsTransitive(trace[i].up, trace[j - 1].up, trace[j].up);
    } else {
      assert trace[i].up.queue <= trace[j].up.queue;
    }
  }

  /** Once the context is done and nobody takes packets, the TUN reader reads at most one packet more than
      there are free slots: those that fill the queue, none of them dropped, and one it holds until it
      abandons it. */
  lemma TunReaderBound(trace: seq<State>, actions: seq<Action>, i: nat, j: nat)
    requires Run(trace, actions) && i <= j < |trace| && NobodyTakes(trace[i])
    ensures var a, b := trace[i].up, trace[j].up;
            && Fills(a, b) && |b.queue| <= 64
            && |b.fromTun| - |a.fromTun| <= 64 - |a.queue| + 1
            && (b.abandoned != [] ==> b.reader == Stopped)
            && (b.reader.Offering? ==> TunEnabled(b, trace[j].control, Abandon))
  {
    QueueOnlyFillsInRun(trace, actions, i, j);
    Conservation(trace, actions, i);
    Conservation(trace, actions, j);
    RunKeepsInv(trace, actions, j);
  }
}
