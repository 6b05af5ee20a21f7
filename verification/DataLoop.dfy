/**
 * RunDataLoop and runSession as a transition system.
 *
 * Four goroutines and the caller share a 64-slot queue of TUN packets, a 3-slot error channel, two
 * nested contexts and one connection. A state holds the program counters, the channels, the
 * connection's wire and histories of what happened; an action is one step of one goroutine or of the
 * environment. Any interleaving of enabled actions is a run.
 */
module DataLoop {
  import opened Bytes
  import opened Framing
  import opened LoopErrors

  const QUEUE_SLOTS := 64
  const ERROR_SLOTS := 3

  // ----- State -----

  /** The goroutine that reads the TUN device. */
  datatype TunReader = Reading | Offering(data: bytes) | Stopped

  /** The queue tunOut with the histories of its two ends. */
  datatype Uplink = Uplink(
    reader: TunReader,
    queue: seq<bytes>,
    fromTun: seq<bytes>,    // nonempty packets tunRead returned
    dropped: seq<bytes>,    // packets the reader dropped
    abandoned: seq<bytes>,  // packets the reader still held when it saw the cancellation
    taken: seq<bytes>)      // packets the writer received

  /** A write that failed after it had put kept bytes of the frame on the wire. */
  datatype Torn = Torn(frame: Frame, kept: nat)

  /** The connection as a byte sink. */
  datatype Conn = Conn(
    closed: bool,
    wire: bytes,
    frames: seq<Frame>,     // frames whose Write succeeded
    torn: Option<Torn>)     // the first Write that failed

  /** writeLoop. A packet it took but could not write is lost. */
  datatype Writer =
    | WriterUnstarted
    | Selecting
    | Counting(data: bytes)
    | Writing(data: bytes)
    | WriterReports(error: Option<LoopError>, lost: seq<bytes>)
    | WriterDone(lost: seq<bytes>)

  datatype Keepaliver =
    | KeepaliveUnstarted
    | Ticking
    | Pinging
    | KeepaliveReports(error: Option<LoopError>)
    | KeepaliveDone(reported: bool)

  /** readLoop. */
  datatype Receiver =
    | ReceiverUnstarted
    | Checking
    | Awaiting
    | Holding(packet: Packet)
    | Delivering
    | ReceiverReports(error: Option<LoopError>)
    | ReceiverDone

  datatype Downlink = Downlink(
    receiver: Receiver,
    arrived: bytes,         // everything the peer has sent
    pending: bytes,         // what ReadPacket has not consumed
    packets: seq<Packet>,   // packets readLoop has dealt with
    offered: seq<bytes>)    // payloads passed to tunWrite

  /** The caller: RunDataLoop before, during and after runSession. */
  datatype Main =
    | Starting
    | WaitingForEnd
    | Cancelling(error: Option<LoopError>)
    | Closing(error: Option<LoopError>)
    | Returning(error: Option<LoopError>)
    | SessionReturned(error: Option<LoopError>)
    | LoopReturned(error: Option<LoopError>, ranSession: bool)

  datatype Control = Control(
    main: Main,
    outerCancelled: bool,   // the caller's context
    loopCancelled: bool,    // RunDataLoop's own cancel
    sessionCancelled: bool, // runSession's own cancel
    errCh: seq<Option<LoopError>>,
    tunReadErr: bool,       // tunReadErr holds an error
    sends: nat)             // how many errors were ever sent on errCh

  datatype Stats = Stats(bytesSent: nat, packetsSent: nat, bytesReceived: nat, packetsReceived: nat)

  datatype State = State(
    up: Uplink,
    writer: Writer,
    keepaliver: Keepaliver,
    conn: Conn,
    written: seq<bytes>,    // packets whose Write succeeded
    down: Downlink,
    control: Control,
    stats: Stats)

  predicate LoopDone(c: Control) {
    c.outerCancelled || c.loopCancelled
  }

  predicate SessionDone(c: Control) {
    LoopDone(c) || c.sessionCancelled
  }

  /** ctx.Err() of the session context: nil until it is done. */
  function ContextError(c: Control): Option<LoopError> {
    if SessionDone(c) then Some(Cancelled) else None
  }

  ghost predicate Init(s: State) {
    && s.up == Uplink(Reading, [], [], [], [], [])
    && s.writer == WriterUnstarted && s.keepaliver == KeepaliveUnstarted
    && s.conn.wire == [] && s.conn.frames == [] && s.conn.torn == None && s.written == []
    && s.down.receiver == ReceiverUnstarted && s.down.pending == s.down.arrived
    && s.down.packets == [] && s.down.offered == []
    && s.control.main == Starting && !s.control.loopCancelled && !s.control.sessionCancelled
    && s.control.errCh == [] && !s.control.tunReadErr && s.control.sends == 0
    && s.stats == Stats(0, 0, 0, 0)
  }

  // ----- Actions -----

  datatype EnvAction = OuterCancel | PeerSends(data: bytes) | CloseElsewhere

  datatype TunAction = TunReturns(data: bytes) | TunFails | Enqueue | Drop | Abandon

  datatype CallerAction =
    | StartSession(connected: bool)
    | TakeError
    | TakeTunError
    | SeeDone
    | CancelSession
    | CloseConn
    | ReturnSession
    | ReturnLoop

  datatype WriterAction =
    | WriterTakes
    | WriterCounts
    | WriterWrites
    | WriterFails(kept: nat)
    | WriterSeesDone
    | WriterSends

  datatype KeepaliveAction =
    | KeepaliveTick
    | KeepaliveWrites
    | KeepaliveFails(kept: nat)
    | StatsTick
    | KeepaliveSeesDone
    | KeepaliveSends

  datatype ReceiverAction =
    | ReceiverProceeds
    | ReceiverSeesDone
    | ReceiverReads(cut: nat, end: StreamEnd)
    | ReceiverDispatches
    | DeviceWrites(ok: bool)
    | ReceiverSends

  datatype Action =
    | ByEnvironment(env: EnvAction)
    | ByTunReader(tun: TunAction)
    | ByCaller(caller: CallerAction)
    | ByWriter(w: WriterAction)
    | ByKeepaliver(k: KeepaliveAction)
    | ByReceiver(r: ReceiverAction)

  /** A Write may succeed only on an open connection on which no Write has failed. */
  predicate Usable(c: Conn) {
    !c.closed && c.torn.None?
  }

  /** A failing Write may leave some bytes of its frame on a usable connection, and none otherwise. */
  predicate MayKeep(c: Conn, f: Frame, kept: nat) {
    kept <= |FrameBytes(f)| && (!Usable(c) ==> kept == 0)
  }

  function AfterWrite(c: Conn, f: Frame): Conn {
    c.(wire := c.wire + FrameBytes(f), frames := c.frames + [f])
  }

  function AfterFailedWrite(c: Conn, f: Frame, kept: nat): Conn
    requires MayKeep(c, f, kept)
  {
    c.(wire := c.wire + FrameBytes(f)[..kept], torn := if c.torn.Some? then c.torn else Some(Torn(f, kept)))
  }

  function Send(c: Control, e: Option<LoopError>): Control {
    c.(errCh := c.errCh + [e], sends := c.sends + 1)
  }

  function EnvApply(s: State, a: EnvAction): State {
    match a
    case OuterCancel => s.(control := s.control.(outerCancelled := true))
    case PeerSends(data) =>
      s.(down := s.down.(arrived := s.down.arrived + data, pending := s.down.pending + data))
    case CloseElsewhere => s.(conn := s.conn.(closed := true))
  }

  predicate TunEnabled(u: Uplink, c: Control, a: TunAction) {
    match a
    case TunReturns(_) => u.reader == Reading
    case TunFails => u.reader == Reading
    case Enqueue => u.reader.Offering? && |u.queue| < QUEUE_SLOTS
    // the default branch of the reader's select: neither channel operation is ready
    case Drop => u.reader.Offering? && !(|u.queue| < QUEUE_SLOTS) && !LoopDone(c)
    case Abandon => u.reader.Offering? && LoopDone(c)
  }

  function TunApply(u: Uplink, a: TunAction): Uplink
    requires a.Enqueue? || a.Drop? || a.Abandon? ==> u.reader.Offering?
  {
    match a
    case TunReturns(data) =>
      if |data| == 0 then u else u.(reader := Offering(data), fromTun := u.fromTun + [data])
    case TunFails => u.(reader := Stopped)
    case Enqueue => u.(reader := Reading, queue := u.queue + [u.reader.data])
    case Drop => u.(reader := Reading, dropped := u.dropped + [u.reader.data])
    case Abandon => u.(reader := Stopped, abandoned := u.abandoned + [u.reader.data])
  }

  predicate CallerEnabled(c: Control, a: CallerAction) {
    match a
    case StartSession(_) => c.main == Starting
    case TakeError => c.main == WaitingForEnd && c.errCh != []
    case TakeTunError => c.main == WaitingForEnd && c.tunReadErr
    case SeeDone => c.main == WaitingForEnd && SessionDone(c)
    case CancelSession => c.main.Cancelling?
    case CloseConn => c.main.Closing?
    case ReturnSession => c.main.Returning?
    case ReturnLoop => c.main.SessionReturned?
  }

  function CallerApply(s: State, a: CallerAction): State
    requires CallerEnabled(s.control, a)
  {
    var c := s.control;
    match a
    case StartSession(connected) =>
      if connected then
        s.(control := c.(main := WaitingForEnd),
           writer := Selecting, keepaliver := Ticking, down := s.down.(receiver := Checking))
      else
        s.(control := c.(main := LoopReturned(Some(NotConnected), false), loopCancelled := true))
    case TakeError => s.(control := c.(main := Cancelling(c.errCh[0]), errCh := c.errCh[1..]))
    case TakeTunError => s.(control := c.(main := Cancelling(Some(TunReadFailed)), tunReadErr := false))
    case SeeDone => s.(control := c.(main := Closing(ContextError(c))))
    case CancelSession => s.(control := c.(main := Closing(c.main.error), sessionCancelled := true))
    case CloseConn => s.(conn := s.conn.(closed := true), control := c.(main := Returning(c.main.error)))
    case ReturnSession => s.(control := c.(main := SessionReturned(c.main.error), sessionCancelled := true))
    case ReturnLoop => s.(control := c.(main := LoopReturned(c.main.error, true), loopCancelled := true))
  }

  predicate WriterEnabled(s: State, a: WriterAction) {
    match a
    case WriterTakes => s.writer == Selecting && s.up.queue != []
    case WriterCounts => s.writer.Counting?
    case WriterWrites => s.writer.Writing? && Usable(s.conn)
    case WriterFails(kept) => s.writer.Writing? && MayKeep(s.conn, Data(s.writer.data), kept)
    case WriterSeesDone => s.writer == Selecting && SessionDone(s.control)
    case WriterSends => s.writer.WriterReports? && |s.control.errCh| < ERROR_SLOTS
  }

  function WriterApply(s: State, a: WriterAction): State
    requires WriterEnabled(s, a)
  {
    match a
    case WriterTakes =>
      var data := s.up.queue[0];
      s.(up := s.up.(queue := s.up.queue[1..], taken := s.up.taken + [data]),
         writer := if |data| == 0 then Selecting else Counting(data))
    case WriterCounts =>
      var data := s.writer.data;
      s.(writer := Writing(data),
         stats := s.stats.(bytesSent := s.stats.bytesSent + |data|, packetsSent := s.stats.packetsSent + 1))
    case WriterWrites =>
      s.(writer := Selecting, conn := AfterWrite(s.conn, Data(s.writer.data)),
         written := s.written + [s.writer.data])
    case WriterFails(kept) =>
      s.(writer := WriterReports(Some(TunnelWriteFailed), [s.writer.data]),
         conn := AfterFailedWrite(s.conn, Data(s.writer.data), kept))
    case WriterSeesDone => s.(writer := WriterReports(ContextError(s.control), []))
    case WriterSends => s.(writer := WriterDone(s.writer.lost), control := Send(s.control, s.writer.error))
  }

  predicate KeepaliveEnabled(s: State, a: KeepaliveAction) {
    match a
    case KeepaliveTick => s.keepaliver == Ticking
    case KeepaliveWrites => s.keepaliver == Pinging && Usable(s.conn)
    case KeepaliveFails(kept) => s.keepaliver == Pinging && MayKeep(s.conn, Keepalive, kept)
    case StatsTick => s.keepaliver == Ticking
    case KeepaliveSeesDone => s.keepaliver == Ticking && SessionDone(s.control)
    case KeepaliveSends => s.keepaliver.KeepaliveReports? && |s.control.errCh| < ERROR_SLOTS
  }

  function KeepaliveApply(s: State, a: KeepaliveAction): State
    requires KeepaliveEnabled(s, a)
  {
    match a
    case KeepaliveTick => s.(keepaliver := Pinging)
    case KeepaliveWrites => s.(keepaliver := Ticking, conn := AfterWrite(s.conn, Keepalive))
    case KeepaliveFails(kept) =>
      s.(keepaliver := KeepaliveReports(Some(KeepaliveFailed)),
         conn := AfterFailedWrite(s.conn, Keepalive, kept))
    case StatsTick => s
    case KeepaliveSeesDone => s.(keepaliver := KeepaliveDone(false))
    case KeepaliveSends => s.(keepaliver := KeepaliveDone(true), control := Send(s.control, s.keepaliver.error))
  }

  predicate ReceiverEnabled(d: Downlink, c: Control, a: ReceiverAction) {
    match a
    case ReceiverProceeds => d.receiver == Checking && !SessionDone(c)
    case ReceiverSeesDone => d.receiver == Checking && SessionDone(c)
    // ReadPacket returns after at most cut more bytes, the stream then ending in the given way
    case ReceiverReads(cut, _) => d.receiver == Awaiting && cut <= |d.pending|
    case ReceiverDispatches => d.receiver.Holding?
    case DeviceWrites(_) => d.receiver == Delivering
    case ReceiverSends => d.receiver.ReceiverReports? && |c.errCh| < ERROR_SLOTS
  }

  /** What readLoop returns when ReadPacket failed. */
  function ReceiveError(c: Control, e: ReadError): Option<LoopError> {
    if ContextError(c).Some? then ContextError(c)
    else if e == BareEof then Some(ClosedByServer)
    else Some(ReadingFailed(e))
  }

  function AfterRead(d: Downlink, c: Control, p: Parsed, unread: bytes): Downlink {
    match p.result
    case Received(packet) => d.(receiver := Holding(packet), pending := p.rest + unread)
    case Failed(e) => d.(receiver := ReceiverReports(ReceiveError(c, e)))
  }

  function AfterDispatch(d: Downlink, p: Packet): Downlink {
    var d' := d.(packets := d.packets + [p]);
    if p.etherType == ETHER_TYPE_KEEPALIVE then
      d'.(receiver := Checking)
    else if p.etherType == ETHER_TYPE_IPV4 || p.etherType == ETHER_TYPE_IPV6 then
      if |p.payload| == 0 then d'.(receiver := Checking)
      else d'.(receiver := Delivering, offered := d.offered + [p.payload])
    else
      d'.(receiver := Checking)
  }

  function CountDispatch(t: Stats, p: Packet): Stats {
    if (p.etherType == ETHER_TYPE_IPV4 || p.etherType == ETHER_TYPE_IPV6) && |p.payload| > 0 then
      t.(bytesReceived := t.bytesReceived + |p.payload|, packetsReceived := t.packetsReceived + 1)
    else t
  }

  function ReceiverApply(d: Downlink, c: Control, a: ReceiverAction): Downlink
    requires ReceiverEnabled(d, c, a)
  {
    match a
    case ReceiverProceeds => d.(receiver := Awaiting)
    case ReceiverSeesDone => d.(receiver := ReceiverReports(ContextError(c)))
    case ReceiverReads(cut, end) => AfterRead(d, c, Parse(d.pending[..cut], end), d.pending[cut..])
    case ReceiverDispatches => AfterDispatch(d, d.receiver.packet)
    case DeviceWrites(ok) => d.(receiver := if ok then Checking else ReceiverReports(Some(TunWriteFailed)))
    case ReceiverSends => d.(receiver := ReceiverDone)
  }

  predicate Enabled(s: State, a: Action) {
    match a
    case ByEnvironment(_) => true
    case ByTunReader(t) => TunEnabled(s.up, s.control, t)
    case ByCaller(c) => CallerEnabled(s.control, c)
    case ByWriter(w) => WriterEnabled(s, w)
    case ByKeepaliver(k) => KeepaliveEnabled(s, k)
    case ByReceiver(r) => ReceiverEnabled(s.down, s.control, r)
  }

  function Apply(s: State, a: Action): State
    requires Enabled(s, a)
  {
    match a
    case ByEnvironment(e) => EnvApply(s, e)
    case ByTunReader(t) =>
      s.(up := TunApply(s.up, t),
         control := if t.TunFails? then s.control.(tunReadErr := true) else s.control)
    case ByCaller(c) => CallerApply(s, c)
    case ByWriter(w) => WriterApply(s, w)
    case ByKeepaliver(k) => KeepaliveApply(s, k)
    case ByReceiver(r) =>
      s.(down := ReceiverApply(s.down, s.control, r),
         control := if r.ReceiverSends? then Send(s.control, s.down.receiver.error) else s.control,
         stats := if r.ReceiverDispatches? then CountDispatch(s.stats, s.down.receiver.packet) else s.stats)
  }

  // ----- Runs -----

  /** trace is the sequence of states that the actions lead through from an initial state. */
  ghost predicate Run(trace: seq<State>, actions: seq<Action>) {
    && |trace| == |actions| + 1
    && Init(trace[0])
    && forall i | 0 <= i < |actions| :: Enabled(trace[i], actions[i]) && trace[i + 1] == Apply(trace[i], actions[i])
  }
}
