/**
 * Which error RunDataLoop returns, and why: for every run, in terms of the steps taken.
 */
module DataLoopErrors {
  import opened Bytes
  import opened Framing
  import opened LoopErrors
  import opened DataLoop
  import opened DataLoopProofs
  import opened DataLoopTheorems

  // ----- Where errors come from -----

  /** Before step n something happened that explains the error. A cancellation is explained by the
      context, and a read error only by a read that failed while the context was not done. */
  ghost predicate Explained(trace: seq<State>, actions: seq<Action>, n: nat, e: LoopError)
    requires n <= |actions| && n < |trace|
  {
    match e
    case Cancelled => SessionDone(trace[n].control)
    case ClosedByServer => false
    case ReadingFailed(x) => exists k: nat | k < n :: FailsToRead(trace[k], actions[k], x)
    case TunWriteFailed => exists k: nat | k < n :: actions[k] == ByReceiver(DeviceWrites(false))
    case TunnelWriteFailed => exists k: nat | k < n :: actions[k].ByWriter? && actions[k].w.WriterFails?
    case KeepaliveFailed => exists k: nat | k < n :: actions[k].ByKeepaliver? && actions[k].k.KeepaliveFails?
    case TunReadFailed => exists k: nat | k < n :: actions[k] == ByTunReader(TunFails)
    case NotConnected => exists k: nat | k < n :: actions[k] == ByCaller(StartSession(false))
  }

  ghost predicate FailsToRead(s: State, a: Action, x: ReadError) {
    && a.ByReceiver? && a.r.ReceiverReads? && a.r.cut <= |s.down.pending|
    && !SessionDone(s.control)
    && Parse(s.down.pending[..a.r.cut], a.r.end).result == Failed(x)
  }

  ghost predicate ExplainedOption(trace: seq<State>, actions: seq<Action>, n: nat, e: Option<LoopError>)
    requires n <= |actions| && n < |trace|
  {
    e.Some? && Explained(trace, actions, n, e.value)
  }

  ghost predicate WorkersExplained(trace: seq<State>, actions: seq<Action>, n: nat)
    requires n <= |actions| && n < |trace|
  {
    var s := trace[n];
    && (s.writer.WriterReports? ==> ExplainedOption(trace, actions, n, s.writer.error))
    && (s.keepaliver.KeepaliveReports? ==> ExplainedOption(trace, actions, n, s.keepaliver.error))
    && (s.down.receiver.ReceiverReports? ==> ExplainedOption(trace, actions, n, s.down.receiver.error))
  }

  ghost predicate ChannelsExplained(trace: seq<State>, actions: seq<Action>, n: nat)
    requires n <= |actions| && n < |trace|
  {
    var c := trace[n].control;
    && (forall e <- c.errCh :: ExplainedOption(trace, actions, n, e))
    && (c.tunReadErr ==> Explained(trace, actions, n, TunReadFailed))
  }

  /** The caller has an error to return. */
  predicate Decided(m: Main) {
    !m.Starting? && !m.WaitingForEnd?
  }

  ghost predicate CallerExplained(trace: seq<State>, actions: seq<Action>, n: nat)
    requires n <= |actions| && n < |trace|
  {
    var c := trace[n].control;
    Decided(c.main) ==>
      && ExplainedOption(trace, actions, n, c.main.error)
      && (c.main.error == Some(Cancelled) ==> c.outerCancelled)
  }

  ghost predicate AllExplained(trace: seq<State>, actions: seq<Action>, n: nat)
    requires n <= |actions| && n < |trace|
  {
    WorkersExplained(trace, actions, n) && ChannelsExplained(trace, actions, n) && CallerExplained(trace, actions, n)
  }

  lemma StaysDone(s: State, a: Action)
    requires Enabled(s, a)
    ensures SessionDone(s.control) ==> SessionDone(Apply(s, a).control)
    ensures s.control.outerCancelled ==> Apply(s, a).control.outerCancelled
  {
  }

  lemma StaysExplained(trace: seq<State>, actions: seq<Action>, n: nat, e: LoopError)
    requires Run(trace, actions) && n < |actions| && Explained(trace, actions, n, e)
    ensures Explained(trace, actions, n + 1, e)
  {
    assert trace[n + 1] == Apply(trace[n], actions[n]);
    StaysDone(trace[n], actions[n]);
  }

  lemma StaysExplainedOption(trace: seq<State>, actions: seq<Action>, n: nat, e: Option<LoopError>)
    requires Run(trace, actions) && n < |actions| && ExplainedOption(trace, actions, n, e)
    ensures ExplainedOption(trace, actions, n + 1, e)
  {
    StaysExplained(trace, actions, n, e.value);
  }

  lemma WriterStaysExplained(trace: seq<State>, actions: seq<Action>, n: nat)
    requires Run(trace, actions) && n < |actions| && WorkersExplained(trace, actions, n)
    ensures var w := trace[n + 1].writer;
            w.WriterReports? ==> ExplainedOption(trace, actions, n + 1, w.error)
  {
    var s, a, s' := trace[n], actions[n], trace[n + 1];
    assert s' == Apply(s, a);
    if s'.writer.WriterReports? {
      if s.writer.WriterReports? {
        assert s'.writer == s.writer;
        StaysExplainedOption(trace, actions, n, s.writer.error);
      } else if a.w.WriterFails? {
        assert s'.writer.error == Some(TunnelWriteFailed);
        assert actions[n].ByWriter?;
      } else {
        assert s'.writer.error == Some(Cancelled) && SessionDone(s'.control);
      }
    }
  }

  lemma KeepaliverStaysExplained(trace: seq<State>, actions: seq<Action>, n: nat)
    requires Run(trace, actions) && n < |actions| && WorkersExplained(trace, actions, n)
    ensures var k := trace[n + 1].keepaliver;
            k.KeepaliveReports? ==> ExplainedOption(trace, actions, n + 1, k.error)
  {
    var s, a, s' := trace[n], actions[n], trace[n + 1];
    assert s' == Apply(s, a);
    if s'.keepaliver.KeepaliveReports? {
      if s.keepaliver.KeepaliveReports? {
        assert s'.keepaliver == s.keepaliver;
        StaysExplainedOption(trace, actions, n, s.keepaliver.error);
      } else {
        assert a.k.KeepaliveFails? && s'.keepaliver.error == Some(KeepaliveFailed);
        assert actions[n].ByKeepaliver?;
      }
    }
  }

  lemma ReceiverStaysExplained(trace: seq<State>, actions: seq<Action>, n: nat)
    requires Run(trace, actions) && n < |actions| && WorkersExplained(trace, actions, n)
    ensures var r := trace[n + 1].down.receiver;
            r.ReceiverReports? ==> ExplainedOption(trace, actions, n + 1, r.error)
  {
    var s, a, s' := trace[n], actions[n], trace[n + 1];
    assert s' == Apply(s, a);
    if s'.down.receiver.ReceiverReports? {
      if s.down.receiver.ReceiverReports? {
        assert s'.down.receiver == s.down.receiver;
        StaysExplainedOption(trace, actions, n, s.down.receiver.error);
      } else if a.r.ReceiverReads? {
        FailedReadExplained(trace, actions, n);
      } else if a.r.DeviceWrites? {
        assert actions[n] == ByReceiver(DeviceWrites(false)) && s'.down.receiver.error == Some(TunWriteFailed);
      } else {
        assert s'.down.receiver.error == Some(Cancelled) && SessionDone(s'.control);
      }
    }
  }

  lemma FailedReadExplained(trace: seq<State>, actions: seq<Action>, n: nat)
    requires Run(trace, actions) && n < |actions|
    requires actions[n].ByReceiver? && actions[n].r.ReceiverReads? && trace[n + 1].down.receiver.ReceiverReports?
    ensures ExplainedOption(trace, actions, n + 1, trace[n + 1].down.receiver.error)
  {
    var s, a := trace[n], actions[n].r;
    assert trace[n + 1] == Apply(s, actions[n]);
    var stream := s.down.pending[..a.cut];
    var x := Parse(stream, a.end).result.error;
    ParseNeverBareEof(stream, a.end);
    if !SessionDone(s.control) {
      assert FailsToRead(trace[n], actions[n], x);
      assert trace[n + 1].down.receiver.error == Some(ReadingFailed(x));
    }
  }

  lemma ChannelsStayExplained(trace: seq<State>, actions: seq<Action>, n: nat)
    requires Run(trace, actions) && n < |actions| && AllExplained(trace, actions, n)
    ensures ChannelsExplained(trace, actions, n + 1)
  {
    var s, a, s' := trace[n], actions[n], trace[n + 1];
    assert s' == Apply(s, a);
    forall e <- s'.control.errCh ensures ExplainedOption(trace, actions, n + 1, e) {
      if e in s.control.errCh {
        StaysExplainedOption(trace, actions, n, e);
      } else if a.ByWriter? {
        StaysExplainedOption(trace, actions, n, s.writer.error);
      } else if a.ByKeepaliver? {
        StaysExplainedOption(trace, actions, n, s.keepaliver.error);
      } else {
        StaysExplainedOption(trace, actions, n, s.down.receiver.error);
      }
    }
    if s.control.tunReadErr {
      StaysExplained(trace, actions, n, TunReadFailed);
    } else if s'.control.tunReadErr {
      assert actions[n] == ByTunReader(TunFails);
    }
  }

  lemma CallerStaysExplained(trace: seq<State>, actions: seq<Action>, n: nat)
    requires Run(trace, actions) && n < |actions| && AllExplained(trace, actions, n) && PhaseInv(trace[n])
    ensures CallerExplained(trace, actions, n + 1)
  {
    var s, a, s' := trace[n], actions[n], trace[n + 1];
    assert s' == Apply(s, a);
    StaysDone(s, a);
    if Decided(s.control.main) {
      StaysExplainedOption(trace, actions, n, s.control.main.error);
    } else if Decided(s'.control.main) {
      assert !s.control.loopCancelled && !s.control.sessionCancelled;
      match a.caller {
        case TakeError =>
          assert s.control.errCh[0] in s.control.errCh;
          StaysExplainedOption(trace, actions, n, s.control.errCh[0]);
        case TakeTunError => StaysExplained(trace, actions, n, TunReadFailed);
        case SeeDone => assert s.control.outerCancelled;
        case StartSession(_) => assert actions[n] == ByCaller(StartSession(false));
      }
    }
  }

  lemma {:induction false} RunExplained(trace: seq<State>, actions: seq<Action>, n: nat)
    requires Run(trace, actions) && n < |trace|
    ensures AllExplained(trace, actions, n)
  {
    if n > 0 {
      RunExplained(trace, actions, n - 1);
      RunKeepsPhase(trace, actions, n - 1);
      WriterStaysExplained(trace, actions, n - 1);
      KeepaliverStaysExplained(trace, actions, n - 1);
      ReceiverStaysExplained(trace, actions, n - 1);
      ChannelsStayExplained(trace, actions, n - 1);
      CallerStaysExplained(trace, actions, n - 1);
    }
  }

  /** Whatever RunDataLoop returns happened: a cancellation is the outer context's; a failure to read is
      that of a read while the context was not done; the other failures are those of the device, of a
      Write, of a keepalive or of the TUN reader; and "not connected" means no session was started. */
  lemma ErrorHasCause(trace: seq<State>, actions: seq<Action>, i: nat)
    requires Run(trace, actions) && i < |trace| && trace[i].control.main.LoopReturned?
    ensures var e := trace[i].control.main.error;
            && e.Some?
            && match e.value
               case Cancelled => trace[i].control.outerCancelled
               case ClosedByServer => false
               case ReadingFailed(x) => exists k: nat | k < i :: FailsToRead(trace[k], actions[k], x)
               case TunWriteFailed => exists k: nat | k < i :: actions[k] == ByReceiver(DeviceWrites(false))
               case TunnelWriteFailed => exists k: nat | k < i :: actions[k].ByWriter? && actions[k].w.WriterFails?
               case KeepaliveFailed => exists k: nat | k < i :: actions[k].ByKeepaliver? && actions[k].k.KeepaliveFails?
               case TunReadFailed => exists k: nat | k < i :: actions[k] == ByTunReader(TunFails)
               case NotConnected => exists k: nat | k < i :: actions[k] == ByCaller(StartSession(false))
  {
    RunExplained(trace, actions, i);
  }

  // ----- The first error wins -----

  /** The errors this step sends on errCh. */
  function Sent(s: State, a: Action): seq<Option<LoopError>> {
    match a
    case ByWriter(WriterSends) => if s.writer.WriterReports? then [s.writer.error] else []
    case ByKeepaliver(KeepaliveSends) => if s.keepaliver.KeepaliveReports? then [s.keepaliver.error] else []
    case ByReceiver(ReceiverSends) => if s.down.receiver.ReceiverReports? then [s.down.receiver.error] else []
    case _ => []
  }

  function SentBefore(trace: seq<State>, actions: seq<Action>, n: nat): seq<Option<LoopError>>
    requires n <= |actions| && n < |trace|
  {
    if n == 0 then [] else SentBefore(trace, actions, n - 1) + Sent(trace[n - 1], actions[n - 1])
  }

  /** Step j sends e, and no earlier step sends anything. */
  ghost predicate SendsFirst(trace: seq<State>, actions: seq<Action>, j: nat, e: Option<LoopError>)
    requires j < |actions| && j < |trace|
  {
    Sent(trace[j], actions[j]) == [e] && forall m: nat | m < j :: Sent(trace[m], actions[m]) == []
  }

  lemma {:induction false} NothingSent(trace: seq<State>, actions: seq<Action>, n: nat)
    requires n <= |actions| && n < |trace| && SentBefore(trace, actions, n) == []
    ensures forall m: nat | m < n :: Sent(trace[m], actions[m]) == []
  {
    if n > 0 {
      NoneOfBoth(SentBefore(trace, actions, n - 1), Sent(trace[n - 1], actions[n - 1]));
      NothingSent(trace, actions, n - 1);
    }
  }

  lemma NoneOfBoth<T>(a: seq<T>, b: seq<T>)
    requires a + b == []
    ensures a == [] && b == []
  {
    assert |a + b| == |a| + |b|;
    assert |a| == 0 && |b| == 0;
  }

  lemma AtMostOneSent(s: State, a: Action)
    ensures |Sent(s, a)| <= 1
  {
  }

  lemma SendsFirstHere(trace: seq<State>, actions: seq<Action>, n: nat)
    requires n < |actions| && n + 1 < |trace|
    requires SentBefore(trace, actions, n) == [] && Sent(trace[n], actions[n]) != []
    ensures SendsFirst(trace, actions, n, Sent(trace[n], actions[n])[0])
  {
    NothingSent(trace, actions, n);
    AtMostOneSent(trace[n], actions[n]);
  }

  lemma {:induction false} FirstSent(trace: seq<State>, actions: seq<Action>, n: nat)
    requires n <= |actions| && n < |trace| && SentBefore(trace, actions, n) != []
    ensures exists j: nat | j < n :: SendsFirst(trace, actions, j, SentBefore(trace, actions, n)[0])
  {
    var before, here := SentBefore(trace, actions, n - 1), Sent(trace[n - 1], actions[n - 1]);
    assert SentBefore(trace, actions, n) == before + here;
    if before != [] {
      FirstSent(trace, actions, n - 1);
      assert (before + here)[0] == before[0];
    } else {
      assert before + here == here;
      SendsFirstHere(trace, actions, n - 1);
    }
  }

  /** Step k makes the caller return e. */
  ghost predicate Decides(trace: seq<State>, actions: seq<Action>, k: nat, e: Option<LoopError>)
    requires k < |actions| && k < |trace|
  {
    match actions[k]
    case ByCaller(TakeError) => exists j: nat | j < k :: SendsFirst(trace, actions, j, e)
    case ByCaller(TakeTunError) => e == Some(TunReadFailed)
    case ByCaller(SeeDone) => e == Some(Cancelled)
    case ByCaller(StartSession(connected)) => !connected && e == Some(NotConnected)
    case _ => false
  }

  ghost predicate FirstErrorInv(trace: seq<State>, actions: seq<Action>, n: nat)
    requires n <= |actions| && n < |trace|
  {
    var c := trace[n].control;
    && (!Decided(c.main) ==> c.errCh == SentBefore(trace, actions, n))
    && (Decided(c.main) ==> exists k: nat | k < n :: Decides(trace, actions, k, c.main.error))
  }

  lemma WorkerSends(s: State, a: Action)
    requires Enabled(s, a) && (a.ByWriter? || a.ByKeepaliver? || a.ByReceiver?)
    ensures Apply(s, a).control.errCh == s.control.errCh + Sent(s, a)
  {
    assert s.control.errCh + [] == s.control.errCh;
    match a {
      case ByWriter(_) =>
      case ByKeepaliver(_) =>
      case ByReceiver(_) =>
    }
  }

  lemma UndecidedSends(s: State, a: Action)
    requires Enabled(s, a) && !Decided(Apply(s, a).control.main)
    ensures !Decided(s.control.main)
    ensures Apply(s, a).control.errCh == s.control.errCh + Sent(s, a)
  {
    match a {
      case ByEnvironment(_) => assert s.control.errCh + [] == s.control.errCh;
      case ByTunReader(_) => assert s.control.errCh + [] == s.control.errCh;
      case ByCaller(_) => assert s.control.errCh + [] == s.control.errCh;
      case _ => WorkerSends(s, a);
    }
  }

  lemma StaysDecided(s: State, a: Action)
    requires Enabled(s, a) && Decided(s.control.main)
    ensures Decided(Apply(s, a).control.main) && Apply(s, a).control.main.error == s.control.main.error
  {
    match a {
      case ByCaller(_) =>
      case _ => assert Apply(s, a).control.main == s.control.main;
    }
  }

  lemma Decision(trace: seq<State>, actions: seq<Action>, n: nat)
    requires Run(trace, actions) && n < |actions| && FirstErrorInv(trace, actions, n) && PhaseInv(trace[n])
    requires !Decided(trace[n].control.main) && Decided(trace[n + 1].control.main)
    ensures Decides(trace, actions, n, trace[n + 1].control.main.error)
  {
    assert trace[n + 1] == Apply(trace[n], actions[n]);
    if actions[n] == ByCaller(TakeError) {
      FirstSent(trace, actions, n);
    }
  }

  lemma {:induction false} RunDecides(trace: seq<State>, actions: seq<Action>, n: nat)
    requires Run(trace, actions) && n < |trace|
    ensures FirstErrorInv(trace, actions, n)
  {
    if n > 0 {
      RunDecides(trace, actions, n - 1);
      assert trace[n] == Apply(trace[n - 1], actions[n - 1]);
      if !Decided(trace[n].control.main) {
        UndecidedSends(trace[n - 1], actions[n - 1]);
      } else if Decided(trace[n - 1].control.main) {
        StaysDecided(trace[n - 1], actions[n - 1]);
        var k: nat :| k < n - 1 && Decides(trace, actions, k, trace[n - 1].control.main.error);
        assert Decides(trace, actions, k, trace[n].control.main.error);
      } else {
        RunKeepsPhase(trace, actions, n - 1);
        Decision(trace, actions, n - 1);
      }
    }
  }

  /** RunDataLoop returns the first error any goroutine sent, if it took one from errCh; the failure of the
      TUN reader, if it took that; the cancellation, if it saw it; or that there is no connection. */
  lemma ReturnsFirstError(trace: seq<State>, actions: seq<Action>, i: nat)
    requires Run(trace, actions) && i < |trace| && trace[i].control.main.LoopReturned?
    ensures exists k: nat | k < i :: Decides(trace, actions, k, trace[i].control.main.error)
  {
    RunDecides(trace, actions, i);
  }

  // ----- What is on the wire -----

  /** The frame this step puts on the wire whole. */
  function WholeFrame(s: State, a: Action): seq<Frame> {
    match a
    case ByWriter(WriterWrites) => if s.writer.Writing? then [Data(s.writer.data)] else []
    case ByKeepaliver(KeepaliveWrites) => [Keepalive]
    case _ => []
  }

  function FramesBefore(trace: seq<State>, actions: seq<Action>, n: nat): seq<Frame>
    requires n <= |actions| && n < |trace|
  {
    if n == 0 then [] else FramesBefore(trace, actions, n - 1) + WholeFrame(trace[n - 1], actions[n - 1])
  }

  lemma StepWrites(s: State, a: Action)
    requires Enabled(s, a)
    ensures Apply(s, a).conn.frames == s.conn.frames + WholeFrame(s, a)
  {
    assert s.conn.frames + [] == s.conn.frames;
    match a {
      case ByWriter(_) =>
      case ByKeepaliver(_) =>
      case _ =>
    }
  }

  /** While no Write has failed, the wire is exactly the frames of the writes so far, data and keepalives
      in the order of the steps. */
  lemma {:induction false} WireIsWrites(trace: seq<State>, actions: seq<Action>, n: nat)
    requires Run(trace, actions) && n < |trace|
    ensures trace[n].conn.frames == FramesBefore(trace, actions, n)
    ensures trace[n].conn.torn == None ==> trace[n].conn.wire == Wire(FramesBefore(trace, actions, n))
  {
    if n > 0 {
      WireIsWrites(trace, actions, n - 1);
      assert trace[n] == Apply(trace[n - 1], actions[n - 1]);
      StepWrites(trace[n - 1], actions[n - 1]);
    }
    UntornWire(trace, actions, n);
  }

  lemma UntornWire(trace: seq<State>, actions: seq<Action>, n: nat)
    requires Run(trace, actions) && n < |trace|
    ensures trace[n].conn.torn == None ==> trace[n].conn.wire == Wire(trace[n].conn.frames)
  {
    RunKeepsInv(trace, actions, n);
    assert Wire(trace[n].conn.frames) + [] == Wire(trace[n].conn.frames);
  }
}
