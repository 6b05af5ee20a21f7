/**
 * The frame format as the program executes it: headers written field by field into a buffer, packets
 * read with io.ReadFull from a connection that hands its bytes over in arbitrary pieces, and the
 * receive loop on top.
 */
module FramingIO {
  import opened Bytes
  import opened Framing
  import opened LoopErrors

  // ----- Writing frames -----

  /** Stores s in buf at offset at. */
  ghost predicate Overwritten(before: bytes, after: bytes, at: nat, s: bytes)
    requires at + |s| <= |before|
  {
    after == before[..at] + s + before[at + |s|..]
  }

  method PutUint16BigEndian(buf: array<byte>, at: nat, v: int)
    requires at + 2 <= buf.Length && 0 <= v < 0x1_0000
    modifies buf
    ensures Overwritten(old(buf[..]), buf[..], at, Be16(v))
  {
    buf[at] := v / 256;
    buf[at + 1] := v % 256;
  }

  method PutUint32BigEndian(buf: array<byte>, at: nat, v: int)
    requires at + 4 <= buf.Length && 0 <= v < 0x1_0000_0000
    modifies buf
    ensures Overwritten(old(buf[..]), buf[..], at, Be32(v))
  {
    PutUint16BigEndian(buf, at, v / 0x1_0000);
    PutUint16BigEndian(buf, at + 2, v % 0x1_0000);
  }

  method PutUint32LittleEndian(buf: array<byte>, at: nat, v: int)
    requires at + 4 <= buf.Length && 0 <= v < 0x1_0000_0000
    modifies buf
    ensures Overwritten(old(buf[..]), buf[..], at, Le32(v))
  {
    buf[at] := v % 256;
    buf[at + 1] := v / 256 % 256;
    buf[at + 2] := v / 0x1_0000 % 256;
    buf[at + 3] := v / 0x100_0000;
  }

  method PutDataHeader(pkt: array<byte>, etherType: int, length: int)
    requires pkt.Length >= HEADER_SIZE && 0 <= etherType < 0x1_0000 && 0 <= length < 0x1_0000
    modifies pkt
    ensures pkt[..HEADER_SIZE] == HeaderBytes(etherType, length, DATA_FLAGS)
  {
    PutUint32BigEndian(pkt, 0, MAGIC);
    PutUint16BigEndian(pkt, 4, etherType);
    PutUint16BigEndian(pkt, 6, length);
    PutUint32LittleEndian(pkt, 8, 1);
    PutUint32LittleEndian(pkt, 12, 0);
  }

  method EncodePacket(payload: bytes) returns (pkt: array<byte>)
    ensures fresh(pkt)
    ensures pkt[..] == FrameBytes(Data(payload))
    ensures pkt[..4] == [0x1a, 0x2b, 0x3c, 0x4d]
    ensures pkt[4..6] == if SaysIpv6(payload) then [0x86, 0xDD] else [0x08, 0x00]
    ensures pkt[6..8] == [|payload| / 256 % 256, |payload| % 256]
    ensures pkt[8..16] == [1, 0, 0, 0, 0, 0, 0, 0]
    ensures pkt[16..] == payload
  {
    FrameLayout(payload);
    var etherType := ETHER_TYPE_IPV4;
    if |payload| > 0 && payload[0] / 16 == 6 {
      etherType := ETHER_TYPE_IPV6;
    }
    pkt := new byte[HEADER_SIZE + |payload|](_ => 0);
    PutDataHeader(pkt, etherType, |payload| % 0x1_0000);
    ghost var header := pkt[..HEADER_SIZE];
    for i := 0 to |payload|
      invariant pkt[..HEADER_SIZE + i] == header + payload[..i]
    {
      pkt[HEADER_SIZE + i] := payload[i];
      assert pkt[..HEADER_SIZE + i + 1] == pkt[..HEADER_SIZE + i] + [payload[i]];
    }
    assert payload[..|payload|] == payload;
    assert pkt[..] == pkt[..HEADER_SIZE + |payload|];
  }

  method EncodeKeepalive() returns (pkt: array<byte>)
    ensures fresh(pkt)
    ensures pkt[..] == FrameBytes(Keepalive)
    ensures pkt[..] == [0x1a, 0x2b, 0x3c, 0x4d, 0, 0, 0, 0, 0, 0, 0, 0, 0, 0, 0, 0]
  {
    KeepaliveLayout();
    pkt := new byte[HEADER_SIZE](_ => 0);
    PutUint32BigEndian(pkt, 0, MAGIC);
  }

  // ----- Reading frames -----

  /**
   * An io.Reader over a finite stream. Each Read hands over at most one chunk, so the chunks are an
   * arbitrary fragmentation of the stream; empty chunks are reads of no bytes. When eager, the call
   * that takes the last bytes already reports the end.
   */
  class Reader {
    var chunks: seq<bytes>
    const end: StreamEnd
    const eager: bool

    constructor (chunks: seq<bytes>, end: StreamEnd, eager: bool)
      ensures this.chunks == chunks && this.end == end && this.eager == eager
    {
      this.chunks := chunks;
      this.end := end;
      this.eager := eager;
    }

    ghost function Stream(): bytes
      reads this
    {
      Flatten(chunks)
    }

    /** Fills a part of buf[from..] and says whether the end was reported. */
    method Read(buf: array<byte>, from: nat) returns (n: nat, ended: bool)
      requires from < buf.Length
      modifies this, buf
      ensures from + n <= buf.Length && n <= |old(Stream())|
      ensures buf[..from + n] == old(buf[..from]) + old(Stream())[..n]
      ensures Stream() == old(Stream())[n..]
      ensures ended ==> Stream() == []
      ensures !ended ==>
                || |chunks| < |old(chunks)|
                || (|chunks| == |old(chunks)| && n == buf.Length - from)
    {
      if chunks == [] {
        return 0, true;
      }
      var chunk := chunks[0];
      n := if |chunk| <= buf.Length - from then |chunk| else buf.Length - from;
      for i := 0 to n
        invariant buf[..from + i] == old(buf[..from]) + chunk[..i]
        invariant chunks == old(chunks)
      {
        buf[from + i] := chunk[i];
        assert buf[..from + i + 1] == buf[..from + i] + [chunk[i]];
        assert chunk[..i + 1] == chunk[..i] + [chunk[i]];
      }
      ghost var stream := Stream();
      assert chunk[..n] == stream[..n];
      if n == |chunk| {
        chunks := chunks[1..];
        ended := eager && chunks == [];
      } else {
        chunks := [chunk[n..]] + chunks[1..];
        ended := false;
      }
      assert Stream() == stream[n..];
    }
  }

  /** io.ReadFull: fills buf or reports why the stream ended too early. */
  method ReadFull(r: Reader, buf: array<byte>) returns (cause: Option<Cause>)
    requires buf.Length > 0
    modifies r, buf
    ensures buf.Length <= |old(r.Stream())| ==>
              && cause == None
              && buf[..] == old(r.Stream())[..buf.Length]
              && r.Stream() == old(r.Stream())[buf.Length..]
    ensures buf.Length > |old(r.Stream())| ==>
              && cause == Some(ShortReadCause(|old(r.Stream())|, r.end))
              && r.Stream() == []
  {
    var n, ended := 0, false;
    ghost var stream := r.Stream();
    while n < buf.Length && !ended
      invariant 0 <= n <= buf.Length
      invariant stream == buf[..n] + r.Stream()
      invariant ended ==> r.Stream() == []
      decreases !ended, |r.chunks| + buf.Length - n
    {
      var m;
      ghost var head, rest := buf[..n], r.Stream();
      m, ended := r.Read(buf, n);
      SplitRest(head, rest, m);
      n := n + m;
    }
    SplitStream(buf[..n], r.Stream());
    if n >= buf.Length {
      assert buf[..n] == buf[..];
      return None;
    } else if n > 0 && r.end == AtEof {
      return Some(UnexpectedEof);
    } else {
      return Some(if r.end.AtEof? then Eof else ReadFailure);
    }
  }

  lemma SplitStream(head: bytes, rest: bytes)
    ensures (head + rest)[..|head|] == head && (head + rest)[|head|..] == rest
  {
  }

  lemma SplitRest(head: bytes, rest: bytes, m: nat)
    requires m <= |rest|
    ensures head + rest == (head + rest[..m]) + rest[m..]
  {
  }

  lemma FieldsOfPrefix(stream: bytes)
    requires |stream| >= 16
    ensures stream[..16][0..4] == stream[0..4]
    ensures stream[..16][4..6] == stream[4..6] && stream[..16][6..8] == stream[6..8]
  {
  }

  /** However the stream is fragmented, ReadPacket returns what Parse says about its bytes and leaves
      the bytes Parse leaves. */
  method ReadPacket(r: Reader) returns (result: ReadResult)
    modifies r
    ensures Parsed(result, r.Stream()) == Parse(old(r.Stream()), r.end)
  {
    ghost var stream := r.Stream();
    var header := new byte[HEADER_SIZE](_ => 0);
    var cause := ReadFull(r, header);
    if cause.Some? {
      return Failed(HeaderError(cause.value));
    }
    var hdr := header[..];
    FieldsOfPrefix(stream);
    var magic := Be32Value(hdr[0..4]);
    if magic != MAGIC {
      return Failed(BadMagic);
    }
    var etherType := Be16Value(hdr[4..6]);
    var length := Be16Value(hdr[6..8]);
    if length == 0 {
      return Received(Packet(etherType, []));
    }
    var payload := new byte[length](_ => 0);
    cause := ReadFull(r, payload);
    if cause.Some? {
      return Failed(PayloadError(cause.value));
    }
    return Received(Packet(etherType, payload[..]));
  }

  // ----- The receive loop -----

  /** The device end of the receive loop. It accepts the next `accepts` packets and then fails. */
  class TunSink {
    var offered: seq<bytes>
    var accepts: nat

    method Write(payload: bytes) returns (ok: bool)
      modifies this
      ensures offered == old(offered) + [payload]
      ensures ok == (old(accepts) > 0)
      ensures accepts == if ok then old(accepts) - 1 else old(accepts)
    {
      offered := offered + [payload];
      ok := accepts > 0;
      if ok {
        accepts := accepts - 1;
      }
    }
  }

  class TunnelStats {
    var bytesSent: nat
    var packetsSent: nat
    var bytesReceived: nat
    var packetsReceived: nat
  }

  datatype LoopOutcome = LoopOutcome(offered: seq<bytes>, error: LoopError)

  /** The receive loop when the device has been offered some packets, and these packets and then this
      error are still to come: rounds iterations until the context is seen cancelled, accepts packets
      until the device fails, and late says whether a failed read finds the context cancelled. */
  function Receive(offered: seq<bytes>, coming: Decoding, rounds: nat, accepts: nat, late: bool): LoopOutcome
    decreases rounds
  {
    if rounds == 0 then LoopOutcome(offered, Cancelled)
    else if coming.packets == [] then
      LoopOutcome(offered, if late then Cancelled else ReadingFailed(coming.error))
    else
      var p, rest := coming.packets[0], Decoding(coming.packets[1..], coming.error);
      if !Deliverable(p) then Receive(offered, rest, rounds - 1, accepts, late)
      else if accepts == 0 then LoopOutcome(offered + [p.payload], TunWriteFailed)
      else Receive(offered + [p.payload], rest, rounds - 1, accepts - 1, late)
  }

  lemma {:induction false} ReceiveOne(offered: seq<bytes>, coming: Decoding, rounds: nat, accepts: nat, late: bool)
    requires rounds > 0
    ensures coming.packets == [] ==>
              Receive(offered, coming, rounds, accepts, late)
              == LoopOutcome(offered, if late then Cancelled else ReadingFailed(coming.error))
    ensures coming.packets != [] ==>
            var p, rest := coming.packets[0], Decoding(coming.packets[1..], coming.error);
            var all := Receive(offered, coming, rounds, accepts, late);
            if p.payload == [] || (p.etherType != 0x0800 && p.etherType != 0x86DD) then
              all == Receive(offered, rest, rounds - 1, accepts, late)
            else if accepts == 0 then all == LoopOutcome(offered + [p.payload], TunWriteFailed)
            else all == Receive(offered + [p.payload], rest, rounds - 1, accepts - 1, late)
  {
  }

  /** ReadPacket in terms of everything the connection still has to say. */
  method ReadNext(conn: Reader) returns (result: ReadResult)
    modifies conn
    ensures result != Failed(BareEof)
    ensures var coming := ParseAll(old(conn.Stream()), conn.end);
            match result
            case Failed(e) => coming == Decoding([], e)
            case Received(p) =>
              && |coming.packets| > 0 && coming.packets[0] == p
              && ParseAll(conn.Stream(), conn.end) == Decoding(coming.packets[1..], coming.error)
  {
    ParseNeverBareEof(conn.Stream(), conn.end);
    result := ReadPacket(conn);
  }

  /** The counters keep pace with what the device has been offered since a state with these counters. */
  ghost predicate InStep(stats: TunnelStats, sink: TunSink, packets: nat, total: nat, offered: seq<bytes>)
    reads stats`packetsReceived, stats`bytesReceived, sink
  {
    && stats.packetsReceived - packets == |sink.offered| - |offered|
    && stats.bytesReceived - total == TotalLength(sink.offered) - TotalLength(offered)
  }

  /** The switch of readLoop: what one packet does to the device and the counters. */
  method Dispatch(packet: Packet, sink: TunSink, stats: TunnelStats) returns (ok: bool)
    modifies sink, stats`packetsReceived, stats`bytesReceived
    ensures if packet.payload == [] || (packet.etherType != 0x0800 && packet.etherType != 0x86DD) then
              ok && sink.offered == old(sink.offered) && sink.accepts == old(sink.accepts)
            else
              && ok == (old(sink.accepts) > 0)
              && sink.offered == old(sink.offered) + [packet.payload]
              && (ok ==> sink.accepts == old(sink.accepts) - 1)
    ensures InStep(stats, sink, old(stats.packetsReceived), old(stats.bytesReceived), old(sink.offered))
  {
    ok := true;
    if packet.etherType == ETHER_TYPE_KEEPALIVE {
      return;
    } else if packet.etherType == ETHER_TYPE_IPV4 || packet.etherType == ETHER_TYPE_IPV6 {
      if |packet.payload| == 0 {
        return;
      }
      stats.bytesReceived := stats.bytesReceived + |packet.payload|;
      stats.packetsReceived := stats.packetsReceived + 1;
      TotalLengthSnoc(sink.offered, packet.payload);
      ok := sink.Write(packet.payload);
    }
  }

  /** One iteration of readLoop: the error, if it is the last one, and otherwise what is still to come. */
  method ReadOnce(conn: Reader, sink: TunSink, stats: TunnelStats, ghost rounds: nat, cancelledLate: bool)
    returns (stop: Option<LoopError>)
    requires rounds > 0
    modifies conn, sink, stats`packetsReceived, stats`bytesReceived
    ensures InStep(stats, sink, old(stats.packetsReceived), old(stats.bytesReceived), old(sink.offered))
    ensures stop != Some(ClosedByServer)
    ensures Receive(old(sink.offered), ParseAll(old(conn.Stream()), conn.end), rounds, old(sink.accepts), cancelledLate)
         == if stop.Some? then LoopOutcome(sink.offered, stop.value)
            else Receive(sink.offered, ParseAll(conn.Stream(), conn.end), rounds - 1, sink.accepts, cancelledLate)
  {
    ReceiveOne(sink.offered, ParseAll(conn.Stream(), conn.end), rounds, sink.accepts, cancelledLate);
    var result := ReadNext(conn);
    if result.Failed? {
      if cancelledLate {
        return Some(Cancelled);
      } else if result.error == BareEof {
        return Some(ClosedByServer);
      }
      return Some(ReadingFailed(result.error));
    }
    var ok := Dispatch(result.packet, sink, stats);
    return if ok then None else Some(TunWriteFailed);
  }

  /**
   * readLoop. The context is seen cancelled at the check after `rounds` iterations; cancelledLate says
   * whether it is found cancelled when a read fails.
   */
  method ReadLoop(conn: Reader, sink: TunSink, stats: TunnelStats, rounds: nat, cancelledLate: bool)
    returns (error: LoopError)
    modifies conn, sink, stats`packetsReceived, stats`bytesReceived
    ensures LoopOutcome(sink.offered, error)
         == Receive(old(sink.offered), ParseAll(old(conn.Stream()), conn.end), rounds, old(sink.accepts), cancelledLate)
    ensures error != ClosedByServer
    ensures InStep(stats, sink, old(stats.packetsReceived), old(stats.bytesReceived), old(sink.offered))
  {
    ghost var all := Receive(sink.offered, ParseAll(conn.Stream(), conn.end), rounds, sink.accepts, cancelledLate);
    var left := rounds;
    while left > 0
      invariant all == Receive(sink.offered, ParseAll(conn.Stream(), conn.end), left, sink.accepts, cancelledLate)
      invariant InStep(stats, sink, old(stats.packetsReceived), old(stats.bytesReceived), old(sink.offered))
      decreases left
    {
      var stop := ReadOnce(conn, sink, stats, left, cancelledLate);
      if stop.Some? {
        return stop.value;
      }
      left := left - 1;
    }
    return Cancelled;
  }

  // ----- What the receive loop delivers -----

  /** How many of these packets the loop reads before it stops. */
  function PacketsRead(packets: seq<Packet>, rounds: nat, accepts: nat): (n: nat)
    ensures n <= |packets|
  {
    if packets == [] || rounds == 0 then 0
    else if !Deliverable(packets[0]) then 1 + PacketsRead(packets[1..], rounds - 1, accepts)
    else if accepts == 0 then 1
    else 1 + PacketsRead(packets[1..], rounds - 1, accepts - 1)
  }

  lemma {:induction false} PayloadsCons(p: Packet, packets: seq<Packet>)
    ensures Payloads([p] + packets) == (if Deliverable(p) then [p.payload] else []) + Payloads(packets)
    ensures Deliverable(p) <==> p.payload != [] && (p.etherType == 0x0800 || p.etherType == 0x86DD)
  {
    if packets == [] {
      assert [p] + packets == [] + [p];
      PayloadsSnoc([], p);
    } else {
      var front, last := packets[..|packets| - 1], packets[|packets| - 1];
      PayloadsCons(p, front);
      assert [p] + packets == ([p] + front) + [last];
      PayloadsSnoc([p] + front, last);
    }
  }

  /** The loop's outcome in terms of the packets it reads: it offers their nonempty IPv4 and IPv6
      payloads, and ends with a device error when these are more than the device accepts, with a
      cancellation when it ran out of rounds, and otherwise with the error that ends the stream. */
  function Outcome(offered: seq<bytes>, coming: Decoding, rounds: nat, accepts: nat, late: bool): LoopOutcome {
    var n := PacketsRead(coming.packets, rounds, accepts);
    var payloads := Payloads(coming.packets[..n]);
    LoopOutcome(offered + payloads,
                if |payloads| > accepts then TunWriteFailed
                else if n == rounds || late then Cancelled
                else ReadingFailed(coming.error))
  }

  /** The device is offered exactly the nonempty IPv4 and IPv6 payloads of the packets read, in order;
      keepalive and unknown frames do not disturb it. */
  lemma {:induction false} ReceiveDelivers(offered: seq<bytes>, coming: Decoding, rounds: nat, accepts: nat, late: bool)
    ensures Receive(offered, coming, rounds, accepts, late) == Outcome(offered, coming, rounds, accepts, late)
    decreases rounds
  {
    if rounds == 0 || coming.packets == [] {
      assert coming.packets[..0] == [] && offered + [] == offered;
    } else {
      var p, rest := coming.packets[0], Decoding(coming.packets[1..], coming.error);
      if !Deliverable(p) {
        ReceiveDelivers(offered, rest, rounds - 1, accepts, late);
        OutcomeSkips(offered, coming, rounds, accepts, late);
      } else if accepts == 0 {
        OutcomeFails(offered, coming, rounds, late);
      } else {
        ReceiveDelivers(offered + [p.payload], rest, rounds - 1, accepts - 1, late);
        OutcomeOffers(offered, coming, rounds, accepts, late);
      }
    }
  }

  /** The loop stops at the first of these: all packets are read, the rounds are over, or the device has
      been offered more than it accepts. */
  lemma {:induction false} PacketsReadIsFirst(packets: seq<Packet>, rounds: nat, accepts: nat)
    ensures var n := PacketsRead(packets, rounds, accepts);
            && n <= rounds
            && (n == |packets| || n == rounds || |Payloads(packets[..n])| > accepts)
            && forall m: nat | m < n :: |Payloads(packets[..m])| <= accepts
    decreases rounds
  {
    if packets != [] && rounds > 0 {
      var p, rest := packets[0], packets[1..];
      if Deliverable(p) && accepts == 0 {
        PrefixPayloads(packets, 0);
        assert packets[..0] == [];
      } else {
        var accepts' := if Deliverable(p) then accepts - 1 else accepts;
        var n := PacketsRead(rest, rounds - 1, accepts');
        PacketsReadIsFirst(rest, rounds - 1, accepts');
        PrefixPayloads(packets, n);
        forall m: nat | m < n + 1 ensures |Payloads(packets[..m])| <= accepts {
          if m == 0 {
            assert packets[..0] == [];
          } else {
            PrefixPayloads(packets, m - 1);
          }
        }
      }
    }
  }

  /** What readLoop does, with nothing left to a specification of its own: it reads some first packets,
      stopping as soon as all are read, the rounds are over or the device has failed; the device is
      offered exactly their nonempty IPv4 and IPv6 payloads, in order; and the error is that of the
      device, else a cancellation, else what ends the stream. */
  lemma ReceiveStops(offered: seq<bytes>, coming: Decoding, rounds: nat, accepts: nat, late: bool) returns (n: nat)
    ensures n <= |coming.packets| && n <= rounds
    ensures forall m: nat | m < n :: |Payloads(coming.packets[..m])| <= accepts
    ensures var r, payloads := Receive(offered, coming, rounds, accepts, late), Payloads(coming.packets[..n]);
            && r.offered == offered + payloads
            && (|payloads| > accepts ==> r.error == TunWriteFailed)
            && (|payloads| <= accepts ==> n == |coming.packets| || n == rounds)
            && (|payloads| <= accepts && (n == rounds || late) ==> r.error == Cancelled)
            && (|payloads| <= accepts && n < rounds && !late ==> r.error == ReadingFailed(coming.error))
  {
    ReceiveDelivers(offered, coming, rounds, accepts, late);
    PacketsReadIsFirst(coming.packets, rounds, accepts);
    n := PacketsRead(coming.packets, rounds, accepts);
  }

  lemma {:induction false} OutcomeSkips(offered: seq<bytes>, coming: Decoding, rounds: nat, accepts: nat, late: bool)
    requires rounds > 0 && coming.packets != [] && !Deliverable(coming.packets[0])
    ensures Outcome(offered, coming, rounds, accepts, late)
         == Outcome(offered, Decoding(coming.packets[1..], coming.error), rounds - 1, accepts, late)
  {
    PrefixPayloads(coming.packets, PacketsRead(coming.packets[1..], rounds - 1, accepts));
  }

  lemma {:induction false} OutcomeFails(offered: seq<bytes>, coming: Decoding, rounds: nat, late: bool)
    requires rounds > 0 && coming.packets != [] && Deliverable(coming.packets[0])
    ensures Outcome(offered, coming, rounds, 0, late)
         == LoopOutcome(offered + [coming.packets[0].payload], TunWriteFailed)
  {
    PrefixPayloads(coming.packets, 0);
  }

  lemma {:induction false} OutcomeOffers(offered: seq<bytes>, coming: Decoding, rounds: nat, accepts: nat, late: bool)
    requires rounds > 0 && accepts > 0 && coming.packets != [] && Deliverable(coming.packets[0])
    ensures Outcome(offered, coming, rounds, accepts, late)
         == Outcome(offered + [coming.packets[0].payload], Decoding(coming.packets[1..], coming.error),
                    rounds - 1, accepts - 1, late)
  {
    AddedPayload(offered, coming.packets, PacketsRead(coming.packets[1..], rounds - 1, accepts - 1));
  }

  lemma PrefixPayloads(packets: seq<Packet>, n: nat)
    requires n < |packets|
    ensures Payloads(packets[..n + 1])
         == (if Deliverable(packets[0]) then [packets[0].payload] else []) + Payloads(packets[1..][..n])
  {
    assert packets[..n + 1] == [packets[0]] + packets[1..][..n];
    PayloadsCons(packets[0], packets[1..][..n]);
  }

  lemma AddedPayload(offered: seq<bytes>, packets: seq<Packet>, n: nat)
    requires n < |packets| && Deliverable(packets[0])
    ensures offered + Payloads(packets[..n + 1])
         == offered + [packets[0].payload] + Payloads(packets[1..][..n])
    ensures |Payloads(packets[..n + 1])| == 1 + |Payloads(packets[1..][..n])|
  {
    PrefixPayloads(packets, n);
  }

  // ----- The send loop -----

  /** The connection as a byte sink. It takes the next `accepts` writes whole; the one after them fails
      when `kept` bytes of it have been transmitted. */
  class Writer {
    var wire: bytes
    var accepts: nat
    const kept: nat

    method Write(pkt: array<byte>) returns (ok: bool)
      modifies this
      ensures ok == (old(accepts) > 0)
      ensures ok ==> wire == old(wire) + pkt[..] && accepts == old(accepts) - 1
      ensures !ok ==> wire == old(wire) + Kept(pkt[..], kept)
    {
      ok := accepts > 0;
      if ok {
        wire := wire + pkt[..];
        accepts := accepts - 1;
      } else if kept <= pkt.Length {
        wire := wire + pkt[..kept];
      } else {
        wire := wire + pkt[..];
      }
    }
  }

  function Kept(s: bytes, n: nat): bytes {
    if n <= |s| then s[..n] else s
  }

  function NonEmptyOf(items: seq<bytes>): seq<bytes> {
    if items == [] then []
    else
      var last := items[|items| - 1];
      NonEmptyOf(items[..|items| - 1]) + if last != [] then [last] else []
  }

  function DataFrames(payloads: seq<bytes>): seq<Frame> {
    seq(|payloads|, i requires 0 <= i < |payloads| => Data(payloads[i]))
  }

  /** The counters have grown by these packets. */
  ghost predicate Counted(stats: TunnelStats, packets: nat, total: nat, items: seq<bytes>)
    reads stats`packetsSent, stats`bytesSent
  {
    stats.packetsSent == packets + |items| && stats.bytesSent == total + TotalLength(items)
  }

  datatype Transmission = Transmission(wire: bytes, counted: seq<bytes>, error: LoopError)

  /** Sending these packets over a connection that takes some writes and then fails: the frames taken are
      on the wire; the next one, if any, is torn, counted and reported. */
  function Transmit(packets: seq<bytes>, accepts: nat, kept: nat): Transmission {
    if |packets| <= accepts then
      Transmission(Wire(DataFrames(packets)), packets, Cancelled)
    else
      Transmission(Wire(DataFrames(packets[..accepts])) + Kept(FrameBytes(Data(packets[accepts])), kept),
                   packets[..accepts + 1], TunnelWriteFailed)
  }

  /** The write and the counters of one iteration of writeLoop. */
  method SendPacket(conn: Writer, data: bytes, stats: TunnelStats,
                    ghost packets: nat, ghost total: nat, ghost wire: bytes, ghost sent: seq<bytes>)
    returns (ok: bool)
    requires conn.wire == wire + Wire(DataFrames(sent)) && Counted(stats, packets, total, sent)
    modifies conn, stats`packetsSent, stats`bytesSent
    ensures ok == (old(conn.accepts) > 0)
    ensures ok ==> conn.wire == wire + Wire(DataFrames(sent + [data])) && conn.accepts == old(conn.accepts) - 1
    ensures !ok ==> conn.wire == wire + (Wire(DataFrames(sent)) + Kept(FrameBytes(Data(data)), conn.kept))
    ensures Counted(stats, packets, total, sent + [data])
  {
    TotalLengthSnoc(sent, data);
    stats.bytesSent := stats.bytesSent + |data|;
    stats.packetsSent := stats.packetsSent + 1;
    var pkt := EncodePacket(data);
    ok := conn.Write(pkt);
    WireOfSnoc(wire, sent, data);
    ConcatAssociates(wire, Wire(DataFrames(sent)), Kept(FrameBytes(Data(data)), conn.kept));
  }

  /** writeLoop on the packets it receives from tunOut before it sees the context cancelled. With room for
      all the nonempty ones they are on the wire and counted; otherwise those there was room for are, and
      the next one is torn, counted and reported. */
  method WriteLoop(conn: Writer, taken: seq<bytes>, stats: TunnelStats) returns (error: LoopError)
    modifies conn, stats`packetsSent, stats`bytesSent
    ensures var t := Transmit(NonEmptyOf(taken), old(conn.accepts), conn.kept);
            && error == t.error
            && conn.wire == old(conn.wire) + t.wire
            && Counted(stats, old(stats.packetsSent), old(stats.bytesSent), t.counted)
    ensures |NonEmptyOf(taken)| <= old(conn.accepts) ==>
              && error == Cancelled
              && stats.packetsSent == old(stats.packetsSent) + |NonEmptyOf(taken)|
              && stats.bytesSent == old(stats.bytesSent) + TotalLength(NonEmptyOf(taken))
    ensures |NonEmptyOf(taken)| > old(conn.accepts) ==>
              && error == TunnelWriteFailed
              && stats.packetsSent == old(stats.packetsSent) + old(conn.accepts) + 1
              && stats.bytesSent == old(stats.bytesSent) + TotalLength(NonEmptyOf(taken)[..old(conn.accepts) + 1])
  {
    ghost var sent: seq<bytes> := [];
    assert Wire(DataFrames(sent)) == [] && conn.wire + [] == conn.wire;
    for i := 0 to |taken|
      invariant sent == NonEmptyOf(taken[..i]) && |sent| + conn.accepts == old(conn.accepts)
      invariant conn.wire == old(conn.wire) + Wire(DataFrames(sent))
      invariant Counted(stats, old(stats.packetsSent), old(stats.bytesSent), sent)
    {
      var data := taken[i];
      NonEmptyPrefix(taken, i);
      if |data| == 0 {
        continue;
      }
      var ok := SendPacket(conn, data, stats, old(stats.packetsSent), old(stats.bytesSent), old(conn.wire), sent);
      if !ok {
        assert |sent| == old(conn.accepts);
        TransmitFails(NonEmptyOf(taken), sent, data, conn.kept);
        return TunnelWriteFailed;
      }
      sent := sent + [data];
    }
    assert taken[..|taken|] == taken && sent == NonEmptyOf(taken);
    TransmitCompletes(sent, old(conn.accepts), conn.kept);
    return Cancelled;
  }

  lemma TransmitCompletes(packets: seq<bytes>, accepts: nat, kept: nat)
    requires |packets| <= accepts
    ensures Transmit(packets, accepts, kept) == Transmission(Wire(DataFrames(packets)), packets, Cancelled)
  {
  }

  lemma TransmitFails(packets: seq<bytes>, sent: seq<bytes>, data: bytes, kept: nat)
    requires sent + [data] <= packets
    ensures Transmit(packets, |sent|, kept)
         == Transmission(Wire(DataFrames(sent)) + Kept(FrameBytes(Data(data)), kept), sent + [data], TunnelWriteFailed)
  {
    assert packets[..|sent|] == sent && packets[|sent|] == data;
  }

  /** The next item extends the nonempty items so far, which begin the nonempty items of all. */
  lemma NonEmptyPrefix(items: seq<bytes>, i: nat)
    requires i < |items|
    ensures NonEmptyOf(items[..i + 1]) == NonEmptyOf(items[..i]) + if items[i] != [] then [items[i]] else []
    ensures NonEmptyOf(items[..i + 1]) <= NonEmptyOf(items)
  {
    assert items[..i + 1][..i] == items[..i];
    NonEmptyGrows(items, i + 1);
  }

  /** Exactly the empty items are left out, and the order is kept. */
  lemma {:induction false} NonEmptyKeepsTheRest(items: seq<bytes>)
    ensures Subsequence(NonEmptyOf(items), items)
    ensures forall x :: multiset(NonEmptyOf(items))[x] == if x == [] then 0 else multiset(items)[x]
  {
    if items != [] {
      var front, last := items[..|items| - 1], items[|items| - 1];
      NonEmptyKeepsTheRest(front);
      assert items == front + [last];
      if last != [] {
        SubsequenceKeep(NonEmptyOf(front), front, last);
      } else {
        SubsequenceSkip(NonEmptyOf(front), front, last);
        assert NonEmptyOf(front) + [] == NonEmptyOf(front);
      }
    }
  }

  lemma {:induction false} NonEmptyGrows(items: seq<bytes>, n: nat)
    requires n <= |items|
    ensures NonEmptyOf(items[..n]) <= NonEmptyOf(items)
  {
    if n == |items| {
      assert items[..n] == items;
    } else {
      var front := items[..|items| - 1];
      NonEmptyGrows(front, n);
      assert front[..n] == items[..n];
    }
  }

  lemma WireOfSnoc(wire: bytes, payloads: seq<bytes>, payload: bytes)
    ensures wire + Wire(DataFrames(payloads + [payload])) == wire + Wire(DataFrames(payloads)) + FrameBytes(Data(payload))
  {
    assert DataFrames(payloads + [payload]) == DataFrames(payloads) + [Data(payload)];
    WireAppend(DataFrames(payloads), [Data(payload)]);
    WireOne(Data(payload));
    ConcatAssociates(wire, Wire(DataFrames(payloads)), FrameBytes(Data(payload)));
  }

  /** Packets that survive framing. */
  predicate Sendable(packets: seq<bytes>) {
    forall i | 0 <= i < |packets| :: packets[i] != [] && |packets[i]| <= MAX_PAYLOAD
  }

  lemma {:induction false} DataOfDataFrames(packets: seq<bytes>)
    requires Sendable(packets)
    ensures DataOf(DataFrames(packets)) == packets
    ensures forall f <- DataFrames(packets) :: Fits(f)
  {
    if packets != [] {
      var front, last := packets[..|packets| - 1], packets[|packets| - 1];
      assert packets == front + [last];
      DataOfDataFrames(front);
      assert DataFrames(packets) == DataFrames(front) + [Data(last)];
      DataOfSnoc(DataFrames(front), Data(last));
    }
  }

  lemma FramesDecode(packets: seq<bytes>, end: StreamEnd)
    requires Sendable(packets)
    ensures Payloads(ParseAll(Wire(DataFrames(packets)), end).packets) == packets
  {
    DataOfDataFrames(packets);
    WholeWireDecodes(DataFrames(packets), end);
    PayloadsOfFrames(DataFrames(packets));
  }

  lemma TornFrameDecodes(packets: seq<bytes>, next: bytes, kept: nat, end: StreamEnd)
    requires Sendable(packets + [next])
    ensures Payloads(ParseAll(Wire(DataFrames(packets)) + Kept(FrameBytes(Data(next)), kept), end).packets)
         == if kept >= |FrameBytes(Data(next))| then packets + [next] else packets
  {
    var torn, frames := Data(next), DataFrames(packets);
    var n := if kept <= |FrameBytes(torn)| then kept else |FrameBytes(torn)|;
    assert (packets + [next])[|packets|] == next;
    assert Sendable(packets) by {
      assert packets == (packets + [next])[..|packets|];
    }
    DataOfDataFrames(packets);
    assert FrameBytes(torn)[..|FrameBytes(torn)|] == FrameBytes(torn);
    TornDecodes(frames, torn, n, end);
    PayloadsOfFrames(frames);
    PayloadsOfFrames(frames + [torn]);
    DataOfSnoc(frames, torn);
  }

  /** How many of the packets reach the other end whole. */
  function WhollySent(packets: seq<bytes>, accepts: nat, kept: nat): (n: nat)
    ensures n <= |packets|
  {
    if |packets| <= accepts then |packets|
    else if kept >= |FrameBytes(Data(packets[accepts]))| then accepts + 1
    else accepts
  }

  /** What writeLoop transmits, ReadPacket recovers: exactly the packets wholly sent, in order. */
  lemma TransmitDecodes(packets: seq<bytes>, accepts: nat, kept: nat, end: StreamEnd)
    requires Sendable(packets)
    ensures Payloads(ParseAll(Transmit(packets, accepts, kept).wire, end).packets)
         == packets[..WhollySent(packets, accepts, kept)]
  {
    if |packets| <= accepts {
      FramesDecode(packets, end);
      assert packets[..|packets|] == packets;
    } else {
      var front := packets[..accepts];
      assert front + [packets[accepts]] == packets[..accepts + 1];
      TornFrameDecodes(front, packets[accepts], kept, end);
    }
  }
}
