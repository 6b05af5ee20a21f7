/**
 * The GPST frame format: what the encoder writes, what the reader accepts, and how the two relate on
 * a byte stream that may be cut anywhere.
 */
module Framing {
  import opened Bytes

  const HEADER_SIZE := 16
  const MAGIC := 0x1a2b3c4d
  const ETHER_TYPE_IPV4 := 0x0800
  const ETHER_TYPE_IPV6 := 0x86DD
  const ETHER_TYPE_KEEPALIVE := 0x0000

  /** The largest payload whose length fits the 16-bit length field. */
  const MAX_PAYLOAD := 65535

  // ----- Encoding -----

  function EtherTypeOf(payload: bytes): int {
    if |payload| > 0 && payload[0] / 16 == 6 then ETHER_TYPE_IPV6 else ETHER_TYPE_IPV4
  }

  function HeaderBytes(etherType: int, length: int, flags: bytes): (h: bytes)
    requires 0 <= etherType < 0x1_0000 && 0 <= length < 0x1_0000 && |flags| == 8
    ensures |h| == HEADER_SIZE
  {
    Be32(MAGIC) + Be16(etherType) + Be16(length) + flags
  }

  const DATA_FLAGS: bytes := Le32(1) + Le32(0)
  const NO_FLAGS: bytes := Le32(0) + Le32(0)

  /** The bytes of a data frame. As in the source, the length is truncated to 16 bits. */
  function Encoded(payload: bytes): bytes {
    HeaderBytes(EtherTypeOf(payload), |payload| % 0x1_0000, DATA_FLAGS) + payload
  }

  function EncodedKeepalive(): bytes {
    HeaderBytes(ETHER_TYPE_KEEPALIVE, 0, NO_FLAGS)
  }

  // ----- Reading one packet -----

  /** What the stream reports once its bytes are used up. */
  datatype StreamEnd = AtEof | Broken

  /** The error io.ReadFull reports when a stream ends early. */
  datatype Cause = Eof | UnexpectedEof | ReadFailure

  /** BareEof is io.EOF itself; the other read errors wrap their cause. */
  datatype ReadError = BareEof | HeaderError(cause: Cause) | BadMagic | PayloadError(cause: Cause)

  datatype Packet = Packet(etherType: int, payload: bytes)

  datatype ReadResult = Received(packet: Packet) | Failed(error: ReadError)

  /** A read result together with the bytes that are left on the stream. */
  datatype Parsed = Parsed(result: ReadResult, rest: bytes)

  /** io.ReadFull: no bytes and a clean end give EOF, some bytes and a clean end an unexpected EOF. */
  function ShortReadCause(got: nat, end: StreamEnd): Cause {
    if end.Broken? then ReadFailure else if got == 0 then Eof else UnexpectedEof
  }

  /** What ReadPacket returns on a stream with these bytes left. */
  function Parse(stream: bytes, end: StreamEnd): Parsed {
    if |stream| < HEADER_SIZE then
      Parsed(Failed(HeaderError(ShortReadCause(|stream|, end))), [])
    else if Be32Value(stream[0..4]) != MAGIC then
      Parsed(Failed(BadMagic), stream[HEADER_SIZE..])
    else
      var etherType, length := Be16Value(stream[4..6]), Be16Value(stream[6..8]);
      var body := stream[HEADER_SIZE..];
      if length == 0 then
        Parsed(Received(Packet(etherType, [])), body)
      else if |body| < length then
        Parsed(Failed(PayloadError(ShortReadCause(|body|, end))), [])
      else
        Parsed(Received(Packet(etherType, body[..length])), body[length..])
  }

  /** The stream bytes that denote packet p, with the eight bytes the reader ignores left open. */
  ghost predicate Denotes(stream: bytes, p: Packet, rest: bytes) {
    && 0 <= p.etherType < 0x1_0000
    && |p.payload| <= MAX_PAYLOAD
    && exists flags: bytes | |flags| == 8 ::
         stream == HeaderBytes(p.etherType, |p.payload|, flags) + p.payload + rest
  }

  lemma ParseAccepts(p: Packet, flags: bytes, rest: bytes, end: StreamEnd)
    requires 0 <= p.etherType < 0x1_0000 && |p.payload| <= MAX_PAYLOAD && |flags| == 8
    ensures Parse(HeaderBytes(p.etherType, |p.payload|, flags) + p.payload + rest, end)
         == Parsed(Received(p), rest)
  {
    var stream := HeaderBytes(p.etherType, |p.payload|, flags) + p.payload + rest;
    assert stream[0..4] == Be32(MAGIC);
    assert stream[4..6] == Be16(p.etherType);
    assert stream[6..8] == Be16(|p.payload|);
    Be32Injective(stream[0..4], MAGIC);
    Be16Injective(stream[4..6], p.etherType);
    Be16Injective(stream[6..8], |p.payload|);
    var body := stream[HEADER_SIZE..];
    assert body == p.payload + rest;
  }

  lemma ParseDenotes(stream: bytes, end: StreamEnd, p: Packet, rest: bytes)
    requires Parse(stream, end) == Parsed(Received(p), rest)
    ensures Denotes(stream, p, rest)
  {
    Be32Injective(stream[0..4], MAGIC);
    Be16Injective(stream[4..6], p.etherType);
    Be16Injective(stream[6..8], |p.payload|);
    var flags := stream[8..16];
    assert stream[..HEADER_SIZE] == HeaderBytes(p.etherType, |p.payload|, flags);
    assert stream == stream[..HEADER_SIZE] + p.payload + rest;
  }

  /** ReadPacket accepts a packet exactly when the stream starts with the frame that denotes it. */
  lemma ParseIffDenotes(stream: bytes, end: StreamEnd, p: Packet, rest: bytes)
    ensures Parse(stream, end) == Parsed(Received(p), rest) <==> Denotes(stream, p, rest)
  {
    if Denotes(stream, p, rest) {
      var flags: bytes :| |flags| == 8
        && stream == HeaderBytes(p.etherType, |p.payload|, flags) + p.payload + rest;
      ParseAccepts(p, flags, rest, end);
    }
    if Parse(stream, end) == Parsed(Received(p), rest) {
      ParseDenotes(stream, end, p, rest);
    }
  }

  /** Bytes that arrive later do not change a packet already complete on the stream. */
  lemma ParseStable(stream: bytes, end: StreamEnd, more: bytes, end': StreamEnd)
    requires Parse(stream, end).result.Received?
    ensures Parse(stream + more, end') == Parsed(Parse(stream, end).result, Parse(stream, end).rest + more)
  {
    var p, rest := Parse(stream, end).result.packet, Parse(stream, end).rest;
    ParseIffDenotes(stream, end, p, rest);
    var flags: bytes :| |flags| == 8
      && stream == HeaderBytes(p.etherType, |p.payload|, flags) + p.payload + rest;
    var header := HeaderBytes(p.etherType, |p.payload|, flags);
    assert stream + more == header + p.payload + (rest + more);
    ParseAccepts(p, flags, rest + more, end');
  }

  /** Every error of ReadPacket wraps its cause, so it is never equal to io.EOF. */
  lemma ParseNeverBareEof(stream: bytes, end: StreamEnd)
    ensures Parse(stream, end).result != Failed(BareEof)
  {
  }

  // ----- Frames and wires -----

  datatype Frame = Data(payload: bytes) | Keepalive

  function FrameBytes(f: Frame): (s: bytes)
    ensures |s| >= HEADER_SIZE
  {
    match f
    case Data(payload) => Encoded(payload)
    case Keepalive => EncodedKeepalive()
  }

  function Wire(frames: seq<Frame>): bytes {
    if frames == [] then [] else FrameBytes(frames[0]) + Wire(frames[1..])
  }

  predicate Fits(f: Frame) {
    f.Data? ==> |f.payload| <= MAX_PAYLOAD
  }

  /** What a reader should get for a frame. */
  function PacketOf(f: Frame): Packet {
    match f
    case Data(payload) => Packet(EtherTypeOf(payload), payload)
    case Keepalive => Packet(ETHER_TYPE_KEEPALIVE, [])
  }

  function PacketsOf(frames: seq<Frame>): seq<Packet> {
    seq(|frames|, i requires 0 <= i < |frames| => PacketOf(frames[i]))
  }

  lemma {:induction false} WireAppend(xs: seq<Frame>, ys: seq<Frame>)
    ensures Wire(xs + ys) == Wire(xs) + Wire(ys)
  {
    if xs == [] {
      assert xs + ys == ys;
    } else {
      TailOfConcat(xs, ys);
      WireAppend(xs[1..], ys);
      ConcatAssociates(FrameBytes(xs[0]), Wire(xs[1..]), Wire(ys));
    }
  }

  lemma WireOne(f: Frame)
    ensures Wire([f]) == FrameBytes(f)
  {
    assert [f][1..] == [];
    assert Wire([]) == [];
  }

  /** A frame survives encoding and reading exactly when its payload fits the length field. */
  lemma FrameRoundTrip(f: Frame, rest: bytes, end: StreamEnd)
    ensures Parse(FrameBytes(f) + rest, end) == Parsed(Received(PacketOf(f)), rest) <==> Fits(f)
  {
    var p := PacketOf(f);
    if Fits(f) {
      var flags := if f.Data? then DATA_FLAGS else NO_FLAGS;
      assert FrameBytes(f) == HeaderBytes(p.etherType, |p.payload|, flags) + p.payload;
      ParseAccepts(p, flags, rest, end);
    }
  }

  lemma ZeroMagic()
    ensures Be32Value([0, 0, 0, 0]) != MAGIC
  {
    var zeros: bytes := [0, 0, 0, 0];
    assert zeros[..2] == [0, 0];
    assert zeros[2..] == [0, 0];
    assert Be16Value([0, 0]) == 0;
  }

  // ----- The format in numbers -----

  /** Whether the first nibble of a packet says IP version 6. */
  predicate SaysIpv6(payload: bytes) {
    |payload| > 0 && 0x60 <= payload[0] < 0x70
  }

  lemma HeaderLayout(etherType: int, length: int, flags: bytes)
    requires 0 <= etherType < 0x1_0000 && 0 <= length < 0x1_0000 && |flags| == 8
    ensures var h := HeaderBytes(etherType, length, flags);
            && h[..4] == [0x1a, 0x2b, 0x3c, 0x4d]
            && h[4..6] == [etherType / 256, etherType % 256]
            && h[6..8] == [length / 256, length % 256]
            && h[8..] == flags
  {
    var h := HeaderBytes(etherType, length, flags);
    assert h == [0x1a, 0x2b, 0x3c, 0x4d] + [etherType / 256, etherType % 256] + [length / 256, length % 256] + flags;
  }

  lemma HeaderSlices(h: bytes, payload: bytes)
    requires |h| == 16
    ensures var f := h + payload;
            && f[..4] == h[..4] && f[4..6] == h[4..6] && f[6..8] == h[6..8] && f[8..16] == h[8..]
            && f[16..] == payload
  {
  }

  lemma LengthBytes(n: nat)
    ensures n % 0x1_0000 / 256 == n / 256 % 256 && n % 0x1_0000 % 256 == n % 256
  {
  }

  /** The bytes of a data frame. */
  lemma FrameLayout(payload: bytes)
    ensures var f := FrameBytes(Data(payload));
            && |f| == 16 + |payload|
            && f[..4] == [0x1a, 0x2b, 0x3c, 0x4d]
            && f[4..6] == (if SaysIpv6(payload) then [0x86, 0xDD] else [0x08, 0x00])
            && f[6..8] == [|payload| / 256 % 256, |payload| % 256]
            && f[8..16] == [1, 0, 0, 0, 0, 0, 0, 0]
            && f[16..] == payload
  {
    DataHeader(EtherTypeOf(payload), payload);
    EtherTypeBytes(payload);
  }

  lemma DataHeader(etherType: int, payload: bytes)
    requires 0 <= etherType < 0x1_0000
    ensures var f := HeaderBytes(etherType, |payload| % 0x1_0000, DATA_FLAGS) + payload;
            && |f| == 16 + |payload|
            && f[..4] == [0x1a, 0x2b, 0x3c, 0x4d]
            && f[4..6] == [etherType / 256, etherType % 256]
            && f[6..8] == [|payload| / 256 % 256, |payload| % 256]
            && f[8..16] == [1, 0, 0, 0, 0, 0, 0, 0]
            && f[16..] == payload
  {
    var length := |payload| % 0x1_0000;
    HeaderLayout(etherType, length, DATA_FLAGS);
    HeaderSlices(HeaderBytes(etherType, length, DATA_FLAGS), payload);
    LengthBytes(|payload|);
  }

  lemma EtherTypeBytes(payload: bytes)
    ensures EtherTypeOf(payload) == if SaysIpv6(payload) then 34525 else 2048
  {
  }

  /** The bytes of a keepalive. */
  lemma KeepaliveLayout()
    ensures FrameBytes(Keepalive) == [0x1a, 0x2b, 0x3c, 0x4d, 0, 0, 0, 0, 0, 0, 0, 0, 0, 0, 0, 0]
  {
    HeaderLayout(ETHER_TYPE_KEEPALIVE, 0, NO_FLAGS);
    var f := FrameBytes(Keepalive);
    assert f == f[..4] + f[4..6] + f[6..8] + f[8..];
  }

  /** What the far end reads for a frame: the payload under the ethertype of its IP version, and nothing
      under ethertype zero for a keepalive. */
  lemma ReadsBack(payload: bytes, rest: bytes, end: StreamEnd)
    requires |payload| <= 65535
    ensures Parse(FrameBytes(Data(payload)) + rest, end)
         == Parsed(Received(Packet(if SaysIpv6(payload) then 34525 else 2048, payload)), rest)
    ensures Parse(FrameBytes(Keepalive) + rest, end) == Parsed(Received(Packet(0, [])), rest)
  {
    FrameRoundTrip(Data(payload), rest, end);
    FrameRoundTrip(Keepalive, rest, end);
  }

  /** A 16-bit number from its bytes. */
  function Number(high: int, low: int): int {
    256 * high + low
  }

  /** What ReadPacket returns on any stream, in terms of its bytes. */
  lemma ParseByBytes(stream: bytes, end: StreamEnd)
    ensures |stream| < 16 ==>
              Parse(stream, end) == Parsed(Failed(HeaderError(
                if end.Broken? then ReadFailure else if |stream| == 0 then Eof else UnexpectedEof)), [])
    ensures |stream| >= 16 && stream[..4] != [0x1a, 0x2b, 0x3c, 0x4d] ==>
              Parse(stream, end) == Parsed(Failed(BadMagic), stream[16..])
    ensures |stream| >= 16 && stream[..4] == [0x1a, 0x2b, 0x3c, 0x4d] ==>
              var etherType: int, length: int := Number(stream[4], stream[5]), Number(stream[6], stream[7]);
              if |stream| >= 16 + length then
                Parse(stream, end) == Parsed(Received(Packet(etherType, stream[16..16 + length])), stream[16 + length..])
              else
                Parse(stream, end) == Parsed(Failed(PayloadError(
                  if end.Broken? then ReadFailure else if |stream| == 16 then Eof else UnexpectedEof)), [])
  {
    if |stream| >= 16 {
      Be32Injective(stream[0..4], MAGIC);
      assert Be32(MAGIC) == [0x1a, 0x2b, 0x3c, 0x4d];
      assert stream[0..4] == stream[..4];
      var length := Be16Value(stream[6..8]);
      if |stream| >= 16 + length {
        assert stream[16..][..length] == stream[16..16 + length];
        assert stream[16..][length..] == stream[16 + length..];
      }
    }
  }

  /** A 65536-byte packet, which the TUN buffer can hold, is announced as an empty one, and the next
      read starts in the middle of it. */
  lemma OversizeDesynchronises(end: StreamEnd)
    ensures var p := seq(0x1_0000, i => 0);
            var first := Parse(Encoded(p), end);
            && first == Parsed(Received(Packet(ETHER_TYPE_IPV4, [])), p)
            && Parse(first.rest, end).result == Failed(BadMagic)
  {
    var p: bytes := seq(0x1_0000, i => 0);
    ParseAccepts(Packet(ETHER_TYPE_IPV4, []), DATA_FLAGS, p, end);
    assert Encoded(p) == HeaderBytes(ETHER_TYPE_IPV4, 0, DATA_FLAGS) + [] + p;
    assert p[0..4] == [0, 0, 0, 0];
    ZeroMagic();
  }

  // ----- Reading until the first error -----

  datatype Decoding = Decoding(packets: seq<Packet>, error: ReadError)

  /** ReadPacket repeated until it fails. */
  function ParseAll(stream: bytes, end: StreamEnd): Decoding
    decreases |stream|
  {
    var p := Parse(stream, end);
    match p.result
    case Failed(e) => Decoding([], e)
    case Received(packet) =>
      var d := ParseAll(p.rest, end);
      Decoding([packet] + d.packets, d.error)
  }

  /** The number of frames that lie wholly within the first cut bytes. */
  function WholeFrames(frames: seq<Frame>, cut: nat): (n: nat)
    ensures n <= |frames|
  {
    if frames == [] || |FrameBytes(frames[0])| > cut then 0
    else 1 + WholeFrames(frames[1..], cut - |FrameBytes(frames[0])|)
  }

  /** The error a reader meets when only cut bytes of frame f arrive. */
  function CutError(cut: nat, end: StreamEnd): ReadError {
    if cut < HEADER_SIZE then HeaderError(ShortReadCause(cut, end))
    else PayloadError(ShortReadCause(cut - HEADER_SIZE, end))
  }

  lemma CutFrame(f: Frame, cut: nat, end: StreamEnd)
    requires Fits(f) && cut < |FrameBytes(f)|
    ensures Parse(FrameBytes(f)[..cut], end) == Parsed(Failed(CutError(cut, end)), [])
  {
    var stream := FrameBytes(f)[..cut];
    ParseByBytes(stream, end);
    if cut >= HEADER_SIZE {
      FrameLayout(f.payload);
      assert stream[..4] == FrameBytes(f)[..4];
      assert stream[6] == FrameBytes(f)[6..8][0] && stream[7] == FrameBytes(f)[6..8][1];
      assert Number(stream[6], stream[7]) == |f.payload|;
    }
  }

  lemma ParseAllCons(f: Frame, rest: bytes, end: StreamEnd)
    requires Fits(f)
    ensures ParseAll(FrameBytes(f) + rest, end)
         == Decoding([PacketOf(f)] + ParseAll(rest, end).packets, ParseAll(rest, end).error)
  {
    FrameRoundTrip(f, rest, end);
  }

  lemma PacketsOfCons(f: Frame, frames: seq<Frame>)
    ensures PacketsOf([f] + frames) == [PacketOf(f)] + PacketsOf(frames)
  {
  }

  lemma WireCons(f: Frame, frames: seq<Frame>)
    ensures Wire([f] + frames) == FrameBytes(f) + Wire(frames)
  {
    assert ([f] + frames)[1..] == frames;
  }

  /** Reading the first cut bytes of the wire returns exactly the frames before, and then the error
      for the bytes of the next frame that did arrive. */
  ghost predicate CutYields(frames: seq<Frame>, cut: nat, end: StreamEnd, before: seq<Frame>)
    requires cut <= |Wire(frames)|
  {
    && |Wire(before)| <= cut
    && ParseAll(Wire(frames)[..cut], end)
       == Decoding(PacketsOf(before), CutError(cut - |Wire(before)|, end))
  }

  lemma CutFirst(frames: seq<Frame>, cut: nat, end: StreamEnd)
    requires cut <= |Wire(frames)|
    requires frames != [] ==> Fits(frames[0]) && cut < |FrameBytes(frames[0])|
    ensures CutYields(frames, cut, end, [])
  {
    if frames != [] {
      assert Wire(frames)[..cut] == FrameBytes(frames[0])[..cut];
      CutFrame(frames[0], cut, end);
    }
  }

  lemma CutLater(f: Frame, tail: seq<Frame>, cut: nat, end: StreamEnd, before: seq<Frame>)
    requires Fits(f) && cut <= |Wire(tail)| && CutYields(tail, cut, end, before)
    ensures |FrameBytes(f)| + cut <= |Wire([f] + tail)|
    ensures CutYields([f] + tail, |FrameBytes(f)| + cut, end, [f] + before)
  {
    WireCons(f, tail);
    WireCons(f, before);
    PacketsOfCons(f, before);
    assert (FrameBytes(f) + Wire(tail))[..|FrameBytes(f)| + cut] == FrameBytes(f) + Wire(tail)[..cut];
    ParseAllCons(f, Wire(tail)[..cut], end);
  }

  /** Cutting the wire of well-sized frames anywhere yields exactly the frames before the cut, and
      then the error that belongs to the cut position. */
  lemma {:induction false} CutDecodes(frames: seq<Frame>, cut: nat, end: StreamEnd)
    requires cut <= |Wire(frames)|
    requires forall f <- frames :: Fits(f)
    ensures CutYields(frames, cut, end, frames[..WholeFrames(frames, cut)])
    decreases |frames|
  {
    if frames == [] || |FrameBytes(frames[0])| > cut {
      CutFirst(frames, cut, end);
      assert frames[..WholeFrames(frames, cut)] == [];
    } else {
      CutDecodes(frames[1..], cut - |FrameBytes(frames[0])|, end);
      CutStep(frames, cut, end);
    }
  }

  lemma CutStep(frames: seq<Frame>, cut: nat, end: StreamEnd)
    requires frames != [] && Fits(frames[0]) && |FrameBytes(frames[0])| <= cut <= |Wire(frames)|
    requires var tail, cut' := frames[1..], cut - |FrameBytes(frames[0])|;
             CutYields(tail, cut', end, tail[..WholeFrames(tail, cut')])
    ensures CutYields(frames, cut, end, frames[..WholeFrames(frames, cut)])
  {
    var f, tail := frames[0], frames[1..];
    var cut' := cut - |FrameBytes(f)|;
    var before := tail[..WholeFrames(tail, cut')];
    CutLater(f, tail, cut', end, before);
    assert CutYields([f] + tail, cut, end, [f] + before);
    WholeFramesCons(frames, cut);
  }

  lemma WholeFramesCons(frames: seq<Frame>, cut: nat)
    requires frames != [] && |FrameBytes(frames[0])| <= cut
    ensures var f, tail := frames[0], frames[1..];
            && [f] + tail == frames
            && [f] + tail[..WholeFrames(tail, cut - |FrameBytes(f)|)] == frames[..WholeFrames(frames, cut)]
  {
  }

  /** With nothing cut off, every frame is read and the stream ends cleanly. */
  lemma {:induction false} WholeWireDecodes(frames: seq<Frame>, end: StreamEnd)
    requires forall f <- frames :: Fits(f)
    ensures ParseAll(Wire(frames), end)
         == Decoding(PacketsOf(frames), HeaderError(ShortReadCause(0, end)))
  {
    CutDecodes(frames, |Wire(frames)|, end);
    assert Wire(frames)[..|Wire(frames)|] == Wire(frames);
    AllWhole(frames);
    assert frames[..|frames|] == frames;
  }

  lemma AllWhole(frames: seq<Frame>)
    ensures WholeFrames(frames, |Wire(frames)|) == |frames|
  {
  }

  // ----- Frames followed by a torn one -----

  /** A wire of whole frames that may end in a strict or full prefix of one more frame. */
  lemma {:induction false} TornDecodes(frames: seq<Frame>, torn: Frame, kept: nat, end: StreamEnd)
    requires kept <= |FrameBytes(torn)|
    requires Fits(torn) && forall f <- frames :: Fits(f)
    ensures ParseAll(Wire(frames) + FrameBytes(torn)[..kept], end).packets
         == PacketsOf(if kept == |FrameBytes(torn)| then frames + [torn] else frames)
  {
    var all := frames + [torn];
    TornWire(frames, torn, kept);
    CutDecodes(all, |Wire(frames)| + kept, end);
    WholeFramesTorn(frames, torn, kept);
    assert all[..|frames|] == frames && all[..|frames| + 1] == all;
  }

  lemma TornWire(frames: seq<Frame>, torn: Frame, kept: nat)
    requires kept <= |FrameBytes(torn)|
    ensures |Wire(frames)| + kept <= |Wire(frames + [torn])|
    ensures Wire(frames + [torn])[..|Wire(frames)| + kept] == Wire(frames) + FrameBytes(torn)[..kept]
  {
    WireAppend(frames, [torn]);
    WireOne(torn);
    PrefixOfConcat(Wire(frames), FrameBytes(torn), kept);
  }

  lemma {:induction false} WholeFramesTorn(frames: seq<Frame>, torn: Frame, kept: nat)
    requires kept <= |FrameBytes(torn)|
    ensures WholeFrames(frames + [torn], |Wire(frames)| + kept)
         == |frames| + if kept == |FrameBytes(torn)| then 1 else 0
  {
    if frames == [] {
      assert frames + [torn] == [torn];
      assert [torn][1..] == [];
    } else {
      assert (frames + [torn])[1..] == frames[1..] + [torn];
      WholeFramesTorn(frames[1..], torn, kept);
    }
  }

  // ----- Delivery -----

  predicate Deliverable(p: Packet) {
    (p.etherType == ETHER_TYPE_IPV4 || p.etherType == ETHER_TYPE_IPV6) && p.payload != []
  }

  /** The payloads a tunnel end hands on: nonempty IPv4 and IPv6 packets. */
  function Payloads(packets: seq<Packet>): seq<bytes> {
    if packets == [] then []
    else
      var last := packets[|packets| - 1];
      Payloads(packets[..|packets| - 1]) + if Deliverable(last) then [last.payload] else []
  }

  /** The nonempty payloads of the data frames in a list. */
  function DataOf(frames: seq<Frame>): seq<bytes> {
    if frames == [] then []
    else
      var last := frames[|frames| - 1];
      DataOf(frames[..|frames| - 1]) + if last.Data? && last.payload != [] then [last.payload] else []
  }

  lemma PayloadsSnoc(packets: seq<Packet>, p: Packet)
    ensures Payloads(packets + [p]) == Payloads(packets) + if Deliverable(p) then [p.payload] else []
  {
    assert (packets + [p])[..|packets|] == packets;
  }

  lemma DataOfSnoc(frames: seq<Frame>, f: Frame)
    ensures DataOf(frames + [f])
         == DataOf(frames) + if f.Data? && f.payload != [] then [f.payload] else []
  {
    assert (frames + [f])[..|frames|] == frames;
  }

  lemma {:induction false} PayloadsOfFrames(frames: seq<Frame>)
    ensures Payloads(PacketsOf(frames)) == DataOf(frames)
  {
    if frames != [] {
      var front, last := frames[..|frames| - 1], frames[|frames| - 1];
      PayloadsOfFrames(front);
      assert PacketsOf(frames) == PacketsOf(front) + [PacketOf(last)];
      PayloadsSnoc(PacketsOf(front), PacketOf(last));
    }
  }

  lemma {:induction false} PayloadsPrefix(packets: seq<Packet>, n: nat)
    requires n <= |packets|
    ensures Payloads(packets[..n]) <= Payloads(packets)
    decreases |packets| - n
  {
    if n == |packets| {
      assert packets[..n] == packets;
    } else {
      PayloadsPrefix(packets, n + 1);
      assert packets[..n + 1] == packets[..n] + [packets[n]];
      PayloadsSnoc(packets[..n], packets[n]);
    }
  }

  /** No payload that comes out of ReadPacket exceeds the length field. */
  lemma {:induction false} ParsedPayloadsFit(stream: bytes, end: StreamEnd)
    ensures forall p <- ParseAll(stream, end).packets :: |p.payload| <= MAX_PAYLOAD
    decreases |stream|
  {
    var p := Parse(stream, end);
    if p.result.Received? {
      ParseIffDenotes(stream, end, p.result.packet, p.rest);
      ParsedPayloadsFit(p.rest, end);
    }
  }

  lemma {:induction false} PayloadsFit(packets: seq<Packet>)
    requires forall p <- packets :: |p.payload| <= MAX_PAYLOAD
    ensures forall d <- Payloads(packets) :: |d| <= MAX_PAYLOAD
  {
    if packets != [] {
      PayloadsFit(packets[..|packets| - 1]);
    }
  }

  // ----- Reading packets while the stream grows -----

  /** Reading all of stream packet by packet has produced packets and has rest left. */
  ghost predicate Consumed(stream: bytes, packets: seq<Packet>, rest: bytes)
    decreases |packets|
  {
    if packets == [] then stream == rest
    else
      var p := Parse(stream, Broken);
      p.result == Received(packets[0]) && Consumed(p.rest, packets[1..], rest)
  }

  lemma {:induction false} ConsumedGrows(stream: bytes, packets: seq<Packet>, rest: bytes, more: bytes)
    requires Consumed(stream, packets, rest)
    ensures Consumed(stream + more, packets, rest + more)
    decreases |packets|
  {
    if packets != [] {
      ParseStable(stream, Broken, more, Broken);
      ConsumedGrows(Parse(stream, Broken).rest, packets[1..], rest, more);
    }
  }

  lemma {:induction false} ConsumedStep(stream: bytes, packets: seq<Packet>, rest: bytes, p: Packet, rest': bytes)
    requires Consumed(stream, packets, rest)
    requires Parse(rest, Broken) == Parsed(Received(p), rest')
    ensures Consumed(stream, packets + [p], rest')
    decreases |packets|
  {
    if packets == [] {
      assert packets + [p] == [p];
      assert [p][1..] == [];
    } else {
      assert (packets + [p])[1..] == packets[1..] + [p];
      ConsumedStep(Parse(stream, Broken).rest, packets[1..], rest, p, rest');
    }
  }

  /** What has been read so far is a prefix of what the whole stream decodes to. */
  lemma {:induction false} ConsumedIsPrefix(stream: bytes, packets: seq<Packet>, rest: bytes)
    requires Consumed(stream, packets, rest)
    ensures packets <= ParseAll(stream, Broken).packets
    decreases |packets|
  {
    if packets != [] {
      ConsumedIsPrefix(Parse(stream, Broken).rest, packets[1..], rest);
    }
  }
}
