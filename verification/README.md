# A verified model of gobalprotect

gobalprotect is a GlobalProtect VPN client written in Go. This project models its three stateful cores in
Dafny and proves what they promise:

- **The tunnel** (`pkg/gpst`): the GPST frame format, the concurrent data loop between the TUN device and
  the gateway, the life of the connection, and the raw cookie built at login.
- **Routes and split DNS** (`pkg/tun`, `pkg/splitdns`): the device's ledger of kernel routes, the caching
  DNS proxy that feeds it, and the domain matcher.
- **The reconnect loop** (`cmd/gobalprotect`): backoff, and the order in which a session acquires and
  releases its resources.

## Layout

| file | content |
|---|---|
| `Bytes.dfy` | bytes, fixed-width fields, subsequences |
| `Framing.dfy` | the frame format as a relation between packets and stream bytes; cuts and torn frames |
| `LoopErrors.dfy` | how the loops over a connection end |
| `FramingIO.dfy` | encoder, reader, receive loop and send loop as programs over arrays and a fragmented connection |
| `DataLoop.dfy` | `RunDataLoop` and `runSession` as a transition system |
| `DataLoopProofs.dfy` | its invariants |
| `DataLoopTheorems.dfy` | delivery, conservation, counters and shutdown for every state of every run |
| `DataLoopErrors.dfy` | which error a run returns and why, and what its writes put on the wire |
| `DataLoopRuns.dfy` | that runs carry any traffic both ways without loss, and can end with each error |
| `TunnelConn.dfy` | `setConn`, `Close` and the end of `Connect`, sequentially and in every interleaving |
| `Prefixes.dfy` | addresses, masks, and the covering test as prefix equality |
| `Routes.dfy` | the device's route operations against a kernel table, and its whole life |
| `Dns.dfy` | messages and the time they may be cached |
| `SplitDns.dfy` | the proxy over mutable messages and a bounded cache, one request at a time |
| `DnsRuns.dfy` | the proxy with concurrent handlers as a transition system |
| `DomainMatcher.dfy` | suffix matching against matching label by label |
| `Reconnect.dfy` | `run` and `runSession` |
| `Cookie.dfy` | field extraction and `RawCookie`, read back by a form parser |

`dafny verify dfyconfig.toml` checks all of it.

## How the program is modelled

Code that changes things step by step is a method proved against a specification function, over the same
kind of state as in the source: byte arrays for headers, a reader that hands out arbitrary pieces of a
stream, a device with its list of added routes, DNS messages as objects that are copied into the cache and
edited afterwards. Code whose point is interleaving (the goroutines of the data loop, concurrent DNS
handlers, concurrent `Connect` and `Close`) is a transition system: a state, the enabled actions, and a
run as any sequence of enabled actions. Theorems about runs hold for every state of every run.

Assumptions about what lies outside the modelled code:

- One `conn.Write` call is atomic with respect to other calls on the same connection. A failed call may
  have transmitted any part of its frame, even all of it; nothing reaches the wire after a failed call or
  after `Close`. When `Connect` returns, the stream is at a frame boundary.
- A packet whose `Write` reported failure although its whole frame had been transmitted is delivered
  without being acknowledged. Theorems about delivery name it (`Unacknowledged`).
- The kernel table is a map from family, destination and prefix length to a next hop. It refuses prefixes
  wider than the address and lengths that do not fit the family. Any request may fail; a *reliable* kernel
  refuses to write a route only for a malformed prefix or an existing key on add, and one that *deletes*
  refuses to delete only a missing key. What teardown restores depends on the latter alone. Only this
  program writes the table while it runs.
- Netlink sockets, interface lookup, default gateways, upstream DNS exchanges, session outcomes and clocks
  are parameters of the operations that consult them, with arbitrary values.
- The cache keeps the entry it is storing and may evict any others to stay within its capacity; whether an
  entry is still served at the very instant it expires is left open (`inclusive`). Capacity 0 is the
  `noopCache`. The time of an upstream answer is the time at which `handleRequest` stores it.
- `strings.ToLower` and `strings.TrimSpace` are arbitrary functions in the domain matcher, so its theorem
  holds for Unicode. Strings in the cookie are byte strings.
- What stands for code outside the repository is pinned down in numbers where a theorem leans on it: the
  prefixes the kernel accepts (`ValidRouteIff`), the byte-wise rules of percent-decoding (`DecodeByBytes`,
  `HexDigits`), and that somebody else may close the connection at any time (`MayCloseAnytime`).

## What the proofs say about the code

- **Frames longer than 65535 bytes.** The length field is `uint16(len(payload))`, but the TUN buffer holds
  65536 bytes (`pkg/tun/tun.go:91`). A frame survives encoding and reading exactly when its payload fits
  (`FrameRoundTrip`), and a run's wire decodes to the packets written exactly when all of them fit
  (`DeliveryIffSized`). `OversizeDesynchronises` is the witness.
- **"tunnel closed by server"** is never reported: the loop compares with `io.EOF` itself, while
  `ReadPacket` always wraps the cause (`ParseNeverBareEof`). So no run of the data loop ends with that
  error (`LoopNeverReturnsNil`; `CanReturnIff` says which ones can be returned).
- **Reconnecting.** The repository's `README.md:268` promises automatic reconnection when the tunnel dies.
  `RunDataLoop` never returns nil, so no session ends without an error, and `run` returns the error of
  its first session (`RunEndsWithFirstSession`; `ReconnectsIff` says what it would take to go on). The
  backoff contract is proved for arbitrary outcomes, including those that the present `runSession` cannot
  produce.
- **Minimum TTL.** `minTTL` forgets a zero TTL as soon as another record follows. It computes the minimum
  that section 3.2.1 of RFC 1035 calls for exactly when no TTL is zero or the last one is
  (`MinTtlIsMinimumIff`; `InteriorZeroIsLost` is the witness).
- **Negative answers.** The limit of section 5 of RFC 2308 is consulted only when `minTTL` is zero, so a
  name error can be cached for longer than allowed (`NegativeKeptTooLong`), and an answer without an SOA
  record, which must not be cached, is (`NoSoaStillCached`). `NegativeNotTooLongIff` says exactly when,
  for every message.
- **Cache before routes.** The answer is cached before its routes are added. With sequential requests every
  cached address is routed or its attempt failed; with concurrent handlers it may still be pending, and
  `HitBeforeRoutes` is a run in which a second request is served from the cache before it is.
- **Routes that were there before.** `addRoute` replaces a route it cannot add, and teardown deletes it
  (`TeardownLosesReplaced` is the witness). `TeardownRestores` says exactly when the table comes back to
  what it was.

## Model

| member | source | states |
|---|---|---|
| FramingIO.EncodePacket | pkg/gpst/packet.go:42-56 | The buffer filled field by field has bytes 1a 2b 3c 4d, 86 DD exactly for a nonempty payload whose first nibble is 6 and 08 00 otherwise, the length modulo 65536 big-endian, 01 and seven zeros, and the payload |
| FramingIO.EncodeKeepalive | pkg/gpst/packet.go:59-64 | The keepalive is 1a 2b 3c 4d and twelve zeros |
| Framing.FrameLayout | pkg/gpst/packet.go:10-16 | The same layout of the frame format in numbers |
| Framing.ReadsBack | pkg/gpst/packet.go:42-91 | What is read for a payload of at most 65535 bytes is that payload under 34525 or 2048 by its IP version, and for a keepalive nothing under 0 |
| Framing.ParseByBytes | pkg/gpst/packet.go:68-91 | The result of ReadPacket on any stream, by the bytes: each error with its cause, and the packet at offsets 4 to 7 and 16 on |
| Framing.ParseIffDenotes | pkg/gpst/packet.go:68-91 | ReadPacket accepts a packet if and only if the stream begins with a frame carrying that ethertype, that length and that payload, whatever the eight unread header bytes are, and it leaves exactly the bytes behind it |
| Framing.ParseStable | pkg/gpst/packet.go:68-91 | Bytes arriving later never change a packet that is complete, and are left on the stream |
| Framing.FrameRoundTrip | pkg/gpst/packet.go:42-91 | Encoding then reading gives the frame back, in front of any further bytes, if and only if its payload is at most 65535 bytes long |
| Framing.OversizeDesynchronises | pkg/tun/tun.go:91 | A 65536-byte packet is read as an empty one, and the next read fails in the middle of it |
| Framing.CutDecodes | pkg/gpst/packet.go:42-91 | Cutting the wire of any well-sized frames at any byte, repeated reading returns precisely the frames before the cut and then the error that belongs to the cut position |
| Framing.WholeWireDecodes | pkg/gpst/packet.go:42-91 | With nothing cut off, every frame is read and the stream ends cleanly between frames |
| Framing.TornDecodes | pkg/gpst/packet.go:42-91 | Whole frames followed by a part of one more decode to the whole ones, plus the last if all of it arrived |
| FramingIO.ReadFull | pkg/gpst/packet.go:69-88 | Filling a buffer from a stream in arbitrary pieces takes exactly its length, or everything there is with EOF, unexpected EOF or a read error |
| FramingIO.ReadPacket | pkg/gpst/packet.go:68-91 | The result and the bytes left depend on the stream's bytes only, not on how it is fragmented |
| FramingIO.Dispatch | pkg/gpst/tunnel.go:358-373 | One packet: nonempty IPv4 and IPv6 payloads go to the device and are counted, keepalive, empty and unknown ones do neither |
| FramingIO.ReadLoop | pkg/gpst/tunnel.go:335-375 | What the device is offered and the error are those of the specification, counters keep pace, and "closed by server" is never the error |
| FramingIO.ReceiveDelivers | pkg/gpst/tunnel.go:335-375 | The device gets exactly the nonempty IP payloads of the packets read, in order; the error tells device failure, cancellation and stream end apart |
| FramingIO.ReceiveStops | pkg/gpst/tunnel.go:335-375 | readLoop stops at the first of stream end, rounds over or device failure; what is offered is exactly the nonempty payloads with ethertype 0x0800 or 0x86DD up to there, and each way to stop has its error |
| FramingIO.WriteLoop | pkg/gpst/tunnel.go:377-393 | The wire grows by the frames of the packets taken, up to the write that fails and the part of it transmitted; the failing packet is counted and reported |
| FramingIO.NonEmptyKeepsTheRest | pkg/gpst/tunnel.go:382-385 | writeLoop leaves out exactly the empty packets and keeps the order |
| FramingIO.TransmitDecodes | pkg/gpst/tunnel.go:377-393 | What the send loop transmits decodes to exactly the packets wholly sent |
| DataLoopProofs.StepKeepsInv | pkg/gpst/tunnel.go:224-393 | Every step of every goroutine and of the environment keeps the joint invariant of queue, wire, writer, receiver, counters, errors and shutdown phase |
| DataLoopProofs.RunKeepsInv | pkg/gpst/tunnel.go:224-393 | The invariant holds in every state of every run |
| DataLoopTheorems.WireDelivery | pkg/gpst/tunnel.go:237-393 | For every interleaving of TUN reader, writer and keepalive, the wire decodes to exactly the packets written (and at most one unacknowledged), byte for byte, a subsequence of the packets read from TUN |
| DataLoopTheorems.DeliveryIffSized | pkg/gpst/tunnel.go:377-391 | While no write has failed, the wire decodes to the packets written if and only if all of them fit the length field |
| DataLoopTheorems.Conservation | pkg/gpst/tunnel.go:237-260 | Packets read from TUN are, as a multiset, those dropped, queued, taken by the writer, and at most one held or abandoned by the reader; the queue never exceeds 64 |
| DataLoopTheorems.DropsOnlyWhenFull | pkg/gpst/tunnel.go:252-258 | A step that drops a packet found the queue with exactly 64 packets and the context not cancelled, and changed nothing else in the uplink |
| DataLoopTheorems.AbandonsOnlyWhenDone | pkg/gpst/tunnel.go:252-258 | The TUN reader gives up a packet only after a cancellation |
| DataLoopTheorems.TunReaderNeverBlocks | pkg/gpst/tunnel.go:252-258 | With a packet in hand the TUN reader can always queue it, drop it or give it up, and can queue it if and only if fewer than 64 wait |
| DataLoopTheorems.SentCounters | pkg/gpst/tunnel.go:386-390 | The sent counters are count and length of the packets written plus at most one in hand or lost; between packets they equal those written |
| DataLoopTheorems.ReceivedCounters | pkg/gpst/tunnel.go:366-370 | The received counters are count and length of the payloads offered to the device |
| DataLoopTheorems.CountersGrow | pkg/gpst/tunnel.go:366-390 | No counter ever decreases in a run |
| DataLoopTheorems.IncomingOrder | pkg/gpst/tunnel.go:335-375 | The device has been offered exactly the nonempty IP payloads of the packets dealt with, which begin what the arrived bytes decode to; nothing loses the frame boundary |
| DataLoopTheorems.EndToEnd | pkg/gpst/tunnel.go:237-393 | Two data loops joined by a network that delivers a prefix: the far device is offered a prefix of what the near one delivered, in the order read from TUN |
| DataLoopTheorems.SendersNeverBlock | pkg/gpst/tunnel.go:284-318 | At most three errors are ever sent on the error channel, and a goroutine about to send one finds a free slot |
| DataLoopTheorems.ReturnsCleanedUp | pkg/gpst/tunnel.go:320-333 | Every way out of runSession leaves its context cancelled, the connection closed and an error to return that a session can have |
| DataLoopTheorems.LoopNeverReturnsNil | pkg/gpst/tunnel.go:224-352 | RunDataLoop returns an error in every run, "not connected" exactly without a session, and never that the server closed the tunnel |
| DataLoopErrors.ReturnsFirstError | pkg/gpst/tunnel.go:284-333 | The error returned is, if one was taken from errCh, the one that the earliest send of the run carried; else that of the TUN reader, a cancellation, or "not connected", by the step that decided |
| DataLoopErrors.ErrorHasCause | pkg/gpst/tunnel.go:237-393 | The error returned happened: a cancellation is the outer context's, a read error that of a read while the context was not done, and each other failure that of its own step |
| DataLoopErrors.WireIsWrites | pkg/gpst/tunnel.go:301-305 | While no write has failed, the wire is exactly the frames of the writes so far, each data packet and each keepalive once, in the order of the steps |
| DataLoopTheorems.WireFrozen | pkg/gpst/tunnel.go:320-333 | After the connection is closed no byte is added to the wire |
| DataLoopTheorems.ReturnMeansShuttingDown | pkg/gpst/tunnel.go:320-333 | From the close on, every return path is in the shutdown state to which the next two rows apply |
| DataLoopTheorems.ShutdownBound | pkg/gpst/tunnel.go:286-393 | From any moment of shutdown the three goroutines together take at most twelve more steps, statistics ticks aside |
| DataLoopTheorems.ShutdownProgress | pkg/gpst/tunnel.go:286-393 | During shutdown every unfinished goroutine has a step it can take |
| DataLoopTheorems.TunReaderBound | pkg/gpst/tunnel.go:237-260 | Once the context is done and the writer has stopped or never starts, the TUN reader drops nothing, reads at most one packet more than the queue has free slots, and can always put down the one it holds |
| DataLoopRuns.LosslessSession | pkg/gpst/tunnel.go:224-393 | For any nonempty packets one way, any well-sized frames the other and any number of keepalives there is a run that drops none, writes all the packets and keepalives, offers all the payloads and, once cancelled, ends with the caller returned and the three goroutines finished |
| DataLoopRuns.CanReturnIff | pkg/gpst/tunnel.go:224-393 | Some run returns an error, after a session or without one, if and only if it is "not connected" and there was none, or there was one and it is neither that, nor "closed by server", nor a bare EOF |
| DataLoopRuns.MayTearAnywhere | pkg/gpst/tunnel.go:388-390 | A failing write may leave any part of its frame on the wire |
| TunnelConn.Tunnel.SetConn | pkg/gpst/tunnel.go:152-163 | Installs the new connection and closes the one it replaces, unless the tunnel is closed, in which case nothing changes |
| TunnelConn.Tunnel.FinishConnect | pkg/gpst/tunnel.go:142-148 | A connection the tunnel refuses is closed; an accepted one stays open |
| TunnelConn.Tunnel.Close | pkg/gpst/tunnel.go:204-217 | Marks the tunnel closed and closes its connection the first time only |
| TunnelConn.NoLeak | pkg/gpst/tunnel.go:70-217 | In every interleaving of Connect calls, Close and session ends, open connections are the installed one or held by a call in flight; after Close and the last call none is open |
| TunnelConn.ClosedForGood | pkg/gpst/tunnel.go:152-217 | Once closed, a tunnel stays closed, installs no other connection and its own stays closed |
| TunnelConn.InstalledStaysOpen | pkg/gpst/tunnel.go:152-217 | A connection installed in an open tunnel stays installed and open until Close, the session or another Connect touches it |
| TunnelConn.ConnectSucceeds | pkg/gpst/tunnel.go:70-148 | An undisturbed Connect leaves its connection installed and open |
| Prefixes.MaskedAgreeIsEquality | pkg/tun/tun.go:501-502 | Comparing masked addresses as a whole is comparing their masked bytes one by one |
| Prefixes.MaskedAgreeIsShift | pkg/tun/tun.go:501-502 | Addresses of any length agree under a mask of p ones if and only if their big-endian integers agree above the host bits, for all p |
| Prefixes.CoverIsPrefixMatch | pkg/tun/tun.go:497-505 | For every route the kernel accepts and every address, the cover test holds if and only if family and prefix dst / 2^(w-p) agree, the matching of section 3.1 of RFC 4632 |
| Prefixes.HostCoversOnlyItself | pkg/tun/tun.go:497-505 | A host route covers its own address and no other |
| Prefixes.TooWideCoversEverything | pkg/tun/tun.go:501-502 | A prefix wider than the address would pass the test for every address of its family |
| Prefixes.HostRouteOf | pkg/tun/tun.go:481-491 | Four bytes and IPv4-mapped sixteen give an IPv4 /32, other sixteen an IPv6 /128, and no other length gives a route the kernel accepts |
| Routes.CoveredAfterAdd | pkg/tun/tun.go:497-524 | Adding the host route of an address covers that address, uncovers none and covers no other |
| Routes.IrredundantAfterAdd | pkg/tun/tun.go:497-524 | Adding a route that the test asked for keeps every dynamic entry a host route that no earlier entry covers |
| Routes.CallsKeepCover | pkg/tun/tun.go:480-525 | Over any sequence of calls the list only grows, dynamic entries stay irredundant, and an address is covered if and only if it was before or a call for it was granted |
| Routes.Device.AddRoute | pkg/tun/tun.go:529-545 | Add, else replace: on success the key leads to the hop and nothing else changed, on failure nothing changed |
| Routes.Device.AddRouteWithDomain | pkg/tun/tun.go:480-525 | A covered address is a no-op; otherwise success adds exactly its host route to table and list and leaves it covered, and each error leaves both alone and has its cause |
| Routes.RouteOfMeans | pkg/tun/tun.go:251-285 | Family, destination and length of an entry by the number of its bytes, for prefixes and single addresses |
| Routes.AcceptedAreRouted | pkg/tun/tun.go:251-292 | Every well-formed prefix and address among the entries is among the routes requested and accepted |
| Routes.RequestedConcat | pkg/tun/tun.go:251-292 | The routes requested by a list are those of its parts, in order |
| Routes.Device.ConfigureExclusions | pkg/tun/tun.go:208-245 | With a reliable kernel every excluded four-byte or mapped address has its /32 via the IPv4 gateway and every other sixteen-byte one its /128 via the IPv6 gateway, where there is such a gateway; nothing else changes and none is tracked |
| Routes.Device.ConfigureRoutes | pkg/tun/tun.go:247-292 | Tracked are, in order, requested routes the kernel took, all valid ones if it is reliable; each leads to the device and no other key changed |
| Routes.Device.AddDefaultRoute | pkg/tun/tun.go:433-476 | Touches at most the default route and the server's host route, tracks neither, and with a reliable kernel writes both, the server's only if it has an IPv4 address and there is a gateway |
| Routes.Device.RemoveRoutes | pkg/tun/tun.go:106-140 | Empties the list and deletes no untracked key; with successful deletions, whatever failed before, the table is the former one minus the tracked keys, and equals the initial one off the untracked keys if and only if no tracked key had been there |
| Routes.TeardownRestores | pkg/tun/tun.go:106-140 | Deleting the tracked keys restores the initial table off the untracked keys if and only if no tracked key was in it |
| Routes.DeviceLife | pkg/tun/tun.go:106-545 | From New to RemoveRoutes, over any configuration, any dynamic routes and any failures to add, the table changes only at keys asked for, and with successful deletions and fresh keys only exclusions, default route and server route remain |
| Routes.ConfigureAndTearDown | pkg/tun/tun.go:106-292 | A configured route that was in the table before is gone after teardown, and nothing else has changed |
| Routes.TeardownLosesReplaced | pkg/tun/tun.go:106-140 | 10.0.0.0/8 via a gateway, configured and torn down, leaves an empty table |
| Dns.MinTtl | pkg/splitdns/dns.go:180-191 | Over the records of answer, authority and additional section in order it is 0 without records or with a zero at the end, and otherwise the least TTL behind the last zero |
| Dns.MinTtlMeaning | pkg/splitdns/dns.go:180-191 | The running minimum that a zero restarts is the minimum of the longest zero-free suffix, and is zero if and only if there is no record or the last TTL is zero |
| Dns.MinTtlIsMinimumIff | pkg/splitdns/dns.go:180-191 | It is the true minimum (section 3.2.1 of RFC 1035) if and only if no TTL is zero or the last one is |
| Dns.InteriorZeroIsLost | pkg/splitdns/dns.go:180-191 | TTLs 60, 0, 300 give 300 |
| Dns.NegativeTtl | pkg/splitdns/dns.go:194-205 | For code 0 with answers and without SOA records it is 0, and otherwise the lesser of TTL and minimum field of the first SOA record |
| Dns.NegativeMeetsRfcIff | pkg/splitdns/dns.go:120-125 | The stored lifetime is the limit of section 5 of RFC 2308 if and only if there is no record, the last TTL is zero, or the limit is a TTL behind the last zero and none there is lesser; for every message |
| Dns.NegativeNotTooLongIff | pkg/splitdns/dns.go:120-125 | A message is kept no longer than that limit, which is zero without an SOA record, if and only if it has no record, its last TTL is zero, or some TTL behind the last zero is within the limit; for every message |
| Dns.WithoutSoaCachedIff | pkg/splitdns/dns.go:120-125 | A message without an SOA record is cached if and only if it has a record and the last TTL is positive, though a negative one must not be |
| Dns.NoSoaStillCached | pkg/splitdns/dns.go:120-125 | A name error behind an alias with TTL 300 and no SOA record is kept for 300 seconds |
| Dns.NegativeKeptTooLong | pkg/splitdns/dns.go:120-125 | A name error with SOA TTL 3600 and minimum 60 is kept for 3600 seconds |
| Dns.SoaOnlyMeetsRfcIff | pkg/splitdns/dns.go:120-125 | With the SOA record alone, the limit is met if and only if the record's TTL does not exceed its minimum field |
| SplitDns.LruCache.Get | pkg/splitdns/cache.go:27 | Finds the entry of a key if and only if there is one that has not expired |
| SplitDns.LruCache.Set | pkg/splitdns/cache.go:28-30 | Afterwards the key has the new value, every other entry is an old one, and the capacity is kept |
| Dns.AddressesIff | pkg/splitdns/dns.go:135-146 | The addresses of an answer are exactly those of its A and its AAAA records |
| SplitDns.FirstAnswerIsFirst | pkg/splitdns/dns.go:165-177 | No answer if and only if every upstream fails, otherwise that of the first one that does not |
| SplitDns.Server.Forward | pkg/splitdns/dns.go:165-177 | A new message with the first upstream's answer, or none |
| SplitDns.Server.AddRoutesFromResponse | pkg/splitdns/dns.go:148-163 | Afterwards each A and AAAA address is covered or its attempt failed, and with a reliable kernel every address that could be routed is covered; the cache invariants are restored |
| SplitDns.Server.Store | pkg/splitdns/dns.go:120-125 | A copy is stored for minTTL, else for negativeTTL, else not at all; the cache stays justified, and routed but for this answer's addresses |
| SplitDns.Server.AnswerFromCache | pkg/splitdns/dns.go:90-101 | Answers if and only if the cache holds name and type of the question unexpired; the reply is an upstream's answer to this very question within its lifetime, with this request's ID, no wire data and all else unchanged |
| SplitDns.Server.AnswerFromUpstream | pkg/splitdns/dns.go:103-132 | The first upstream's answer is stored, routed and returned with the request's ID, no wire data and all else unchanged; without one the reply is a response with code 2 and the request's sections, and nothing changes |
| SplitDns.Server.HandleRequest | pkg/splitdns/dns.go:74-133 | No question, no reply; a hit replays an answer to the same question and changes nothing; a miss asks upstream; and after every request each cached address has a covering route or a failed attempt, whatever the upstreams and the kernel do; no cached message is altered |
| DnsRuns.RunKeepsCoverage | pkg/splitdns/dns.go:90-163 | With concurrent handlers, in every reachable state each cached address is covered, failed or pending |
| DnsRuns.CachedAddressesRouted | pkg/splitdns/dns.go:90-163 | The same as a statement about one address, and without the pending case when no handler is adding routes |
| DnsRuns.FailedWasRefused | pkg/splitdns/dns.go:148-163 | An address counts as failed only if an attempt for a record with it was refused while no tracked route covered it |
| DnsRuns.CacheBounded | pkg/splitdns/dns.go:34-38 | The cache never holds more than its capacity |
| DnsRuns.HitBeforeRoutes | pkg/splitdns/dns.go:90-128 | In some run a second request is answered from the cache while an address in that answer has no covering route and no failed attempt |
| DnsRuns.HitsReplayFreshAnswers | pkg/splitdns/dns.go:90-101 | Every reply served on a hit, in any run, is an upstream's answer to the same question stored less than its TTL earlier (or exactly that, if the cache serves at the instant of expiry), with the current ID and all else unchanged |
| DnsRuns.MissesAnswerTheQuestion | pkg/splitdns/dns.go:103-132 | Every other reply is a response with code 2 or an upstream's answer to the same question, and what a handler adds routes for was obtained for its own question |
| DnsRuns.RequestCompletes | pkg/splitdns/dns.go:74-133 | Alone and with every attempt granted, any request for any cacheable answer ends with that answer served and every address in it covered |
| DnsRuns.RequestFails | pkg/splitdns/dns.go:103-112 | Without any answer it ends with the refusal, and cache and routes are unchanged |
| DnsRuns.RunKeepsTransparent | pkg/splitdns/dns.go:74-133 | If upstreams depend on name and type only, every reply ever given is the one a proxy that always asks would give |
| DnsRuns.CacheRefinesNoop | pkg/splitdns/cache.go:11-30 | Then, whatever timing, evictions and interleaving, a proxy with a cache and one with the noopCache give the same reply to the same request |
| DomainMatching.LabelSuffixIsStringSuffix | pkg/splitdns/dns.go:246-258 | The labels of s end those of a domain if and only if the domain is s or ends in "." followed by s, empty labels included |
| DomainMatching.LabelsSplit | pkg/splitdns/dns.go:246-258 | The labels of a string contain no dot and joined by dots give it back |
| DomainMatching.DomainMatcher.constructor | pkg/splitdns/dns.go:224-244 | The tables hold exactly the exact names and suffixes the normalised nonempty patterns ask for, whatever lowercasing and trimming do |
| DomainMatching.DomainMatcher.Matches | pkg/splitdns/dns.go:247-258 | True if and only if some normalised pattern equals the lowercased domain or is a wildcard whose labels end the domain's labels, whatever lowercasing and trimming do |
| Reconnect.Run | cmd/gobalprotect/connect.go:409-473 | Result and waits are those of the specification for any sessions, errors and cancellations |
| Reconnect.CourseEnds | cmd/gobalprotect/connect.go:431-473 | run waits once after every session up to the first that ends it, and returns nil if that one or the wait was cancelled, and its error if it was the very first with an error or reconnecting is impossible |
| Reconnect.CourseIsSchedule | cmd/gobalprotect/connect.go:431-473 | After a clean first session run goes on through any errors with the waits of the backoff schedule |
| Reconnect.BackoffBound | cmd/gobalprotect/connect.go:427-472 | In any course of run, errors and cancellations included, its first n sessions and the waits after them take at least (45 n - 120) / 4 seconds, for every n |
| Reconnect.BackoffBoundIsTight | cmd/gobalprotect/connect.go:427-472 | For every number of cycles of four rounds there is a course of run that exceeds the bound by one nanosecond a cycle |
| Reconnect.WaitAfterReset | cmd/gobalprotect/connect.go:456-472 | The j-th session after one longer than 30 seconds, all short, is followed by a wait of min(2^j, 30) seconds |
| Reconnect.ShortWaits | cmd/gobalprotect/connect.go:466-472 | Short sessions double the wait up to 30 seconds |
| Reconnect.RunSession | cmd/gobalprotect/connect.go:479-585 | On every path exactly what was acquired, in the order context, login, device, connection, DNS proxy, is released, once, in the reverse order, after all acquisitions; and each failed step has its error |
| Reconnect.UnwindReleasesAll | cmd/gobalprotect/connect.go:480-580 | Running the deferred calls releases all that is held, last acquired first |
| Reconnect.SessionsAlwaysFail | cmd/gobalprotect/connect.go:479-585 | No outcome of runSession is free of an error, because no run of the data loop returns nil |
| Reconnect.RunEndsWithFirstSession | cmd/gobalprotect/connect.go:431-454 | With the outcomes runSession can produce, run ends after one session: with nil if cancelled, else with that session's error |
| Cookie.BuildCookie | pkg/gpst/auth.go:372-412 | Fields come from arguments 1, 2, 3, 4, 7 and 15, a missing authcookie is the only error, and a form parser finds in the raw cookie under each of the six names that field's value and no other name |
| Cookie.ArgumentIs | pkg/gpst/auth.go:374-383 | An argument that is missing, "(null)" or "-1" counts as empty, and any other as itself |
| Cookie.NamesAre | pkg/gpst/auth.go:404-409 | The six names |
| Cookie.GetNonEmpty | pkg/gpst/auth.go:398-403 | Leaving out the empty fields changes the value of none |
| Cookie.EscapedByteIs | pkg/gpst/auth.go:401 | An unreserved byte stays, a space becomes a plus sign, any other byte a percent sign and two upper-case digits |
| Cookie.EscapeConcat | pkg/gpst/auth.go:401 | Escaping works byte by byte |
| Cookie.FormRoundTrip | pkg/gpst/auth.go:398-410 | Joined escaped fields with plain names parse back to themselves under section 5.1 of the WHATWG URL Standard, for all values |
| Cookie.CookieRoundTrip | pkg/gpst/auth.go:404-410 | The same for the six cookie fields, of which the nonempty ones come back in order |
| Cookie.DecodeEscape | pkg/gpst/auth.go:401 | Percent-decoding undoes query escaping on every byte string |

## Left out

- The goroutines of RunDataLoop and runSession: modelled as a transition system on values; only readLoop and writeLoop are also programs, over a connection of their own.
- DataLoopTheorems.ShutdownBound: does not cover the goroutine that reads the TUN device; nothing waits for it, it ends only when a read returns and the select takes its cancellation, and `TunReaderBound` bounds what it reads until then.
- HTTP requests, TLS, XML decoding and the challenge script of the login: their results are inputs.
- Netlink, D-Bus and the TUN library: only the abstract kernel table and success or failure.
- Kernel attributes other than family, destination, prefix length and next hop (scope, protocol, type, metric), and routes of other tables.
- `detectDefaultGateway`: the gateways are inputs.
- Textual parsing of addresses, prefixes and DNS server names: operations start from parsed bytes and lengths.
- Routes.Device.ConfigureRoutes: which texts count as skipped ("", "0.0.0.0/0", "::/0") is decided before the model's `RouteSpec`.
- The order in which the cache evicts, and the purging of expired entries.
- Cookie.CookieRoundTrip: works on bytes; that UTF-8 decoding leaves valid text alone is not modelled.
- DataLoopTheorems.CountersGrow: the counters are unbounded, so int64 overflow is not modelled.
- Read timeouts, keepalive intervals and the statistics log: a read may fail and a ticker may fire at any time.
- The first-attempt cookie login, prompts, TOTP, signals, flags, configuration files, logging and version output.
- `isAuthRejection` and `firstLine`: a heuristic whose result `run` does not use.
