/**
 * The DNS proxy as it runs one request after the other: messages are objects that handleRequest
 * copies and edits, the cache holds such objects, and every resolved address is handed to the device.
 */
module SplitDns {
  import opened Bytes
  import opened Prefixes
  import opened Routes
  import opened Dns

  class Message {
    var id: nat
    var response: bool
    var rcode: nat
    var question: seq<Question>
    var answer: seq<RR>
    var ns: seq<RR>
    var extra: seq<RR>
    var data: bytes

    constructor (m: Msg)
      ensures Value() == m
    {
      id, response, rcode, question := m.id, m.response, m.rcode, m.question;
      answer, ns, extra, data := m.answer, m.ns, m.extra, m.data;
    }

    function Value(): Msg
      reads this
    {
      Msg(id, response, rcode, question, answer, ns, extra, data)
    }

    method Copy() returns (c: Message)
      ensures fresh(c) && c.Value() == Value()
    {
      c := new Message(Value());
    }

    /** Makes the message the reply to this request, for the client to read. */
    method ReplyTo(request: Message) returns (reply: Msg)
      requires request != this
      modifies this`id, this`data
      ensures Passes(reply, old(Value()), request.Value())
    {
      id := request.id;
      data := [];
      return Value();
    }

    /** A SERVFAIL reply, made from a copy of the request. */
    method Refusal() returns (reply: Msg)
      ensures Refuses(reply, Value())
    {
      var fail := Copy();
      fail.response := true;
      fail.rcode := RCODE_SERVER_FAILURE;
      fail.data := [];
      return fail.Value();
    }
  }

  datatype Entry = Entry(message: Message, expires: int)

  /**
   * The expirable cache. To stay within its capacity it may evict any entries but the one it is storing.
   * Whether an entry still counts at the very moment it expires is the library's business.
   */
  class LruCache {
    const capacity: nat
    const inclusive: bool
    var entries: map<CacheKey, Entry>

    constructor (capacity: nat, inclusive: bool)
      requires capacity > 0
      ensures this.capacity == capacity && this.inclusive == inclusive && entries == map[]
    {
      this.capacity := capacity;
      this.inclusive := inclusive;
      entries := map[];
    }

    ghost function Messages(): set<Message>
      reads this
    {
      set k | k in entries :: entries[k].message
    }

    /** There is an entry for the key that has not expired. */
    predicate Holds(key: CacheKey, now: int)
      reads this
    {
      key in entries && (now < entries[key].expires || (inclusive && now == entries[key].expires))
    }

    method Get(key: CacheKey, now: int) returns (found: Message?)
      ensures found != null <==> Holds(key, now)
      ensures found != null ==> entries[key].message == found
    {
      if key !in entries {
        return null;
      }
      var e := entries[key];
      if now < e.expires || (inclusive && now == e.expires) {
        return e.message;
      }
      return null;
    }

    method Set(key: CacheKey, value: Message, ttl: nat, now: int)
      requires capacity > 0
      modifies this
      ensures |entries| <= capacity
      ensures key in entries && entries[key] == Entry(value, now + ttl)
      ensures forall k <- entries | k != key :: k in old(entries) && entries[k] == old(entries)[k]
    {
      entries := entries[key := Entry(value, now + ttl)];
      while |entries| > capacity
        invariant key in entries && entries[key] == Entry(value, now + ttl)
        invariant forall k <- entries | k != key :: k in old(entries) && entries[k] == old(entries)[k]
        decreases |entries|
      {
        HasOther(entries.Keys, key);
        var victim :| victim in entries && victim != key;
        assert (entries - {victim}).Keys == entries.Keys - {victim};
        entries := entries - {victim};
      }
    }
  }

  /** An answer obtained from an upstream server, with the time at which handleRequest stored it (or
      would have, had its TTL allowed). */
  datatype Obtained = Obtained(question: Question, msg: Msg, time: int)

  /** The cached message is this answer, still within the lifetime computed from it. */
  ghost predicate Justifies(o: Obtained, key: CacheKey, msg: Msg, expires: int) {
    && o.question.name == key.name && o.question.qtype == key.qtype && o.msg == msg
    && StoreTtl(o.msg) > 0
    && expires == o.time + StoreTtl(o.msg)
  }

  lemma HasOther<T>(s: set<T>, x: T)
    requires |s| > 1
    ensures exists y :: y in s && y != x
  {
    var y :| y in s;
    if y == x {
      assert |s - {x}| == |s| - 1;
      var z :| z in s - {x};
    }
  }

  /**
   * What the outside world does during one request: what the exchange with the i-th upstream server
   * brings, and whether the netlink socket and the interface index can be had for the i-th record.
   */
  datatype World = World(upstream: nat -> Option<Msg>, dials: nat -> bool, hasInterface: nat -> bool)

  /** The answer of the first of n upstream servers that gives one. */
  function FirstAnswer(upstream: nat -> Option<Msg>, n: nat): Option<Msg> {
    if n == 0 then None
    else if FirstAnswer(upstream, n - 1).Some? then FirstAnswer(upstream, n - 1)
    else upstream(n - 1)
  }

  /** There is no answer if and only if every server fails, and otherwise no earlier server gave one. */
  lemma {:induction false} FirstAnswerIsFirst(upstream: nat -> Option<Msg>, n: nat)
    ensures FirstAnswer(upstream, n) == None <==> forall i: nat | i < n :: upstream(i) == None
    ensures FirstAnswer(upstream, n).Some? ==>
              exists i: nat | i < n ::
                FirstAnswer(upstream, n) == upstream(i) && forall j: nat | j < i :: upstream(j) == None
  {
    if n > 0 {
      FirstAnswerIsFirst(upstream, n - 1);
    }
  }

  lemma {:induction false} StillFirst(upstream: nat -> Option<Msg>, m: nat, n: nat)
    requires m <= n && FirstAnswer(upstream, m).Some?
    ensures FirstAnswer(upstream, n) == FirstAnswer(upstream, m)
    decreases n
  {
    if m < n {
      StillFirst(upstream, m, n - 1);
    }
  }

  ghost predicate Attempted(routes: seq<Route>, failed: set<bytes>, ip: bytes) {
    Covered(routes, ip) || ip in failed
  }

  lemma CoveredMonotone(routes: seq<Route>, routes': seq<Route>, ip: bytes)
    requires routes <= routes' && Covered(routes, ip)
    ensures Covered(routes', ip)
  {
    var r :| r in routes && CoveredBy(r, HostRoute(ip).family, HostRoute(ip).dst);
    assert r in routes';
  }

  lemma AttemptedMonotone(routes: seq<Route>, failed: set<bytes>, routes': seq<Route>, failed': set<bytes>, ips: set<bytes>)
    requires routes <= routes' && failed <= failed'
    requires forall ip <- ips :: Attempted(routes, failed, ip)
    ensures forall ip <- ips :: Attempted(routes', failed', ip)
  {
    forall ip <- ips ensures Attempted(routes', failed', ip) {
      if Covered(routes, ip) {
        CoveredMonotone(routes, routes', ip);
      }
    }
  }

  /** Every address of these records for which a route could be added is covered. */
  ghost predicate Routable(rrs: seq<RR>, world: World, routes: seq<Route>) {
    forall i | 0 <= i < |rrs| :: CanRoute(rrs[i], world, i) ==> Covered(routes, rrs[i].addr)
  }

  predicate CanRoute(rr: RR, world: World, i: nat)
    ensures CanRoute(rr, world, i) ==> HasAddress(rr)
  {
    HasAddress(rr) && world.dials(i) && world.hasInterface(i) && ValidRoute(HostRoute(rr.addr))
  }

  lemma RoutableSnoc(rrs: seq<RR>, i: nat, world: World, routes: seq<Route>, routes': seq<Route>)
    requires i < |rrs| && routes <= routes' && Routable(rrs[..i], world, routes)
    requires CanRoute(rrs[i], world, i) ==> Covered(routes', rrs[i].addr)
    ensures Routable(rrs[..i + 1], world, routes')
  {
    forall k | 0 <= k <= i && CanRoute(rrs[k], world, k) ensures Covered(routes', rrs[k].addr) {
      if k < i {
        assert rrs[..i][k] == rrs[k];
        CoveredMonotone(routes, routes', rrs[k].addr);
      }
    }
  }

  class Server {
    const upstreams: nat               // how many VPN DNS servers are configured
    const cache: LruCache?             // null is the noopCache
    const device: Device
    ghost var obtained: seq<Obtained>  // everything the upstreams ever answered
    ghost var failed: set<bytes>       // addresses for which adding a route has failed

    /** Every cached message is an upstream's answer to the same question, stored for its TTL. */
    ghost predicate CacheJustified()
      reads this, cache, if cache != null then cache.Messages() else {}
    {
      cache != null ==>
        forall k <- cache.entries ::
          exists o <- obtained :: Justifies(o, k, cache.entries[k].message.Value(), cache.entries[k].expires)
    }

    /** A cache hit needs no new routes: each address of a cached answer is covered by a tracked route
        or adding its route has failed. */
    ghost predicate CacheRouted()
      reads this, cache, if cache != null then cache.Messages() else {}, device
    {
      RoutedExcept({})
    }

    /** The same, while adding routes for some addresses is still to be tried. */
    ghost predicate RoutedExcept(pending: set<bytes>)
      reads this, cache, if cache != null then cache.Messages() else {}, device
    {
      cache != null ==>
        forall k <- cache.entries ::
          forall ip <- Addresses(cache.entries[k].message.answer) ::
            Attempted(device.addedRoutes, failed, ip) || ip in pending
    }

    ghost predicate Valid()
      reads this, cache, if cache != null then cache.Messages() else {}, device, device.kernel
    {
      && device.Valid() && CacheJustified() && CacheRouted()
      && (cache != null ==> cache.capacity > 0)
    }

    constructor (upstreams: nat, cacheSize: nat, inclusive: bool, device: Device)
      requires device.Valid()
      ensures Valid() && this.upstreams == upstreams && this.device == device && obtained == [] && failed == {}
      ensures (cache == null <==> cacheSize == 0) && (cache != null ==> fresh(cache) && cache.capacity == cacheSize)
    {
      this.upstreams := upstreams;
      this.device := device;
      obtained, failed := [], {};
      if cacheSize > 0 {
        var c := new LruCache(cacheSize, inclusive);
        cache := c;
      } else {
        cache := null;
      }
    }

    /** forward: a new message with the answer of the first upstream that gives one; null when all of
        them fail. */
    method Forward(upstream: nat -> Option<Msg>) returns (resp: Message?)
      ensures resp == null <==> FirstAnswer(upstream, upstreams) == None
      ensures resp != null ==> fresh(resp) && FirstAnswer(upstream, upstreams) == Some(resp.Value())
    {
      for i := 0 to upstreams
        invariant FirstAnswer(upstream, i) == None
      {
        var content := upstream(i);
        if content.Some? {
          StillFirst(upstream, i + 1, upstreams);
          resp := new Message(content.value);
          return;
        }
      }
      return null;
    }

    /** What addRoutesFromResponse does with one address. */
    method TryRoute(rr: RR, world: World, i: nat)
      requires device.Valid() && HasAddress(rr)
      modifies this`failed, device`addedRoutes, device.kernel
      ensures device.Valid()
      ensures old(device.addedRoutes) <= device.addedRoutes
      ensures old(failed) <= failed <= old(failed) + {rr.addr}
      ensures Attempted(device.addedRoutes, failed, rr.addr)
      ensures device.kernel.reliable && CanRoute(rr, world, i) ==> Covered(device.addedRoutes, rr.addr)
    {
      var error := device.AddRouteWithDomain(rr.addr, world.dials(i), world.hasInterface(i));
      if error != None {
        failed := failed + {rr.addr};
      }
    }

    /** addRoutesFromResponse: afterwards every address of the answer is covered or its attempt failed,
        and with a reliable kernel only what the surroundings forbid has failed. */
    method AddRoutesFromResponse(resp: Message, world: World)
      requires device.Valid() && CacheJustified() && RoutedExcept(Addresses(resp.answer))
      modifies this`failed, device`addedRoutes, device.kernel
      ensures device.Valid() && CacheJustified() && CacheRouted()
      ensures old(device.addedRoutes) <= device.addedRoutes && old(failed) <= failed
      ensures failed <= old(failed) + Addresses(resp.answer)
      ensures RoutesTried(resp.Value(), world)
    {
      for i := 0 to |resp.answer|
        invariant device.Valid()
        invariant device.kernel.reliable ==> Routable(resp.answer[..i], world, device.addedRoutes)
        invariant old(device.addedRoutes) <= device.addedRoutes && old(failed) <= failed
        invariant failed <= old(failed) + Addresses(resp.answer[..i])
        invariant forall ip <- Addresses(resp.answer[..i]) :: Attempted(device.addedRoutes, failed, ip)
      {
        var rr := resp.answer[i];
        ghost var routes, bad := device.addedRoutes, failed;
        AddressesSnoc(resp.answer, i);
        if rr.A? || rr.AAAA? {
          TryRoute(rr, world, i);
        }
        AttemptedMonotone(routes, bad, device.addedRoutes, failed, Addresses(resp.answer[..i]));
        if device.kernel.reliable {
          RoutableSnoc(resp.answer, i, world, routes, device.addedRoutes);
        }
      }
      assert resp.answer[..|resp.answer|] == resp.answer;
      RecordsHaveAddresses(resp.answer);
      RoutesKeepJustified();
      if cache != null {
        forall k <- cache.entries, ip <- Addresses(cache.entries[k].message.answer)
          ensures Attempted(device.addedRoutes, failed, ip)
        {
          if Covered(old(device.addedRoutes), ip) {
            CoveredMonotone(old(device.addedRoutes), device.addedRoutes, ip);
          }
        }
      }
    }

    /** Storing a copy of an upstream's answer keeps the cache justified and routed, except for the
        addresses of that answer. */
    twostate lemma SetKeepsCache(o: Obtained)
      requires old(CacheJustified()) && old(CacheRouted()) && cache != null
      requires obtained == old(obtained) && failed == old(failed) && device.addedRoutes == old(device.addedRoutes)
      requires forall k <- old(cache.entries) ::
                 old(cache.entries)[k].message.Value() == old(cache.entries[k].message.Value())
      requires forall k <- cache.entries ::
                 || Justifies(o, k, cache.entries[k].message.Value(), cache.entries[k].expires)
                 || (k in old(cache.entries) && cache.entries[k] == old(cache.entries)[k])
      requires o in obtained
      ensures CacheJustified()
      ensures RoutedExcept(Addresses(o.msg.answer))
    {
      forall k <- cache.entries
        ensures exists q <- obtained :: Justifies(q, k, cache.entries[k].message.Value(), cache.entries[k].expires)
      {
        var e := cache.entries[k];
        if !Justifies(o, k, e.message.Value(), e.expires) {
          var q :| q in obtained && Justifies(q, k, old(e.message.Value()), e.expires);
        }
      }
    }

    twostate lemma RoutesKeepJustified()
      requires old(CacheJustified()) && obtained == old(obtained)
      requires cache != null ==> cache.entries == old(cache.entries)
      requires cache != null ==>
                 forall k <- cache.entries ::
                   cache.entries[k].message.Value() == old(cache.entries[k].message.Value())
      ensures CacheJustified()
    {
      if cache != null {
        forall k <- cache.entries
          ensures exists q <- obtained :: Justifies(q, k, cache.entries[k].message.Value(), cache.entries[k].expires)
        {
          var e := cache.entries[k];
          var q :| q in obtained && Justifies(q, k, old(e.message.Value()), e.expires);
        }
      }
    }

    ghost function Entries(): map<CacheKey, Entry>
      reads this, cache
    {
      if cache == null then map[] else cache.entries
    }

    /** After an answer the cache holds it for its TTL, if that is positive, in place of what it held
        for the same question; the other entries it still has are the earlier ones. */
    ghost predicate Stored(earlier: map<CacheKey, Entry>, question: Question, msg: Msg, now: int)
      reads this, cache, if cache != null then cache.Messages() else {}
    {
      var key := CacheKey(question.name, question.qtype);
      cache != null ==>
        if StoreTtl(msg) == 0 then cache.entries == earlier
        else
          && key in cache.entries
          && cache.entries[key].message.Value() == msg
          && cache.entries[key].expires == now + StoreTtl(msg)
          && forall k <- cache.entries | k != key :: k in earlier && cache.entries[k] == earlier[k]
    }

    /** The cache part of handleRequest on a miss. */
    method Store(key: CacheKey, resp: Message, now: int, ghost question: Question)
      requires cache != null ==> resp !in cache.Messages() && cache.capacity > 0
      requires CacheJustified() && CacheRouted()
      requires question.name == key.name && question.qtype == key.qtype
      requires Obtained(question, resp.Value(), now) in obtained
      modifies cache
      ensures CacheJustified() && RoutedExcept(Addresses(resp.answer))
      ensures cache != null ==> resp !in cache.Messages()
      ensures Stored(old(Entries()), question, resp.Value(), now)
    {
      var ttl := MinTtl(resp.Value());
      if ttl == 0 {
        ttl := NegativeTtl(resp.Value());
      }
      if ttl > 0 && cache != null {
        StoreCopy(key, resp, ttl, now, question);
      }
    }

    method StoreCopy(key: CacheKey, resp: Message, ttl: nat, now: int, ghost question: Question)
      requires cache != null && resp !in cache.Messages() && cache.capacity > 0
      requires CacheJustified() && CacheRouted()
      requires question.name == key.name && question.qtype == key.qtype
      requires ttl == StoreTtl(resp.Value()) > 0
      requires Obtained(question, resp.Value(), now) in obtained
      modifies cache
      ensures CacheJustified() && RoutedExcept(Addresses(resp.answer))
      ensures resp !in cache.Messages()
      ensures Stored(old(Entries()), question, resp.Value(), now)
    {
      var copy := resp.Copy();
      cache.Set(key, copy, ttl, now);
      SetKeepsCache(Obtained(question, resp.Value(), now));
    }

    /** Notes that the answer was obtained and stores it. */
    method Keep(key: CacheKey, resp: Message, now: int, ghost question: Question)
      requires cache != null ==> resp !in cache.Messages() && cache.capacity > 0
      requires CacheJustified() && CacheRouted()
      requires question.name == key.name && question.qtype == key.qtype
      modifies this`obtained, cache
      ensures CacheJustified() && RoutedExcept(Addresses(resp.answer))
      ensures cache != null ==> resp !in cache.Messages()
      ensures Stored(old(Entries()), question, resp.Value(), now)
      ensures obtained == old(obtained) + [Obtained(question, resp.Value(), now)]
    {
      Note(Obtained(question, resp.Value(), now));
      Store(key, resp, now, question);
    }

    ghost method Note(answer: Obtained)
      requires CacheJustified() && CacheRouted()
      modifies this`obtained
      ensures obtained == old(obtained) + [answer] && answer in obtained
      ensures CacheJustified() && CacheRouted()
    {
      ghost var before := obtained;
      obtained := obtained + [answer];
      assert forall o <- before :: o in obtained;
    }

    /** The reply replays o, an upstream answer to this question that is still within its lifetime. */
    ghost predicate Replays(reply: Msg, o: Obtained, request: Msg, now: int)
      requires request.question != []
    {
      && cache != null
      && o.question == request.question[0]
      && Passes(reply, o.msg, request)
      && StoreTtl(o.msg) > 0
      && (now < o.time + StoreTtl(o.msg) || (cache.inclusive && now == o.time + StoreTtl(o.msg)))
    }

    /** The cache hit of handleRequest. */
    method AnswerFromCache(r: Message, now: int) returns (reply: Option<Msg>)
      requires CacheJustified() && r.question != []
      ensures reply.Some? <==> cache != null && cache.Holds(CacheKey(r.question[0].name, r.question[0].qtype), now)
      ensures reply.Some? ==> exists o <- obtained :: Replays(reply.value, o, r.Value(), now)
    {
      if cache != null {
        var key := KeyOf(r.Value());
        var cached := cache.Get(key, now);
        if cached != null {
          ghost var entry := cache.entries[key];
          ghost var o :| o in obtained && Justifies(o, key, entry.message.Value(), entry.expires);
          var resp := cached.Copy();
          var answer := resp.ReplyTo(r);
          assert Replays(answer, o, r.Value(), now);
          return Some(answer);
        }
      }
      return None;
    }

    /** After the answer m, with what was obtained and cached before it: it is noted and stored, and its
        addresses have been tried. */
    ghost predicate Accepted(before: seq<Obtained>, earlier: map<CacheKey, Entry>, m: Msg, request: Msg, world: World, now: int)
      requires request.question != []
      reads this, cache, if cache != null then cache.Messages() else {}, device
    {
      && obtained == before + [Obtained(request.question[0], m, now)]
      && Stored(earlier, request.question[0], m, now)
      && RoutesTried(m, world)
    }

    /** Each address of the answer is covered or its attempt failed, the latter not without a reason if
        the kernel is reliable. */
    ghost predicate RoutesTried(m: Msg, world: World)
      reads this, device
    {
      && (forall ip <- Addresses(m.answer) :: Attempted(device.addedRoutes, failed, ip))
      && (forall rr <- m.answer | rr.A? || rr.AAAA? :: Covered(device.addedRoutes, rr.addr) || rr.addr in failed)
      && (device.kernel.reliable ==> Routable(m.answer, world, device.addedRoutes))
    }

    /** The cache miss of handleRequest: the first upstream's answer, or a failure. */
    method AnswerFromUpstream(r: Message, world: World, now: int) returns (reply: Msg)
      requires Valid() && r.question != []
      modifies this`obtained, this`failed, cache, device`addedRoutes, device.kernel
      ensures Valid()
      ensures var answer := FirstAnswer(world.upstream, upstreams);
              if answer.Some? then
                && Passes(reply, answer.value, r.Value())
                && Accepted(old(obtained), old(Entries()), answer.value, r.Value(), world, now)
              else Refuses(reply, r.Value()) && Untouched()
    {
      var resp := Forward(world.upstream);
      if resp == null {
        reply := r.Refusal();
        return;
      }
      reply := Deliver(r, resp, world, now);
    }

    /** The end of handleRequest: store the answer, add its routes and make it the reply. */
    method Deliver(r: Message, resp: Message, world: World, now: int) returns (reply: Msg)
      requires Valid() && r.question != [] && r != resp
      requires cache != null ==> resp !in cache.Messages()
      modifies this`obtained, this`failed, cache, device`addedRoutes, device.kernel, resp
      ensures Valid()
      ensures Accepted(old(obtained), old(Entries()), old(resp.Value()), r.Value(), world, now)
      ensures Passes(reply, old(resp.Value()), r.Value())
    {
      Accept(r, resp, world, now);
      reply := Finish(r, resp, world, now, old(obtained), old(Entries()));
    }

    /** Turning a message that is not in the cache into a reply leaves what was accepted alone. */
    method Finish(r: Message, resp: Message, world: World, now: int,
                  ghost before: seq<Obtained>, ghost earlier: map<CacheKey, Entry>)
      returns (reply: Msg)
      requires Valid() && r.question != [] && r != resp
      requires cache != null ==> resp !in cache.Messages()
      requires Accepted(before, earlier, resp.Value(), r.Value(), world, now)
      modifies resp
      ensures Valid()
      ensures Accepted(before, earlier, old(resp.Value()), r.Value(), world, now)
      ensures Passes(reply, old(resp.Value()), r.Value())
    {
      reply := resp.ReplyTo(r);
    }

    /** Neither the cache nor the routes have changed, and nothing was obtained. */
    twostate predicate Untouched()
      reads this, cache, device, device.kernel
    {
      && obtained == old(obtained)
      && (cache != null ==> cache.entries == old(cache.entries))
      && device.addedRoutes == old(device.addedRoutes)
      && device.kernel.table == old(device.kernel.table)
    }

    /** Stores an upstream's answer and adds its routes. */
    method Accept(r: Message, resp: Message, world: World, now: int)
      requires Valid() && r.question != []
      requires cache != null ==> resp !in cache.Messages()
      modifies this`obtained, this`failed, cache, device`addedRoutes, device.kernel
      ensures Valid()
      ensures cache != null ==> resp !in cache.Messages()
      ensures Accepted(old(obtained), old(Entries()), resp.Value(), r.Value(), world, now)
    {
      Keep(KeyOf(r.Value()), resp, now, r.question[0]);
      AddRoutesFromResponse(resp, world);
    }

    /**
     * handleRequest. The reply is what is written to the client; a request without a question gets
     * none. No message that existed before is altered, in particular none in the cache.
     */
    method HandleRequest(r: Message, world: World, now: int) returns (reply: Option<Msg>)
      requires Valid()
      modifies this`obtained, this`failed, cache, device`addedRoutes, device.kernel
      ensures Valid()
      ensures reply == None <==> r.question == []
      ensures r.question != [] ==>
                if cache != null && old(cache.Holds(CacheKey(r.question[0].name, r.question[0].qtype), now)) then
                  Untouched() && exists o <- obtained :: Replays(reply.value, o, r.Value(), now)
                else
                  var answer := FirstAnswer(world.upstream, upstreams);
                  if answer.Some? then
                    && Passes(reply.value, answer.value, r.Value())
                    && Accepted(old(obtained), old(Entries()), answer.value, r.Value(), world, now)
                  else Refuses(reply.value, r.Value()) && Untouched()
    {
      if |r.question| == 0 {
        return None;
      }
      reply := AnswerFromCache(r, now);
      if reply.Some? {
        return;
      }
      var fromUpstream := AnswerFromUpstream(r, world, now);
      return Some(fromUpstream);
    }
  }

  lemma RecordsHaveAddresses(rrs: seq<RR>)
    ensures forall rr <- rrs | rr.A? || rr.AAAA? :: rr.addr in Addresses(rrs)
  {
    forall rr <- rrs | rr.A? || rr.AAAA? ensures rr.addr in Addresses(rrs) {
      assert HasAddress(rr);
    }
  }

  lemma AddressesSnoc(rrs: seq<RR>, i: nat)
    requires i < |rrs|
    ensures Addresses(rrs[..i + 1])
         == Addresses(rrs[..i]) + if HasAddress(rrs[i]) then {rrs[i].addr} else {}
  {
    var front, rr := rrs[..i], rrs[i];
    assert rrs[..i + 1] == front + [rr];
    forall ip | ip in Addresses(front) ensures ip in Addresses(front + [rr]) {
      var q :| q in front && HasAddress(q) && q.addr == ip;
      assert q in front + [rr];
    }
    if HasAddress(rr) {
      assert rr in front + [rr];
    }
  }
}
