/**
 * The proxy with concurrent requests. Each request is handled by its own goroutine; a lookup, a store
 * and one AddRouteWithDomain call are single steps, because the cache and the device lock them.
 */
module DnsRuns {
  import opened Bytes
  import opened Prefixes
  import opened Routes
  import opened Dns
  import opened SplitDns

  /** Where a handler stands. */
  datatype Handler =
    | Looking(req: Msg)                         // about to consult the cache
    | Asking(req: Msg)                          // waiting for an upstream
    | Storing(req: Msg, resp: Msg)              // about to store the answer
    | Routing(req: Msg, resp: Msg, next: nat)   // about to deal with answer record next

  datatype Cached = Cached(msg: Msg, expires: int)

  /** A reply written to a client. */
  datatype Served = Served(req: Msg, reply: Msg, time: int, hit: bool)

  datatype State = State(
    capacity: nat,          // 0 is the noopCache
    inclusive: bool,        // whether an entry counts at its very expiry
    clock: nat,
    cache: map<CacheKey, Cached>,
    routes: seq<Route>,
    failed: set<bytes>,
    handlers: map<nat, Handler>,
    obtained: seq<Obtained>,
    log: seq<Served>)

  datatype Action =
    | Tick(seconds: nat)
    | Evict(key: CacheKey)
    | Arrive(h: nat, req: Msg)
    | Hit(h: nat)
    | Miss(h: nat)
    | Answered(h: nat, resp: Msg)
    | AllFailed(h: nat)
    | Store(h: nat, evicted: set<CacheKey>)
    | TryRoute(h: nat, granted: bool)
    | Finish(h: nat)

  predicate Fresh(s: State, c: Cached) {
    s.clock < c.expires || (s.inclusive && s.clock == c.expires)
  }

  /** The cache can answer this request. */
  predicate Held(s: State, req: Msg) {
    req.question != [] && KeyOf(req) in s.cache && Fresh(s, s.cache[KeyOf(req)])
  }

  function AfterSet(s: State, key: CacheKey, c: Cached, evicted: set<CacheKey>): map<CacheKey, Cached> {
    if s.capacity == 0 then s.cache else s.cache[key := c] - evicted
  }

  predicate Enabled(s: State, a: Action) {
    match a
    case Tick(_) => true
    case Evict(_) => true
    case Arrive(h, req) => h !in s.handlers && req.question != []
    case Hit(h) => h in s.handlers && s.handlers[h].Looking? && Held(s, s.handlers[h].req)
    case Miss(h) => h in s.handlers && s.handlers[h].Looking? && !Held(s, s.handlers[h].req)
    case Answered(h, _) => h in s.handlers && s.handlers[h].Asking?
    case AllFailed(h) => h in s.handlers && s.handlers[h].Asking?
    case Store(h, evicted) =>
      && h in s.handlers && s.handlers[h].Storing? && s.handlers[h].req.question != []
      && var resp := s.handlers[h].resp;
         |AfterSet(s, KeyOf(s.handlers[h].req), Cached(resp, s.clock + StoreTtl(resp)), evicted)| <= s.capacity
    case TryRoute(h, granted) =>
      && h in s.handlers && s.handlers[h].Routing? && s.handlers[h].next < |s.handlers[h].resp.answer|
      && var rr := s.handlers[h].resp.answer[s.handlers[h].next];
         HasAddress(rr) && granted ==> ValidRoute(HostRoute(rr.addr))
    case Finish(h) =>
      h in s.handlers && s.handlers[h].Routing? && s.handlers[h].next >= |s.handlers[h].resp.answer|
  }

  function Serve(s: State, h: nat, reply: Msg, hit: bool): State
    requires h in s.handlers
  {
    s.(handlers := s.handlers - {h}, log := s.log + [Served(s.handlers[h].req, reply, s.clock, hit)])
  }

  ghost function Apply(s: State, a: Action): State
    requires Enabled(s, a)
  {
    match a
    case Tick(seconds) => s.(clock := s.clock + seconds)
    case Evict(key) => s.(cache := s.cache - {key})
    case Arrive(h, req) => s.(handlers := s.handlers[h := Looking(req)])
    case Hit(h) =>
      var req := s.handlers[h].req;
      Serve(s, h, ReplyFrom(s.cache[KeyOf(req)].msg, req), true)
    case Miss(h) => s.(handlers := s.handlers[h := Asking(s.handlers[h].req)])
    case Answered(h, resp) => s.(handlers := s.handlers[h := Storing(s.handlers[h].req, resp)])
    case AllFailed(h) => Serve(s, h, ServerFailure(s.handlers[h].req), false)
    case Store(h, evicted) =>
      var req, resp := s.handlers[h].req, s.handlers[h].resp;
      var s' := s.(handlers := s.handlers[h := Routing(req, resp, 0)],
                   obtained := s.obtained + [Obtained(req.question[0], resp, s.clock)]);
      if StoreTtl(resp) > 0 then
        s'.(cache := AfterSet(s, KeyOf(req), Cached(resp, s.clock + StoreTtl(resp)), evicted))
      else s'
    case TryRoute(h, granted) =>
      var Routing(req, resp, next) := s.handlers[h];
      var s' := s.(handlers := s.handlers[h := Routing(req, resp, next + 1)]);
      var rr := resp.answer[next];
      if !HasAddress(rr) then s'
      else
        s'.(routes := AfterAdd(s.routes, AddCall(rr.addr, granted)),
            failed := if granted || Covered(s.routes, rr.addr) then s.failed else s.failed + {rr.addr})
    case Finish(h) => Serve(s, h, ReplyFrom(s.handlers[h].resp, s.handlers[h].req), false)
  }

  ghost predicate Init(s: State) {
    s.cache == map[] && s.failed == {} && s.handlers == map[] && s.obtained == [] && s.log == []
  }

  ghost predicate Run(trace: seq<State>, actions: seq<Action>) {
    && |trace| == |actions| + 1 && Init(trace[0])
    && forall i | 0 <= i < |actions| :: Enabled(trace[i], actions[i]) && trace[i + 1] == Apply(trace[i], actions[i])
  }

  // ----- Cached addresses and routes -----

  /** Some handler has still to try this address. */
  ghost predicate Pending(handlers: map<nat, Handler>, ip: bytes) {
    exists h <- handlers :: StillTries(handlers[h], ip)
  }

  ghost predicate StillTries(h: Handler, ip: bytes) {
    h.Routing? && h.next <= |h.resp.answer| && ip in Addresses(h.resp.answer[h.next..])
  }

  ghost predicate Accounted(s: State, ip: bytes) {
    Attempted(s.routes, s.failed, ip) || Pending(s.handlers, ip)
  }

  ghost predicate CoverageInv(s: State) {
    && (forall k <- s.cache :: forall ip <- Addresses(s.cache[k].msg.answer) :: Accounted(s, ip))
    && (forall h <- s.handlers :: s.handlers[h].Routing? ==> s.handlers[h].next <= |s.handlers[h].resp.answer|)
  }

  /** Removing or replacing a handler that tries nothing leaves every pending address pending. */
  lemma PendingKept(handlers: map<nat, Handler>, handlers': map<nat, Handler>, h: nat, ip: bytes)
    requires Pending(handlers, ip)
    requires forall g <- handlers | g != h :: g in handlers' && handlers'[g] == handlers[g]
    requires h in handlers ==> !StillTries(handlers[h], ip)
    ensures Pending(handlers', ip)
  {
    var g :| g in handlers && StillTries(handlers[g], ip);
    assert g in handlers' && StillTries(handlers'[g], ip);
  }

  /** A step of handler h that leaves routes and failures alone and did not involve routing. */
  lemma AccountedKept(s: State, s': State, h: nat, ip: bytes)
    requires Accounted(s, ip) && s'.routes == s.routes && s'.failed == s.failed
    requires forall g <- s.handlers | g != h :: g in s'.handlers && s'.handlers[g] == s.handlers[g]
    requires h in s.handlers ==> !StillTries(s.handlers[h], ip)
    ensures Accounted(s', ip)
  {
    if Pending(s.handlers, ip) {
      PendingKept(s.handlers, s'.handlers, h, ip);
    }
  }

  lemma AddressesCons(rrs: seq<RR>, i: nat)
    requires i < |rrs|
    ensures Addresses(rrs[i..])
         == Addresses(rrs[i + 1..]) + if HasAddress(rrs[i]) then {rrs[i].addr} else {}
  {
    var tail, rr := rrs[i + 1..], rrs[i];
    assert rrs[i..] == [rr] + tail;
    forall ip | ip in Addresses(tail) ensures ip in Addresses([rr] + tail) {
      var q :| q in tail && HasAddress(q) && q.addr == ip;
      assert q in [rr] + tail;
    }
    if HasAddress(rr) {
      assert rr in [rr] + tail;
    }
  }

  lemma TryRouteAccounts(s: State, h: nat, granted: bool, ip: bytes)
    requires Enabled(s, TryRoute(h, granted)) && Accounted(s, ip)
    ensures Accounted(Apply(s, TryRoute(h, granted)), ip)
  {
    var s' := Apply(s, TryRoute(h, granted));
    var Routing(req, resp, next) := s.handlers[h];
    AddressesCons(resp.answer, next);
    if Attempted(s.routes, s.failed, ip) {
      if Covered(s.routes, ip) {
        CoveredMonotone(s.routes, s'.routes, ip);
      }
    } else if StillTries(s.handlers[h], ip) {
      if ip in Addresses(resp.answer[next + 1..]) {
        assert StillTries(s'.handlers[h], ip);
      } else {
        assert HasAddress(resp.answer[next]) && resp.answer[next].addr == ip;
        if granted && !Covered(s.routes, ip) {
          CoveredAfterAdd(s.routes, ip, ip);
        }
      }
    } else {
      PendingKept(s.handlers, s'.handlers, h, ip);
    }
  }

  lemma StoreAccounts(s: State, h: nat, evicted: set<CacheKey>)
    requires Enabled(s, Store(h, evicted)) && CoverageInv(s)
    ensures CoverageInv(Apply(s, Store(h, evicted)))
  {
    var s' := Apply(s, Store(h, evicted));
    var key, resp := KeyOf(s.handlers[h].req), s.handlers[h].resp;
    forall k <- s'.cache, ip <- Addresses(s'.cache[k].msg.answer) ensures Accounted(s', ip) {
      if k in s.cache && s'.cache[k] == s.cache[k] {
        AccountedKept(s, s', h, ip);
      } else {
        assert s'.cache[k].msg == resp && resp.answer[0..] == resp.answer;
        assert StillTries(s'.handlers[h], ip);
      }
    }
  }

  lemma StepKeepsCoverage(s: State, a: Action)
    requires CoverageInv(s) && Enabled(s, a)
    ensures CoverageInv(Apply(s, a))
  {
    var s' := Apply(s, a);
    if a.Store? {
      StoreAccounts(s, a.h, a.evicted);
    } else {
      forall k <- s'.cache, ip <- Addresses(s'.cache[k].msg.answer) ensures Accounted(s', ip) {
        assert k in s.cache && s'.cache[k] == s.cache[k];
        if a.TryRoute? {
          TryRouteAccounts(s, a.h, a.granted, ip);
        } else if !a.Tick? && !a.Evict? {
          AccountedKept(s, s', a.h, ip);
        }
      }
    }
  }

  lemma {:induction false} RunKeepsCoverage(trace: seq<State>, actions: seq<Action>, i: nat)
    requires Run(trace, actions) && i < |trace|
    ensures CoverageInv(trace[i])
  {
    if i > 0 {
      RunKeepsCoverage(trace, actions, i - 1);
      StepKeepsCoverage(trace[i - 1], actions[i - 1]);
    }
  }

  /** In every reachable state, each address of a cached answer is covered by a tracked route, has had
      an attempt that failed, or is still to be tried by a handler in flight; when no handler is adding
      routes the last case is gone. */
  lemma CachedAddressesRouted(trace: seq<State>, actions: seq<Action>, i: nat, key: CacheKey, rr: RR)
    requires Run(trace, actions) && i < |trace|
    requires key in trace[i].cache && rr in trace[i].cache[key].msg.answer && (rr.A? || rr.AAAA?)
    ensures var s := trace[i];
            && (Covered(s.routes, rr.addr) || rr.addr in s.failed || Pending(s.handlers, rr.addr))
            && ((forall h <- s.handlers :: !s.handlers[h].Routing?) ==> Covered(s.routes, rr.addr) || rr.addr in s.failed)
  {
    RunKeepsCoverage(trace, actions, i);
    assert rr.addr in Addresses(trace[i].cache[key].msg.answer);
    assert Accounted(trace[i], rr.addr);
  }

  /** Step k tried to add a route for the address, which no tracked route covered, and was refused. */
  ghost predicate Refused(s: State, a: Action, ip: bytes) {
    && a.TryRoute? && !a.granted && Enabled(s, a)
    && !Covered(s.routes, ip)
    && var rr := s.handlers[a.h].resp.answer[s.handlers[a.h].next];
       rr == A(rr.ttl, ip) || rr == AAAA(rr.ttl, ip)
  }

  /** An address counts as failed only if an attempt for it was refused while it was not covered. */
  lemma {:induction false} FailedWasRefused(trace: seq<State>, actions: seq<Action>, i: nat, ip: bytes)
    requires Run(trace, actions) && i < |trace| && ip in trace[i].failed
    ensures exists k: nat | k < i :: Refused(trace[k], actions[k], ip)
  {
    assert i > 0;
    assert trace[i] == Apply(trace[i - 1], actions[i - 1]);
    if ip in trace[i - 1].failed {
      FailedWasRefused(trace, actions, i - 1, ip);
    } else {
      assert Refused(trace[i - 1], actions[i - 1], ip);
    }
  }

  ghost predicate Reachable(s: State) {
    exists trace: seq<State>, actions: seq<Action> :: Run(trace, actions) && trace[|actions|] == s
  }

  lemma ReachStep(s: State, a: Action)
    requires Reachable(s) && Enabled(s, a)
    ensures Reachable(Apply(s, a))
  {
    var trace: seq<State>, actions: seq<Action> :| Run(trace, actions) && trace[|actions|] == s;
    StepsSnoc(trace, actions, (p, b, q) => Enabled(p, b) && q == Apply(p, b), a, Apply(s, a));
    var trace', actions' := trace + [Apply(s, a)], actions + [a];
    assert Run(trace', actions') && trace'[|actions'|] == Apply(s, a);
  }

  lemma ReachStart(s: State)
    requires Init(s)
    ensures Reachable(s)
  {
    var trace: seq<State>, actions: seq<Action> := [s], [];
    assert Run(trace, actions) && trace[|actions|] == s;
  }

  function With(s: State, h: Handler): State {
    s.(handlers := map[0 := h])
  }

  lemma OnlyHandler(a: Handler, b: Handler)
    ensures map[0 := a][0 := b] == map[0 := b]
  {
  }

  /** From the start a single request can come as far as having its answer in hand. */
  lemma AnswerInHand(s: State, req: Msg, resp: Msg)
    requires Init(s) && req.question != []
    ensures Reachable(With(s, Storing(req, resp)))
  {
    ReachStart(s);
    ReachStep(s, Arrive(0, req));
    OnlyHandler(Looking(req), Asking(req));
    ReachStep(With(s, Looking(req)), Miss(0));
    OnlyHandler(Asking(req), Storing(req, resp));
    ReachStep(With(s, Asking(req)), Answered(0, resp));
  }

  /** The answer is in the cache and none of its routes has been tried. */
  function JustStored(s: State, req: Msg, resp: Msg): State
    requires req.question != []
  {
    s.(cache := map[KeyOf(req) := Cached(resp, s.clock + StoreTtl(resp))],
       handlers := map[0 := Routing(req, resp, 0)],
       obtained := s.obtained + [Obtained(req.question[0], resp, s.clock)])
  }

  lemma StoreStores(s: State, req: Msg, resp: Msg)
    requires s.capacity == 1 && s.cache == map[] && s.handlers == map[0 := Storing(req, resp)]
    requires req.question != [] && StoreTtl(resp) > 0
    ensures Enabled(s, Store(0, {})) && Apply(s, Store(0, {})) == JustStored(s, req, resp)
  {
    var key, c := KeyOf(req), Cached(resp, s.clock + StoreTtl(resp));
    OneEntry(key, c);
    OnlyHandler(Storing(req, resp), Routing(req, resp, 0));
  }

  lemma OneEntry(key: CacheKey, c: Cached)
    ensures map[][key := c] - {} == map[key := c] && |map[key := c]| == 1
  {
  }

  lemma AnswerStored(s: State, req: Msg, resp: Msg)
    requires Reachable(s) && s.capacity == 1 && s.cache == map[]
    requires s.handlers == map[0 := Storing(req, resp)] && req.question != [] && StoreTtl(resp) > 0
    ensures Reachable(JustStored(s, req, resp))
  {
    StoreStores(s, req, resp);
    ReachStep(s, Store(0, {}));
  }

  lemma SecondRequestHits(s: State, req: Msg, c: Cached) returns (s': State)
    requires Reachable(s) && 1 !in s.handlers && req.question != []
    requires KeyOf(req) in s.cache && s.cache[KeyOf(req)] == c && Fresh(s, c)
    ensures Reachable(s') && s'.routes == s.routes && s'.failed == s.failed
    ensures s'.log == s.log + [Served(req, ReplyFrom(c.msg, req), s.clock, true)]
  {
    ReachStep(s, Arrive(1, req));
    var s1 := s.(handlers := s.handlers[1 := Looking(req)]);
    ReachStep(s1, Hit(1));
    s' := Serve(s1, 1, ReplyFrom(c.msg, req), true);
  }

  /** An answer has been served from the cache although nobody has tried to route an address in it. */
  ghost predicate ServedPrematurely(s: State) {
    exists e <- s.log, ip <- Addresses(e.reply.answer) :: e.hit && !Attempted(s.routes, s.failed, ip)
  }

  /** The cache is filled before routes are added, so with concurrent handlers the stronger statement
      fails: a second request is answered from the cache before the first has tried to route the
      address. */
  lemma HitBeforeRoutes()
    ensures exists s: State :: Reachable(s) && ServedPrematurely(s)
  {
    var ip: bytes := [10, 0, 0, 1];
    var req := Msg(7, false, 0, [Question("a.", 1)], [], [], [], []);
    var resp := req.(response := true, answer := [A(60, ip)]);
    AnswerTtl(resp, 60);
    var s := State(1, false, 0, map[], [], {}, map[], [], []);
    AnswerInHand(s, req, resp);
    AnswerStored(With(s, Storing(req, resp)), req, resp);
    var stored := JustStored(With(s, Storing(req, resp)), req, resp);
    var s' := SecondRequestHits(stored, req, Cached(resp, 60));
    IsPremature(s', Served(req, ReplyFrom(resp, req), 0, true), ip);
  }

  lemma IsPremature(s: State, e: Served, ip: bytes)
    requires s.routes == [] && s.failed == {} && s.log == [e] && e.hit && e.reply.answer == [A(60, ip)]
    ensures ServedPrematurely(s)
  {
    assert A(60, ip) in e.reply.answer && ip in Addresses(e.reply.answer);
    assert e in s.log && !Attempted(s.routes, s.failed, ip);
  }

  /** One request, alone and with every attempt granted, gets its answer and its routes. */
  lemma RequestCompletes(s: State, req: Msg, resp: Msg)
    requires Init(s) && s.capacity == 1 && req.question != [] && StoreTtl(resp) > 0
    requires forall rr <- resp.answer | rr.A? || rr.AAAA? :: ValidRoute(HostRoute(rr.addr))
    ensures exists s': State ::
              && Reachable(s')
              && s'.handlers == map[] && s'.failed == {}
              && |s'.log| == 1 && s'.log[0].req == req && !s'.log[0].hit && Passes(s'.log[0].reply, resp, req)
              && forall rr <- resp.answer | rr.A? || rr.AAAA? :: Covered(s'.routes, rr.addr)
  {
    AnswerInHand(s, req, resp);
    AnswerStored(With(s, Storing(req, resp)), req, resp);
    var s1 := RoutesAdded(JustStored(With(s, Storing(req, resp)), req, resp), req, resp, 0);
    ReachStep(s1, Finish(0));
    var s2 := Apply(s1, Finish(0));
    assert s2.handlers == map[];
    assert s2.log[0] == Served(req, ReplyFrom(resp, req), s1.clock, false);
  }

  /** The handler deals with the records from next on, one granted attempt after the other. */
  lemma {:induction false} RoutesAdded(s: State, req: Msg, resp: Msg, next: nat) returns (s': State)
    requires Reachable(s) && next <= |resp.answer| && s.handlers == map[0 := Routing(req, resp, next)]
    requires s.failed == {} && s.log == []
    requires forall rr <- resp.answer | rr.A? || rr.AAAA? :: ValidRoute(HostRoute(rr.addr))
    requires forall i | 0 <= i < next && HasAddress(resp.answer[i]) :: Covered(s.routes, resp.answer[i].addr)
    ensures Reachable(s') && s'.handlers == map[0 := Routing(req, resp, |resp.answer|)]
    ensures s'.failed == {} && s'.log == []
    ensures forall i | 0 <= i < |resp.answer| && HasAddress(resp.answer[i]) :: Covered(s'.routes, resp.answer[i].addr)
    decreases |resp.answer| - next
  {
    if next == |resp.answer| {
      return s;
    }
    assert resp.answer[next] in resp.answer;
    RouteStep(s, req, resp, next);
    var s1 := AfterRoute(s, req, resp, next);
    RouteAdded(s, s1, resp, next);
    s' := RoutesAdded(s1, req, resp, next + 1);
  }

  /** The attempt for record next, if it has an address, has been granted. */
  ghost function AfterRoute(s: State, req: Msg, resp: Msg, next: nat): State
    requires next < |resp.answer|
  {
    var rr := resp.answer[next];
    With(s, Routing(req, resp, next + 1)).(
      routes := if HasAddress(rr) then AfterAdd(s.routes, AddCall(rr.addr, true)) else s.routes)
  }

  lemma RouteStep(s: State, req: Msg, resp: Msg, next: nat)
    requires Reachable(s) && next < |resp.answer| && s.handlers == map[0 := Routing(req, resp, next)]
    requires HasAddress(resp.answer[next]) ==> ValidRoute(HostRoute(resp.answer[next].addr))
    ensures Reachable(AfterRoute(s, req, resp, next))
  {
    OnlyHandler(Routing(req, resp, next), Routing(req, resp, next + 1));
    ReachStep(s, TryRoute(0, true));
  }

  lemma RouteAdded(s: State, s': State, resp: Msg, next: nat)
    requires next < |resp.answer| && (HasAddress(resp.answer[next]) ==> ValidRoute(HostRoute(resp.answer[next].addr)))
    requires s'.routes == if HasAddress(resp.answer[next])
                        then AfterAdd(s.routes, AddCall(resp.answer[next].addr, true)) else s.routes
    requires forall i | 0 <= i < next && HasAddress(resp.answer[i]) :: Covered(s.routes, resp.answer[i].addr)
    ensures forall i | 0 <= i <= next && HasAddress(resp.answer[i]) :: Covered(s'.routes, resp.answer[i].addr)
  {
    forall i | 0 <= i <= next && HasAddress(resp.answer[i]) ensures Covered(s'.routes, resp.answer[i].addr) {
      if i < next {
        CoveredMonotone(s.routes, s'.routes, resp.answer[i].addr);
      } else if !Covered(s.routes, resp.answer[i].addr) {
        CoveredAfterAdd(s.routes, resp.answer[i].addr, resp.answer[i].addr);
      }
    }
  }

  /** Without any answer the request is refused. */
  lemma RequestFails(s: State, req: Msg)
    requires Init(s) && req.question != []
    ensures exists s': State ::
              && Reachable(s') && s'.handlers == map[] && s'.routes == s.routes && s'.cache == map[]
              && |s'.log| == 1 && s'.log[0].req == req && Refuses(s'.log[0].reply, req)
  {
    ReachStart(s);
    ReachStep(s, Arrive(0, req));
    OnlyHandler(Looking(req), Asking(req));
    ReachStep(With(s, Looking(req)), Miss(0));
    ReachStep(With(s, Asking(req)), AllFailed(0));
    var s' := Apply(With(s, Asking(req)), AllFailed(0));
    assert s'.handlers == map[];
    assert s'.log[0] == Served(req, ServerFailure(req), s.clock, false);
  }

  lemma AnswerTtl(m: Msg, ttl: nat)
    requires |m.answer| == 1 && m.answer[0].ttl == ttl && m.ns == [] && m.extra == []
    ensures ttl > 0 ==> StoreTtl(m) == ttl
  {
    assert AllTtls(m) == [ttl];
    assert MinTtlOf([ttl]) == ttl;
  }

  /** The cache never holds more than its capacity. */
  lemma {:induction false} CacheBounded(trace: seq<State>, actions: seq<Action>, i: nat)
    requires Run(trace, actions) && i < |trace|
    ensures |trace[i].cache| <= trace[i].capacity
  {
    if i > 0 {
      CacheBounded(trace, actions, i - 1);
      StepKeepsBound(trace[i - 1], actions[i - 1]);
    }
  }

  lemma StepKeepsBound(s: State, a: Action)
    requires |s.cache| <= s.capacity && Enabled(s, a)
    ensures |Apply(s, a).cache| <= Apply(s, a).capacity
  {
    match a {
      case Evict(key) => RemovedIsSmaller(s.cache, key);
      case Store(h, evicted) =>
      case _ => assert Apply(s, a).cache == s.cache;
    }
  }

  lemma RemovedIsSmaller(m: map<CacheKey, Cached>, key: CacheKey)
    ensures |m - {key}| <= |m|
  {
    var rest := m - {key};
    assert rest.Keys <= m.Keys;
    SubsetIsSmaller(rest.Keys, m.Keys);
    assert |rest| == |rest.Keys| && |m| == |m.Keys|;
  }

  lemma SubsetIsSmaller<T>(a: set<T>, b: set<T>)
    requires a <= b
    ensures |a| <= |b|
  {
    assert b == a + (b - a);
  }

  // ----- Replies -----

  /** A hit replays an upstream answer to the same question within its lifetime. */
  ghost predicate HitJustified(s: State, e: Served) {
    && e.req.question != []
    && exists o <- s.obtained ::
         && o.question == e.req.question[0]
         && Passes(e.reply, o.msg, e.req)
         && StoreTtl(o.msg) > 0
         && o.time <= e.time
         && (e.time < o.time + StoreTtl(o.msg) || (s.inclusive && e.time == o.time + StoreTtl(o.msg)))
  }

  /** A reply that is not a hit is a SERVFAIL or an upstream's answer to the same question. */
  ghost predicate MissJustified(s: State, e: Served) {
    || Refuses(e.reply, e.req)
    || (e.req.question != []
        && exists o <- s.obtained :: o.question == e.req.question[0] && Passes(e.reply, o.msg, e.req) && o.time <= e.time)
  }

  /** What a handler is adding routes for was obtained for its own question. */
  ghost predicate AnswerObtained(s: State, h: Handler) {
    h.Routing? ==>
      && h.req.question != []
      && exists o <- s.obtained :: o.question == h.req.question[0] && o.msg == h.resp && o.time <= s.clock
  }

  ghost predicate MissInv(s: State) {
    && (forall e <- s.log | !e.hit :: MissJustified(s, e))
    && (forall h <- s.handlers :: AnswerObtained(s, s.handlers[h]))
  }

  lemma AnswerStaysObtained(s: State, s': State, h: Handler)
    requires AnswerObtained(s, h) && s.obtained <= s'.obtained && s.clock <= s'.clock
    ensures AnswerObtained(s', h)
  {
    if h.Routing? {
      var o :| o in s.obtained && o.question == h.req.question[0] && o.msg == h.resp && o.time <= s.clock;
      assert o in s'.obtained;
    }
  }

  lemma MissStaysJustified(s: State, s': State, e: Served)
    requires MissJustified(s, e) && s.obtained <= s'.obtained
    ensures MissJustified(s', e)
  {
    if !Refuses(e.reply, e.req) {
      var o :| o in s.obtained && o.question == e.req.question[0] && Passes(e.reply, o.msg, e.req) && o.time <= e.time;
      assert o in s'.obtained;
    }
  }

  /** The handler and the reply that this step adds, if any, are in order. */
  ghost predicate NewInOrder(s: State, s': State) {
    && s.obtained <= s'.obtained && s.clock <= s'.clock
    && (forall e <- s'.log | !e.hit && e !in s.log :: MissJustified(s', e))
    && (forall h <- s'.handlers :: AnswerObtained(s', s'.handlers[h]) || (h in s.handlers && s'.handlers[h] == s.handlers[h]))
  }

  lemma MissKept(s: State, s': State)
    requires MissInv(s) && NewInOrder(s, s')
    ensures MissInv(s')
  {
    forall e <- s'.log | !e.hit ensures MissJustified(s', e) {
      if e in s.log {
        MissStaysJustified(s, s', e);
      }
    }
    forall h <- s'.handlers ensures AnswerObtained(s', s'.handlers[h]) {
      if h in s.handlers && s'.handlers[h] == s.handlers[h] {
        AnswerStaysObtained(s, s', s.handlers[h]);
      }
    }
  }

  lemma StoreInOrder(s: State, h: nat, evicted: set<CacheKey>)
    requires Enabled(s, Store(h, evicted))
    ensures NewInOrder(s, Apply(s, Store(h, evicted)))
  {
    var s' := Apply(s, Store(h, evicted));
    var o := Obtained(s.handlers[h].req.question[0], s.handlers[h].resp, s.clock);
    assert o in s'.obtained;
    assert AnswerObtained(s', s'.handlers[h]);
  }

  lemma RouteInOrder(s: State, h: nat, granted: bool)
    requires MissInv(s) && Enabled(s, TryRoute(h, granted))
    ensures NewInOrder(s, Apply(s, TryRoute(h, granted)))
  {
    var s' := Apply(s, TryRoute(h, granted));
    var o :| o in s.obtained && o.question == s.handlers[h].req.question[0] && o.msg == s.handlers[h].resp && o.time <= s.clock;
    assert AnswerObtained(s', s'.handlers[h]);
  }

  lemma FinishInOrder(s: State, h: nat)
    requires MissInv(s) && Enabled(s, Finish(h))
    ensures NewInOrder(s, Apply(s, Finish(h)))
  {
    var s' := Apply(s, Finish(h));
    var o :| o in s.obtained && o.question == s.handlers[h].req.question[0] && o.msg == s.handlers[h].resp && o.time <= s.clock;
    assert o in s'.obtained;
    assert MissJustified(s', Served(s.handlers[h].req, ReplyFrom(s.handlers[h].resp, s.handlers[h].req), s.clock, false));
  }

  lemma StepKeepsMisses(s: State, a: Action)
    requires MissInv(s) && Enabled(s, a)
    ensures MissInv(Apply(s, a))
  {
    match a {
      case Store(h, evicted) => StoreInOrder(s, h, evicted);
      case TryRoute(h, granted) => RouteInOrder(s, h, granted);
      case Finish(h) => FinishInOrder(s, h);
      case _ =>
    }
    MissKept(s, Apply(s, a));
  }

  lemma {:induction false} MissesAnswerTheQuestion(trace: seq<State>, actions: seq<Action>, i: nat)
    requires Run(trace, actions) && i < |trace|
    ensures MissInv(trace[i])
  {
    if i > 0 {
      MissesAnswerTheQuestion(trace, actions, i - 1);
      StepKeepsMisses(trace[i - 1], actions[i - 1]);
    }
  }

  /** Every cached message is an upstream's answer to its question, stored for its TTL. */
  ghost predicate EntriesInv(s: State) {
    forall k <- s.cache ::
      exists o <- s.obtained :: Justifies(o, k, s.cache[k].msg, s.cache[k].expires) && o.time <= s.clock
  }

  ghost predicate LogInv(s: State) {
    forall e <- s.log | e.hit :: HitJustified(s, e) && s.capacity > 0
  }

  ghost predicate CacheInv(s: State) {
    && EntriesInv(s)
    && LogInv(s)
    && (s.capacity == 0 ==> s.cache == map[])
    && (forall h <- s.handlers :: s.handlers[h].req.question != [])
  }

  lemma EntriesKept(s: State, s': State)
    requires EntriesInv(s) && s'.obtained == s.obtained && s.clock <= s'.clock
    requires forall k <- s'.cache :: k in s.cache && s'.cache[k] == s.cache[k]
    ensures EntriesInv(s')
  {
    forall k <- s'.cache
      ensures exists o <- s'.obtained :: Justifies(o, k, s'.cache[k].msg, s'.cache[k].expires) && o.time <= s'.clock
    {
      var o :| o in s.obtained && Justifies(o, k, s.cache[k].msg, s.cache[k].expires) && o.time <= s.clock;
    }
  }

  lemma LogKept(s: State, s': State)
    requires LogInv(s) && s'.capacity == s.capacity && s'.inclusive == s.inclusive && s.obtained <= s'.obtained
    requires forall e <- s'.log | e.hit :: e in s.log
    ensures LogInv(s')
  {
    forall e <- s'.log | e.hit ensures HitJustified(s', e) {
      assert HitJustified(s, e);
      assert forall o <- s.obtained :: o in s'.obtained;
    }
  }

  lemma HitServed(s: State, h: nat)
    requires CacheInv(s) && Enabled(s, Hit(h))
    ensures CacheInv(Apply(s, Hit(h)))
  {
    var s' := Apply(s, Hit(h));
    var req := s.handlers[h].req;
    var c := s.cache[KeyOf(req)];
    var o :| o in s.obtained && Justifies(o, KeyOf(req), c.msg, c.expires) && o.time <= s.clock;
    var served := Served(req, ReplyFrom(c.msg, req), s.clock, true);
    assert HitJustified(s', served);
    EntriesKept(s, s');
    forall e <- s'.log | e.hit ensures HitJustified(s', e) {
      assert e in s.log || e == served;
      if e != served {
        assert HitJustified(s, e);
      }
    }
  }

  lemma StoreKeepsCache(s: State, h: nat, evicted: set<CacheKey>)
    requires CacheInv(s) && Enabled(s, Store(h, evicted))
    ensures CacheInv(Apply(s, Store(h, evicted)))
  {
    var s' := Apply(s, Store(h, evicted));
    var key, resp := KeyOf(s.handlers[h].req), s.handlers[h].resp;
    var o := Obtained(s.handlers[h].req.question[0], resp, s.clock);
    assert o in s'.obtained && forall q <- s.obtained :: q in s'.obtained;
    forall k <- s'.cache
      ensures exists q <- s'.obtained ::
                Justifies(q, k, s'.cache[k].msg, s'.cache[k].expires) && q.time <= s'.clock
    {
      if k in s.cache && s'.cache[k] == s.cache[k] {
        var q :| q in s.obtained && Justifies(q, k, s.cache[k].msg, s.cache[k].expires) && q.time <= s.clock;
        assert q in s'.obtained;
      } else {
        assert Justifies(o, k, s'.cache[k].msg, s'.cache[k].expires);
      }
    }
    LogKept(s, s');
  }

  /** A step that stores nothing and serves nothing from the cache. */
  lemma OtherKeepsCache(s: State, a: Action, s': State)
    requires CacheInv(s) && Enabled(s, a) && s' == Apply(s, a) && !a.Hit? && !a.Store?
    ensures CacheInv(s')
  {
    EntriesKept(s, s');
    LogKept(s, s');
  }

  lemma StepKeepsCache(s: State, a: Action)
    requires CacheInv(s) && Enabled(s, a)
    ensures CacheInv(Apply(s, a))
  {
    match a {
      case Hit(h) => HitServed(s, h);
      case Store(h, evicted) => StoreKeepsCache(s, h, evicted);
      case _ => OtherKeepsCache(s, a, Apply(s, a));
    }
  }

  lemma {:induction false} RunKeepsCache(trace: seq<State>, actions: seq<Action>, i: nat)
    requires Run(trace, actions) && i < |trace|
    ensures CacheInv(trace[i])
  {
    if i > 0 {
      RunKeepsCache(trace, actions, i - 1);
      StepKeepsCache(trace[i - 1], actions[i - 1]);
    }
  }

  /** Every reply served on a hit is, up to ID and wire data, an upstream's answer for the same name and
      type obtained at most its computed TTL earlier, and carries the current request's ID. */
  lemma HitsReplayFreshAnswers(trace: seq<State>, actions: seq<Action>, i: nat, e: Served)
    requires Run(trace, actions) && i < |trace| && e in trace[i].log && e.hit
    ensures HitJustified(trace[i], e) && e.reply.id == e.req.id
  {
    RunKeepsCache(trace, actions, i);
  }

  // ----- The cache is transparent -----

  /** An upstream that depends on name and type only: no answer, or one with this content. */
  type Upstream = (string, nat) -> Option<Msg>

  /** What the upstream says to this request's name and type. */
  function Ask(u: Upstream, req: Msg): Option<Msg>
    requires req.question != []
  {
    u(req.question[0].name, req.question[0].qtype)
  }

  predicate SameContent(a: Msg, b: Msg) {
    && a.response == b.response && a.rcode == b.rcode && a.question == b.question
    && a.answer == b.answer && a.ns == b.ns && a.extra == b.extra
  }

  /** The exchanges of this action agree with the upstream. */
  ghost predicate Faithful(s: State, a: Action, u: Upstream)
    requires Enabled(s, a)
  {
    match a
    case Answered(h, resp) =>
      && s.handlers[h].req.question != []
      && Ask(u, s.handlers[h].req).Some?
      && SameContent(resp, Ask(u, s.handlers[h].req).value)
    case AllFailed(h) =>
      s.handlers[h].req.question != [] && Ask(u, s.handlers[h].req) == None
    case _ => true
  }

  ghost predicate FaithfulRun(trace: seq<State>, actions: seq<Action>, u: Upstream) {
    Run(trace, actions) && forall i | 0 <= i < |actions| :: Faithful(trace[i], actions[i], u)
  }

  /** What a proxy that always asks would reply. */
  function DirectReply(req: Msg, u: Upstream): Msg
    requires req.question != []
  {
    if Ask(u, req).Some? then
      var m := Ask(u, req).value;
      Msg(req.id, m.response, m.rcode, m.question, m.answer, m.ns, m.extra, [])
    else Msg(req.id, true, 2, req.question, req.answer, req.ns, req.extra, [])
  }

  ghost predicate Speaks(m: Msg, req: Msg, u: Upstream) {
    req.question != [] && Ask(u, req).Some? && SameContent(m, Ask(u, req).value)
  }

  lemma SpeaksReply(m: Msg, req: Msg, u: Upstream)
    requires Speaks(m, req, u)
    ensures ReplyFrom(m, req) == DirectReply(req, u)
  {
  }

  ghost predicate TransparentInv(s: State, u: Upstream) {
    && (forall k <- s.cache ::
          u(k.name, k.qtype).Some? && SameContent(s.cache[k].msg, u(k.name, k.qtype).value))
    && (forall h <- s.handlers :: s.handlers[h].req.question != []
          && (s.handlers[h].Storing? || s.handlers[h].Routing? ==> Speaks(s.handlers[h].resp, s.handlers[h].req, u)))
    && (forall e <- s.log :: e.req.question != [] && e.reply == DirectReply(e.req, u))
  }

  lemma ServeKeepsTransparent(s: State, h: nat, reply: Msg, hit: bool, u: Upstream)
    requires TransparentInv(s, u) && h in s.handlers && s.handlers[h].req.question != []
    requires reply == DirectReply(s.handlers[h].req, u)
    ensures TransparentInv(Serve(s, h, reply, hit), u)
  {
  }

  lemma StoreKeepsTransparent(s: State, h: nat, evicted: set<CacheKey>, u: Upstream)
    requires TransparentInv(s, u) && Enabled(s, Store(h, evicted))
    ensures TransparentInv(Apply(s, Store(h, evicted)), u)
  {
    var s' := Apply(s, Store(h, evicted));
    var req, resp := s.handlers[h].req, s.handlers[h].resp;
    assert Speaks(resp, req, u);
    forall k <- s'.cache ensures u(k.name, k.qtype).Some? && SameContent(s'.cache[k].msg, u(k.name, k.qtype).value) {
      if k !in s.cache || s'.cache[k] != s.cache[k] {
        assert k == KeyOf(req) && s'.cache[k].msg == resp;
      }
    }
    assert s'.handlers == s.handlers[h := Routing(req, resp, 0)] && s'.log == s.log;
  }

  lemma StepKeepsTransparent(s: State, a: Action, u: Upstream)
    requires TransparentInv(s, u) && Enabled(s, a) && Faithful(s, a, u)
    ensures TransparentInv(Apply(s, a), u)
  {
    match a {
      case Hit(h) =>
        var req := s.handlers[h].req;
        SpeaksReply(s.cache[KeyOf(req)].msg, req, u);
        ServeKeepsTransparent(s, h, ReplyFrom(s.cache[KeyOf(req)].msg, req), true, u);
      case Finish(h) =>
        SpeaksReply(s.handlers[h].resp, s.handlers[h].req, u);
        ServeKeepsTransparent(s, h, ReplyFrom(s.handlers[h].resp, s.handlers[h].req), false, u);
      case AllFailed(h) => ServeKeepsTransparent(s, h, ServerFailure(s.handlers[h].req), false, u);
      case Store(h, evicted) => StoreKeepsTransparent(s, h, evicted, u);
      case _ =>
    }
  }

  lemma {:induction false} RunKeepsTransparent(trace: seq<State>, actions: seq<Action>, u: Upstream, i: nat)
    requires FaithfulRun(trace, actions, u) && i < |trace|
    ensures TransparentInv(trace[i], u)
  {
    if i > 0 {
      RunKeepsTransparent(trace, actions, u, i - 1);
      StepKeepsTransparent(trace[i - 1], actions[i - 1], u);
    }
  }

  /** If the upstream depends on name and type only, then whatever the timing, the evictions and the
      interleaving, a proxy with a cache and one with the noopCache give the same reply to the same
      request; and the latter never answers from its cache. */
  lemma CacheRefinesNoop(cached: seq<State>, cachedActions: seq<Action>, i: nat, e: Served,
                         plain: seq<State>, plainActions: seq<Action>, j: nat, f: Served, u: Upstream)
    requires FaithfulRun(cached, cachedActions, u) && i < |cached| && e in cached[i].log
    requires FaithfulRun(plain, plainActions, u) && j < |plain| && f in plain[j].log
    requires plain[j].capacity == 0
    requires e.req == f.req
    ensures e.reply == f.reply && !f.hit
  {
    RunKeepsTransparent(cached, cachedActions, u, i);
    RunKeepsTransparent(plain, plainActions, u, j);
    RunKeepsCache(plain, plainActions, j);
  }
}
