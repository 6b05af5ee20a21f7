/**
 * The TUN device's route bookkeeping: which routes it adds, which it tracks, and what teardown leaves
 * behind in the kernel table.
 */
module Routes {
  import opened Bytes
  import opened Prefixes

  /** Where a kernel route leads. */
  datatype Hop = ViaDevice | ViaGateway(gateway: bytes)

  type Table = map<Route, Hop>

  const DEFAULT_ROUTE := Route(Inet, [0, 0, 0, 0], 0)

  /**
   * The kernel's main routing table. Any request may fail. A reliable kernel refuses to write a route
   * only for a reason, a malformed prefix or an existing key on Add; one that deletes refuses to delete
   * only a missing key.
   */
  class Kernel {
    var table: Table
    const reliable: bool
    const deletes: bool

    constructor (table: Table, reliable: bool, deletes: bool)
      ensures this.table == table && this.reliable == reliable && this.deletes == deletes
    {
      this.table := table;
      this.reliable := reliable;
      this.deletes := deletes;
    }

    method Add(r: Route, hop: Hop) returns (ok: bool)
      modifies this
      ensures ok ==> ValidRoute(r) && r !in old(table) && table == old(table)[r := hop]
      ensures !ok ==> table == old(table)
      ensures reliable && ValidRoute(r) && r !in old(table) ==> ok
    {
      var fault: bool := *;
      ok := ValidRoute(r) && r !in table && (reliable || !fault);
      if ok {
        table := table[r := hop];
      }
    }

    method Replace(r: Route, hop: Hop) returns (ok: bool)
      modifies this
      ensures ok ==> ValidRoute(r) && table == old(table)[r := hop]
      ensures !ok ==> table == old(table)
      ensures reliable && ValidRoute(r) ==> ok
    {
      var fault: bool := *;
      ok := ValidRoute(r) && (reliable || !fault);
      if ok {
        table := table[r := hop];
      }
    }

    method Delete(r: Route) returns (ok: bool)
      modifies this
      ensures ok ==> r in old(table) && table == old(table) - {r}
      ensures !ok ==> table == old(table)
      ensures deletes && r in old(table) ==> ok
    {
      var fault: bool := *;
      ok := r in table && (deletes || !fault);
      if ok {
        table := table - {r};
      }
    }
  }

  // ----- What the configuration asks for -----

  /** An entry of Routes after net.ParseCIDR or net.ParseIP; Cidr carries the masked address. */
  datatype RouteSpec = Skipped | Unparsable | Cidr(ip: bytes, ones: nat) | Address(ip: bytes)

  /** An entry of ExcludeIPs after net.ParseIP. */
  datatype ExcludeSpec = Empty | NotAnIp | Exclude(ip: bytes)

  function RouteOf(spec: RouteSpec): Option<Route> {
    match spec
    case Skipped => None
    case Unparsable => None
    case Address(ip) => Some(HostRoute(ip))
    case Cidr(ip, ones) =>
      if To4(ip) != [] then Some(Route(Inet, To4(ip), ones)) else Some(Route(Inet6, To16(ip), ones))
  }

  datatype TableEntry = TableEntry(route: Route, hop: Hop)

  /** The kernel entry an exclusion asks for, when there is a default gateway of its family. */
  function ExclusionOf(spec: ExcludeSpec, gateway4: Option<bytes>, gateway6: Option<bytes>): Option<TableEntry> {
    if !spec.Exclude? then None
    else
      var gateway := if To4(spec.ip) != [] then gateway4 else gateway6;
      if gateway.Some? then Some(TableEntry(HostRoute(spec.ip), ViaGateway(gateway.value))) else None
  }

  /** The routes the entries ask for, in order. */
  function Requested(specs: seq<RouteSpec>): seq<Route> {
    if specs == [] then []
    else
      var last := RouteOf(specs[|specs| - 1]);
      Requested(specs[..|specs| - 1]) + if last.Some? then [last.value] else []
  }

  function Accepted(routes: seq<Route>): seq<Route> {
    if routes == [] then []
    else
      var last := routes[|routes| - 1];
      Accepted(routes[..|routes| - 1]) + if ValidRoute(last) then [last] else []
  }

  lemma RequestedSnoc(specs: seq<RouteSpec>, i: nat)
    requires i < |specs|
    ensures var requested, last := Requested(specs[..i]), RouteOf(specs[i]);
            Requested(specs[..i + 1]) == if last.Some? then requested + [last.value] else requested
  {
    assert specs[..i + 1][..i] == specs[..i];
  }

  lemma AcceptedSnoc(routes: seq<Route>, r: Route)
    ensures Accepted(routes + [r]) == Accepted(routes) + if ValidRoute(r) then [r] else []
  {
    assert (routes + [r])[..|routes|] == routes;
  }

  /** What one entry of Routes asks for, by the number of its bytes. */
  lemma RouteOfMeans(spec: RouteSpec)
    ensures spec.Skipped? || spec.Unparsable? ==> RouteOf(spec) == None
    ensures spec.Address? && |spec.ip| == 4 ==> RouteOf(spec) == Some(Route(Inet, spec.ip, 32))
    ensures spec.Address? && |spec.ip| == 16 && !IsMapped(spec.ip) ==> RouteOf(spec) == Some(Route(Inet6, spec.ip, 128))
    ensures spec.Cidr? && |spec.ip| == 4 ==> RouteOf(spec) == Some(Route(Inet, spec.ip, spec.ones))
    ensures spec.Cidr? && |spec.ip| == 16 && !IsMapped(spec.ip) ==> RouteOf(spec) == Some(Route(Inet6, spec.ip, spec.ones))
    ensures !spec.Skipped? && !spec.Unparsable? && IsMapped(spec.ip) ==>
              RouteOf(spec) == Some(Route(Inet, spec.ip[12..], if spec.Cidr? then spec.ones else 32))
  {
    if !spec.Skipped? && !spec.Unparsable? {
      HostRouteOf(spec.ip);
    }
  }

  /** The requested routes of a list are those of its parts, in order. */
  lemma {:induction false} RequestedConcat(a: seq<RouteSpec>, b: seq<RouteSpec>)
    ensures Requested(a + b) == Requested(a) + Requested(b)
  {
    if b == [] {
      assert a + b == a;
    } else {
      var front := b[..|b| - 1];
      assert (a + b)[..|a + b| - 1] == a + front;
      RequestedConcat(a, front);
    }
  }

  lemma RequestedOne(spec: RouteSpec)
    ensures Requested([spec]) == if RouteOf(spec).Some? then [RouteOf(spec).value] else []
  {
    RequestedSnoc([spec], 0);
    assert [spec][..1] == [spec] && [spec][..0] == [];
  }

  lemma {:induction false} AcceptedConcat(a: seq<Route>, b: seq<Route>)
    ensures Accepted(a + b) == Accepted(a) + Accepted(b)
  {
    if b == [] {
      assert a + b == a;
    } else {
      var front := b[..|b| - 1];
      assert (a + b)[..|a + b| - 1] == a + front;
      AcceptedConcat(a, front);
    }
  }

  lemma AcceptedOne(r: Route)
    ensures Accepted([r]) == if ValidRoute(r) then [r] else []
  {
    AcceptedSnoc([], r);
    assert [] + [r] == [r];
  }

  lemma {:induction false} EntryIsRequested(specs: seq<RouteSpec>, spec: RouteSpec)
    requires spec in specs && RouteOf(spec).Some?
    ensures RouteOf(spec).value in Requested(specs)
  {
    var front, last := specs[..|specs| - 1], specs[|specs| - 1];
    assert specs == front + [last];
    if spec in front {
      EntryIsRequested(front, spec);
    }
  }

  lemma {:induction false} ValidIsAccepted(routes: seq<Route>, r: Route)
    requires r in routes && ValidRoute(r)
    ensures r in Accepted(routes)
  {
    var front, last := routes[..|routes| - 1], routes[|routes| - 1];
    assert routes == front + [last];
    if r in front {
      ValidIsAccepted(front, r);
    }
  }

  /** Every well-formed prefix and address among the entries is in the list. */
  ghost predicate AllRouted(specs: seq<RouteSpec>, routes: seq<Route>) {
    && (forall spec <- specs | spec.Cidr? && |spec.ip| == 4 && spec.ones <= 32 :: Route(Inet, spec.ip, spec.ones) in routes)
    && (forall spec <- specs | spec.Cidr? && |spec.ip| == 16 && !IsMapped(spec.ip) && spec.ones <= 128 ::
          Route(Inet6, spec.ip, spec.ones) in routes)
    && (forall spec <- specs | spec.Address? && |spec.ip| == 4 :: Route(Inet, spec.ip, 32) in routes)
    && (forall spec <- specs | spec.Address? && |spec.ip| == 16 && !IsMapped(spec.ip) :: Route(Inet6, spec.ip, 128) in routes)
  }

  lemma AcceptedAreRouted(specs: seq<RouteSpec>)
    ensures AllRouted(specs, Accepted(Requested(specs)))
  {
    forall spec <- specs | RouteOf(spec).Some? && ValidRoute(RouteOf(spec).value)
      ensures RouteOf(spec).value in Accepted(Requested(specs))
    {
      EntryIsRequested(specs, spec);
      ValidIsAccepted(Requested(specs), RouteOf(spec).value);
    }
    forall spec <- specs
      ensures spec.Cidr? && |spec.ip| == 4 ==> RouteOf(spec) == Some(Route(Inet, spec.ip, spec.ones))
      ensures spec.Cidr? && |spec.ip| == 16 && !IsMapped(spec.ip) ==> RouteOf(spec) == Some(Route(Inet6, spec.ip, spec.ones))
      ensures spec.Address? && |spec.ip| == 4 ==> RouteOf(spec) == Some(Route(Inet, spec.ip, 32))
      ensures spec.Address? && |spec.ip| == 16 && !IsMapped(spec.ip) ==> RouteOf(spec) == Some(Route(Inet6, spec.ip, 128))
    {
      RouteOfMeans(spec);
    }
  }

  /** A loop keeps routes of the requested ones, in order; all of them if the kernel is reliable. */
  ghost predicate Kept(kept: seq<Route>, requested: seq<Route>, reliable: bool) {
    Subsequence(kept, requested) && (reliable ==> kept == Accepted(requested))
  }

  lemma KeepRequested(kept: seq<Route>, requested: seq<Route>, r: Route, ok: bool, reliable: bool)
    requires Kept(kept, requested, reliable)
    requires ok ==> ValidRoute(r)
    requires reliable && ValidRoute(r) ==> ok
    ensures Kept(if ok then kept + [r] else kept, requested + [r], reliable)
  {
    AcceptedSnoc(requested, r);
    if ok {
      SubsequenceKeep(kept, requested, r);
    } else {
      SubsequenceSkip(kept, requested, r);
      assert Accepted(requested) + [] == Accepted(requested);
    }
  }

  // ----- The list of tracked routes -----

  predicate IsHost(r: Route) {
    r.prefixLen == 8 * |r.dst|
  }

  ghost predicate CoveredIn(routes: seq<Route>, r: Route) {
    exists q <- routes :: CoveredBy(q, r.family, r.dst)
  }

  /** Behind the first configured entries there are only host routes that no earlier entry covers. */
  ghost predicate Irredundant(routes: seq<Route>, configured: nat) {
    forall j | configured <= j < |routes| :: IsHost(routes[j]) && !CoveredIn(routes[..j], routes[j])
  }

  /** A call of AddRouteWithDomain and whether the kernel takes the route if it is asked. */
  datatype AddCall = AddCall(ip: bytes, granted: bool)

  /** What AddRouteWithDomain does to the list. */
  ghost function AfterAdd(routes: seq<Route>, call: AddCall): seq<Route> {
    if Covered(routes, call.ip) || !call.granted then routes else routes + [HostRoute(call.ip)]
  }

  ghost function AfterCalls(routes: seq<Route>, calls: seq<AddCall>): seq<Route> {
    if calls == [] then routes
    else AfterAdd(AfterCalls(routes, calls[..|calls| - 1]), calls[|calls| - 1])
  }

  lemma IrredundantAfterAdd(routes: seq<Route>, configured: nat, ip: bytes)
    requires Irredundant(routes, configured) && configured <= |routes|
    requires ValidRoute(HostRoute(ip)) && !Covered(routes, ip)
    ensures Irredundant(routes + [HostRoute(ip)], configured)
  {
    var h := HostRoute(ip);
    var routes' := routes + [h];
    forall j | configured <= j < |routes'|
      ensures IsHost(routes'[j]) && !CoveredIn(routes'[..j], routes'[j])
    {
      if j < |routes| {
        assert routes'[..j] == routes[..j];
      } else {
        assert routes'[..j] == routes;
      }
    }
  }

  /** Adding a route for ip makes ip covered, keeps every covered address covered and covers nothing
      else. */
  lemma CoveredAfterAdd(routes: seq<Route>, ip: bytes, a: bytes)
    requires ValidRoute(HostRoute(ip))
    ensures Covered(routes + [HostRoute(ip)], a) <==> Covered(routes, a) || HostRoute(a) == HostRoute(ip)
  {
    var h := HostRoute(ip);
    HostCoversOnlyItself(h, a);
    if Covered(routes, a) {
      var r :| r in routes && CoveredBy(r, HostRoute(a).family, HostRoute(a).dst);
      assert r in routes + [h];
    }
    if HostRoute(a) == h {
      assert h in routes + [h];
    }
  }

  /** Some call for this address was granted. */
  ghost predicate Granted(calls: seq<AddCall>, ip: bytes) {
    exists c <- calls :: c.granted && HostRoute(c.ip) == HostRoute(ip)
  }

  /** Over any sequence of calls, in the order the mutex admits them, dynamic routes stay irredundant and
      the covered addresses grow by exactly the addresses of granted calls. */
  lemma {:induction false} CallsKeepCover(routes: seq<Route>, configured: nat, calls: seq<AddCall>, a: bytes)
    requires Irredundant(routes, configured) && configured <= |routes|
    requires forall c <- calls :: c.granted ==> ValidRoute(HostRoute(c.ip))
    ensures var after := AfterCalls(routes, calls);
            && routes <= after
            && Irredundant(after, configured)
            && (Covered(after, a) <==> Covered(routes, a) || Granted(calls, a))
  {
    if calls != [] {
      var front, call := calls[..|calls| - 1], calls[|calls| - 1];
      assert calls == front + [call];
      CallsKeepCover(routes, configured, front, a);
      var before := AfterCalls(routes, front);
      if call.granted {
        if Covered(before, call.ip) {
          assert Covered(before, a) || HostRoute(a) != HostRoute(call.ip);
        } else {
          IrredundantAfterAdd(before, configured, call.ip);
          CoveredAfterAdd(before, call.ip, a);
        }
      }
      assert Granted(calls, a) <==> Granted(front, a) || (call.granted && HostRoute(call.ip) == HostRoute(a));
    }
  }

  // ----- The ledger -----

  /** The kernel table now, the table before the device was configured, and the keys the device wrote,
      tracked or not. */
  datatype Ledger = Ledger(base: Table, table: Table, tracked: seq<Route>, untracked: set<Route>)

  ghost predicate SameAt(a: Table, b: Table, r: Route) {
    (r in a <==> r in b) && (r in a ==> a[r] == b[r])
  }

  /** Nobody else writes the table: it differs from the base only at written keys, and every tracked
      route is in it. */
  ghost predicate LedgerInv(l: Ledger) {
    && (forall r :: r !in l.tracked && r !in l.untracked ==> SameAt(l.table, l.base, r))
    && (forall r <- l.tracked :: r in l.table && ValidRoute(r))
  }

  function Tracked(routes: seq<Route>): set<Route> {
    set r | r in routes
  }

  lemma LedgerTracks(l: Ledger, r: Route, hop: Hop)
    requires LedgerInv(l) && ValidRoute(r)
    ensures LedgerInv(l.(table := l.table[r := hop], tracked := l.tracked + [r]))
  {
    var l' := l.(table := l.table[r := hop], tracked := l.tracked + [r]);
    forall q | q !in l'.tracked && q !in l'.untracked ensures SameAt(l'.table, l'.base, q) {
      assert q !in l.tracked && q != r;
    }
  }

  lemma LedgerWrites(l: Ledger, r: Route, hop: Hop)
    requires LedgerInv(l)
    ensures LedgerInv(l.(table := l.table[r := hop], untracked := l.untracked + {r}))
  {
  }

  /** Teardown deletes the tracked keys. Apart from the untracked keys the table is then what it was at
      the start if and only if no tracked key (other than an untracked one) had been there before: a
      route the device found in the table and replaced is lost. */
  lemma TeardownRestores(l: Ledger)
    requires LedgerInv(l)
    ensures (forall r :: r !in l.untracked ==> SameAt(l.table - Tracked(l.tracked), l.base, r))
       <==> (forall r <- l.tracked :: r in l.untracked || r !in l.base)
  {
    var after := l.table - Tracked(l.tracked);
    if forall r :: r !in l.untracked ==> SameAt(after, l.base, r) {
      forall r <- l.tracked ensures r in l.untracked || r !in l.base {
        assert r !in after;
        assert r !in l.untracked ==> SameAt(after, l.base, r);
      }
    }
    if forall r <- l.tracked :: r in l.untracked || r !in l.base {
      forall r | r !in l.untracked ensures SameAt(after, l.base, r) {
        if r !in l.tracked {
          assert SameAt(l.table, l.base, r);
        }
      }
    }
  }

  /** Some exclusion asks for what the table has at this key. */
  ghost predicate AsksExclusion(specs: seq<ExcludeSpec>, gateway4: Option<bytes>, gateway6: Option<bytes>,
                                r: Route, table: Table) {
    r in table && exists spec <- specs :: ExclusionOf(spec, gateway4, gateway6) == Some(TableEntry(r, table[r]))
  }

  /** The table has the entries of all exclusions, malformed addresses aside. */
  ghost predicate HasExclusions(specs: seq<ExcludeSpec>, gateway4: Option<bytes>, gateway6: Option<bytes>, table: Table) {
    forall spec <- specs :: HasExclusion(spec, gateway4, gateway6, table)
  }

  predicate HasExclusion(spec: ExcludeSpec, gateway4: Option<bytes>, gateway6: Option<bytes>, table: Table) {
    var e := ExclusionOf(spec, gateway4, gateway6);
    e.Some? && ValidRoute(e.value.route) ==> e.value.route in table && table[e.value.route] == e.value.hop
  }

  /** Writing the entry of one exclusion gives its key what it asks for and spoils no other exclusion,
      because the hop depends on the family of the key only. */
  lemma ExclusionAdded(specs: seq<ExcludeSpec>, i: nat, gateway4: Option<bytes>, gateway6: Option<bytes>, table: Table)
    requires i < |specs| && ExclusionOf(specs[i], gateway4, gateway6).Some?
    ensures var e := ExclusionOf(specs[i], gateway4, gateway6).value;
            var table' := table[e.route := e.hop];
            && AsksExclusion(specs, gateway4, gateway6, e.route, table')
            && HasExclusion(specs[i], gateway4, gateway6, table')
            && (forall r :: AsksExclusion(specs, gateway4, gateway6, r, table) ==>
                  AsksExclusion(specs, gateway4, gateway6, r, table'))
            && (HasExclusions(specs[..i], gateway4, gateway6, table) ==> HasExclusions(specs[..i], gateway4, gateway6, table'))
  {
    assert specs[i] in specs;
  }

  /** An exclusion entry is the host route of an excluded address via the gateway of its family. */
  ghost predicate IsExclusion(specs: seq<ExcludeSpec>, gateway4: Option<bytes>, gateway6: Option<bytes>,
                              r: Route, table: Table) {
    && r in table && table[r].ViaGateway?
    && (r.family == Inet ==> gateway4 == Some(table[r].gateway))
    && (r.family == Inet6 ==> gateway6 == Some(table[r].gateway))
    && exists spec <- specs :: spec.Exclude? && HostRoute(spec.ip) == r
  }

  lemma AskedIsExclusion(specs: seq<ExcludeSpec>, gateway4: Option<bytes>, gateway6: Option<bytes>, r: Route, table: Table)
    requires AsksExclusion(specs, gateway4, gateway6, r, table)
    ensures IsExclusion(specs, gateway4, gateway6, r, table)
  {
    var spec :| spec in specs && ExclusionOf(spec, gateway4, gateway6) == Some(TableEntry(r, table[r]));
    assert spec.Exclude? && HostRoute(spec.ip) == r;
  }

  /** The routes of all excluded addresses whose family has a gateway are in the table. */
  ghost predicate AllExcluded(specs: seq<ExcludeSpec>, gateway4: Option<bytes>, gateway6: Option<bytes>, table: Table) {
    forall spec <- specs | spec.Exclude? ::
      && (|spec.ip| == 4 && gateway4.Some? ==>
            Route(Inet, spec.ip, 32) in table && table[Route(Inet, spec.ip, 32)] == ViaGateway(gateway4.value))
      && (IsMapped(spec.ip) && gateway4.Some? ==>
            Route(Inet, spec.ip[12..], 32) in table && table[Route(Inet, spec.ip[12..], 32)] == ViaGateway(gateway4.value))
      && (|spec.ip| == 16 && !IsMapped(spec.ip) && gateway6.Some? ==>
            Route(Inet6, spec.ip, 128) in table && table[Route(Inet6, spec.ip, 128)] == ViaGateway(gateway6.value))
  }

  lemma HasAllExcluded(specs: seq<ExcludeSpec>, gateway4: Option<bytes>, gateway6: Option<bytes>, table: Table)
    requires HasExclusions(specs, gateway4, gateway6, table)
    ensures AllExcluded(specs, gateway4, gateway6, table)
  {
    forall spec <- specs | spec.Exclude?
      ensures |spec.ip| == 4 && gateway4.Some? ==>
                Route(Inet, spec.ip, 32) in table && table[Route(Inet, spec.ip, 32)] == ViaGateway(gateway4.value)
      ensures IsMapped(spec.ip) && gateway4.Some? ==>
                Route(Inet, spec.ip[12..], 32) in table && table[Route(Inet, spec.ip[12..], 32)] == ViaGateway(gateway4.value)
      ensures |spec.ip| == 16 && !IsMapped(spec.ip) && gateway6.Some? ==>
                Route(Inet6, spec.ip, 128) in table && table[Route(Inet6, spec.ip, 128)] == ViaGateway(gateway6.value)
    {
      HostRouteOf(spec.ip);
      assert HasExclusion(spec, gateway4, gateway6, table);
    }
  }

  lemma ExclusionsSnoc(specs: seq<ExcludeSpec>, i: nat, gateway4: Option<bytes>, gateway6: Option<bytes>, table: Table)
    requires i < |specs|
    requires HasExclusions(specs[..i], gateway4, gateway6, table) && HasExclusion(specs[i], gateway4, gateway6, table)
    ensures HasExclusions(specs[..i + 1], gateway4, gateway6, table)
  {
    assert specs[..i + 1] == specs[..i] + [specs[i]];
  }

  datatype RouteError = DialFailed | NoInterface | KernelRefused

  /** The Device of the source with the parts that concern routes. */
  class Device {
    const kernel: Kernel
    var addedRoutes: seq<Route>
    ghost var base: Table
    ghost var untracked: set<Route>
    ghost var configured: nat

    ghost function Book(): Ledger
      reads this, kernel
    {
      Ledger(base, kernel.table, addedRoutes, untracked)
    }

    ghost predicate Valid()
      reads this, kernel
    {
      && LedgerInv(Book())
      && configured <= |addedRoutes|
      && Irredundant(addedRoutes, configured)
    }

    constructor (kernel: Kernel)
      ensures Valid() && this.kernel == kernel
      ensures addedRoutes == [] && base == kernel.table && untracked == {} && configured == 0
    {
      this.kernel := kernel;
      addedRoutes := [];
      base := kernel.table;
      untracked := {};
      configured := 0;
    }

    /** addRoute: add, or replace when adding fails. */
    method AddRoute(r: Route, hop: Hop) returns (ok: bool)
      modifies kernel
      ensures ok ==> ValidRoute(r) && kernel.table == old(kernel.table)[r := hop]
      ensures !ok ==> kernel.table == old(kernel.table)
      ensures kernel.reliable && ValidRoute(r) ==> ok
    {
      ok := kernel.Add(r, hop);
      if !ok {
        ok := kernel.Replace(r, hop);
      }
    }

    /** addRoute for a key the device does not track. */
    method AddUntracked(r: Route, hop: Hop) returns (ok: bool)
      requires Valid()
      modifies this`untracked, kernel
      ensures Valid()
      ensures ok ==> ValidRoute(r) && kernel.table == old(kernel.table)[r := hop] && untracked == old(untracked) + {r}
      ensures !ok ==> kernel.table == old(kernel.table) && untracked == old(untracked)
      ensures kernel.reliable && ValidRoute(r) ==> ok
    {
      ghost var book := Book();
      ok := AddRoute(r, hop);
      if ok {
        LedgerWrites(book, r, hop);
        untracked := untracked + {r};
      }
    }

    /** The exclusion loop of configure: host routes via the existing default gateways, not tracked. The
        table changes only at entries asked for; with a reliable kernel it has all of them. */
    method ConfigureExclusions(specs: seq<ExcludeSpec>, gateway4: Option<bytes>, gateway6: Option<bytes>)
      requires Valid()
      modifies this`untracked, kernel
      ensures Valid()
      ensures old(untracked) <= untracked
      ensures forall r <- untracked - old(untracked) :: AsksExclusion(specs, gateway4, gateway6, r, kernel.table)
      ensures forall r :: SameAt(kernel.table, old(kernel.table), r)
                          || (r in untracked && AsksExclusion(specs, gateway4, gateway6, r, kernel.table))
      ensures kernel.reliable ==> HasExclusions(specs, gateway4, gateway6, kernel.table)
      ensures forall r :: SameAt(kernel.table, old(kernel.table), r)
                          || IsExclusion(specs, gateway4, gateway6, r, kernel.table)
      ensures kernel.reliable ==> AllExcluded(specs, gateway4, gateway6, kernel.table)
    {
      for i := 0 to |specs|
        invariant Valid()
        invariant old(untracked) <= untracked
        invariant forall r <- untracked - old(untracked) :: AsksExclusion(specs, gateway4, gateway6, r, kernel.table)
        invariant forall r :: SameAt(kernel.table, old(kernel.table), r)
                              || (r in untracked && AsksExclusion(specs, gateway4, gateway6, r, kernel.table))
        invariant kernel.reliable ==> HasExclusions(specs[..i], gateway4, gateway6, kernel.table)
      {
        var spec := specs[i];
        ghost var table := kernel.table;
        if spec.Exclude? {
          var gateway := if To4(spec.ip) != [] then gateway4 else gateway6;
          if gateway.Some? {
            var ok := AddUntracked(HostRoute(spec.ip), ViaGateway(gateway.value));
            if ok {
              ExclusionAdded(specs, i, gateway4, gateway6, table);
            }
          }
        }
        if kernel.reliable {
          ExclusionsSnoc(specs, i, gateway4, gateway6, kernel.table);
        }
      }
      assert specs[..|specs|] == specs;
      if kernel.reliable {
        HasAllExcluded(specs, gateway4, gateway6, kernel.table);
      }
      forall r | !SameAt(kernel.table, old(kernel.table), r)
        ensures IsExclusion(specs, gateway4, gateway6, r, kernel.table)
      {
        AskedIsExclusion(specs, gateway4, gateway6, r, kernel.table);
      }
    }

    /** Adds a route through the device and tracks it if the kernel takes it. */
    method AddTracked(r: Route) returns (ok: bool)
      requires Valid() && configured == |addedRoutes|
      modifies this`addedRoutes, this`configured, kernel
      ensures Valid() && configured == |addedRoutes|
      ensures ok ==> ValidRoute(r) && kernel.table == old(kernel.table)[r := ViaDevice]
      ensures !ok ==> kernel.table == old(kernel.table)
      ensures addedRoutes == if ok then old(addedRoutes) + [r] else old(addedRoutes)
      ensures kernel.reliable && ValidRoute(r) ==> ok
    {
      ghost var book := Book();
      ok := AddRoute(r, ViaDevice);
      if ok {
        LedgerTracks(book, r, ViaDevice);
        addedRoutes := addedRoutes + [r];
        configured := configured + 1;
      }
    }

    /** The route loop of configure: routes through the device, tracked when the kernel took them. */
    method ConfigureRoutes(specs: seq<RouteSpec>)
      requires Valid() && addedRoutes == []
      modifies this`addedRoutes, this`configured, kernel
      ensures Valid() && configured == |addedRoutes|
      ensures Subsequence(addedRoutes, Requested(specs))
      ensures kernel.reliable ==> addedRoutes == Accepted(Requested(specs))
      ensures forall r :: r !in addedRoutes ==> SameAt(kernel.table, old(kernel.table), r)
      ensures forall r <- addedRoutes :: r in kernel.table && kernel.table[r] == ViaDevice
    {
      for i := 0 to |specs|
        invariant Valid() && configured == |addedRoutes|
        invariant Kept(addedRoutes, Requested(specs[..i]), kernel.reliable)
        invariant forall r :: r !in addedRoutes ==> SameAt(kernel.table, old(kernel.table), r)
        invariant forall r <- addedRoutes :: r in kernel.table && kernel.table[r] == ViaDevice
      {
        var route := RouteOf(specs[i]);
        ghost var before := addedRoutes;
        RequestedSnoc(specs, i);
        if route.Some? {
          var ok := AddTracked(route.value);
          KeepRequested(before, Requested(specs[..i]), route.value, ok, kernel.reliable);
        }
      }
      assert specs[..|specs|] == specs;
    }

    /** AddRouteWithDomain. dialed and hasInterface say whether the netlink socket and the interface
        index could be obtained. */
    method AddRouteWithDomain(ip: bytes, dialed: bool, hasInterface: bool) returns (error: Option<RouteError>)
      requires Valid()
      modifies this`addedRoutes, kernel
      ensures Valid()
      ensures Covered(old(addedRoutes), ip) ==>
                error == None && addedRoutes == old(addedRoutes) && kernel.table == old(kernel.table)
      ensures error != None ==> addedRoutes == old(addedRoutes) && kernel.table == old(kernel.table)
      ensures addedRoutes == AfterAdd(old(addedRoutes), AddCall(ip, error == None))
      ensures error == None && !Covered(old(addedRoutes), ip) ==>
                && kernel.table == old(kernel.table)[HostRoute(ip) := ViaDevice]
                && ValidRoute(HostRoute(ip))
      ensures error == None ==> Covered(addedRoutes, ip)
      ensures kernel.reliable && ValidRoute(HostRoute(ip)) && dialed && hasInterface ==> error == None
      ensures !Covered(old(addedRoutes), ip) ==>
                && (!dialed <==> error == Some(DialFailed))
                && (dialed && !hasInterface <==> error == Some(NoInterface))
                && (error == Some(KernelRefused) ==> !(kernel.reliable && ValidRoute(HostRoute(ip))))
    {
      var family, prefixLen := Inet6, 128;
      var address := To16(ip);
      if To4(ip) != [] {
        address, family, prefixLen := To4(ip), Inet, 32;
      }
      assert HostRoute(ip) == Route(family, address, prefixLen);
      for i := 0 to |addedRoutes|
        invariant forall k | 0 <= k < i :: !CoveredBy(addedRoutes[k], family, address)
      {
        var r := addedRoutes[i];
        if r.family != family {
          continue;
        }
        var mask := CidrMask(r.prefixLen, |r.dst| * 8);
        if IpEqual(MaskIp(r.dst, mask), MaskIp(address, mask)) {
          assert CoveredBy(r, family, address);
          return None;
        }
      }
      if !dialed {
        return Some(DialFailed);
      }
      if !hasInterface {
        return Some(NoInterface);
      }
      ghost var book := Book();
      var route := Route(family, address, prefixLen);
      var ok := AddRoute(route, ViaDevice);
      if !ok {
        return Some(KernelRefused);
      }
      LedgerTracks(book, route, ViaDevice);
      IrredundantAfterAdd(addedRoutes, configured, ip);
      CoveredAfterAdd(addedRoutes, ip, ip);
      addedRoutes := addedRoutes + [route];
      return None;
    }

    /** AddDefaultRoute. gateway is the current IPv4 default gateway and server the parsed address of
        the VPN server; neither key is tracked. */
    method AddDefaultRoute(dialed: bool, hasInterface: bool, gateway: Option<bytes>, server: bytes)
      returns (ok: bool)
      requires Valid()
      modifies this`untracked, kernel
      ensures Valid()
      ensures old(untracked) <= untracked <= old(untracked) + {DEFAULT_ROUTE, Route(Inet, To4(server), 32)}
      ensures ok ==> dialed && hasInterface
                     && Route(Inet, [0, 0, 0, 0], 0) in kernel.table
                     && kernel.table[Route(Inet, [0, 0, 0, 0], 0)] == ViaDevice
      ensures forall r :: r != DEFAULT_ROUTE && r != Route(Inet, To4(server), 32) ==>
                SameAt(kernel.table, old(kernel.table), r)
      ensures !dialed || !hasInterface ==> kernel.table == old(kernel.table)
      ensures kernel.reliable && dialed && hasInterface ==>
                ok && kernel.table == (if gateway.Some? && To4(server) != []
                                       then old(kernel.table)[Route(Inet, To4(server), 32) := ViaGateway(gateway.value)]
                                       else old(kernel.table))[DEFAULT_ROUTE := ViaDevice]
    {
      if !dialed || !hasInterface {
        return false;
      }
      if gateway.Some? {
        var serverIp := To4(server);
        if serverIp != [] {
          var added := AddUntracked(Route(Inet, serverIp, 32), ViaGateway(gateway.value));
        }
      }
      ok := AddUntracked(DEFAULT_ROUTE, ViaDevice);
    }

    /**
     * RemoveRoutes. Without a netlink socket nothing changes. Otherwise the list is emptied, no key
     * but the tracked ones is touched, and with successful deletions exactly the tracked keys are gone,
     * however often the list names them.
     */
    method RemoveRoutes(dialed: bool)
      requires Valid()
      modifies this`addedRoutes, this`configured, this`untracked, kernel
      ensures Valid()
      ensures !dialed || old(addedRoutes) == [] ==>
                addedRoutes == old(addedRoutes) && kernel.table == old(kernel.table)
      ensures dialed ==> addedRoutes == []
      ensures dialed && kernel.deletes ==> kernel.table == old(kernel.table) - Tracked(old(addedRoutes))
      ensures dialed && kernel.deletes ==> forall r <- old(addedRoutes) :: r !in kernel.table
      ensures forall r :: r !in old(addedRoutes) ==> SameAt(kernel.table, old(kernel.table), r)
      ensures forall r :: r in kernel.table ==> r in old(kernel.table) && kernel.table[r] == old(kernel.table)[r]
      ensures dialed && kernel.deletes ==>
                ((forall r :: r !in old(untracked) ==> SameAt(kernel.table, base, r))
                 <==> (forall r <- old(addedRoutes) :: r in old(untracked) || r !in base))
    {
      if |addedRoutes| == 0 || !dialed {
        if dialed {
          TeardownRestores(Book());
          assert kernel.table - Tracked([]) == kernel.table;
        }
        return;
      }
      ghost var before, book := kernel.table, Book();
      assert LedgerInv(book);
      for i := 0 to |addedRoutes|
        invariant addedRoutes == old(addedRoutes) && untracked == old(untracked)
        invariant forall r :: r in kernel.table ==> r in before && kernel.table[r] == before[r]
        invariant forall r :: r !in addedRoutes[..i] ==> SameAt(kernel.table, before, r)
        invariant kernel.deletes ==> kernel.table == before - Tracked(addedRoutes[..i])
      {
        assert addedRoutes[..i + 1] == addedRoutes[..i] + [addedRoutes[i]];
        var ok := kernel.Delete(addedRoutes[i]);
      }
      assert addedRoutes[..|addedRoutes|] == addedRoutes;
      TeardownRestores(book);
      forall r | r !in untracked && r !in addedRoutes ensures SameAt(kernel.table, base, r) {
        assert SameAt(book.table, book.base, r);
      }
      untracked := untracked + Tracked(addedRoutes);
      addedRoutes := [];
      configured := 0;
    }
  }

  // ----- From creation to teardown -----

  /** What outlives the device: exclusions, the default route and the host route to the VPN server. */
  ghost predicate Lasting(r: Route, excludes: seq<ExcludeSpec>, server: Option<bytes>) {
    || (exists spec <- excludes :: spec.Exclude? && HostRoute(spec.ip) == r)
    || (server.Some? && (r == DEFAULT_ROUTE || r == Route(Inet, To4(server.value), 32)))
  }

  lemma ExclusionLasts(excludes: seq<ExcludeSpec>, gateway4: Option<bytes>, gateway6: Option<bytes>,
                       r: Route, table: Table, server: Option<bytes>)
    requires AsksExclusion(excludes, gateway4, gateway6, r, table)
    ensures Lasting(r, excludes, server)
  {
    var spec :| spec in excludes && ExclusionOf(spec, gateway4, gateway6) == Some(TableEntry(r, table[r]));
    assert spec.Exclude? && HostRoute(spec.ip) == r;
  }

  /** Everything the device may come to track. */
  ghost predicate Asked(r: Route, routes: seq<RouteSpec>, ips: seq<bytes>) {
    r in Requested(routes) || exists ip <- ips :: HostRoute(ip) == r
  }

  /**
   * A device's life within a session: configure, AddDefaultRoute if wanted, AddRouteWithDomain for the
   * resolved addresses and RemoveRoutes, which gets its netlink socket; the calls before it may not, and
   * any of their requests may fail. If the deletions succeed and nothing the device may track was in the
   * table before, then apart from the lasting keys the table is in the end what it was.
   */
  method DeviceLife(kernel: Kernel, excludes: seq<ExcludeSpec>, gateway4: Option<bytes>, gateway6: Option<bytes>,
                    routes: seq<RouteSpec>, server: Option<bytes>, ips: seq<bytes>,
                    dials: nat -> bool, hasInterface: nat -> bool)
    modifies kernel
    ensures forall r :: !Lasting(r, excludes, server) && !Asked(r, routes, ips) ==>
              SameAt(kernel.table, old(kernel.table), r)
    ensures kernel.deletes && (forall r :: Asked(r, routes, ips) ==> r !in old(kernel.table)) ==>
              forall r :: !Lasting(r, excludes, server) ==> SameAt(kernel.table, old(kernel.table), r)
  {
    var device := new Device(kernel);
    device.ConfigureExclusions(excludes, gateway4, gateway6);
    forall r <- device.untracked ensures Lasting(r, excludes, server) {
      ExclusionLasts(excludes, gateway4, gateway6, r, kernel.table, server);
    }
    device.ConfigureRoutes(routes);
    SubsequenceMembers(device.addedRoutes, Requested(routes));
    if server.Some? {
      var ok := device.AddDefaultRoute(dials(0), hasInterface(0), gateway4, server.value);
    }
    for i := 0 to |ips|
      invariant device.Valid() && device.base == old(kernel.table)
      invariant forall r <- device.untracked :: Lasting(r, excludes, server)
      invariant forall r <- device.addedRoutes :: Asked(r, routes, ips)
    {
      assert ips[i] in ips;
      var error := device.AddRouteWithDomain(ips[i], dials(i + 1), hasInterface(i + 1));
    }
    assert forall r :: r !in device.addedRoutes && r !in device.untracked ==> SameAt(kernel.table, device.base, r);
    device.RemoveRoutes(true);
  }

  lemma OneRoute(spec: RouteSpec, r: Route)
    requires RouteOf(spec) == Some(r) && ValidRoute(r)
    ensures Accepted(Requested([spec])) == [r]
  {
    RequestedOne(spec);
    AcceptedOne(r);
  }

  /** With a kernel that does what it is asked, a configured route is gone after teardown, whether the
      device found it in the table or not. */
  method ConfigureAndTearDown(kernel: Kernel, spec: RouteSpec, r: Route)
    requires RouteOf(spec) == Some(r) && ValidRoute(r)
    requires kernel.reliable && kernel.deletes
    modifies kernel
    ensures kernel.table == old(kernel.table) - {r}
  {
    var device := new Device(kernel);
    OneRoute(spec, r);
    device.ConfigureRoutes([spec]);
    ghost var configured := kernel.table;
    device.RemoveRoutes(true);
    assert Tracked([r]) == {r};
    RemovedAgain(old(kernel.table), configured, r);
  }

  lemma RemovedAgain(before: Table, after: Table, r: Route)
    requires forall q :: q != r ==> SameAt(after, before, q)
    ensures after - {r} == before - {r}
  {
    assert forall q :: q in after - {r} <==> q != r && q in after;
    forall q | q != r ensures q in after <==> q in before {
      assert SameAt(after, before, q);
    }
    forall q | q in before - {r} ensures after[q] == before[q] {
      assert SameAt(after, before, q);
    }
    assert (after - {r}).Keys == (before - {r}).Keys;
  }

  const TEN_SLASH_8 := Route(Inet, [10, 0, 0, 0], 8)

  /** So a route of somebody else's that the device replaced is lost. */
  method TeardownLosesReplaced() returns (before: Table, after: Table)
    ensures before == map[TEN_SLASH_8 := ViaGateway([192, 168, 1, 1])]
    ensures after == map[]
  {
    before := map[TEN_SLASH_8 := ViaGateway([192, 168, 1, 1])];
    var kernel := new Kernel(before, true, true);
    ConfigureAndTearDown(kernel, Cidr([10, 0, 0, 0], 8), TEN_SLASH_8);
    after := kernel.table;
    NothingLeft(TEN_SLASH_8, ViaGateway([192, 168, 1, 1]));
  }

  lemma NothingLeft(r: Route, hop: Hop)
    ensures map[r := hop] - {r} == map[]
  {
    var rest := map[r := hop] - {r};
    assert forall q :: q !in rest;
  }
}
