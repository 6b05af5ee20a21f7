/**
 * The reconnect loop run and the set-up and tear-down of one session. Durations are in nanoseconds.
 */
module Reconnect {
  import opened Bytes
  import opened DataLoop
  import opened DataLoopTheorems
  import opened LoopErrors

  const SECOND := 1_000_000_000
  const MAX_BACKOFF := 30 * SECOND
  const LONG_SESSION := 30 * SECOND

  datatype SessionError =
    | AuthenticationFailed
    | ConfigFailed
    | TunFailed
    | ConnectFailed
    | LoopEnded(error: LoopError)

  // ----- run -----

  /** One session as run sees it: its error, its duration, and whether the context is found cancelled
      when it returns or while run waits afterwards. */
  datatype Outcome = Outcome(error: Option<SessionError>, duration: nat, cancelled: bool, cancelledInWait: bool)

  datatype Result = StillRunning | Returned(error: Option<SessionError>)

  /** How run ends on these sessions and how long it waited after each one it went on from. */
  datatype Course = Course(result: Result, waits: seq<nat>)

  function Wait(backoff: nat, duration: nat): nat {
    if duration > LONG_SESSION then SECOND else backoff
  }

  function Doubled(wait: nat): nat {
    if 2 * wait > MAX_BACKOFF then MAX_BACKOFF else 2 * wait
  }

  /** run from a point where these sessions are still to come. */
  function CourseOf(outcomes: seq<Outcome>, canReconnect: bool, backoff: nat, first: bool): Course {
    if outcomes == [] then Course(StillRunning, [])
    else
      var o := outcomes[0];
      if o.cancelled then Course(Returned(None), [])
      else if first && o.error.Some? then Course(Returned(o.error), [])
      else if !canReconnect then Course(Returned(o.error), [])
      else if o.cancelledInWait then Course(Returned(None), [])
      else
        var wait := Wait(backoff, o.duration);
        var later := CourseOf(outcomes[1..], canReconnect, Doubled(wait), false);
        Course(later.result, [wait] + later.waits)
  }

  method Run(outcomes: seq<Outcome>, canReconnect: bool) returns (result: Result, waits: seq<nat>)
    ensures Course(result, waits) == CourseOf(outcomes, canReconnect, SECOND, true)
  {
    var backoff := SECOND;
    var first := true;
    waits := [];
    var i := 0;
    while i < |outcomes|
      invariant 0 <= i <= |outcomes| && backoff >= 0
      invariant var later := CourseOf(outcomes[i..], canReconnect, backoff, first);
                Course(later.result, waits + later.waits) == CourseOf(outcomes, canReconnect, SECOND, true)
    {
      var o := outcomes[i];
      assert outcomes[i..][1..] == outcomes[i + 1..];
      if o.cancelled {
        return Returned(None), waits;
      }
      if first && o.error.Some? {
        return Returned(o.error), waits;
      }
      first := false;
      if !canReconnect {
        return Returned(o.error), waits;
      }
      if o.duration > LONG_SESSION {
        backoff := SECOND;
      }
      if o.cancelledInWait {
        return Returned(None), waits;
      }
      waits := waits + [backoff];
      backoff := backoff * 2;
      if backoff > MAX_BACKOFF {
        backoff := MAX_BACKOFF;
      }
      i := i + 1;
    }
    return StillRunning, waits;
  }

  // ----- The backoff -----

  /** The waits after sessions of these durations, starting with this backoff. */
  function Waits(backoff: nat, durations: seq<nat>): (w: seq<nat>)
    ensures |w| == |durations|
    decreases |durations|
  {
    if durations == [] then []
    else
      var wait := Wait(backoff, durations[0]);
      [wait] + Waits(Doubled(wait), durations[1..])
  }

  function Sum(times: seq<nat>): nat {
    if times == [] then 0 else times[0] + Sum(times[1..])
  }

  /** The time spent in the first n sessions and the waits after them. */
  function TimeSpent(outcomes: seq<Outcome>, waits: seq<nat>, n: nat): nat
    requires n <= |outcomes| && n <= |waits|
  {
    Sum(Durations(outcomes)[..n]) + Sum(waits[..n])
  }

  /** The time spent in sessions of these durations and the waits of the schedule after them. */
  function Elapsed(backoff: nat, durations: seq<nat>): nat
    decreases |durations|
  {
    if durations == [] then 0
    else
      var wait := Wait(backoff, durations[0]);
      durations[0] + wait + Elapsed(Doubled(wait), durations[1..])
  }

  lemma {:induction false} ElapsedIsSum(backoff: nat, durations: seq<nat>)
    ensures Elapsed(backoff, durations) == Sum(durations) + Sum(Waits(backoff, durations))
    decreases |durations|
  {
    if durations != [] {
      ElapsedIsSum(Doubled(Wait(backoff, durations[0])), durations[1..]);
    }
  }

  function Durations(outcomes: seq<Outcome>): seq<nat> {
    seq(|outcomes|, i requires 0 <= i < |outcomes| => outcomes[i].duration)
  }

  predicate Uncancelled(outcomes: seq<Outcome>) {
    forall o <- outcomes :: !o.cancelled && !o.cancelledInWait
  }

  /** Once past the first session, run goes on through any errors until it is cancelled. */
  lemma {:induction false} CourseWaits(outcomes: seq<Outcome>, backoff: nat)
    requires Uncancelled(outcomes)
    ensures CourseOf(outcomes, true, backoff, false) == Course(StillRunning, Waits(backoff, Durations(outcomes)))
  {
    if outcomes != [] {
      CourseWaits(outcomes[1..], Doubled(Wait(backoff, outcomes[0].duration)));
      assert Durations(outcomes)[1..] == Durations(outcomes[1..]);
      assert outcomes[0] in outcomes;
    }
  }

  /** run waits once after every session up to the first that ends it. Up to there no session was
      cancelled, reconnecting was possible and the very first had no error. The one that ends run was
      cancelled, and then run returns nil; or it was the very first and had an error, or reconnecting was
      impossible, and then run returns its error; or run was cancelled while waiting, and returns nil. */
  lemma {:induction false} CourseEnds(outcomes: seq<Outcome>, canReconnect: bool, backoff: nat, first: bool)
    ensures var c := CourseOf(outcomes, canReconnect, backoff, first);
            var n := |c.waits|;
            && n <= |outcomes|
            && (n > 0 ==> canReconnect && (first ==> outcomes[0].error == None))
            && (forall i | 0 <= i < n :: !outcomes[i].cancelled && !outcomes[i].cancelledInWait)
            && (n == |outcomes| ==> c.result == StillRunning)
            && (n < |outcomes| ==>
                  var o := outcomes[n];
                  if o.cancelled then c.result == Returned(None)
                  else if first && n == 0 && o.error != None then c.result == Returned(o.error)
                  else if !canReconnect then c.result == Returned(o.error)
                  else o.cancelledInWait && c.result == Returned(None))
    decreases |outcomes|
  {
    if outcomes != [] && CourseOf(outcomes, canReconnect, backoff, first).waits != [] {
      CourseEnds(outcomes[1..], canReconnect, Doubled(Wait(backoff, outcomes[0].duration)), false);
    }
  }

  /** run waits and tries again after its first session if and only if that session ended without an
      error, reconnecting is possible and nobody cancelled. */
  lemma ReconnectsIff(outcomes: seq<Outcome>, canReconnect: bool)
    ensures CourseOf(outcomes, canReconnect, SECOND, true).waits != []
       <==> outcomes != [] && canReconnect
            && outcomes[0].error == None && !outcomes[0].cancelled && !outcomes[0].cancelledInWait
  {
  }

  /** After a clean first session the whole course is the backoff schedule. */
  lemma CourseIsSchedule(outcomes: seq<Outcome>)
    requires Uncancelled(outcomes) && outcomes != [] && outcomes[0].error == None
    ensures CourseOf(outcomes, true, SECOND, true) == Course(StillRunning, Waits(SECOND, Durations(outcomes)))
  {
    assert CourseOf(outcomes, true, SECOND, true) == CourseOf(outcomes, true, SECOND, false);
    CourseWaits(outcomes, SECOND);
  }

  predicate IsBackoff(b: nat) {
    b == SECOND || b == 2 * SECOND || b == 4 * SECOND || b == 8 * SECOND || b == 16 * SECOND || b == MAX_BACKOFF
  }

  /** The credit, in quarter seconds, that a backoff has saved up against the average round. */
  function Credit(b: nat): nat {
    if b == SECOND then 0
    else if b == 2 * SECOND then 41
    else if b == 4 * SECOND then 78
    else if b == 8 * SECOND then 107
    else if b == 16 * SECOND then 120
    else 101
  }

  lemma RoundPays(b: nat, duration: nat)
    requires IsBackoff(b)
    ensures var wait := Wait(b, duration);
            && IsBackoff(Doubled(wait))
            && 4 * (duration + wait) + Credit(Doubled(wait)) * SECOND >= 45 * SECOND + Credit(b) * SECOND
  {
  }

  /** From any backoff run can have, its next n rounds pay for themselves but for the credit. */
  lemma {:induction false} RoundsFrom(outcomes: seq<Outcome>, canReconnect: bool, b: nat, first: bool, n: nat)
    requires IsBackoff(b) && n <= |CourseOf(outcomes, canReconnect, b, first).waits|
    ensures n <= |outcomes|
    ensures 4 * TimeSpent(outcomes, CourseOf(outcomes, canReconnect, b, first).waits, n) + 120 * SECOND
         >= 45 * SECOND * n + Credit(b) * SECOND
    decreases n
  {
    var waits := CourseOf(outcomes, canReconnect, b, first).waits;
    if n > 0 {
      var wait := Wait(b, outcomes[0].duration);
      RoundPays(b, outcomes[0].duration);
      RoundsFrom(outcomes[1..], canReconnect, Doubled(wait), false, n - 1);
      FirstRound(outcomes, waits, n);
    }
  }

  lemma FirstRound(outcomes: seq<Outcome>, waits: seq<nat>, n: nat)
    requires 0 < n <= |outcomes| && n <= |waits|
    ensures TimeSpent(outcomes, waits, n)
         == outcomes[0].duration + waits[0] + TimeSpent(outcomes[1..], waits[1..], n - 1)
  {
    assert Durations(outcomes)[..n][1..] == Durations(outcomes[1..])[..n - 1];
    assert waits[..n][1..] == waits[1..][..n - 1];
  }

  /** Whatever the sessions do, wherever they fail or are cancelled, n rounds of session and wait that
      run completes take at least (45 n - 120) / 4 seconds. */
  lemma BackoffBound(outcomes: seq<Outcome>, canReconnect: bool, n: nat)
    requires n <= |CourseOf(outcomes, canReconnect, SECOND, true).waits|
    ensures n <= |outcomes|
    ensures 4 * TimeSpent(outcomes, CourseOf(outcomes, canReconnect, SECOND, true).waits, n)
         >= 45_000_000_000 * n - 120_000_000_000
  {
    RoundsFrom(outcomes, canReconnect, SECOND, true, n);
  }

  /** A session just over 30 seconds and three immediate failures. */
  const CHEAPEST_CYCLE: seq<nat> := [LONG_SESSION + 1, 0, 0, 0]

  function CheapestRun(cycles: nat): seq<nat> {
    if cycles == 0 then [] else CHEAPEST_CYCLE + CheapestRun(cycles - 1)
  }

  lemma FourRounds(b: nat, durations: seq<nat>)
    requires |durations| >= 4
    ensures var b1 := Doubled(Wait(b, durations[0]));
            var b2 := Doubled(Wait(b1, durations[1]));
            var b3 := Doubled(Wait(b2, durations[2]));
            var b4 := Doubled(Wait(b3, durations[3]));
            Elapsed(b, durations)
            == durations[0] + Wait(b, durations[0]) + durations[1] + Wait(b1, durations[1])
               + durations[2] + Wait(b2, durations[2]) + durations[3] + Wait(b3, durations[3])
               + Elapsed(b4, durations[4..])
  {
    var d1, d2, d3 := durations[1..], durations[2..], durations[3..];
    assert d1[1..] == d2 && d2[1..] == d3 && d3[1..] == durations[4..];
  }

  lemma {:induction false} CheapestElapsed(cycles: nat)
    ensures |CheapestRun(cycles)| == 4 * cycles
    ensures Elapsed(16 * SECOND, CheapestRun(cycles)) == cycles * (45 * SECOND + 1)
  {
    if cycles > 0 {
      CheapestElapsed(cycles - 1);
      FourRounds(16 * SECOND, CheapestRun(cycles));
      assert CheapestRun(cycles)[4..] == CheapestRun(cycles - 1);
    }
  }

  /** Sessions of these durations that end without an error and are not cancelled. */
  function CleanSessions(durations: seq<nat>): seq<Outcome> {
    seq(|durations|, i requires 0 <= i < |durations| => Outcome(None, durations[i], false, false))
  }

  lemma CleanCourse(durations: seq<nat>)
    requires durations != []
    ensures var outcomes := CleanSessions(durations);
            var waits := CourseOf(outcomes, true, SECOND, true).waits;
            |waits| == |durations| == |outcomes| && TimeSpent(outcomes, waits, |durations|) == Elapsed(SECOND, durations)
  {
    var outcomes := CleanSessions(durations);
    assert Durations(outcomes) == durations;
    CourseIsSchedule(outcomes);
    ElapsedIsSum(SECOND, durations);
    var waits := Waits(SECOND, durations);
    assert durations[..|durations|] == durations && waits[..|durations|] == waits;
  }

  function CheapestSessions(cycles: nat): seq<Outcome> {
    CleanSessions([0, 0, 0, 0] + CheapestRun(cycles))
  }

  /** The bound is tight: for every number of cycles there is a course that exceeds it by one nanosecond
      a cycle, the least by which a session can be longer than 30 seconds. */
  lemma BackoffBoundIsTight(cycles: nat)
    ensures var outcomes, n := CheapestSessions(cycles), 4 * cycles + 4;
            var waits := CourseOf(outcomes, true, SECOND, true).waits;
            && |outcomes| == |waits| == n
            && 4 * TimeSpent(outcomes, waits, n) == 45_000_000_000 * n - 120_000_000_000 + 4 * cycles
  {
    var durations := [0, 0, 0, 0] + CheapestRun(cycles);
    CheapestElapsed(cycles);
    FourRounds(SECOND, durations);
    assert durations[4..] == CheapestRun(cycles);
    CleanCourse(durations);
  }

  predicate AllShort(durations: seq<nat>) {
    forall d <- durations :: d <= LONG_SESSION
  }

  function Capped(n: nat): nat {
    if Pow2(n) * SECOND > MAX_BACKOFF then MAX_BACKOFF else Pow2(n) * SECOND
  }

  lemma DoubledCapped(n: nat)
    ensures Doubled(Capped(n)) == Capped(n + 1)
  {
  }

  lemma {:induction false} ShortWaits(n: nat, durations: seq<nat>, j: nat)
    requires AllShort(durations) && j < |durations|
    ensures Waits(Capped(n), durations)[j] == Capped(n + j)
    decreases j
  {
    assert durations[0] in durations;
    if j > 0 {
      forall d <- durations[1..] ensures d <= LONG_SESSION {
        assert d in durations;
      }
      DoubledCapped(n);
      ShortWaits(n + 1, durations[1..], j - 1);
    }
  }

  lemma {:induction false} WaitsSuffix(b: nat, durations: seq<nat>, i: nat)
    requires i < |durations|
    ensures Waits(b, durations)[i..] == [Waits(b, durations)[i]] + Waits(Doubled(Waits(b, durations)[i]), durations[i + 1..])
    ensures durations[i] > LONG_SESSION ==> Waits(b, durations)[i] == SECOND
    decreases i
  {
    if i > 0 {
      var b' := Doubled(Wait(b, durations[0]));
      WaitsSuffix(b', durations[1..], i - 1);
      assert durations[1..][i - 1 + 1..] == durations[i + 1..];
      assert Waits(b, durations)[i..] == Waits(b', durations[1..])[i - 1..];
    } else {
      assert Waits(b, durations)[0..] == Waits(b, durations);
    }
  }

  lemma WaitBehindReset(durations: seq<nat>, i: nat, j: nat)
    requires 0 < j && i + j < |durations| && durations[i] > LONG_SESSION
    ensures Waits(SECOND, durations)[i + j] == Waits(2 * SECOND, durations[i + 1..])[j - 1]
  {
    WaitsSuffix(SECOND, durations, i);
    var w := Waits(SECOND, durations);
    assert w[i + j] == w[i..][j];
    assert Doubled(SECOND) == 2 * SECOND;
  }

  /** A session longer than 30 seconds resets the backoff: the wait after it is one second, and the j-th
      short session after it is followed by a wait of min(2^j, 30) seconds. */
  lemma WaitAfterReset(durations: seq<nat>, i: nat, j: nat)
    requires i + j < |durations| && durations[i] > 30_000_000_000
    requires forall k | i < k <= i + j :: durations[k] <= 30_000_000_000
    ensures Waits(SECOND, durations)[i + j]
         == if Pow2(j) * 1_000_000_000 > 30_000_000_000 then 30_000_000_000 else Pow2(j) * 1_000_000_000
  {
    WaitsSuffix(SECOND, durations, i);
    if j > 0 {
      WaitBehindReset(durations, i, j);
      AllShortAfter(durations, i, j);
      AfterReset(durations[i + 1..], j);
    }
  }

  lemma AllShortAfter(durations: seq<nat>, i: nat, j: nat)
    requires i + j < |durations| && forall k | i < k <= i + j :: durations[k] <= LONG_SESSION
    ensures AllShort(durations[i + 1..][..j])
  {
    var front := durations[i + 1..][..j];
    forall k | 0 <= k < j ensures front[k] <= LONG_SESSION {
      assert front[k] == durations[i + 1 + k];
    }
  }

  lemma AfterReset(tail: seq<nat>, j: nat)
    requires 0 < j <= |tail|
    ensures AllShort(tail[..j]) ==> Waits(2 * SECOND, tail)[j - 1] == Capped(j)
  {
    if AllShort(tail[..j]) {
      WaitsPrefix(2 * SECOND, tail, j);
      assert Capped(1) == 2 * SECOND;
      ShortWaits(1, tail[..j], j - 1);
    }
  }

  lemma {:induction false} WaitsPrefix(b: nat, durations: seq<nat>, n: nat)
    requires n <= |durations|
    ensures Waits(b, durations[..n]) == Waits(b, durations)[..n]
    decreases n
  {
    if n > 0 {
      WaitsPrefix(Doubled(Wait(b, durations[0])), durations[1..], n - 1);
      assert durations[..n][1..] == durations[1..][..n - 1];
    }
  }

  // ----- runSession -----

  /** What a session acquires, in this order. Releasing the device removes its routes and DNS settings
      and closes it. */
  datatype Resource = Context | Login | TunDevice | Connection | DnsServer

  datatype Event = Acquire(r: Resource) | Release(r: Resource)

  /** The place of a resource in the set-up. */
  function Rank(r: Resource): nat {
    match r
    case Context => 0
    case Login => 1
    case TunDevice => 2
    case Connection => 3
    case DnsServer => 4
  }

  /** Resources are acquired by rising and released by falling rank, all acquisitions first. */
  ghost predicate InOrder(events: seq<Event>) {
    && (forall i, j | 0 <= i < j < |events| && events[i].Acquire? && events[j].Acquire? :: Rank(events[i].r) < Rank(events[j].r))
    && (forall i, j | 0 <= i < j < |events| && events[i].Release? && events[j].Release? :: Rank(events[i].r) > Rank(events[j].r))
    && (forall i, j | 0 <= i < j < |events| && events[i].Release? :: events[j].Release?)
  }

  ghost predicate Rising(held: seq<Resource>) {
    forall i, j | 0 <= i < j < |held| :: Rank(held[i]) < Rank(held[j])
  }

  function Acquisitions(held: seq<Resource>): seq<Event> {
    seq(|held|, i requires 0 <= i < |held| => Acquire(held[i]))
  }

  lemma {:induction false} UnwindReverses(held: seq<Resource>)
    ensures |Unwind(held)| == |held|
    ensures forall i | 0 <= i < |held| :: Unwind(held)[i] == Release(held[|held| - 1 - i])
  {
    if held != [] {
      UnwindReverses(held[..|held| - 1]);
    }
  }

  lemma UnwindInOrder(held: seq<Resource>)
    requires Rising(held)
    ensures InOrder(Acquisitions(held) + Unwind(held))
  {
    UnwindReverses(held);
  }

  /** Which parts of the set-up succeed, whether the DNS proxy is wanted, and what RunDataLoop returns. */
  datatype Setup = Setup(login: bool, config: bool, tun: bool, connect: bool, serveDns: bool, loop: Option<LoopError>)

  /** The deferred calls: releases in the reverse order of acquisition. */
  function Unwind(held: seq<Resource>): seq<Event> {
    if held == [] then [] else [Release(held[|held| - 1])] + Unwind(held[..|held| - 1])
  }

  /** What is held after these events, last acquired last, if every release is of what was acquired
      last and nothing is acquired twice. */
  function HeldAfter(events: seq<Event>): Option<seq<Resource>> {
    if events == [] then Some([])
    else
      var before, last := HeldAfter(events[..|events| - 1]), events[|events| - 1];
      if before.None? then None
      else if last.Acquire? then
        if last.r in before.value then None else Some(before.value + [last.r])
      else if before.value != [] && before.value[|before.value| - 1] == last.r then
        Some(before.value[..|before.value| - 1])
      else None
  }

  function SessionResult(setup: Setup): Option<SessionError> {
    if !setup.login then Some(AuthenticationFailed)
    else if !setup.config then Some(ConfigFailed)
    else if !setup.tun then Some(TunFailed)
    else if !setup.connect then Some(ConnectFailed)
    else if setup.loop.Some? then Some(LoopEnded(setup.loop.value))
    else None
  }

  lemma {:induction false} UnwindReleasesAll(events: seq<Event>, held: seq<Resource>)
    requires HeldAfter(events) == Some(held)
    ensures HeldAfter(events + Unwind(held)) == Some([])
    ensures forall r :: Acquire(r) in events + Unwind(held) <==> Acquire(r) in events
    decreases |held|
  {
    if held == [] {
      assert events + [] == events;
    } else {
      var next := events + [Release(held[|held| - 1])];
      assert next[..|events|] == events;
      UnwindReleasesAll(next, held[..|held| - 1]);
      assert events + Unwind(held) == next + Unwind(held[..|held| - 1]);
    }
  }

  lemma AcquireHolds(events: seq<Event>, held: seq<Resource>, r: Resource)
    requires HeldAfter(events) == Some(held) && r !in held
    ensures HeldAfter(events + [Acquire(r)]) == Some(held + [r])
  {
    assert (events + [Acquire(r)])[..|events|] == events;
  }

  /** runSession. On every path exactly what was acquired is released, once, in reverse order; so the
      DNS proxy stops before the device's routes are removed, and the logout comes last. */
  method RunSession(setup: Setup) returns (error: Option<SessionError>, events: seq<Event>)
    ensures error == SessionResult(setup)
    ensures HeldAfter(events) == Some([])
    ensures Acquire(Context) in events
    ensures Acquire(Login) in events <==> setup.login
    ensures Acquire(TunDevice) in events <==> setup.login && setup.config && setup.tun
    ensures Acquire(Connection) in events <==> setup.login && setup.config && setup.tun && setup.connect
    ensures Acquire(DnsServer) in events <==> Acquire(Connection) in events && setup.serveDns
    ensures InOrder(events)
    ensures !setup.login ==> error == Some(AuthenticationFailed)
    ensures setup.login && !setup.config ==> error == Some(ConfigFailed)
    ensures setup.login && setup.config && !setup.tun ==> error == Some(TunFailed)
    ensures setup.login && setup.config && setup.tun && !setup.connect ==> error == Some(ConnectFailed)
    ensures setup.login && setup.config && setup.tun && setup.connect ==>
              if setup.loop.Some? then error == Some(LoopEnded(setup.loop.value)) else error == None
  {
    var defers;
    ghost var n;
    error, events, defers, n := RunBody(setup);
    FirstAcquired(n);
    events := Unwound(events, defers);
  }

  const SETUP_ORDER: seq<Resource> := [Context, Login, TunDevice, Connection, DnsServer]

  lemma FirstAcquired(n: nat)
    requires n <= 5
    ensures Rising(SETUP_ORDER[..n])
    ensures forall r :: r in SETUP_ORDER[..n] <==> Rank(r) < n
  {
    forall r ensures r in SETUP_ORDER[..n] <==> Rank(r) < n {
      assert SETUP_ORDER[Rank(r)] == r;
    }
  }

  /** The body of runSession up to its return: the first n resources are held, their releases deferred in
      the order of acquisition. */
  method RunBody(setup: Setup)
    returns (error: Option<SessionError>, events: seq<Event>, defers: seq<Resource>, ghost n: nat)
    ensures error == SessionResult(setup)
    ensures n == (if !setup.login then 1
                  else if !setup.config || !setup.tun then 2
                  else if !setup.connect then 3
                  else if !setup.serveDns then 4
                  else 5)
    ensures defers == SETUP_ORDER[..n] && events == Acquisitions(defers)
  {
    defers, events, n := [], [], 0;
    events, defers, n := Hold(events, defers, Context, n);
    if !setup.login {
      return Some(AuthenticationFailed), events, defers, n;
    }
    events, defers, n := Hold(events, defers, Login, n);
    if !setup.config {
      return Some(ConfigFailed), events, defers, n;
    }
    if !setup.tun {
      return Some(TunFailed), events, defers, n;
    }
    events, defers, n := Hold(events, defers, TunDevice, n);
    if !setup.connect {
      return Some(ConnectFailed), events, defers, n;
    }
    events, defers, n := Hold(events, defers, Connection, n);
    if setup.serveDns {
      events, defers, n := Hold(events, defers, DnsServer, n);
    }
    error := if setup.loop.Some? then Some(LoopEnded(setup.loop.value)) else None;
  }

  /** Acquires a resource and defers its release. */
  method Hold(events: seq<Event>, defers: seq<Resource>, r: Resource, ghost n: nat)
    returns (events': seq<Event>, defers': seq<Resource>, ghost n': nat)
    requires n < 5 && SETUP_ORDER[n] == r
    requires defers == SETUP_ORDER[..n] && events == Acquisitions(defers)
    ensures n' == n + 1 && defers' == SETUP_ORDER[..n'] && events' == Acquisitions(defers')
  {
    return events + [Acquire(r)], defers + [r], n + 1;
  }

  /** Runs the deferred calls. */
  method Unwound(events: seq<Event>, defers: seq<Resource>) returns (events': seq<Event>)
    requires Acquired(events, defers)
    ensures HeldAfter(events') == Some([]) && InOrder(events')
    ensures forall r :: Acquire(r) in events' <==> r in defers
  {
    AcquiredIsHeld(defers);
    UnwindReleasesAll(events, defers);
    UnwindInOrder(defers);
    forall r ensures Acquire(r) in events <==> r in defers {
      AcquiredIff(defers, r);
    }
    return events + Unwind(defers);
  }

  /** So far these resources have been acquired, by rising rank, and nothing was released. */
  ghost predicate Acquired(events: seq<Event>, held: seq<Resource>) {
    events == Acquisitions(held) && Rising(held)
  }

  lemma {:induction false} AcquiredIsHeld(held: seq<Resource>)
    requires Rising(held)
    ensures HeldAfter(Acquisitions(held)) == Some(held)
  {
    if held != [] {
      var front, last := held[..|held| - 1], held[|held| - 1];
      AcquiredIsHeld(front);
      assert Acquisitions(held) == Acquisitions(front) + [Acquire(last)] && held == front + [last];
      AcquireHolds(Acquisitions(front), front, last);
    }
  }

  lemma AcquiredIff(held: seq<Resource>, r: Resource)
    ensures Acquire(r) in Acquisitions(held) <==> r in held
  {
    if r in held {
      var i :| 0 <= i < |held| && held[i] == r;
      assert Acquisitions(held)[i] == Acquire(r);
    }
  }

  // ----- The loop and the session together -----

  /** Some run of the data loop returns this. */
  ghost predicate LoopReturns(e: Option<LoopError>) {
    exists trace: seq<State>, actions: seq<Action> ::
      && DataLoop.Run(trace, actions)
      && trace[|trace| - 1].control.main.LoopReturned?
      && trace[|trace| - 1].control.main.error == e
  }

  /** The outcome is one that runSession can produce. */
  ghost predicate Produced(o: Outcome) {
    exists setup: Setup :: LoopReturns(setup.loop) && o.error == SessionResult(setup)
  }

  lemma SessionsAlwaysFail(o: Outcome)
    requires Produced(o)
    ensures o.error.Some?
  {
    var setup: Setup :| LoopReturns(setup.loop) && o.error == SessionResult(setup);
    var trace: seq<State>, actions: seq<Action> :|
      && DataLoop.Run(trace, actions)
      && trace[|trace| - 1].control.main.LoopReturned?
      && trace[|trace| - 1].control.main.error == setup.loop;
    LoopNeverReturnsNil(trace, actions, |trace| - 1);
  }

  /** As written, run never reconnects: every session ends with an error, and an error of the first
      session ends run, whatever the credentials; only a cancellation makes it return nil. */
  lemma RunEndsWithFirstSession(outcomes: seq<Outcome>, canReconnect: bool)
    requires outcomes != [] && forall o <- outcomes :: Produced(o)
    ensures CourseOf(outcomes, canReconnect, SECOND, true)
         == Course(Returned(if outcomes[0].cancelled then None else outcomes[0].error), [])
  {
    SessionsAlwaysFail(outcomes[0]);
  }
}
