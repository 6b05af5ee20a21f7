/**
 * DNS messages and the lifetime the proxy gives them in its cache. TTLs are in seconds.
 */
module Dns {
  import opened Bytes

  datatype RR =
    | A(ttl: nat, addr: bytes)
    | AAAA(ttl: nat, addr: bytes)
    | SOA(ttl: nat, minttl: nat)
    | Other(ttl: nat)

  datatype Question = Question(name: string, qtype: nat)

  datatype Msg = Msg(
    id: nat,
    response: bool,
    rcode: nat,
    question: seq<Question>,
    answer: seq<RR>,
    ns: seq<RR>,
    extra: seq<RR>,
    data: bytes)            // the packed wire data

  const RCODE_SUCCESS := 0
  const RCODE_SERVER_FAILURE := 2

  // ----- The TTL of a message -----

  function Ttls(rrs: seq<RR>): seq<nat> {
    seq(|rrs|, i requires 0 <= i < |rrs| => rrs[i].ttl)
  }

  /** The TTLs of all sections in order. */
  function AllTtls(m: Msg): seq<nat> {
    Ttls(m.answer) + Ttls(m.ns) + Ttls(m.extra)
  }

  function Least(ttls: seq<nat>): nat
    requires ttls != []
  {
    var last := ttls[|ttls| - 1];
    if |ttls| == 1 then last
    else
      var least := Least(ttls[..|ttls| - 1]);
      if last < least then last else least
  }

  lemma LeastBounds(ttls: seq<nat>)
    requires ttls != []
    ensures Least(ttls) in ttls && forall t <- ttls :: Least(ttls) <= t
  {
    var front, last := ttls[..|ttls| - 1], ttls[|ttls| - 1];
    assert ttls == front + [last];
    if front != [] {
      LeastBounds(front);
    }
  }

  /** The longest suffix without a zero. */
  function ZeroFreeSuffix(ttls: seq<nat>): (s: seq<nat>)
    ensures |s| <= |ttls| && s == ttls[|ttls| - |s|..]
    ensures 0 !in s
    ensures |s| < |ttls| ==> ttls[|ttls| - |s| - 1] == 0
  {
    if ttls == [] || ttls[|ttls| - 1] == 0 then []
    else ZeroFreeSuffix(ttls[..|ttls| - 1]) + [ttls[|ttls| - 1]]
  }

  /** The running minimum of minTTL: a zero restarts it. */
  function MinTtlOf(ttls: seq<nat>): nat {
    if ttls == [] then 0
    else
      var min, ttl := MinTtlOf(ttls[..|ttls| - 1]), ttls[|ttls| - 1];
      if min == 0 || ttl < min then ttl else min
  }

  lemma LeastSnoc(ttls: seq<nat>, t: nat)
    ensures Least(ttls + [t]) == if ttls != [] && Least(ttls) <= t then Least(ttls) else t
  {
    assert (ttls + [t])[..|ttls|] == ttls;
  }

  lemma LeastPositive(ttls: seq<nat>)
    requires 0 !in ttls
    ensures ttls != [] ==> Least(ttls) > 0
  {
    if ttls != [] {
      LeastBounds(ttls);
    }
  }

  /** It is zero when there is no record or the last TTL is zero, and otherwise the least TTL behind
      the last zero. */
  lemma {:induction false} MinTtlMeaning(ttls: seq<nat>)
    ensures var suffix := ZeroFreeSuffix(ttls);
            MinTtlOf(ttls) == if suffix == [] then 0 else Least(suffix)
    ensures MinTtlOf(ttls) == 0 <==> ttls == [] || ttls[|ttls| - 1] == 0
  {
    if ttls != [] {
      var front, last := ttls[..|ttls| - 1], ttls[|ttls| - 1];
      MinTtlMeaning(front);
      LeastSnoc(ZeroFreeSuffix(front), last);
      LeastPositive(ZeroFreeSuffix(front));
    }
  }

  /** The inner loop of minTTL. */
  method MinTtlOfSection(rrs: seq<RR>, start: nat, ghost seen: seq<nat>) returns (min: nat)
    requires start == MinTtlOf(seen)
    ensures min == MinTtlOf(seen + Ttls(rrs))
  {
    min := start;
    assert rrs[..0] == [] && seen + [] == seen;
    for i := 0 to |rrs|
      invariant min == MinTtlOf(seen + Ttls(rrs[..i]))
    {
      var ttl := rrs[i].ttl;
      SectionStep(seen, rrs, i);
      if min == 0 || ttl < min {
        min := ttl;
      }
    }
    assert rrs[..|rrs|] == rrs;
  }

  lemma SectionStep(seen: seq<nat>, rrs: seq<RR>, i: nat)
    requires i < |rrs|
    ensures var before, ttl := MinTtlOf(seen + Ttls(rrs[..i])), rrs[i].ttl;
            MinTtlOf(seen + Ttls(rrs[..i + 1])) == if before == 0 || ttl < before then ttl else before
  {
    TtlsSnoc(rrs, i);
    ConcatAssociates(seen, Ttls(rrs[..i]), [rrs[i].ttl]);
    var all := seen + Ttls(rrs[..i]);
    assert (all + [rrs[i].ttl])[..|all|] == all;
  }

  lemma TtlsSnoc(rrs: seq<RR>, i: nat)
    requires i < |rrs|
    ensures Ttls(rrs[..i + 1]) == Ttls(rrs[..i]) + [rrs[i].ttl]
  {
  }

  /** From record k on, which is the first or follows a zero, no TTL is zero and min is the least. */
  ghost predicate LeastFrom(rrs: seq<RR>, k: nat, min: nat) {
    && k < |rrs|
    && (k == 0 || rrs[k - 1].ttl == 0)
    && (forall j | k <= j < |rrs| :: 0 < rrs[j].ttl && min <= rrs[j].ttl)
    && exists j | k <= j < |rrs| :: rrs[j].ttl == min
  }

  /** Zero without records or with a last TTL of zero, and otherwise the least TTL behind the last zero. */
  ghost predicate LeastBehindLastZero(rrs: seq<RR>, min: nat) {
    if rrs == [] || rrs[|rrs| - 1].ttl == 0 then min == 0
    else exists k: nat :: LeastFrom(rrs, k, min)
  }

  lemma TtlsOfRecords(m: Msg)
    ensures var rrs := m.answer + m.ns + m.extra;
            |AllTtls(m)| == |rrs| && forall i | 0 <= i < |rrs| :: AllTtls(m)[i] == rrs[i].ttl
  {
  }

  /** LeastFrom for a list of TTLs; j is a place of the least one. */
  predicate LeastTtlFrom(ttls: seq<nat>, k: nat, j: nat, min: nat) {
    && k <= j < |ttls| && ttls[j] == min
    && (k == 0 || ttls[k - 1] == 0)
    && forall i | k <= i < |ttls| :: 0 < ttls[i] && min <= ttls[i]
  }

  lemma LeastTtlStarts(front: seq<nat>, t: nat)
    requires t > 0 && (front == [] || front[|front| - 1] == 0)
    ensures LeastTtlFrom(front + [t], |front|, |front|, t)
  {
  }

  lemma LeastTtlGoesOn(front: seq<nat>, t: nat, k: nat, j: nat, min: nat)
    requires t > 0 && LeastTtlFrom(front, k, j, min)
    ensures if t < min then LeastTtlFrom(front + [t], k, |front|, t) else LeastTtlFrom(front + [t], k, j, min)
  {
  }

  lemma {:induction false} RunningMinimum(ttls: seq<nat>) returns (k: nat, j: nat)
    requires ttls != [] && ttls[|ttls| - 1] != 0
    ensures LeastTtlFrom(ttls, k, j, MinTtlOf(ttls))
  {
    var n := |ttls| - 1;
    var front, t := ttls[..n], ttls[n];
    assert ttls == front + [t];
    MinTtlMeaning(front);
    if front == [] || front[n - 1] == 0 {
      LeastTtlStarts(front, t);
      k, j := n, n;
    } else {
      k, j := RunningMinimum(front);
      LeastTtlGoesOn(front, t, k, j, MinTtlOf(front));
      j := if t < MinTtlOf(front) then n else j;
    }
  }

  lemma LeastOfRecords(rrs: seq<RR>, ttls: seq<nat>, k: nat, j: nat, min: nat)
    requires |ttls| == |rrs| && forall i | 0 <= i < |rrs| :: ttls[i] == rrs[i].ttl
    requires LeastTtlFrom(ttls, k, j, min)
    ensures LeastFrom(rrs, k, min)
  {
    assert rrs[j].ttl == ttls[j];
    assert k > 0 ==> rrs[k - 1].ttl == ttls[k - 1];
  }

  lemma MinTtlOfRecords(m: Msg)
    ensures LeastBehindLastZero(m.answer + m.ns + m.extra, MinTtlOf(AllTtls(m)))
  {
    var rrs, ttls := m.answer + m.ns + m.extra, AllTtls(m);
    TtlsOfRecords(m);
    MinTtlMeaning(ttls);
    if rrs != [] {
      var n := |rrs| - 1;
      assert rrs[n].ttl == ttls[n];
      if ttls[n] != 0 {
        var k, j := RunningMinimum(ttls);
        LeastOfRecords(rrs, ttls, k, j, MinTtlOf(ttls));
      }
    }
  }

  /** minTTL: one running minimum over the three sections. */
  method MinTtl(m: Msg) returns (min: nat)
    ensures min == MinTtlOf(AllTtls(m))
    ensures LeastBehindLastZero(m.answer + m.ns + m.extra, min)
  {
    MinTtlOfRecords(m);
    min := MinTtlOfSection(m.answer, 0, []);
    assert [] + Ttls(m.answer) == Ttls(m.answer);
    min := MinTtlOfSection(m.ns, min, Ttls(m.answer));
    min := MinTtlOfSection(m.extra, min, Ttls(m.answer) + Ttls(m.ns));
  }

  /** minTTL is the true minimum exactly when no record has TTL zero or the last one has. */
  lemma MinTtlIsMinimumIff(ttls: seq<nat>)
    requires ttls != []
    ensures MinTtlOf(ttls) == Least(ttls) <==> 0 !in ttls || ttls[|ttls| - 1] == 0
  {
    LeastBounds(ttls);
    MinTtlMeaning(ttls);
    if 0 !in ttls {
      assert |ZeroFreeSuffix(ttls)| == |ttls|;
      assert ZeroFreeSuffix(ttls) == ttls;
    }
  }

  /** A record that must not be cached is forgotten when others follow it. */
  lemma InteriorZeroIsLost()
    ensures MinTtlOf([60, 0, 300]) == 300 && Least([60, 0, 300]) == 0
  {
    assert [60, 0, 300][..2] == [60, 0];
    LeastBounds([60, 0, 300]);
  }

  // ----- Negative answers -----

  predicate Negative(m: Msg) {
    m.rcode != RCODE_SUCCESS || m.answer == []
  }

  /** The first SOA record of the authority section. */
  function FirstSoa(ns: seq<RR>): Option<RR> {
    if ns == [] then None
    else if ns[0].SOA? then Some(ns[0])
    else FirstSoa(ns[1..])
  }

  /** Section 5 of RFC 2308: the lesser of the SOA record's TTL and its minimum field. */
  function NegativeTtlOf(m: Msg): nat {
    var soa := FirstSoa(m.ns);
    if !Negative(m) || !soa.Some? || !soa.value.SOA? then 0
    else if soa.value.minttl < soa.value.ttl then soa.value.minttl
    else soa.value.ttl
  }

  /** What the lifetime of a negative answer is, record by record. */
  lemma NegativeTtlOfRecords(m: Msg)
    ensures m.rcode == 0 && |m.answer| > 0 ==> NegativeTtlOf(m) == 0
    ensures (forall rr <- m.ns :: !rr.SOA?) ==> NegativeTtlOf(m) == 0
    ensures m.rcode != 0 || |m.answer| == 0 ==>
              forall i | 0 <= i < |m.ns| && m.ns[i].SOA? && (forall j | 0 <= j < i :: !m.ns[j].SOA?) ::
                NegativeTtlOf(m) == if m.ns[i].ttl < m.ns[i].minttl then m.ns[i].ttl else m.ns[i].minttl
  {
    forall i | 0 <= i < |m.ns| && m.ns[i].SOA? && (forall j | 0 <= j < i :: !m.ns[j].SOA?)
      ensures FirstSoa(m.ns) == Some(m.ns[i])
    {
      FirstSoaAt(m.ns, i);
    }
    if forall rr <- m.ns :: !rr.SOA? {
      NoSoa(m.ns);
    }
  }

  lemma {:induction false} FirstSoaAt(ns: seq<RR>, i: nat)
    requires i < |ns| && ns[i].SOA? && forall j | 0 <= j < i :: !ns[j].SOA?
    ensures FirstSoa(ns) == Some(ns[i])
  {
    if i > 0 {
      FirstSoaAt(ns[1..], i - 1);
    }
  }

  lemma {:induction false} NoSoa(ns: seq<RR>)
    requires forall rr <- ns :: !rr.SOA?
    ensures FirstSoa(ns) == None
  {
    if ns != [] {
      assert ns[0] in ns && forall rr <- ns[1..] :: rr in ns;
      NoSoa(ns[1..]);
    }
  }

  method NegativeTtl(m: Msg) returns (ttl: nat)
    ensures ttl == NegativeTtlOf(m)
    ensures m.rcode == 0 && |m.answer| > 0 ==> ttl == 0
    ensures (forall rr <- m.ns :: !rr.SOA?) ==> ttl == 0
    ensures m.rcode != 0 || |m.answer| == 0 ==>
              forall i | 0 <= i < |m.ns| && m.ns[i].SOA? && (forall j | 0 <= j < i :: !m.ns[j].SOA?) ::
                ttl == if m.ns[i].ttl < m.ns[i].minttl then m.ns[i].ttl else m.ns[i].minttl
  {
    NegativeTtlOfRecords(m);
    if m.rcode == RCODE_SUCCESS && |m.answer| > 0 {
      return 0;
    }
    for i := 0 to |m.ns|
      invariant FirstSoa(m.ns) == FirstSoa(m.ns[i..])
    {
      var rr := m.ns[i];
      if rr.SOA? {
        return if rr.minttl < rr.ttl then rr.minttl else rr.ttl;
      }
    }
    return 0;
  }

  /** The TTL under which handleRequest stores a message; zero means it does not. */
  function StoreTtl(m: Msg): nat {
    if MinTtlOf(AllTtls(m)) > 0 then MinTtlOf(AllTtls(m)) else NegativeTtlOf(m)
  }

  /** The TTLs behind the last zero of a message, in the order of its records. */
  function LiveTtls(m: Msg): seq<nat> {
    ZeroFreeSuffix(AllTtls(m))
  }

  lemma StoreTtlMeaning(m: Msg)
    ensures StoreTtl(m) == if LiveTtls(m) == [] then NegativeTtlOf(m) else Least(LiveTtls(m))
    ensures LiveTtls(m) == [] <==> AllTtls(m) == [] || AllTtls(m)[|AllTtls(m)| - 1] == 0
    ensures LiveTtls(m) != [] ==> Least(LiveTtls(m)) in LiveTtls(m) && Least(LiveTtls(m)) > 0
    ensures LiveTtls(m) != [] ==> forall t <- LiveTtls(m) :: Least(LiveTtls(m)) <= t
  {
    MinTtlMeaning(AllTtls(m));
    if LiveTtls(m) != [] {
      LeastBounds(LiveTtls(m));
    }
  }

  /** A message is stored no longer than section 5 of RFC 2308 allows a negative answer, which is not at
      all without an SOA record, if and only if it has no record, its last TTL is zero, or some TTL
      behind the last zero is within the limit. */
  lemma NegativeNotTooLongIff(m: Msg)
    ensures var ttls := AllTtls(m);
            StoreTtl(m) <= NegativeTtlOf(m)
            <==> ttls == [] || ttls[|ttls| - 1] == 0 || exists t <- LiveTtls(m) :: t <= NegativeTtlOf(m)
  {
    StoreTtlMeaning(m);
  }

  /** It is stored for exactly that time if and only if it has no record, its last TTL is zero, or the
      limit is the TTL of some record behind the last zero and none there has a lesser one. */
  lemma NegativeMeetsRfcIff(m: Msg)
    ensures var ttls := AllTtls(m);
            StoreTtl(m) == NegativeTtlOf(m)
            <==> ttls == [] || ttls[|ttls| - 1] == 0
                 || (NegativeTtlOf(m) in LiveTtls(m) && forall t <- LiveTtls(m) :: NegativeTtlOf(m) <= t)
  {
    StoreTtlMeaning(m);
  }

  /** A negative answer without an SOA record is cached, which section 5 of RFC 2308 forbids, if and only
      if it has a record and the last TTL is positive. */
  lemma WithoutSoaCachedIff(m: Msg)
    requires FirstSoa(m.ns) == None
    ensures var ttls := AllTtls(m);
            NegativeTtlOf(m) == 0 && (StoreTtl(m) > 0 <==> ttls != [] && ttls[|ttls| - 1] > 0)
  {
    StoreTtlMeaning(m);
  }

  /** A name error behind an alias, without an SOA record, is kept for the alias's five minutes. */
  lemma NoSoaStillCached()
    ensures var m := Msg(1, true, 3, [Question("a.", 1)], [Other(300)], [], [], []);
            Negative(m) && StoreTtl(m) == 300 && NegativeTtlOf(m) == 0
  {
    var m := Msg(1, true, 3, [Question("a.", 1)], [Other(300)], [], [], []);
    assert AllTtls(m) == [300];
    assert MinTtlOf([300]) == 300;
  }

  lemma SoaOnlyTtls(m: Msg, soa: RR)
    requires soa.SOA? && m.answer == [] && m.ns == [soa] && m.extra == []
    ensures NegativeTtlOf(m) == if soa.minttl < soa.ttl then soa.minttl else soa.ttl
    ensures soa.ttl > 0 ==> StoreTtl(m) == soa.ttl
    ensures soa.ttl == 0 ==> StoreTtl(m) == 0
  {
    assert AllTtls(m) == [] + [soa.ttl];
    assert MinTtlOf([soa.ttl]) == soa.ttl;
  }

  /** A negative answer that carries nothing but its SOA record is cached as section 5 of RFC 2308 asks
      if and only if the record's TTL does not exceed its minimum field. */
  lemma SoaOnlyMeetsRfcIff(m: Msg, soa: RR)
    requires soa.SOA? && m.answer == [] && m.ns == [soa] && m.extra == []
    ensures StoreTtl(m) == NegativeTtlOf(m) <==> soa.ttl <= soa.minttl
  {
    SoaOnlyTtls(m, soa);
  }

  /** A name error whose SOA record may be kept for an hour but says to keep the error for a minute is
      kept for the hour. */
  lemma NegativeKeptTooLong()
    ensures var m := Msg(1, true, 3, [Question("a.", 1)], [], [SOA(3600, 60)], [], []);
            StoreTtl(m) == 3600 && NegativeTtlOf(m) == 60
  {
    SoaOnlyTtls(Msg(1, true, 3, [Question("a.", 1)], [], [SOA(3600, 60)], [], []), SOA(3600, 60));
  }

  // ----- Addresses and replies -----

  predicate HasAddress(rr: RR) {
    rr.A? || rr.AAAA?
  }

  /** The addresses of the A and AAAA records. */
  function Addresses(rrs: seq<RR>): set<bytes> {
    set rr | rr in rrs && HasAddress(rr) :: rr.addr
  }

  /** An address is among them if and only if some A or AAAA record has it. */
  lemma AddressesIff(rrs: seq<RR>, ip: bytes)
    ensures ip in Addresses(rrs) <==> exists rr <- rrs :: rr == A(rr.ttl, ip) || rr == AAAA(rr.ttl, ip)
  {
    if ip in Addresses(rrs) {
      var rr :| rr in rrs && HasAddress(rr) && rr.addr == ip;
      assert rr == A(rr.ttl, ip) || rr == AAAA(rr.ttl, ip);
    }
  }

  datatype CacheKey = CacheKey(name: string, qtype: nat)

  function KeyOf(req: Msg): CacheKey
    requires req.question != []
  {
    CacheKey(req.question[0].name, req.question[0].qtype)
  }

  /** The reply made from a message for this request. */
  function ReplyFrom(m: Msg, req: Msg): Msg {
    m.(id := req.id, data := [])
  }

  function ServerFailure(req: Msg): Msg {
    req.(response := true, rcode := RCODE_SERVER_FAILURE, data := [])
  }

  /** The reply has this request's ID, no wire data, and everything else from the message m. */
  predicate Passes(reply: Msg, m: Msg, req: Msg) {
    reply == Msg(req.id, m.response, m.rcode, m.question, m.answer, m.ns, m.extra, [])
  }

  /** The reply is a SERVFAIL response, code 2, with everything else from the request. */
  predicate Refuses(reply: Msg, req: Msg) {
    reply == Msg(req.id, true, 2, req.question, req.answer, req.ns, req.extra, [])
  }
}
