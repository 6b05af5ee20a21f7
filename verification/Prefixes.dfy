/**
 * IP addresses and masks as the net package handles them, the device's test whether a route covers an
 * address, and its meaning as prefix equality of integers.
 */
module Prefixes {
  import opened Bytes

  datatype Family = Inet | Inet6

  /** A destination prefix. The program keeps prefixLen in a byte. */
  datatype Route = Route(family: Family, dst: bytes, prefixLen: nat)

  // ----- net.IP and net.IPMask; the empty sequence stands for nil -----

  const V4_IN_V6_PREFIX: bytes := [0, 0, 0, 0, 0, 0, 0, 0, 0, 0, 255, 255]

  function To4(ip: bytes): bytes {
    if |ip| == 4 then ip
    else if |ip| == 16 && ip[..12] == V4_IN_V6_PREFIX then ip[12..]
    else []
  }

  function To16(ip: bytes): bytes {
    if |ip| == 4 then V4_IN_V6_PREFIX + ip
    else if |ip| == 16 then ip
    else []
  }

  /** Bitwise and. */
  function And(x: nat, y: nat): (z: nat)
    ensures z <= x
  {
    if x == 0 || y == 0 then 0
    else 2 * And(x / 2, y / 2) + if x % 2 == 1 && y % 2 == 1 then 1 else 0
  }

  /** A mask byte with n leading ones still to come: ^byte(0xff >> n). */
  function MaskByte(n: int): byte {
    if n >= 8 then 255
    else if n <= 0 then 0
    else 255 - 255 / Pow2(n)
  }

  /** The first size bytes of a mask of this many ones. */
  function MaskBytes(ones: int, size: nat): bytes {
    seq(size, i requires 0 <= i < size => MaskByte(ones - 8 * i))
  }

  /** net.CIDRMask. */
  function CidrMask(ones: nat, bits: nat): bytes {
    if bits != 32 && bits != 128 then []
    else if ones > bits then []
    else MaskBytes(ones, bits / 8)
  }

  function AndBytes(a: bytes, m: bytes): bytes
    requires |a| == |m|
  {
    seq(|a|, i requires 0 <= i < |a| => And(a[i], m[i]))
  }

  /** IP.Mask. */
  function MaskIp(ip: bytes, mask: bytes): bytes {
    var m := if |mask| == 16 && |ip| == 4 && (forall b <- mask[..12] :: b == 255) then mask[12..] else mask;
    var a := if |m| == 4 && |ip| == 16 && ip[..12] == V4_IN_V6_PREFIX then ip[12..] else ip;
    if |a| != |m| then [] else AndBytes(a, m)
  }

  /** IP.Equal. */
  predicate IpEqual(a: bytes, b: bytes) {
    if |a| == |b| then a == b
    else if |a| == 4 && |b| == 16 then b[..12] == V4_IN_V6_PREFIX && a == b[12..]
    else if |a| == 16 && |b| == 4 then a[..12] == V4_IN_V6_PREFIX && b == a[12..]
    else false
  }

  // ----- Covering -----

  /** The route AddRouteWithDomain would add for an address. */
  function HostRoute(ip: bytes): Route {
    if To4(ip) != [] then Route(Inet, To4(ip), 32) else Route(Inet6, To16(ip), 128)
  }

  /** The device's test whether tracked route r covers a normalised address. */
  predicate CoveredBy(r: Route, family: Family, ip: bytes) {
    && r.family == family
    && var mask := CidrMask(r.prefixLen, |r.dst| * 8);
       IpEqual(MaskIp(r.dst, mask), MaskIp(ip, mask))
  }

  function Width(family: Family): nat {
    if family.Inet? then 4 else 16
  }

  /** A route the kernel accepts: the prefix is no wider than the address. */
  predicate ValidRoute(r: Route) {
    |r.dst| == Width(r.family) && r.prefixLen <= 8 * |r.dst|
  }

  /** Some tracked route covers the address. */
  ghost predicate Covered(routes: seq<Route>, ip: bytes) {
    exists r <- routes :: CoveredBy(r, HostRoute(ip).family, HostRoute(ip).dst)
  }

  /** An address as a big-endian integer. */
  function Value(s: bytes): nat {
    if s == [] then 0 else
      var last: int := s[|s| - 1];
      256 * Value(s[..|s| - 1]) + last
  }

  /** Longest-prefix matching: the first prefixLen bits of both addresses agree. */
  ghost predicate InPrefix(r: Route, family: Family, ip: bytes)
    requires ValidRoute(r)
  {
    && family == r.family
    && |ip| == |r.dst|
    && var host := Pow2(8 * |r.dst| - r.prefixLen);
       Value(ip) / host == Value(r.dst) / host
  }

  /** An IPv4 address written in sixteen bytes. */
  predicate IsMapped(ip: bytes) {
    |ip| == 16 && ip[..12] == [0, 0, 0, 0, 0, 0, 0, 0, 0, 0, 0xff, 0xff]
  }

  /** The host route of an address, by the number of its bytes. */
  lemma HostRouteOf(ip: bytes)
    ensures |ip| == 4 ==> HostRoute(ip) == Route(Inet, ip, 32)
    ensures IsMapped(ip) ==> HostRoute(ip) == Route(Inet, ip[12..], 32)
    ensures |ip| == 16 && !IsMapped(ip) ==> HostRoute(ip) == Route(Inet6, ip, 128)
    ensures |ip| != 4 && |ip| != 16 ==> !ValidRoute(HostRoute(ip))
    ensures To4(ip) == if |ip| == 4 then ip else if IsMapped(ip) then ip[12..] else []
  {
  }

  /** The prefixes the kernel accepts, in numbers. */
  lemma ValidRouteIff(r: Route)
    ensures ValidRoute(r) <==>
              || (r.family == Inet && |r.dst| == 4 && r.prefixLen <= 32)
              || (r.family == Inet6 && |r.dst| == 16 && r.prefixLen <= 128)
  {
  }

  // ----- The mask test is prefix equality -----

  /** x without its k low bits. */
  function ShiftRight(x: nat, k: nat): nat {
    if k == 0 then x else ShiftRight(x / 2, k - 1)
  }

  /** m followed by k zero bits. */
  function ShiftLeft(m: nat, k: nat): nat {
    if k == 0 then m else 2 * ShiftLeft(m, k - 1)
  }

  lemma {:induction false} ShiftLeftInjective(a: nat, b: nat, k: nat)
    ensures ShiftLeft(a, k) == ShiftLeft(b, k) <==> a == b
  {
    if k > 0 {
      ShiftLeftInjective(a, b, k - 1);
    }
  }

  lemma {:induction false} AndDouble(x: nat, m: nat)
    ensures And(x, 2 * m) == 2 * And(x / 2, m)
  {
    assert 2 * m / 2 == m && 2 * m % 2 == 0;
  }

  /** Masking with a pattern above k zeros masks the bits above the k low ones. */
  lemma {:induction false} AndShifted(x: nat, m: nat, k: nat)
    ensures And(x, ShiftLeft(m, k)) == ShiftLeft(And(ShiftRight(x, k), m), k)
  {
    if k > 0 {
      AndShifted(x / 2, m, k - 1);
      AndDouble(x, ShiftLeft(m, k - 1));
    }
  }

  lemma {:induction false} AndOnes(x: nat, m: nat)
    ensures And(x, 2 * m + 1) == 2 * And(x / 2, m) + x % 2
  {
    assert (2 * m + 1) / 2 == m && (2 * m + 1) % 2 == 1;
  }

  lemma {:induction false} AndAllOnes(x: nat, n: nat)
    requires x < Pow2(n)
    ensures And(x, Pow2(n) - 1) == x
  {
    if n > 0 && x > 0 {
      var p := Pow2(n - 1);
      assert Pow2(n) == 2 * p;
      AndAllOnes(x / 2, n - 1);
      AndOnes(x, p - 1);
    }
  }

  lemma MulMonotone(d: nat, a: nat, b: nat)
    ensures a < b ==> d * a + d <= d * b
  {
    if a < b {
      assert d * a + d == d * (a + 1);
      MulGrows(d, a + 1, b);
    }
  }

  lemma MulGrows(d: nat, a: nat, b: nat)
    requires a <= b
    ensures d * a <= d * b
  {
  }

  lemma QuotientUnique(x: nat, d: nat, q: nat, r: nat)
    requires d > 0 && x == d * q + r && r < d
    ensures x / d == q
  {
    DivMod(x, d);
    MulMonotone(d, q, x / d);
    MulMonotone(d, x / d, q);
  }

  lemma TwiceMul(d: nat, q: nat)
    ensures (2 * d) * q == 2 * (d * q)
  {
  }

  lemma DivMod(x: nat, d: nat)
    requires d > 0
    ensures x == d * (x / d) + x % d && x % d < d
  {
  }

  lemma HalveQuotient(x: nat, d: nat, q: nat)
    requires d > 0 && q == x / 2 / d
    ensures x / (2 * d) == q
  {
    var r := x / 2 % d;
    DivMod(x / 2, d);
    TwiceMul(d, q);
    QuotientUnique(x, 2 * d, q, 2 * r + x % 2);
  }

  lemma {:induction false} ShiftIsQuotient(x: nat, k: nat)
    ensures ShiftRight(x, k) == x / Pow2(k)
  {
    if k > 0 {
      ShiftIsQuotient(x / 2, k - 1);
      HalveQuotient(x, Pow2(k - 1), x / 2 / Pow2(k - 1));
    }
  }

  lemma SmallPowers()
    ensures Pow2(0) == 1 && Pow2(1) == 2 && Pow2(2) == 4 && Pow2(3) == 8 && Pow2(4) == 16
    ensures Pow2(5) == 32 && Pow2(6) == 64 && Pow2(7) == 128 && Pow2(8) == 256
  {
    assert Pow2(2) == 4;
    assert Pow2(4) == 16;
    assert Pow2(6) == 64;
  }

  lemma {:induction false} OnesShifted(n: nat, k: nat)
    ensures ShiftLeft(Pow2(n) - 1, k) == Pow2(n + k) - Pow2(k)
  {
    if k > 0 {
      OnesShifted(n, k - 1);
    }
  }

  lemma MaskByteShifted(n: nat)
    requires n <= 8
    ensures MaskByte(n) == ShiftLeft(Pow2(n) - 1, 8 - n)
  {
    OnesShifted(n, 8 - n);
    SmallPowers();
    assert n == 0 || n == 1 || n == 2 || n == 3 || n == 4 || n == 5 || n == 6 || n == 7 || n == 8;
  }

  lemma {:induction false} TopBitsFit(x: nat, n: nat, k: nat)
    requires x < Pow2(n + k)
    ensures ShiftRight(x, k) < Pow2(n)
  {
    if k > 0 {
      TopBitsFit(x / 2, n, k - 1);
    }
  }

  /** Two bytes agree under a mask of n leading ones exactly when their first n bits agree. */
  lemma {:induction false} MaskedBytesAgree(x: byte, y: byte, n: nat)
    requires n <= 8
    ensures And(x, MaskByte(n)) == And(y, MaskByte(n)) <==> ShiftRight(x, 8 - n) == ShiftRight(y, 8 - n)
  {
    var k := 8 - n;
    MaskByteShifted(n);
    AndShifted(x, Pow2(n) - 1, k);
    AndShifted(y, Pow2(n) - 1, k);
    SmallPowers();
    TopBitsFit(x, n, k);
    TopBitsFit(y, n, k);
    AndAllOnes(ShiftRight(x, k), n);
    AndAllOnes(ShiftRight(y, k), n);
    ShiftLeftInjective(ShiftRight(x, k), ShiftRight(y, k), k);
  }

  /** Two addresses agree under a mask of this many ones, byte by byte from the last. */
  predicate MaskedAgree(a: bytes, b: bytes, ones: int)
    requires |a| == |b|
  {
    a == [] ||
    var n := |a| - 1;
    && And(a[n], MaskByte(ones - 8 * n)) == And(b[n], MaskByte(ones - 8 * n))
    && MaskedAgree(a[..n], b[..n], ones)
  }

  lemma SplitAnd(a: bytes, ones: int)
    requires a != []
    ensures var n := |a| - 1;
            AndBytes(a, MaskBytes(ones, |a|))
            == AndBytes(a[..n], MaskBytes(ones, n)) + [And(a[n], MaskByte(ones - 8 * n))]
  {
  }

  lemma SnocEqual(a: bytes, x: byte, b: bytes, y: byte)
    ensures a + [x] == b + [y] <==> a == b && x == y
  {
    if a + [x] == b + [y] {
      assert (a + [x])[..|a|] == a && (b + [y])[..|b|] == b;
      assert (a + [x])[|a|] == x && (b + [y])[|b|] == y;
    }
  }

  lemma {:induction false} MaskedAgreeIsEquality(a: bytes, b: bytes, ones: int)
    requires |a| == |b|
    ensures MaskedAgree(a, b, ones) <==> AndBytes(a, MaskBytes(ones, |a|)) == AndBytes(b, MaskBytes(ones, |b|))
  {
    if a != [] {
      var n := |a| - 1;
      MaskedAgreeIsEquality(a[..n], b[..n], ones);
      SplitAnd(a, ones);
      SplitAnd(b, ones);
      SnocEqual(AndBytes(a[..n], MaskBytes(ones, n)), And(a[n], MaskByte(ones - 8 * n)),
                AndBytes(b[..n], MaskBytes(ones, n)), And(b[n], MaskByte(ones - 8 * n)));
    }
  }

  lemma {:induction false} FullMaskAgree(a: bytes, b: bytes, ones: int)
    requires |a| == |b| && ones >= 8 * |a|
    ensures MaskedAgree(a, b, ones) <==> a == b
  {
    if a != [] {
      var n := |a| - 1;
      FullMaskAgree(a[..n], b[..n], ones);
      MaskedBytesAgree(a[n], b[n], 8);
      SnocEqual(a[..n], a[n], b[..n], b[n]);
      assert a == a[..n] + [a[n]] && b == b[..n] + [b[n]];
    }
  }

  lemma {:induction false} ValueInjective(a: bytes, b: bytes)
    requires |a| == |b|
    ensures Value(a) == Value(b) <==> a == b
  {
    if a != [] {
      var n := |a| - 1;
      ValueInjective(a[..n], b[..n]);
      assert a == a[..n] + [a[n]] && b == b[..n] + [b[n]];
    }
  }

  lemma {:induction false} ShiftDropsByte(v: nat, last: byte, k: nat)
    requires k >= 8
    ensures ShiftRight(256 * v + last, k) == ShiftRight(v, k - 8)
  {
    var x: nat := 256 * v + last;
    assert ShiftRight(x, k) == ShiftRight(x / 4, k - 2);
    assert ShiftRight(x / 4, k - 2) == ShiftRight(x / 16, k - 4);
    assert ShiftRight(x / 16, k - 4) == ShiftRight(x / 64, k - 6);
    assert ShiftRight(x / 64, k - 6) == ShiftRight(x / 256, k - 8);
  }

  lemma {:induction false} ShiftOfSum(v: nat, x: nat, j: nat, k: nat)
    ensures ShiftRight(ShiftLeft(v, j + k) + x, k) == ShiftLeft(v, j) + ShiftRight(x, k)
  {
    if k > 0 {
      ShiftOfSum(v, x / 2, j, k - 1);
      assert (ShiftLeft(v, j + k) + x) / 2 == ShiftLeft(v, j + k - 1) + x / 2;
    }
  }

  lemma {:induction false} SumSplits(v: nat, p: nat, w: nat, q: nat, j: nat)
    requires p < Pow2(j) && q < Pow2(j)
    ensures ShiftLeft(v, j) + p == ShiftLeft(w, j) + q <==> v == w && p == q
  {
    if j > 0 {
      SumSplits(v, p / 2, w, q / 2, j - 1);
    }
  }

  lemma ByteShifted(v: nat)
    ensures ShiftLeft(v, 8) == 256 * v
  {
    assert ShiftLeft(v, 1) == 2 * v;
    assert ShiftLeft(v, 2) == 4 * v;
    assert ShiftLeft(v, 4) == 16 * v;
    assert ShiftLeft(v, 6) == 64 * v;
  }

  lemma {:induction false} ShiftSplits(v: nat, x: byte, w: nat, y: byte, k: nat)
    requires k < 8
    ensures ShiftRight(256 * v + x, k) == ShiftRight(256 * w + y, k)
       <==> v == w && ShiftRight(x, k) == ShiftRight(y, k)
  {
    ByteShifted(v);
    ByteShifted(w);
    ShiftOfSum(v, x, 8 - k, k);
    ShiftOfSum(w, y, 8 - k, k);
    SmallPowers();
    TopBitsFit(x, 8 - k, k);
    TopBitsFit(y, 8 - k, k);
    SumSplits(v, ShiftRight(x, k), w, ShiftRight(y, k), 8 - k);
  }

  lemma LastByteShift(v: nat, x: byte, w: nat, y: byte, k: nat)
    requires k < 8
    ensures v == w && And(x, MaskByte(8 - k)) == And(y, MaskByte(8 - k))
       <==> ShiftRight(256 * v + x, k) == ShiftRight(256 * w + y, k)
  {
    MaskedBytesAgree(x, y, 8 - k);
    ShiftSplits(v, x, w, y, k);
  }

  lemma FullMaskValues(a: bytes, b: bytes, ones: int)
    requires |a| == |b| && ones >= 8 * |a|
    ensures MaskedAgree(a, b, ones) <==> Value(a) == Value(b)
  {
    FullMaskAgree(a, b, ones);
    ValueInjective(a, b);
  }

  lemma ValueSplit(a: bytes)
    requires a != []
    ensures Value(a) == 256 * Value(a[..|a| - 1]) + a[|a| - 1]
  {
  }

  /** The mask ends within the last byte. */
  lemma LastByteAgrees(a: bytes, b: bytes, k: nat, n: nat, ones: int)
    requires |a| == |b| == n + 1 && k < 8 && ones == 8 * n + 8 - k
    ensures MaskedAgree(a, b, ones) <==> ShiftRight(Value(a), k) == ShiftRight(Value(b), k)
  {
    assert ones - 8 * n == 8 - k;
    SnocAgrees(a[..n], a[n], b[..n], b[n], k, ones);
    ValueSplit(a);
    ValueSplit(b);
  }

  lemma SnocAgrees(a: bytes, x: byte, b: bytes, y: byte, k: nat, ones: int)
    requires |a| == |b| && k < 8 && ones >= 8 * |a|
    ensures MaskedAgree(a, b, ones) && And(x, MaskByte(8 - k)) == And(y, MaskByte(8 - k))
       <==> ShiftRight(256 * Value(a) + x, k) == ShiftRight(256 * Value(b) + y, k)
  {
    FullMaskValues(a, b, ones);
    LastByteShift(Value(a), x, Value(b), y, k);
  }

  /** The bytewise test agrees with equality of the leading bits of the whole addresses. */
  lemma {:induction false} MaskedAgreeIsShift(a: bytes, b: bytes, ones: nat)
    requires |a| == |b| && ones <= 8 * |a|
    ensures var host := 8 * |a| - ones;
            MaskedAgree(a, b, ones) <==> ShiftRight(Value(a), host) == ShiftRight(Value(b), host)
  {
    var n, k := |a| - 1, 8 * |a| - ones;
    if a != [] && k < 8 {
      LastByteAgrees(a, b, k, n, ones);
    } else if a != [] {
      MaskedAgreeIsShift(a[..n], b[..n], ones);
      ShiftDropsByte(Value(a[..n]), a[n], k);
      ShiftDropsByte(Value(b[..n]), b[n], k);
      assert MaskByte(ones - 8 * n) == 0;
    }
  }

  /** For every route the kernel accepts, the mask-and-compare test is prefix matching. */
  lemma CoverIsPrefixMatch(r: Route, ip: bytes)
    requires ValidRoute(r)
    ensures var h := HostRoute(ip);
            CoveredBy(r, h.family, h.dst) <==> InPrefix(r, h.family, h.dst)
  {
    var h := HostRoute(ip);
    if r.family == h.family {
      var mask := CidrMask(r.prefixLen, |r.dst| * 8);
      assert mask == MaskBytes(r.prefixLen, |r.dst|);
      assert MaskIp(r.dst, mask) == AndBytes(r.dst, mask);
      if |h.dst| == |r.dst| {
        assert MaskIp(h.dst, mask) == AndBytes(h.dst, mask);
        var host := 8 * |r.dst| - r.prefixLen;
        MaskedAgreeIsEquality(r.dst, h.dst, r.prefixLen);
        MaskedAgreeIsShift(r.dst, h.dst, r.prefixLen);
        ShiftIsQuotient(Value(r.dst), host);
        ShiftIsQuotient(Value(h.dst), host);
      }
    }
  }

  /** A prefix wider than the address makes both masked addresses nil, and the test then holds of every
      address of the family: only the kernel's refusal keeps such routes out of the list. */
  lemma TooWideCoversEverything(r: Route, ip: bytes)
    requires |r.dst| == Width(r.family) && r.prefixLen > 8 * |r.dst|
    ensures CoveredBy(r, HostRoute(ip).family, HostRoute(ip).dst) <==> r.family == HostRoute(ip).family
  {
    assert CidrMask(r.prefixLen, |r.dst| * 8) == [];
  }

  /** A host route covers its own address and no other. */
  lemma HostCoversOnlyItself(h: Route, ip: bytes)
    requires ValidRoute(h) && h.prefixLen == 8 * |h.dst|
    ensures CoveredBy(h, HostRoute(ip).family, HostRoute(ip).dst) <==> HostRoute(ip) == h
  {
    CoverIsPrefixMatch(h, ip);
    if |HostRoute(ip).dst| == |h.dst| {
      assert Pow2(0) == 1;
      ValueInjective(HostRoute(ip).dst, h.dst);
    }
  }
}
