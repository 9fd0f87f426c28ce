/** Addresses, prefix sets and their bucket keys (common/geodata/ip_matcher.go). */
module IpSets {
  import opened Bytes

  /** net.IP: 4 bytes, 16 bytes or anything else. */
  type Ip = seq<byte>

  /** netipx.FromStdIP: the address proper, 4 or 16 bytes. */
  function FromStdIp(ip: Ip): (a: Option<Ip>)
    ensures a.Some? ==> |a.value| == 4 || (|a.value| == 16 && !MappedV4(a.value))
  {
    if |ip| == 4 then Some(ip)
    else if |ip| != 16 then None
    else if MappedV4(ip) then Some(ip[12..]) else Some(ip)
  }

  predicate Legal(ip: Ip) {
    FromStdIp(ip).Some?
  }

  /** net.IP.To4. */
  function To4(ip: Ip): Option<Ip> {
    if |ip| == 4 then Some(ip) else if MappedV4(ip) then Some(ip[12..]) else None
  }

  /** prefixKeyFromIP: the /24 of an IPv4 address, the /64 of an IPv6 one. */
  function PrefixKey(ip: Ip): Option<Ip> {
    var ip4 := To4(ip);
    if ip4.Some? then Some([4, ip4.value[0], ip4.value[1], ip4.value[2], 0, 0, 0, 0, 0])
    else if |ip| == 16 then Some([6, ip[0], ip[1], ip[2], ip[3], ip[4], ip[5], ip[6], ip[7]])
    else None
  }

  lemma {:induction false} KeyOfAddress(ip: Ip)
    ensures Legal(ip) <==> PrefixKey(ip).Some?
    ensures Legal(ip) ==>
      var a := FromStdIp(ip).value; var key := PrefixKey(ip).value;
      && |key| == 9 && (key[0] == 4 <==> |a| == 4) && (key[0] == 6 <==> |a| == 16)
      && (forall i :: 0 <= i < (if |a| == 4 then 3 else 8) ==> a[i] == key[i + 1])
  {
  }

  // --------------------------------------------------------------------------- prefixes

  datatype Prefix = Prefix(addr: Ip, bits: nat)

  function Pow2(n: nat): (p: nat)
    ensures p > 0
  {
    if n == 0 then 1 else 2 * Pow2(n - 1)
  }

  /** The first `bits` bits of the address are the prefix's. */
  predicate Covers(p: Prefix, a: Ip) {
    var whole, rest := p.bits / 8, p.bits % 8;
    && |p.addr| == |a| && p.bits <= 8 * |a|
    && (forall i :: 0 <= i < whole ==> a[i] == p.addr[i])
    && (rest > 0 ==> a[whole] / Pow2(8 - rest) == p.addr[whole] / Pow2(8 - rest))
  }

  /** Bit `j` of an address, counted from its most significant one. */
  function Bit(a: Ip, j: nat): int
    requires j < 8 * |a|
  {
    ByteBit(a[j / 8], j % 8)
  }

  function ByteBit(x: byte, j: nat): int
    requires j < 8
  {
    (x / Pow2(7 - j)) % 2
  }

  lemma {:induction false} Powers()
    ensures Pow2(0) == 1 && Pow2(1) == 2 && Pow2(2) == 4 && Pow2(3) == 8 && Pow2(4) == 16
    ensures Pow2(5) == 32 && Pow2(6) == 64 && Pow2(7) == 128 && Pow2(8) == 256
  {
    assert Pow2(4) == 16;
    assert Pow2(6) == 4 * Pow2(4);
  }

  lemma {:induction false} HalfOf(x: byte, n: nat)
    requires n < 8
    ensures x / Pow2(n + 1) == (x / Pow2(n)) / 2
  {
    Powers();
    if {
      case n <= 1 =>
      case 2 <= n <= 3 =>
      case 4 <= n <= 5 =>
      case 6 <= n =>
    }
  }

  lemma {:induction false} SameHalves(m: int, n: int)
    ensures m == n <==> m / 2 == n / 2 && m % 2 == n % 2
  {
  }

  /** The first `r` bits of a byte. */
  function Top(x: byte, r: nat): int
    requires r <= 8
  {
    x / Pow2(8 - r)
  }

  lemma {:induction false} TopNone(x: byte)
    ensures Top(x, 0) == 0
  {
    Powers();
  }

  lemma {:induction false} TopNext(x: byte, r: nat)
    requires 0 < r <= 8
    ensures Top(x, r) / 2 == Top(x, r - 1) && Top(x, r) % 2 == ByteBit(x, r - 1)
  {
    HalfOf(x, 8 - r);
  }

  lemma {:induction false} TopBits(x: byte, y: byte, r: nat)
    requires r <= 8
    ensures Top(x, r) == Top(y, r) <==> forall j :: 0 <= j < r ==> ByteBit(x, j) == ByteBit(y, j)
    decreases r
  {
    if r == 0 {
      TopNone(x);
      TopNone(y);
    } else {
      TopBits(x, y, r - 1);
      TopNext(x, r);
      TopNext(y, r);
      SameHalves(Top(x, r), Top(y, r));
    }
  }

  lemma {:induction false} SameByte(x: byte, y: byte)
    ensures x == y <==> forall j :: 0 <= j < 8 ==> ByteBit(x, j) == ByteBit(y, j)
  {
    Powers();
    TopBits(x, y, 8);
  }

  /** A prefix covers exactly the addresses of its family whose first bits are its own. */
  lemma {:induction false} CoversExactly(p: Prefix, a: Ip)
    ensures Covers(p, a) <==>
            |p.addr| == |a| && p.bits <= 8 * |a| && forall j :: 0 <= j < p.bits ==> Bit(a, j) == Bit(p.addr, j)
  {
    if |p.addr| == |a| && p.bits <= 8 * |a| {
      var whole, rest := p.bits / 8, p.bits % 8;
      forall i | 0 <= i < whole
        ensures a[i] == p.addr[i] <==> forall j :: 8 * i <= j < 8 * i + 8 ==> Bit(a, j) == Bit(p.addr, j)
      {
        SameByte(a[i], p.addr[i]);
        BitsOfByte(a, p.addr, i, 8);
      }
      if rest > 0 {
        TopBits(a[whole], p.addr[whole], rest);
        BitsOfByte(a, p.addr, whole, rest);
      }
      assert forall j :: 0 <= j < p.bits ==> j / 8 < whole || (j / 8 == whole && j % 8 < rest);
    }
  }

  lemma {:induction false} BitsOfByte(a: Ip, b: Ip, i: nat, n: nat)
    requires i < |a| == |b| && n <= 8
    ensures (forall j :: 8 * i <= j < 8 * i + n ==> Bit(a, j) == Bit(b, j))
            <==> forall j :: 0 <= j < n ==> ByteBit(a[i], j) == ByteBit(b[i], j)
  {
    forall j | 0 <= j < n ensures Bit(a, 8 * i + j) == ByteBit(a[i], j) && Bit(b, 8 * i + j) == ByteBit(b[i], j) {
    }
    forall j | 8 * i <= j < 8 * i + n
      ensures Bit(a, j) == ByteBit(a[i], j - 8 * i) && Bit(b, j) == ByteBit(b[i], j - 8 * i)
    {
    }
  }

  /** IPSet: the prefixes of each family, and the length of the longest one of each;
      0xff stands for no prefix at all, 0xfe for nothing but the whole family. */
  datatype IpSet = IpSet(ipv4: seq<Prefix>, ipv6: seq<Prefix>, max4: nat, max6: nat)

  predicate Contains(ps: seq<Prefix>, a: Ip) {
    exists i :: 0 <= i < |ps| && Covers(ps[i], a)
  }

  predicate Bounds(max: nat, ps: seq<Prefix>) {
    forall i :: 0 <= i < |ps| ==> ps[i].bits <= max
  }

  /** The longest length, with its two special values. */
  method Longest(ps: seq<Prefix>) returns (max: nat)
    requires forall i :: 0 <= i < |ps| ==> ps[i].bits <= 128
    ensures Bounds(max, ps)
    ensures max == 0xff <==> ps == []
    ensures max == 0xfe <==> ps != [] && forall i :: 0 <= i < |ps| ==> ps[i].bits == 0
    ensures max < 0xfe ==> exists i :: 0 <= i < |ps| && ps[i].bits == max
  {
    var has := false;
    max := 0;
    var i := 0;
    while i < |ps|
      invariant 0 <= i <= |ps| && (has <==> i > 0) && max <= 128
      invariant forall j :: 0 <= j < i ==> ps[j].bits <= max
      invariant max > 0 ==> exists j :: 0 <= j < i && ps[j].bits == max
    {
      has := true;
      if ps[i].bits > max {
        max := ps[i].bits;
      }
      i := i + 1;
    }
    if !has {
      max := 0xff;
    } else if max == 0 {
      max := 0xfe;
    }
  }

  /** A set as the factory makes it. */
  predicate WellFormed(s: IpSet) {
    Bounds(s.max4, s.ipv4) && Bounds(s.max6, s.ipv6)
  }

  /** createFrom, given the normal form of the two sets. */
  method CreateFrom(ipv4: seq<Prefix>, ipv6: seq<Prefix>) returns (s: IpSet)
    requires forall i :: 0 <= i < |ipv4| ==> ipv4[i].bits <= 32
    requires forall i :: 0 <= i < |ipv6| ==> ipv6[i].bits <= 128
    ensures WellFormed(s) && s.ipv4 == ipv4 && s.ipv6 == ipv6
    ensures (s.max4 == 0xff <==> ipv4 == []) && (s.max6 == 0xff <==> ipv6 == [])
  {
    var max4 := Longest(ipv4);
    var max6 := Longest(ipv6);
    s := IpSet(ipv4, ipv6, max4, max6);
  }

  // --------------------------------------------------------------------------- matching

  datatype Matcher = Matcher(ipset: IpSet, reverse: bool)

  /** matchAddr: a family without prefixes is never matched, reversed or not. */
  predicate MatchAddr(m: Matcher, a: Ip) {
    if |a| == 4 then m.ipset.max4 != 0xff && Contains(m.ipset.ipv4, a) != m.reverse
    else |a| == 16 && m.ipset.max6 != 0xff && Contains(m.ipset.ipv6, a) != m.reverse
  }

  /** Match. */
  predicate Accepts(m: Matcher, ip: Ip) {
    FromStdIp(ip).Some? && MatchAddr(m, FromStdIp(ip).value)
  }

  predicate Heur4(m: Matcher) {
    m.ipset.max4 <= 24
  }

  predicate Heur6(m: Matcher) {
    m.ipset.max6 <= 64
  }

  /** The matcher treats all addresses with this key alike. */
  predicate Heuristic(m: Matcher, key: Ip)
    requires |key| == 9
  {
    (key[0] == 4 && Heur4(m)) || (key[0] == 6 && Heur6(m))
  }

  lemma {:induction false} SetIgnoresRest(ps: seq<Prefix>, max: nat, a: Ip, b: Ip, n: nat)
    requires Bounds(max, ps) && max <= 8 * n && |a| == |b| && n <= |a| && a[..n] == b[..n]
    ensures Contains(ps, a) == Contains(ps, b)
  {
    forall i | 0 <= i < |ps| ensures Covers(ps[i], a) == Covers(ps[i], b) {
      assert forall k :: 0 <= k < n ==> a[k] == a[..n][k] && b[k] == b[..n][k];
    }
  }

  /** One address stands for its bucket. */
  lemma {:induction false} SameBucket(m: Matcher, x: Ip, y: Ip)
    requires WellFormed(m.ipset) && PrefixKey(x).Some? && PrefixKey(x) == PrefixKey(y)
    requires |PrefixKey(x).value| == 9 && Heuristic(m, PrefixKey(x).value)
    ensures Accepts(m, x) == Accepts(m, y)
  {
    KeyOfAddress(x);
    KeyOfAddress(y);
    var a, b := FromStdIp(x).value, FromStdIp(y).value;
    if |a| == 4 {
      assert a[..3] == b[..3];
      SetIgnoresRest(m.ipset.ipv4, m.ipset.max4, a, b, 3);
    } else {
      assert a[..8] == b[..8];
      SetIgnoresRest(m.ipset.ipv6, m.ipset.max6, a, b, 8);
    }
  }

  /** Reversing a matcher flips its answer for every legal address of a family it knows. */
  lemma {:induction false} ReverseFlips(m: Matcher, ip: Ip)
    ensures var a := FromStdIp(ip);
      Accepts(m.(reverse := !m.reverse), ip) != Accepts(m, ip) <==>
        a.Some? && (if |a.value| == 4 then m.ipset.max4 else m.ipset.max6) != 0xff
  {
  }
}
