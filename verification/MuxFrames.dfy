/** FrameMetadata (common/mux/frame.go) and the port-first address codec it uses
    (common/protocol/address.go). */
module MuxFrames {
  import opened Bytes

  // ---------------------------------------------------------------------- addresses

  datatype Address = IPv4(ip: seq<byte>) | IPv6(ip: seq<byte>) | Domain(name: seq<byte>)

  datatype Network = Unknown | TCP | UDP

  datatype Destination = Destination(network: Network, address: Address, port: nat)

  /** What the zero value of a destination amounts to. */
  const NOWHERE := Destination(Unknown, Domain([]), 0)

  const TYPE_IPV4: byte := 1
  const TYPE_DOMAIN: byte := 2
  const TYPE_IPV6: byte := 3

  /** net.ParseAddress, as far as it finds an IP address. */
  type IpParser = seq<byte> -> Option<Address>

  /** net.IPAddress: a v4-mapped IPv6 address becomes IPv4. */
  function IpAddress(ip: seq<byte>): Address {
    if |ip| == 4 then IPv4(ip) else if MappedV4(ip) then IPv4(ip[12..]) else IPv6(ip)
  }

  predicate DomainChar(c: byte) {
    || '0' as int <= c <= '9' as int || 'a' as int <= c <= 'z' as int || 'A' as int <= c <= 'Z' as int
    || c == '-' as int || c == '.' as int || c == '_' as int
  }

  predicate IsValidDomain(d: seq<byte>) {
    forall i :: 0 <= i < |d| ==> DomainChar(d[i])
  }

  predicate MaybeIpPrefix(c: byte) {
    c == '[' as int || '0' as int <= c <= '9' as int
  }

  /** The bytes written, and whether the address was accepted. */
  datatype Written = Written(bytes: seq<byte>, ok: bool)

  function WriteAddressPort(a: Address, port: nat): Written {
    match a
    case IPv4(ip) => Written(Be16(port) + [TYPE_IPV4] + ip, true)
    case IPv6(ip) => Written(Be16(port) + [TYPE_IPV6] + ip, true)
    case Domain(d) =>
      if |d| > 256 then Written(Be16(port), false)
      else Written(Be16(port) + [TYPE_DOMAIN, |d| % 256] + d, true)
  }

  datatype Parsed = Parsed(address: Address, port: nat, rest: seq<byte>)

  /** Reads port and address. A domain of length zero is taken to be everything read so
      far, which includes the type byte and is therefore never a valid name. */
  function ReadAddressPort(parse: IpParser, b: seq<byte>): Option<Parsed> {
    if |b| < 3 then None
    else
      var port, t, rest := U16(b, 0), b[2], b[3..];
      if t == TYPE_IPV4 then
        if |rest| < 4 then None else Some(Parsed(IpAddress(rest[..4]), port, rest[4..]))
      else if t == TYPE_IPV6 then
        if |rest| < 16 then None else Some(Parsed(IpAddress(rest[..16]), port, rest[16..]))
      else if t == TYPE_DOMAIN then
        if |rest| < 1 || |rest| < 1 + rest[0] as int || rest[0] == 0 then None
        else
          var d, more := rest[1..1 + rest[0] as int], rest[1 + rest[0] as int..];
          if MaybeIpPrefix(d[0]) && parse(d).Some? then Some(Parsed(parse(d).value, port, more))
          else if !IsValidDomain(d) then None
          else Some(Parsed(Domain(d), port, more))
      else None
  }

  /** Addresses as the program builds them: IPv4 has four bytes, IPv6 sixteen. */
  predicate ProperAddress(a: Address) {
    match a
    case IPv4(ip) => |ip| == 4
    case IPv6(ip) => |ip| == 16
    case Domain(d) => true
  }

  /** What survives the trip: an IPv6 address that is not v4-mapped, and a domain of 1 to
      255 legal characters that does not read as an IP. */
  predicate Travels(parse: IpParser, a: Address) {
    match a
    case IPv4(ip) => true
    case IPv6(ip) => !MappedV4(ip)
    case Domain(d) => 1 <= |d| <= 255 && IsValidDomain(d) && !(MaybeIpPrefix(d[0]) && parse(d).Some?)
  }

  /** The parser never calls an IP a domain. */
  ghost predicate FindsIps(parse: IpParser) {
    forall d: seq<byte> :: parse(d).Some? ==> !parse(d).value.Domain?
  }

  lemma {:induction false} IpRoundTrip(parse: IpParser, a: Address, port: nat, rest: seq<byte>)
    requires ProperAddress(a) && port < 65536 && !a.Domain?
    ensures ReadAddressPort(parse, WriteAddressPort(a, port).bytes + rest) == Some(Parsed(IpAddress(a.ip), port, rest))
  {
    var b, n := WriteAddressPort(a, port).bytes + rest, |a.ip|;
    assert b[0..2] == Be16(port) && b[3..] == a.ip + rest;
    assert (a.ip + rest)[..n] == a.ip && (a.ip + rest)[n..] == rest;
  }

  /** The bytes of a domain that fits its length byte. */
  lemma {:induction false} DomainBytes(d: seq<byte>, port: nat, rest: seq<byte>)
    requires |d| <= 256 && port < 65536
    ensures var b := WriteAddressPort(Domain(d), port).bytes + rest;
            && |b| >= 4 && U16(b, 0) == port && b[2] == TYPE_DOMAIN && b[3..][0] == |d| % 256
            && (|d| < 256 ==> |b[3..]| >= 1 + |d| && b[3..][1..1 + |d|] == d && b[3..][1 + |d|..] == rest)
  {
    var b := WriteAddressPort(Domain(d), port).bytes + rest;
    var n: byte := |d| % 256;
    assert b[0..2] == Be16(port) && b[3..] == [n] + d + rest;
    if |d| < 256 {
      assert ([n] + d + rest)[1..1 + |d|] == d && ([n] + d + rest)[1 + |d|..] == rest;
    }
  }

  /** An address comes back unchanged, followed by whatever was written after it, exactly
      when it travels. */
  lemma {:induction false} AddressRoundTrip(parse: IpParser, a: Address, port: nat, rest: seq<byte>)
    requires ProperAddress(a) && port < 65536 && FindsIps(parse)
    ensures var w := WriteAddressPort(a, port);
            (w.ok && ReadAddressPort(parse, w.bytes + rest) == Some(Parsed(a, port, rest))) <==> Travels(parse, a)
  {
    match a
    case IPv4(ip) => IpRoundTrip(parse, a, port, rest);
    case IPv6(ip) => IpRoundTrip(parse, a, port, rest);
    case Domain(d) =>
      if |d| <= 256 {
        DomainBytes(d, port, rest);
      }
  }

  /** The parser took the address from a domain name that reads as an IP, or turned a v4-mapped
      IPv6 address into IPv4. */
  predicate Rewritten(parse: IpParser, b: seq<byte>) {
    && |b| >= 4
    && if b[2] == TYPE_DOMAIN then |b| >= 4 + b[3] as int && parse(b[4..4 + b[3] as int]).Some?
       else b[2] == TYPE_IPV6 && |b| >= 19 && MappedV4(b[3..19])
  }

  /** Writing the parsed address and port, and the bytes that were left, gives back the input. */
  predicate WritesBack(parse: IpParser, b: seq<byte>) {
    && ReadAddressPort(parse, b).Some?
    && var p := ReadAddressPort(parse, b).value;
       && p.port < 65536 && ProperAddress(p.address) && WriteAddressPort(p.address, p.port).ok
       && WriteAddressPort(p.address, p.port).bytes + p.rest == b
  }

  lemma {:induction false} PortBack(b: seq<byte>)
    requires |b| >= 2
    ensures Be16(U16(b, 0)) == b[..2]
  {
    var hi: int, lo: int := b[0], b[1];
    assert (hi * 256 + lo) / 256 == hi && (hi * 256 + lo) % 256 == lo;
    assert Be16(hi * 256 + lo) == [b[0], b[1]];
  }

  lemma {:induction false} IpWritesBack(parse: IpParser, b: seq<byte>, n: nat)
    requires |b| >= 3 + n && (if n == 4 then b[2] == TYPE_IPV4 else n == 16 && b[2] == TYPE_IPV6 && !MappedV4(b[3..19]))
    ensures WritesBack(parse, b)
  {
    var rest := b[3..];
    assert rest[..n] == b[3..3 + n] && rest == rest[..n] + rest[n..];
    PortBack(b);
    assert b == b[..2] + [b[2]] + (rest[..n] + rest[n..]);
  }

  lemma {:induction false} DomainParts(b: seq<byte>, n: nat)
    requires 4 + n <= |b|
    ensures Be16(U16(b, 0)) + [b[2], b[3]] + b[4..4 + n] + b[4 + n..] == b
  {
    PortBack(b);
  }

  lemma {:induction false} DomainWritesBack(parse: IpParser, b: seq<byte>)
    requires |b| >= 4 && b[2] == TYPE_DOMAIN && ReadAddressPort(parse, b).Some? && !Rewritten(parse, b)
    ensures WritesBack(parse, b)
  {
    var rest, n := b[3..], b[3] as int;
    var d, more := rest[1..1 + n], rest[1 + n..];
    assert d == b[4..4 + n] && more == b[4 + n..];
    DomainParts(b, n);
  }

  /** What is parsed is what was written, but for rewritten addresses. */
  lemma {:induction false} ParseInverts(parse: IpParser, b: seq<byte>)
    requires ReadAddressPort(parse, b).Some? && !Rewritten(parse, b)
    ensures WritesBack(parse, b)
  {
    if b[2] == TYPE_DOMAIN {
      DomainWritesBack(parse, b);
    } else {
      IpWritesBack(parse, b, if b[2] == TYPE_IPV4 then 4 else 16);
    }
  }

  // ------------------------------------------------------------------------- frames

  const STATUS_NEW: byte := 1
  const STATUS_KEEP: byte := 2
  const STATUS_END: byte := 3
  const STATUS_KEEP_ALIVE: byte := 4

  const NETWORK_TCP: byte := 1
  const NETWORK_UDP: byte := 2

  const NO_GLOBAL_ID := Zeros(8)

  /** The data bit of the option byte. */
  predicate HasData(option: byte) {
    option % 2 == 1
  }

  datatype Inbound = Inbound(source: Destination, local: Destination)

  datatype Meta = Meta(target: Destination, sessionId: nat, option: byte, status: byte,
                       globalId: seq<byte>, inbound: Option<Inbound>)

  function NetworkByte(n: Network): byte {
    if n == TCP then NETWORK_TCP else NETWORK_UDP
  }

  /** A network byte followed by port and address. */
  function Endpoint(d: Destination): Written {
    var w := WriteAddressPort(d.address, d.port);
    Written([NetworkByte(d.network)] + w.bytes, w.ok)
  }

  /** Appends `next`, unless something failed before. */
  function Then(w: Written, next: Written): Written {
    if w.ok then Written(w.bytes + next.bytes, next.ok) else w
  }

  /** Source and local address of a reverse connection; either may be missing. */
  function InboundBytes(i: Inbound): Written {
    if i.source.network == Unknown then Written([], true)
    else if i.local.network == Unknown then Endpoint(i.source)
    else Then(Endpoint(i.source), Endpoint(i.local))
  }

  /** What follows the four fixed bytes. `udp` is the destination carried by the frame's
      buffer. Outside New frames a rejected address is not noticed. */
  function Tail(m: Meta, udp: Option<Destination>): Written {
    if m.status == STATUS_NEW then
      var target := WriteAddressPort(m.target.address, m.target.port);
      var w := if m.target.network == Unknown then target
               else Written([NetworkByte(m.target.network)] + target.bytes, target.ok);
      if m.inbound.Some? then Then(w, InboundBytes(m.inbound.value))
      else if udp.Some? then Then(w, Written(m.globalId, true))
      else w
    else if udp.Some? then Written([NETWORK_UDP] + WriteAddressPort(udp.value.address, udp.value.port).bytes, true)
    else Written([], true)
  }

  function Fixed(m: Meta): (b: seq<byte>)
    ensures |b| == 4
  {
    Be16(m.sessionId) + [m.status, m.option]
  }

  /** The frame without its two length bytes. */
  function Body(m: Meta, udp: Option<Destination>): seq<byte> {
    Fixed(m) + Tail(m, udp).bytes
  }

  /** FrameMetadata.WriteTo: reserves the length, appends field by field, patches the
      length in at the end. */
  method WriteTo(m: Meta, udp: Option<Destination>) returns (b: seq<byte>, ok: bool)
    ensures ok == Tail(m, udp).ok
    ensures ok ==> b == Be16(|Body(m, udp)|) + Body(m, udp)
  {
    b := Zeros(2);
    b := b + Be16(m.sessionId);
    b := b + [m.status] + [m.option];
    assert b == Zeros(2) + Fixed(m);
    var tail := WriteTail(m, udp);
    ok := tail.ok;
    Assoc(Zeros(2), Fixed(m), tail.bytes);
    b := b + tail.bytes;
    if ok {
      b := Be16(|b| - 2) + b[2..];
    }
  }

  /** The variable part, field by field; an address that is refused stops it. */
  method WriteTail(m: Meta, udp: Option<Destination>) returns (w: Written)
    ensures w == Tail(m, udp)
  {
    w := Written([], true);
    if m.status == STATUS_NEW {
      if m.target.network == TCP {
        w := w.(bytes := [NETWORK_TCP]);
      } else if m.target.network == UDP {
        w := w.(bytes := [NETWORK_UDP]);
      }
      var target := WriteAddressPort(m.target.address, m.target.port);
      assert m.target.network == Unknown ==> w.bytes + target.bytes == target.bytes;
      w := Written(w.bytes + target.bytes, target.ok);
      if w.ok && m.inbound.Some? {
        var more := WriteInbound(m.inbound.value);
        w := Written(w.bytes + more.bytes, more.ok);
      } else if w.ok && udp.Some? {
        w := w.(bytes := w.bytes + m.globalId);
      }
    } else if udp.Some? {
      w := Written([NETWORK_UDP] + WriteAddressPort(udp.value.address, udp.value.port).bytes, true);
    }
  }

  method WriteInbound(i: Inbound) returns (w: Written)
    ensures w == InboundBytes(i)
  {
    w := Written([], true);
    if i.source.network == TCP || i.source.network == UDP {
      w := Endpoint(i.source);
      if w.ok && (i.local.network == TCP || i.local.network == UDP) {
        w := Written(w.bytes + Endpoint(i.local).bytes, Endpoint(i.local).ok);
      }
    }
  }

  // ------------------------------------------------------------- the layout, in numbers

  /** Port, type (1, 2 or 3 for IPv4, domain, IPv6) and address. */
  function PortThenAddress(a: Address, port: nat): seq<byte> {
    [(port / 256) % 256, port % 256] +
    match a
    case IPv4(ip) => [1] + ip
    case Domain(d) => [2, |d| % 256] + d
    case IPv6(ip) => [3] + ip
  }

  /** Network (1 or 2 for TCP and UDP), port, address. */
  function NetworkThenAddress(d: Destination): seq<byte> {
    [if d.network == UDP then 2 else 1] + PortThenAddress(d.address, d.port)
  }

  lemma {:induction false} EndpointLayout(d: Destination)
    requires d.network != Unknown && Endpoint(d).ok
    ensures Endpoint(d).bytes == NetworkThenAddress(d)
    ensures WriteAddressPort(d.address, d.port).bytes == PortThenAddress(d.address, d.port)
  {
  }

  /** FRAME LAYOUT. Session id, status and option in four bytes; then, in a New frame (status 1),
      the target and either the inbound endpoints or, with a UDP destination, the global id; in
      any other frame the UDP destination, if there is one. */
  lemma {:induction false} FrameLayout(m: Meta, udp: Option<Destination>)
    requires m.sessionId < 65536 && Tail(m, udp).ok
    requires m.status == 1 ==> m.target.network != Unknown
    requires udp.Some? ==> udp.value.network == UDP && Endpoint(udp.value).ok
    ensures Body(m, udp)[..4] == [m.sessionId / 256, m.sessionId % 256, m.status, m.option]
    ensures Body(m, udp)[4..] ==
            if m.status == 1 then
              NetworkThenAddress(m.target) + (if m.inbound.Some? then InboundBytes(m.inbound.value).bytes
                                              else if udp.Some? then m.globalId else [])
            else if udp.Some? then NetworkThenAddress(udp.value) else []
  {
    assert Body(m, udp)[4..] == Tail(m, udp).bytes;
    if m.status == 1 {
      EndpointLayout(m.target);
      var t := NetworkThenAddress(m.target);
      assert t + [] == t;
    } else if udp.Some? {
      EndpointLayout(udp.value);
    }
  }

  /** Inbound endpoints: the source and the local address, each like a target, as far as they
      are known. */
  lemma {:induction false} InboundLayout(i: Inbound)
    requires InboundBytes(i).ok
    ensures InboundBytes(i).bytes ==
            if i.source.network == Unknown then []
            else NetworkThenAddress(i.source) + (if i.local.network == Unknown then [] else NetworkThenAddress(i.local))
  {
    if i.source.network != Unknown {
      EndpointLayout(i.source);
      if i.local.network != Unknown {
        EndpointLayout(i.local);
      } else {
        assert NetworkThenAddress(i.source) + [] == NetworkThenAddress(i.source);
      }
    }
  }

  // ------------------------------------------------------------------------ parsing

  datatype ParsedEndpoint = Missing | Bad | Found(destination: Destination, rest: seq<byte>)

  /** An optional endpoint: nothing left, or a zero byte, means there is none. */
  function ReadEndpoint(parse: IpParser, b: seq<byte>): ParsedEndpoint {
    if |b| == 0 || b[0] == 0 then Missing
    else
      match ReadAddressPort(parse, b[1..])
      case None => Bad
      case Some(p) =>
        if b[0] == NETWORK_TCP then Found(Destination(TCP, p.address, p.port), p.rest)
        else if b[0] == NETWORK_UDP then Found(Destination(UDP, p.address, p.port), p.rest)
        else Bad
  }

  function ReadInbound(parse: IpParser, b: seq<byte>): Option<Inbound> {
    match ReadEndpoint(parse, b)
    case Missing => Some(Inbound(NOWHERE, NOWHERE))
    case Bad => None
    case Found(source, rest) =>
      match ReadEndpoint(parse, rest)
      case Missing => Some(Inbound(source, NOWHERE))
      case Bad => None
      case Found(local, _) => Some(Inbound(source, local))
  }

  /** Is the frame followed by a target? Only New frames and Keep frames flagged as UDP. */
  predicate HasTarget(b: seq<byte>)
    requires |b| >= 4
  {
    b[2] == STATUS_NEW || (b[2] == STATUS_KEEP && |b| > 4 && b[4] == NETWORK_UDP)
  }

  /** UnmarshalFromBuffer; `None` is an error. */
  function Unmarshal(parse: IpParser, b: seq<byte>, readSourceAndLocal: bool): Option<Meta> {
    if |b| < 4 then None
    else
      var m := Meta(NOWHERE, U16(b, 0), b[3], b[2], NO_GLOBAL_ID, None);
      if HasTarget(b) then
        if |b| < 8 || b[4] == 0 then None
        else
          match ReadEndpoint(parse, b[4..])
          case Missing => None
          case Bad => None
          case Found(target, rest) => Finish(parse, m.(target := target), rest, readSourceAndLocal)
      else Some(m)
  }

  /** What follows the target. */
  function Finish(parse: IpParser, m: Meta, rest: seq<byte>, readSourceAndLocal: bool): Option<Meta> {
    if m.status != STATUS_NEW then Some(m)
    else if readSourceAndLocal then
      match ReadInbound(parse, rest)
      case None => None
      case Some(i) => Some(m.(inbound := Some(i)))
    else if HasData(m.option) && m.target.network == UDP && |rest| >= 8 then Some(m.(globalId := rest[..8]))
    else Some(m)
  }

  predicate GoodEndpoint(parse: IpParser, d: Destination) {
    d.network != Unknown && ProperAddress(d.address) && Travels(parse, d.address) && d.port < 65536
  }

  /** Metadata as the writers build it. */
  predicate WellFormed(parse: IpParser, m: Meta, udp: Option<Destination>) {
    && m.sessionId < 65536 && |m.globalId| == 8
    && (m.status == STATUS_NEW ==> GoodEndpoint(parse, m.target))
    && (udp.Some? ==> GoodEndpoint(parse, udp.value) && udp.value.network == UDP)
    && (m.inbound.Some? ==>
          var i := m.inbound.value;
          && (i.source.network != Unknown ==> GoodEndpoint(parse, i.source))
          && (i.local.network != Unknown ==> GoodEndpoint(parse, i.local)))
    && m.status in {STATUS_NEW, STATUS_KEEP, STATUS_END, STATUS_KEEP_ALIVE}
  }

  /** What the receiver should see. */
  function Received(m: Meta, udp: Option<Destination>): Meta {
    var none := Meta(NOWHERE, m.sessionId, m.option, m.status, NO_GLOBAL_ID, None);
    if m.status == STATUS_NEW then
      if m.inbound.Some? then
        var i := m.inbound.value;
        none.(target := m.target,
              inbound := Some(if i.source.network == Unknown then Inbound(NOWHERE, NOWHERE)
                              else if i.local.network == Unknown then Inbound(i.source, NOWHERE)
                              else i))
      else if udp.Some? && HasData(m.option) && m.target.network == UDP then
        none.(target := m.target, globalId := m.globalId)
      else none.(target := m.target)
    else if m.status == STATUS_KEEP && udp.Some? then none.(target := udp.value)
    else none
  }

  lemma {:induction false} EndpointRoundTrip(parse: IpParser, d: Destination, rest: seq<byte>)
    requires GoodEndpoint(parse, d) && FindsIps(parse)
    ensures Endpoint(d).ok && |Endpoint(d).bytes| >= 5
    ensures ReadEndpoint(parse, Endpoint(d).bytes + rest) == Found(d, rest)
  {
    var w := WriteAddressPort(d.address, d.port);
    AddressRoundTrip(parse, d.address, d.port, rest);
    var b := Endpoint(d).bytes + rest;
    assert b[0] == NetworkByte(d.network) && b[1..] == w.bytes + rest;
  }

  lemma {:induction false} InboundRoundTrip(parse: IpParser, i: Inbound)
    requires FindsIps(parse)
    requires i.source.network != Unknown ==> GoodEndpoint(parse, i.source)
    requires i.local.network != Unknown ==> GoodEndpoint(parse, i.local)
    ensures InboundBytes(i).ok
    ensures ReadInbound(parse, InboundBytes(i).bytes)
            == Some(if i.source.network == Unknown then Inbound(NOWHERE, NOWHERE)
                    else if i.local.network == Unknown then Inbound(i.source, NOWHERE)
                    else i)
  {
    if i.source.network != Unknown {
      if i.local.network == Unknown {
        EndpointRoundTrip(parse, i.source, []);
        assert Endpoint(i.source).bytes + [] == Endpoint(i.source).bytes;
      } else {
        EndpointRoundTrip(parse, i.source, Endpoint(i.local).bytes);
        EndpointRoundTrip(parse, i.local, []);
        assert Endpoint(i.local).bytes + [] == Endpoint(i.local).bytes;
      }
    }
  }

  /** What a New frame carries behind its target. */
  function Extra(m: Meta, udp: Option<Destination>): Written {
    if m.inbound.Some? then InboundBytes(m.inbound.value)
    else if udp.Some? then Written(m.globalId, true)
    else Written([], true)
  }

  lemma {:induction false} NewTail(parse: IpParser, m: Meta, udp: Option<Destination>)
    requires WellFormed(parse, m, udp) && FindsIps(parse) && m.status == STATUS_NEW
    ensures Tail(m, udp).ok && Tail(m, udp).bytes == Endpoint(m.target).bytes + Extra(m, udp).bytes
    ensures ReadEndpoint(parse, Tail(m, udp).bytes) == Found(m.target, Extra(m, udp).bytes)
    ensures |Tail(m, udp).bytes| >= 5
  {
    if m.inbound.Some? {
      InboundRoundTrip(parse, m.inbound.value);
    }
    EndpointRoundTrip(parse, m.target, Extra(m, udp).bytes);
    var none: seq<byte> := [];
    assert Endpoint(m.target).bytes + none == Endpoint(m.target).bytes;
  }

  lemma {:induction false} FinishNew(parse: IpParser, m: Meta, udp: Option<Destination>, n: Meta)
    requires WellFormed(parse, m, udp) && FindsIps(parse) && m.status == STATUS_NEW
    requires n == Meta(m.target, m.sessionId, m.option, m.status, NO_GLOBAL_ID, None)
    ensures Finish(parse, n, Extra(m, udp).bytes, m.inbound.Some?) == Some(Received(m, udp))
  {
    if m.inbound.Some? {
      InboundRoundTrip(parse, m.inbound.value);
    } else if udp.Some? {
      assert m.globalId[..8] == m.globalId;
    }
  }

  lemma {:induction false} FixedFields(m: Meta, tail: seq<byte>)
    requires m.sessionId < 65536
    ensures var b := Fixed(m) + tail;
            U16(b, 0) == m.sessionId && b[2] == m.status && b[3] == m.option && b[4..] == tail
  {
    var b := Fixed(m) + tail;
    assert b[0] == Be16(m.sessionId)[0] && b[1] == Be16(m.sessionId)[1];
  }

  /** FRAME ROUND TRIP. Parsing undoes writing for every well-formed frame, when both ends
      agree on whether source and local address are sent. */
  lemma {:induction false} FrameRoundTrip(parse: IpParser, m: Meta, udp: Option<Destination>)
    requires WellFormed(parse, m, udp) && FindsIps(parse)
    ensures Tail(m, udp).ok
    ensures Unmarshal(parse, Body(m, udp), m.inbound.Some?) == Some(Received(m, udp))
  {
    var tail := Tail(m, udp).bytes;
    var b := Body(m, udp);
    FixedFields(m, tail);
    if m.status == STATUS_NEW {
      NewTail(parse, m, udp);
      assert b[4] == tail[0] && tail[0] == NetworkByte(m.target.network);
      FinishNew(parse, m, udp, Meta(m.target, m.sessionId, m.option, m.status, NO_GLOBAL_ID, None));
    } else if udp.Some? {
      assert tail == Endpoint(udp.value).bytes;
      EndpointRoundTrip(parse, udp.value, []);
      assert tail + [] == tail;
      assert b[4] == tail[0] == NETWORK_UDP;
    } else {
      assert |b| == 4;
    }
  }

  // ------------------------------------------------------------------ the size limit

  const META_LIMIT := 512

  /** Port, type byte and address. */
  function AddressLength(a: Address): nat {
    match a
    case IPv4(_) => 7
    case IPv6(_) => 19
    case Domain(d) => 4 + |d|
  }

  function InboundLength(i: Inbound): nat {
    if i.source.network == Unknown then 0
    else if i.local.network == Unknown then 1 + AddressLength(i.source.address)
    else 2 + AddressLength(i.source.address) + AddressLength(i.local.address)
  }

  /** The length of the metadata, from the kinds of addresses in it. */
  function BodyLength(m: Meta, udp: Option<Destination>): nat {
    if m.status == STATUS_NEW then
      5 + AddressLength(m.target.address) +
      (if m.inbound.Some? then InboundLength(m.inbound.value) else if udp.Some? then 8 else 0)
    else if udp.Some? then 5 + AddressLength(udp.value.address)
    else 4
  }

  lemma {:induction false} EndpointLength(parse: IpParser, d: Destination)
    requires GoodEndpoint(parse, d)
    ensures Endpoint(d).ok && |Endpoint(d).bytes| == 1 + AddressLength(d.address)
  {
  }

  /** The length prefix is that sum, which the receiver refuses above 512. */
  lemma {:induction false} BodyLengthExact(parse: IpParser, m: Meta, udp: Option<Destination>)
    requires WellFormed(parse, m, udp) && FindsIps(parse)
    ensures |Body(m, udp)| == BodyLength(m, udp) < 65536
  {
    if m.status == STATUS_NEW {
      NewTail(parse, m, udp);
      EndpointLength(parse, m.target);
      if m.inbound.Some? && m.inbound.value.source.network != Unknown {
        EndpointLength(parse, m.inbound.value.source);
        if m.inbound.value.local.network != Unknown {
          EndpointLength(parse, m.inbound.value.local);
        }
      }
    } else if udp.Some? {
      EndpointLength(parse, udp.value);
    }
  }

  /** Without inbound endpoints the metadata always fits; with both, it does exactly if the
      three addresses take no more than 505 bytes, as IP addresses do beside any domain and
      three long domains do not. */
  lemma {:induction false} InboundFits(parse: IpParser, m: Meta, udp: Option<Destination>)
    requires WellFormed(parse, m, udp) && FindsIps(parse)
    ensures m.status != STATUS_NEW || m.inbound.None? ==> |Body(m, udp)| <= META_LIMIT
    ensures m.status == STATUS_NEW && m.inbound.Some? && m.inbound.value.source.network != Unknown
            && m.inbound.value.local.network != Unknown ==>
              var i := m.inbound.value;
              && (|Body(m, udp)| <= META_LIMIT <==>
                    AddressLength(m.target.address) + AddressLength(i.source.address)
                    + AddressLength(i.local.address) <= 505)
              && (!i.source.address.Domain? && !i.local.address.Domain? ==> |Body(m, udp)| <= META_LIMIT)
  {
    BodyLengthExact(parse, m, udp);
  }

  /** Three domains of 255 characters make 784 bytes. */
  lemma {:induction false} DomainEndpointsDoNotFit(m: Meta)
    requires m.status == STATUS_NEW && m.inbound.Some?
    requires var i := m.inbound.value;
             && m.target.network == i.source.network == i.local.network == TCP
             && m.target.address.Domain? && i.source.address.Domain? && i.local.address.Domain?
             && |m.target.address.name| == |i.source.address.name| == |i.local.address.name| == 255
    ensures Tail(m, None).ok && |Body(m, None)| == 784 > META_LIMIT
  {
  }
}
