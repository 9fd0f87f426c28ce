/** What XtlsFilterTls (proxy/proxy.go) makes of the hellos of a TLS handshake. */
module VisionHello {
  import opened Bytes
  import opened VisionPadding
  import opened VisionTraffic

  // ------------------------------------------------- handshake messages of RFC 8446

  /** A ServerHello (section 4.1.3 of RFC 8446). */
  datatype ServerHello = ServerHello(random: seq<byte>, sessionId: seq<byte>, suite: nat, compression: byte,
                                     extensions: seq<byte>)

  function Be24(n: nat): (s: seq<byte>)
    ensures |s| == 3
  {
    [(n / 65536) % 256, (n / 256) % 256, n % 256]
  }

  /** Version 1.2 stands where TLS 1.3 keeps its legacy version. */
  function HelloBody(h: ServerHello): seq<byte>
    requires |h.sessionId| <= 32
  {
    [3, 3] + h.random + [|h.sessionId|] + h.sessionId + [(h.suite / 256) % 256, h.suite % 256]
    + [h.compression] + Be16(|h.extensions|) + h.extensions
  }

  /** Handshake header (section 4) and record header (section 5.1) before the message. */
  function Handshake(kind: byte, body: seq<byte>): seq<byte> {
    [kind] + Be24(|body|) + body
  }

  function Record(version: byte, fragment: seq<byte>): seq<byte> {
    [0x16, 3, version] + Be16(|fragment|) + fragment
  }

  predicate ValidHello(h: ServerHello) {
    && |h.random| == 32 && |h.sessionId| <= 32 && h.suite < 65536
    && 44 + |h.sessionId| + |h.extensions| < 65536
  }

  function HelloWire(h: ServerHello): seq<byte>
    requires ValidHello(h)
  {
    Record(3, Handshake(2, HelloBody(h)))
  }

  lemma {:induction false} BodyLayout(h: ServerHello)
    requires ValidHello(h)
    ensures var b, n := HelloBody(h), |h.sessionId|;
            |b| == 40 + n + |h.extensions| && b[34] == n && U16(b, 35 + n) == h.suite
  {
    var front, n: byte := [3, 3] + h.random, |h.sessionId|;
    var suite := [(h.suite / 256) % 256, h.suite % 256];
    var back := [h.compression] + Be16(|h.extensions|) + h.extensions;
    assert HelloBody(h) == front + ([n] + h.sessionId + (suite + back));
  }

  lemma {:induction false} RecordLayout(version: byte, kind: byte, body: seq<byte>)
    requires 4 + |body| < 65536
    ensures var w := Record(version, Handshake(kind, body));
            && |w| == 9 + |body| && w[0] == 0x16 && w[1] == 3 && w[2] == version && w[5] == kind
            && U16(w, 3) + 5 == |w| && w[9..] == body
  {
    var w := Record(version, Handshake(kind, body));
    assert w == [0x16, 3, version] + Be16(4 + |body|) + [kind] + Be24(|body|) + body;
  }

  /** Where the fields come to lie. */
  lemma {:induction false} HelloLayout(h: ServerHello)
    requires ValidHello(h)
    ensures var w, n := HelloWire(h), |h.sessionId|;
            && |w| == 49 + n + |h.extensions|
            && StartsServerHello(w) && U16(w, 3) + 5 == |w|
            && w[43] == n && U16(w, 44 + n) == h.suite
  {
    BodyLayout(h);
    RecordLayout(3, 2, HelloBody(h));
    var w, n := HelloWire(h), |h.sessionId|;
    assert w[43] == w[9..][34] && w[44 + n] == w[9..][35 + n] && w[45 + n] == w[9..][36 + n];
  }

  // ------------------------------------------------------------- the filter on a hello

  /** TLS 1.3 in a supported_versions extension (section 4.2.1 of RFC 8446). */
  const TLS13: seq<byte> := [0, 43, 0, 2, 3, 4]

  /** The extension lies in `w` between two offsets. */
  predicate Holds13(w: seq<byte>, from: nat, to: nat) {
    exists j :: from <= j <= |w| && j + 6 <= to && OccursAt(w, TLS13, j)
  }

  predicate StartsServerHello(b: seq<byte>) {
    6 <= |b| && b[0] == 0x16 && b[1] == 3 && b[2] == 3 && b[5] == 2
  }

  /** A ServerHello `w` with this suite has been recognised, and looked through up to `past`. */
  predicate Seen(u: Traffic, w: seq<byte>, suite: int, past: nat) {
    u.isTLS && u.isTLS12orAbove && u.cipher == suite && u.remainingServerHello == |w| - past
  }

  /** The verdict on a ServerHello: direct copy, if it is for TLS 1.3 with a suite that allows it. */
  predicate Verdict(u: Traffic, was: bool, suite: int, tls13: bool) {
    && u.isTLS && u.isTLS12orAbove && u.cipher == suite && u.packetsToFilter == 0
    && (u.enableXtls <==> was || (tls13 && 0x1301 <= suite <= 0x1304))
  }

  /** A buffer shows the part of `w` from `past` on. */
  predicate Shows(b: seq<byte>, w: seq<byte>, past: nat) {
    past < |w| && forall k :: 0 <= k < |b| && past + k < |w| ==> b[k] == w[past + k]
  }

  lemma {:induction false} SamePart(b: seq<byte>, w: seq<byte>, past: nat, end: nat, j: nat)
    requires Shows(b, w, past) && j + 6 <= end <= |b| && past + end <= |w|
    ensures OccursAt(b[..end], SUPPORTED_VERSIONS_13, j) <==> OccursAt(w, TLS13, past + j)
  {
    var x, y := b[..end][j..j + 6], w[past + j..past + j + 6];
    forall k | 0 <= k < 6 ensures x[k] == y[k] {
      assert x[k] == b[j + k] && y[k] == w[past + (j + k)];
    }
    assert x == y;
  }

  lemma {:induction false} PartContains(b: seq<byte>, w: seq<byte>, past: nat)
    requires Shows(b, w, past)
    ensures var end := Min(|w| - past, |b|); Contains(b[..end], SUPPORTED_VERSIONS_13) <==> Holds13(w, past, past + end)
  {
    var end := Min(|w| - past, |b|);
    var c := b[..end];
    if Contains(c, SUPPORTED_VERSIONS_13) {
      var j :| 0 <= j <= |c| && OccursAt(c, SUPPORTED_VERSIONS_13, j);
      SamePart(b, w, past, end, j);
    }
    if Holds13(w, past, past + end) {
      var j :| past <= j <= |w| && j + 6 <= past + end && OccursAt(w, TLS13, j);
      SamePart(b, w, past, end, j - past);
    }
  }

  /** One more buffer of a recognised hello. */
  lemma {:induction false} LookThrough(t: Traffic, b: seq<byte>, stale: seq<byte>, w: seq<byte>, suite: int, past: nat)
    requires Shows(b, w, past)
    requires var u := Recognise(t.(packetsToFilter := t.packetsToFilter - 1), b, stale);
             Seen(u, w, suite, past) && u.enableXtls == t.enableXtls
    ensures var f, found := FilterOne(t, b, stale), Holds13(w, past, Min(|w|, past + |b|));
            && f.stop == (found || |w| <= past + |b|)
            && if f.stop then Verdict(f.traffic, t.enableXtls, suite, found)
               else Seen(f.traffic, w, suite, past + |b|) && f.traffic.enableXtls == t.enableXtls
  {
    PartContains(b, w, past);
  }

  /** The suite that the filter takes down: only a hello and a first buffer of at least 79 bytes
      are trusted to show it. */
  function SuiteSeen(t: Traffic, h: ServerHello, first: seq<byte>): int
    requires ValidHello(h)
  {
    if 79 <= |first| && 79 <= |HelloWire(h)| then h.suite else t.cipher
  }

  lemma {:induction false} FirstLook(t: Traffic, b: seq<byte>, stale: seq<byte>, h: ServerHello)
    requires ValidHello(h) && 6 <= |b| && Shows(b, HelloWire(h), 0)
    ensures var u := Recognise(t.(packetsToFilter := t.packetsToFilter - 1), b, stale);
            Seen(u, HelloWire(h), SuiteSeen(t, h, b), 0) && u.enableXtls == t.enableXtls
  {
    HelloLayout(h);
    var w, n := HelloWire(h), |h.sessionId|;
    assert b[..3] == [b[0], b[1], b[2]] == SERVER_HANDSHAKE && b[5] == SERVER_HELLO;
    assert b[3] == w[3] && b[4] == w[4];
    if 79 <= |b| && 79 <= |w| {
      assert b[43] == w[43] == n && b[44 + n] == w[44 + n] && b[45 + n] == w[45 + n];
    }
  }

  /** A later buffer, which does not look like another ServerHello. */
  lemma {:induction false} LaterLook(t: Traffic, b: seq<byte>, stale: seq<byte>, w: seq<byte>, suite: int, past: nat)
    requires Seen(t, w, suite, past) && !StartsServerHello(b)
    ensures var u := Recognise(t.(packetsToFilter := t.packetsToFilter - 1), b, stale);
            Seen(u, w, suite, past) && u.enableXtls == t.enableXtls
  {
    if |b| >= 6 {
      assert b[..3] == [b[0], b[1], b[2]];
    }
  }

  // ------------------------------------------------------------------ in any buffers

  /** Where buffer `k` begins. */
  function Offset(mb: seq<seq<byte>>, k: nat): nat
    requires k <= |mb|
  {
    |Concat(mb[..k])|
  }

  lemma {:induction false} OffsetNext(mb: seq<seq<byte>>, k: nat)
    requires k < |mb|
    ensures Offset(mb, k + 1) == Offset(mb, k) + |mb[k]|
    ensures Concat(mb) == Concat(mb[..k]) + (mb[k] + Concat(mb[k + 1..]))
  {
    assert mb[..k + 1] == mb[..k] + [mb[k]];
    ConcatSnoc(mb[..k], mb[k]);
    assert mb == mb[..k] + mb[k..] && mb[k..][0] == mb[k] && mb[k..][1..] == mb[k + 1..];
    ConcatAppend(mb[..k], mb[k..]);
  }

  /** No cut goes through the extension. */
  predicate CutOutside(w: seq<byte>, mb: seq<seq<byte>>) {
    forall k, j :: 0 < k < |mb| && 0 <= j <= |w| && OccursAt(w, TLS13, j) ==> !(j < Offset(mb, k) < j + 6)
  }

  /** No later buffer that begins inside the hello looks like another one. */
  predicate NoOther(w: seq<byte>, mb: seq<seq<byte>>) {
    forall k :: 0 < k < |mb| && Offset(mb, k) < |w| ==> !StartsServerHello(mb[k])
  }

  lemma {:induction false} BufferShows(w: seq<byte>, mb: seq<seq<byte>>, k: nat)
    requires k <= |mb| && w <= Concat(mb) && Offset(mb, k) < |w|
    ensures k < |mb| && Shows(mb[k], w, Offset(mb, k))
  {
    assert mb[..|mb|] == mb;
    OffsetNext(mb, k);
    var c := Concat(mb);
    assert forall i :: 0 <= i < |mb[k]| ==> c[Offset(mb, k) + i] == mb[k][i];
  }

  /** Buffer `k` holds the extension, and holds it within the hello. */
  predicate ShownIn(w: seq<byte>, mb: seq<seq<byte>>, k: nat)
    requires k < |mb|
  {
    Holds13(w, Offset(mb, k), Min(|w|, Offset(mb, k + 1)))
  }

  /** Some buffer from `i` on does. */
  predicate Shown(w: seq<byte>, mb: seq<seq<byte>>, i: nat) {
    exists k :: i <= k < |mb| && ShownIn(w, mb, k)
  }

  lemma {:induction false} OffsetsGrow(mb: seq<seq<byte>>, i: nat, k: nat)
    requires i <= k <= |mb|
    ensures Offset(mb, i) <= Offset(mb, k)
    decreases k - i
  {
    if i < k {
      OffsetNext(mb, k - 1);
      OffsetsGrow(mb, i, k - 1);
    }
  }

  /** No buffer behind the hello shows it. */
  lemma {:induction false} ShownHere(w: seq<byte>, mb: seq<seq<byte>>, i: nat)
    requires i < |mb| && |w| <= Offset(mb, i + 1)
    ensures Shown(w, mb, i) <==> ShownIn(w, mb, i)
  {
    forall k | i < k < |mb| ensures !ShownIn(w, mb, k) {
      OffsetsGrow(mb, i + 1, k);
    }
  }

  /** Buffer `i` leaves the hello recognised, up to the end of the buffer before. */
  predicate Arrived(t: Traffic, mb: seq<seq<byte>>, stale: seq<seq<byte>>, i: nat, w: seq<byte>, suite: int) {
    && i < |mb| && Offset(mb, i) < |w|
    && var u := Recognise(t.(packetsToFilter := t.packetsToFilter - 1), mb[i], StaleOf(stale, i));
       Seen(u, w, suite, Offset(mb, i)) && u.enableXtls == t.enableXtls
  }

  lemma {:induction false} LookAt(t: Traffic, mb: seq<seq<byte>>, stale: seq<seq<byte>>, i: nat, w: seq<byte>,
                                  suite: int) returns (f: Filtered)
    requires w <= Concat(mb) && Arrived(t, mb, stale, i, w, suite)
    ensures f == FilterOne(t, mb[i], StaleOf(stale, i))
    ensures f.stop == (ShownIn(w, mb, i) || |w| <= Offset(mb, i + 1))
    ensures if f.stop then Verdict(f.traffic, t.enableXtls, suite, ShownIn(w, mb, i))
            else Seen(f.traffic, w, suite, Offset(mb, i + 1)) && f.traffic.enableXtls == t.enableXtls
  {
    BufferShows(w, mb, i);
    LookThrough(t, mb[i], StaleOf(stale, i), w, suite, Offset(mb, i));
    OffsetNext(mb, i);
    f := FilterOne(t, mb[i], StaleOf(stale, i));
  }

  lemma {:induction false} NextArrives(u: Traffic, mb: seq<seq<byte>>, stale: seq<seq<byte>>, i: nat, w: seq<byte>,
                                       suite: int)
    requires w <= Concat(mb) && NoOther(w, mb) && 0 < i <= |mb| && Offset(mb, i) < |w|
    requires Seen(u, w, suite, Offset(mb, i))
    ensures Arrived(u, mb, stale, i, w, suite)
  {
    BufferShows(w, mb, i);
    LaterLook(u, mb[i], StaleOf(stale, i), w, suite, Offset(mb, i));
  }

  lemma {:induction false} ShownLater(w: seq<byte>, mb: seq<seq<byte>>, i: nat)
    requires i < |mb| && !ShownIn(w, mb, i)
    ensures Shown(w, mb, i) <==> Shown(w, mb, i + 1)
  {
  }

  lemma {:induction false} HelloFrom(t: Traffic, mb: seq<seq<byte>>, stale: seq<seq<byte>>, i: nat, w: seq<byte>,
                                     suite: int)
    requires w <= Concat(mb) && NoOther(w, mb) && Arrived(t, mb, stale, i, w, suite)
    ensures Verdict(FilterAll(t, mb, stale, i), t.enableXtls, suite, Shown(w, mb, i))
    decreases |mb| - i
  {
    var f := LookAt(t, mb, stale, i, w, suite);
    if !f.stop {
      NextArrives(f.traffic, mb, stale, i + 1, w, suite);
      HelloFrom(f.traffic, mb, stale, i + 1, w, suite);
      ShownLater(w, mb, i);
    } else if |w| <= Offset(mb, i + 1) {
      ShownHere(w, mb, i);
    }
  }

  /** The buffer in which offset `j` lies. */
  lemma {:induction false} BufferAt(mb: seq<seq<byte>>, j: nat, n: nat) returns (k: nat)
    requires n <= |mb| && j < Offset(mb, n)
    ensures k < n && Offset(mb, k) <= j < Offset(mb, k + 1)
    decreases n
  {
    assert mb[..0] == [];
    if j < Offset(mb, n - 1) {
      k := BufferAt(mb, j, n - 1);
    } else {
      k := n - 1;
    }
  }

  /** No cut goes through the extension: then some buffer shows it if it is there. */
  lemma {:induction false} ShownUnlessCut(w: seq<byte>, mb: seq<seq<byte>>)
    requires w <= Concat(mb)
    ensures Shown(w, mb, 0) ==> Contains(w, TLS13)
    ensures CutOutside(w, mb) ==> (Shown(w, mb, 0) <==> Contains(w, TLS13))
  {
    if CutOutside(w, mb) && Contains(w, TLS13) {
      var j :| 0 <= j <= |w| && OccursAt(w, TLS13, j);
      assert mb[..|mb|] == mb;
      var k := BufferAt(mb, j, |mb|);
      assert k + 1 < |mb| ==> !(j < Offset(mb, k + 1) < j + 6);
      assert ShownIn(w, mb, k);
    }
  }

  /** SERVER HELLO. Buffers that begin with a ServerHello, in one piece or cut anywhere: inside
      recognised TLS 1.2 or later, with the budget used up, direct copy is enabled if and only if
      some buffer shows the supported_versions extension for TLS 1.3, as it does when the hello
      holds it and no cut goes through it, and the suite is 0x1301 to 0x1304. The suite is the
      hello's own if the hello and its first buffer have at least 79 bytes, and what was taken
      down before otherwise. */
  lemma {:induction false} HelloDecides(t: Traffic, mb: seq<seq<byte>>, stale: seq<seq<byte>>, h: ServerHello)
    requires ValidHello(h) && mb != [] && 6 <= |mb[0]| && HelloWire(h) <= Concat(mb) && NoOther(HelloWire(h), mb)
    ensures Verdict(FilterAll(t, mb, stale, 0), t.enableXtls, SuiteSeen(t, h, mb[0]), Shown(HelloWire(h), mb, 0))
    ensures CutOutside(HelloWire(h), mb) ==> (Shown(HelloWire(h), mb, 0) <==> Contains(HelloWire(h), TLS13))
  {
    var w := HelloWire(h);
    HelloLayout(h);
    assert mb[..0] == [];
    BufferShows(w, mb, 0);
    FirstLook(t, mb[0], StaleOf(stale, 0), h);
    HelloFrom(t, mb, stale, 0, w, SuiteSeen(t, h, mb[0]));
    ShownUnlessCut(w, mb);
  }

  /** Whole in one buffer, with anything behind it. */
  lemma {:induction false} WholeHelloDecides(t: Traffic, h: ServerHello, more: seq<byte>, stale: seq<seq<byte>>)
    requires ValidHello(h) && 79 <= |HelloWire(h)|
    ensures Verdict(FilterAll(t, [HelloWire(h) + more], stale, 0), t.enableXtls, h.suite, Contains(HelloWire(h), TLS13))
  {
    var b := HelloWire(h) + more;
    ConcatOne(b);
    HelloDecides(t, [b], stale, h);
  }

  /** CLIENT HELLO. A buffer that begins with one, of whatever version, shows TLS and nothing
      else, and costs one packet of the budget. */
  lemma {:induction false} ClientHelloSeen(t: Traffic, b: seq<byte>, stale: seq<byte>, version: byte, body: seq<byte>)
    requires 4 + |body| < 65536 && 6 <= |b| && Shows(b, Record(version, Handshake(1, body)), 0)
    requires t.remainingServerHello <= 0
    ensures FilterOne(t, b, stale) == Filtered(t.(isTLS := true, packetsToFilter := t.packetsToFilter - 1), false)
  {
    RecordLayout(version, 1, body);
    assert b[..3] == [b[0], b[1], b[2]] && b[..2] == [b[0], b[1]];
  }

  /** Any other buffer shows nothing. */
  lemma {:induction false} NothingSeen(t: Traffic, b: seq<byte>, stale: seq<byte>)
    requires t.remainingServerHello <= 0 && !StartsServerHello(b)
    requires !(6 <= |b| && b[0] == 0x16 && b[1] == 3 && b[5] == 1)
    ensures FilterOne(t, b, stale) == Filtered(t.(packetsToFilter := t.packetsToFilter - 1), false)
  {
    if |b| >= 6 {
      assert b[..3] == [b[0], b[1], b[2]] && b[..2] == [b[0], b[1]];
    }
  }
}
