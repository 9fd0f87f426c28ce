/** XtlsFilterTls (proxy/proxy.go): recognising the TLS handshake inside the proxied
    stream, which decides how Vision padding ends. What it has recognised it never
    forgets; the buffers it looks at are limited by a budget. */
module VisionTraffic {
  import opened Bytes
  import opened VisionPadding

  const SERVER_HANDSHAKE: seq<byte> := [0x16, 0x03, 0x03]
  const CLIENT_HANDSHAKE: seq<byte> := [0x16, 0x03]
  const SUPPORTED_VERSIONS_13: seq<byte> := [0x00, 0x2b, 0x00, 0x02, 0x03, 0x04]
  const CLIENT_HELLO: byte := 1
  const SERVER_HELLO: byte := 2

  /** The part of TrafficState both directions of a connection share. */
  datatype Traffic = Traffic(packetsToFilter: int, enableXtls: bool, isTLS12orAbove: bool, isTLS: bool,
                             cipher: int, remainingServerHello: int)

  const NEW_TRAFFIC := Traffic(8, false, false, false, 0, -1)

  /** TLS 1.3 suites that allow direct copy: all known ones but TLS_AES_128_CCM_8_SHA256. */
  predicate DirectCipher(cipher: int) {
    0x1301 <= cipher <= 0x1304
  }

  predicate Contains(s: seq<byte>, pattern: seq<byte>) {
    exists i :: 0 <= i <= |s| && OccursAt(s, pattern, i)
  }

  /** Byte `i` of a buffer's storage; past its contents that is whatever was left there. */
  function At(b: seq<byte>, stale: seq<byte>, i: nat): byte {
    if i < |b| then b[i] else if i - |b| < |stale| then stale[i - |b|] else 0
  }

  function StaleOf(stale: seq<seq<byte>>, i: nat): seq<byte> {
    if i < |stale| then stale[i] else []
  }

  /** What the first bytes of one buffer reveal. */
  function Recognise(t: Traffic, b: seq<byte>, stale: seq<byte>): Traffic {
    if |b| < 6 then t
    else if b[..3] == SERVER_HANDSHAKE && b[5] == SERVER_HELLO then
      var length := U16(b, 3) + 5;
      var u := t.(remainingServerHello := length, isTLS12orAbove := true, isTLS := true);
      if |b| >= 79 && length >= 79 then
        var sessionIdLen: int := b[43];
        u.(cipher := U16([At(b, stale, 44 + sessionIdLen), At(b, stale, 45 + sessionIdLen)], 0))
      else u
    else if b[..2] == CLIENT_HANDSHAKE && b[5] == CLIENT_HELLO then t.(isTLS := true)
    else t
  }

  datatype Filtered = Filtered(traffic: Traffic, stop: bool)

  /** One buffer of the filter loop, and whether the loop returns. */
  function FilterOne(t: Traffic, b: seq<byte>, stale: seq<byte>): Filtered {
    var u := Recognise(t.(packetsToFilter := t.packetsToFilter - 1), b, stale);
    if u.remainingServerHello > 0 then
      var end := Min(u.remainingServerHello, |b|);
      var left := u.remainingServerHello - |b|;
      var w := u.(remainingServerHello := left);
      if Contains(b[..end], SUPPORTED_VERSIONS_13) then
        Filtered(w.(packetsToFilter := 0, enableXtls := u.enableXtls || DirectCipher(u.cipher)), true)
      else if left <= 0 then Filtered(w.(packetsToFilter := 0), true)
      else Filtered(w, false)
    else Filtered(u, false)
  }

  /** The loop over the buffers of one call; `stale[i]` is what the storage of buffer `i`
      holds behind its contents. */
  function FilterAll(t: Traffic, mb: seq<seq<byte>>, stale: seq<seq<byte>>, i: nat): Traffic
    requires i <= |mb|
    decreases |mb| - i
  {
    if i == |mb| then t
    else
      var f := FilterOne(t, mb[i], StaleOf(stale, i));
      if f.stop then f.traffic else FilterAll(f.traffic, mb, stale, i + 1)
  }

  /** Direct copy is only ever enabled for a recognised TLS 1.2+ handshake. */
  predicate Sound(t: Traffic) {
    && (t.enableXtls ==> t.isTLS12orAbove && t.isTLS)
    && (t.remainingServerHello > 0 ==> t.isTLS12orAbove && t.isTLS)
  }

  /** Nothing recognised is ever forgotten, and the packet budget only runs down. */
  predicate Later(t: Traffic, u: Traffic) {
    && (t.enableXtls ==> u.enableXtls) && (t.isTLS ==> u.isTLS)
    && (t.isTLS12orAbove ==> u.isTLS12orAbove)
    && (t.packetsToFilter <= 0 ==> u.packetsToFilter <= 0)
  }

  lemma {:induction false} FilterKeepsSound(t: Traffic, mb: seq<seq<byte>>, stale: seq<seq<byte>>, i: nat)
    requires i <= |mb| && Sound(t)
    ensures Sound(FilterAll(t, mb, stale, i)) && Later(t, FilterAll(t, mb, stale, i))
    decreases |mb| - i
  {
    if i < |mb| {
      var f := FilterOne(t, mb[i], StaleOf(stale, i));
      if !f.stop {
        FilterKeepsSound(f.traffic, mb, stale, i + 1);
      }
    }
  }

  lemma {:induction false} OccursInWhole(s: seq<byte>, n: nat, pattern: seq<byte>, j: nat)
    requires n <= |s| && OccursAt(s[..n], pattern, j)
    ensures OccursAt(s, pattern, j)
  {
    assert s[..n][j..j + |pattern|] == s[j..j + |pattern|];
  }

  /** When direct copy gets enabled, some buffer of the call holds the TLS 1.3
      supported_versions extension of a ServerHello (section 4.1.3 of RFC 8446) and the
      suite is one that allows it. */
  lemma {:induction false} XtlsNeedsTls13(t: Traffic, mb: seq<seq<byte>>, stale: seq<seq<byte>>, i: nat)
    requires i <= |mb| && Sound(t) && !t.enableXtls && FilterAll(t, mb, stale, i).enableXtls
    ensures DirectCipher(FilterAll(t, mb, stale, i).cipher)
    ensures exists k :: i <= k < |mb| && Contains(mb[k], SUPPORTED_VERSIONS_13)
    ensures FilterAll(t, mb, stale, i).packetsToFilter == 0
    decreases |mb| - i
  {
    var f := FilterOne(t, mb[i], StaleOf(stale, i));
    if f.stop {
      var u := Recognise(t.(packetsToFilter := t.packetsToFilter - 1), mb[i], StaleOf(stale, i));
      var end := Min(u.remainingServerHello, |mb[i]|);
      var j :| 0 <= j <= end && OccursAt(mb[i][..end], SUPPORTED_VERSIONS_13, j);
      OccursInWhole(mb[i], end, SUPPORTED_VERSIONS_13, j);
    } else {
      XtlsNeedsTls13(f.traffic, mb, stale, i + 1);
    }
  }

  class TrafficState {
    var packetsToFilter: int
    var enableXtls: bool
    var isTLS12orAbove: bool
    var isTLS: bool
    var cipher: int
    var remainingServerHello: int

    ghost function Value(): Traffic
      reads this
    {
      Traffic(packetsToFilter, enableXtls, isTLS12orAbove, isTLS, cipher, remainingServerHello)
    }

    constructor ()
      ensures Value() == NEW_TRAFFIC && Sound(Value())
    {
      packetsToFilter, cipher, remainingServerHello := 8, 0, -1;
      enableXtls, isTLS12orAbove, isTLS := false, false, false;
    }

    /** The filter's look at one buffer; `stop` when it returns from the loop. */
    method FilterBuffer(b: seq<byte>, stale: seq<byte>) returns (stop: bool)
      modifies this
      ensures FilterOne(old(Value()), b, stale) == Filtered(Value(), stop)
    {
      packetsToFilter := packetsToFilter - 1;
      if |b| >= 6 {
        if b[..3] == SERVER_HANDSHAKE && b[5] == SERVER_HELLO {
          remainingServerHello := U16(b, 3) + 5;
          isTLS12orAbove := true;
          isTLS := true;
          if |b| >= 79 && remainingServerHello >= 79 {
            var sessionIdLen: int := b[43];
            cipher := U16([At(b, stale, 43 + sessionIdLen + 1), At(b, stale, 43 + sessionIdLen + 2)], 0);
          }
        } else if b[..2] == CLIENT_HANDSHAKE && b[5] == CLIENT_HELLO {
          isTLS := true;
        }
      }
      if remainingServerHello <= 0 {
        return false;
      }
      var end := remainingServerHello;
      if end > |b| {
        end := |b|;
      }
      remainingServerHello := remainingServerHello - |b|;
      if Contains(b[..end], SUPPORTED_VERSIONS_13) {
        if DirectCipher(cipher) {
          enableXtls := true;
        }
        packetsToFilter := 0;
        return true;
      } else if remainingServerHello <= 0 {
        packetsToFilter := 0;
        return true;
      }
      stop := false;
    }

    method XtlsFilterTls(mb: seq<seq<byte>>, stale: seq<seq<byte>>)
      modifies this
      ensures Value() == FilterAll(old(Value()), mb, stale, 0)
      ensures old(Sound(Value())) ==> Sound(Value()) && Later(old(Value()), Value())
    {
      ghost var want := FilterAll(Value(), mb, stale, 0);
      if Sound(Value()) {
        FilterKeepsSound(Value(), mb, stale, 0);
      }
      for i := 0 to |mb|
        invariant FilterAll(Value(), mb, stale, i) == want
      {
        var stop := FilterBuffer(mb[i], StaleOf(stale, i));
        if stop {
          return;
        }
      }
    }
  }
}
