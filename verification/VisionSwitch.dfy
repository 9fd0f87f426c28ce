/** From the handshake to the switch (proxy/proxy.go): a TLS connection inside Vision. */
module VisionSwitch {
  import opened Bytes
  import opened Buffers
  import opened VisionPadding
  import opened VisionTraffic
  import opened VisionConnection
  import opened VisionRuns
  import opened VisionHello
  import opened VisionEnding

  /** The buffers of a write that the padding loop sees. */
  function Compact(e: Event): seq<seq<byte>>
    requires e.Write?
  {
    Payload(Compacted(e.views))
  }

  /** Some piece of the write starts a record, and its bytes are whole records. */
  predicate RecordsWritten(e: Event)
    requires e.Write?
  {
    var pieces := Reshaped(Compact(e));
    Whole(Compact(e)) && exists i :: 0 <= i < |pieces| && RecordStart(pieces[i])
  }

  function LastCommand(s: Sent): int {
    if s.blocks == [] then -1 else s.blocks[|s.blocks| - 1].command
  }

  /** While padding, nothing is armed and nothing has gone to the raw connection. */
  lemma {:induction false} PaddingIsPlain(c: Conn)
    requires Inv(c) && c.writer.isPadding
    ensures !c.writer.armed && !c.writer.direct && c.sent.direct == [] && c.sent.plain == []
  {
  }

  /** The write that ends padding inside recognised TLS 1.2 or later. */
  lemma {:induction false} RecordsEndPadding(c: Conn, seeds: Seeds, e: Event)
    requires SafeSeeds(seeds) && Inv(c) && c.writer.isPadding && LegalEvent(c, e) && e.Write? && RecordsWritten(e)
    requires c.traffic.packetsToFilter <= 0 && c.traffic.isTLS
    ensures var n := After(c, seeds, e);
            && Inv(n) && n.traffic == c.traffic && !n.writer.isPadding && !n.writer.direct && n.sent.direct == []
            && n.writer.armed == c.traffic.enableXtls
            && LastCommand(n.sent) == if c.traffic.enableXtls then 2 else 1
  {
    var mb := Compact(e);
    EventKeeps(c, seeds, e);
    PaddingIsPlain(c);
    PaddingEnds(c.writer, c.traffic, seeds, mb, e.random, e.stale);
    var pieces := Reshaped(mb);
    var i :| 0 <= i < |pieces| && RecordStart(pieces[i]);
    assert EndsAt(c.traffic, Whole(mb), pieces[i]);
    LastTold(c, seeds, e);
  }

  /** The command of the write's last block is that of the connection's last block. */
  lemma {:induction false} LastTold(c: Conn, seeds: Seeds, e: Event)
    requires SafeSeeds(seeds) && Inv(c) && c.writer.isPadding && LegalEvent(c, e) && e.Write?
    requires c.traffic.packetsToFilter <= 0 && Ends(c.traffic, Whole(Compact(e)), Reshaped(Compact(e)))
    ensures LastCommand(After(c, seeds, e).sent) == if c.traffic.enableXtls then 2 else 1
  {
    var mb, n := Compact(e), After(c, seeds, e);
    PaddingIsPlain(c);
    PaddingEnds(c.writer, c.traffic, seeds, mb, e.random, e.stale);
    var o := Call(c.writer, c.traffic, seeds, Content(mb), e.random, e.stale).sent;
    assert o.blocks != [] && n.sent.blocks == c.sent.blocks + o.blocks;
    assert n.sent.blocks[|n.sent.blocks| - 1] == o.blocks[|o.blocks| - 1];
  }

  /** A write after the end of padding. */
  lemma {:induction false} WriteAfter(c: Conn, seeds: Seeds, e: Event)
    requires SafeSeeds(seeds) && Inv(c) && !c.writer.isPadding && LegalEvent(c, e) && e.Write?
    ensures var n, data := After(c, seeds, e), Concat(Payload(e.views));
            && n.sent.blocks == c.sent.blocks
            && if c.writer.armed || c.writer.direct
               then n.sent.direct == c.sent.direct + data && n.sent.plain == c.sent.plain
               else n.sent.plain == c.sent.plain + data && n.sent.direct == c.sent.direct
  {
    CompactConserves(e.views, BUF_SIZE);
    var n := After(c, seeds, e);
    assert n.sent.blocks == c.sent.blocks + [];
    assert c.sent.plain + [] == c.sent.plain && c.sent.direct + [] == c.sent.direct;
  }

  /** FROM SERVER HELLO TO DIRECT COPY. Any connection that is still padding and filtering sees a
      ServerHello of the other side, in one buffer or cut outside its extension, and then writes
      whole application-data records: padding ends with that write, with a Direct block if and
      only if the hello is for TLS 1.3 with a suite from 0x1301 to 0x1304, and with an End block
      otherwise. What is written next goes to the raw connection after a Direct block, and
      unpadded to the outer one after an End block. */
  lemma {:induction false} HelloThenRecords(c: Conn, seeds: Seeds, h: ServerHello, mb: seq<seq<byte>>,
                                            stale: seq<seq<byte>>, e: Event, next: Event)
    requires SafeSeeds(seeds) && Inv(c) && c.writer.isPadding
    requires c.traffic.packetsToFilter > 0 && !c.traffic.enableXtls
    requires ValidHello(h) && 79 <= |HelloWire(h)| && mb != [] && 79 <= |mb[0]| && HelloWire(h) <= Concat(mb)
    requires NoOther(HelloWire(h), mb) && CutOutside(HelloWire(h), mb)
    requires var d := After(c, seeds, Peer(mb, stale));
             && LegalEvent(d, e) && e.Write? && RecordsWritten(e)
             && LegalEvent(After(d, seeds, e), next) && next.Write?
    ensures var d := After(After(c, seeds, Peer(mb, stale)), seeds, e);
            var n, data := After(d, seeds, next), Concat(Payload(next.views));
            var direct := Contains(HelloWire(h), TLS13) && 0x1301 <= h.suite <= 0x1304;
            && !d.writer.isPadding && LastCommand(d.sent) == (if direct then 2 else 1)
            && n.sent.blocks == d.sent.blocks
            && (direct ==> n.sent.direct == data && n.sent.plain == d.sent.plain)
            && (!direct ==> n.sent.direct == [] && n.sent.plain == d.sent.plain + data)
  {
    var c1 := After(c, seeds, Peer(mb, stale));
    EventKeeps(c, seeds, Peer(mb, stale));
    HelloDecides(c.traffic, mb, stale, h);
    RecordsEndPadding(c1, seeds, e);
    var d := After(c1, seeds, e);
    WriteAfter(d, seeds, next);
    assert [] + Concat(Payload(next.views)) == Concat(Payload(next.views));
  }
}
