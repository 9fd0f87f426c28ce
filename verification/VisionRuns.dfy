/** Every run of one direction: any sequence of writes, interleaved with the traffic the
    other direction recognises. */
module VisionRuns {
  import opened Bytes
  import opened Buffers
  import opened VisionUnpadding
  import opened VisionStream
  import opened VisionPadding
  import opened VisionTraffic
  import opened VisionWriter
  import opened VisionConnection

  /** A write of header padding, a write of data (before compaction), or buffers of the
      other direction passing through XtlsFilterTls. */
  datatype Event =
    | WriteHeader(random: seq<nat>)
    | Write(views: seq<View>, random: seq<nat>, stale: seq<seq<byte>>)
    | Peer(mb: seq<seq<byte>>, stale: seq<seq<byte>>)

  datatype Conn = Conn(writer: WriterState, traffic: Traffic, sent: Sent)

  const NEW_CONN := Conn(NEW_WRITER, NEW_TRAFFIC, NOTHING)

  function InputOf(e: Event): Input {
    if e.Write? then Content(Payload(Compacted(e.views))) else HeaderOnly
  }

  /** No panic: see `Legal`; and compaction finds no empty buffer after the first. */
  predicate LegalEvent(c: Conn, e: Event) {
    && (e.Write? ==> AllWithin(e.views, BUF_SIZE) && Compactable(e.views))
    && (!e.Peer? ==> Legal(c.writer.isPadding, InputOf(e)))
  }

  function Append(a: Sent, b: Sent): Sent {
    Sent(a.blocks + b.blocks, a.plain + b.plain, a.direct + b.direct)
  }

  function After(c: Conn, seeds: Seeds, e: Event): Conn
    requires SafeSeeds(seeds) && LegalEvent(c, e)
  {
    if e.Peer? then c.(traffic := Filter(c.traffic, e.mb, e.stale))
    else
      var stale := if e.Write? then e.stale else [];
      var o := Call(c.writer, c.traffic, seeds, InputOf(e), e.random, stale);
      Conn(o.writer, o.traffic, Append(c.sent, o.sent))
  }

  predicate LegalRun(c: Conn, seeds: Seeds, es: seq<Event>)
    requires SafeSeeds(seeds)
    decreases |es|
  {
    es == [] || (LegalEvent(c, es[0]) && LegalRun(After(c, seeds, es[0]), seeds, es[1..]))
  }

  function RunAll(c: Conn, seeds: Seeds, es: seq<Event>): Conn
    requires SafeSeeds(seeds) && LegalRun(c, seeds, es)
    decreases |es|
  {
    if es == [] then c else RunAll(After(c, seeds, es[0]), seeds, es[1..])
  }

  function WrittenBy(e: Event): seq<byte> {
    if e.Write? then Concat(Payload(e.views)) else []
  }

  function Written(es: seq<Event>): seq<byte> {
    if es == [] then [] else WrittenBy(es[0]) + Written(es[1..])
  }

  /** Everything a receiver should get out of what was sent. */
  function Carried(s: Sent): seq<byte> {
    Contents(s.blocks) + s.plain + s.direct
  }

  predicate EndsDirect(blocks: seq<Block>) {
    blocks != [] && blocks[|blocks| - 1].command == COMMAND_DIRECT
  }

  /** The run invariant. */
  predicate Inv(c: Conn) {
    var w, s := c.writer, c.sent;
    && Sound(c.traffic)
    && Grammar(s.blocks, s.plain)
    && (w.isPadding <==> !Terminated(s.blocks))
    && (w.armed || w.direct <==> EndsDirect(s.blocks))
    && !(w.armed && w.direct)
    && (EndsDirect(s.blocks) ==> s.plain == [])
    && (!w.direct ==> s.direct == [])
  }

  lemma {:induction false} ContentsAppend(a: seq<Block>, b: seq<Block>)
    ensures Contents(a + b) == Contents(a) + Contents(b)
  {
    if a == [] {
      assert a + b == b;
    } else {
      ContentsAppend(a[1..], b);
      assert (a + b)[0] == a[0] && (a + b)[1..] == a[1..] + b;
      Assoc(a[0].content, Contents(a[1..]), Contents(b));
    }
  }

  /** A padding call. */
  lemma {:induction false} PadKeeps(t: Traffic, seeds: Seeds, input: Input, random: seq<nat>)
    requires SafeSeeds(seeds) && Legal(true, input) && Sound(t)
    ensures var p := Pad(t, seeds, input, random);
            GoodPads(p, Concat(Payloads(input))) || (p == Pads([], [], true, false) && Concat(Payloads(input)) == [])
  {
    if input.HeaderOnly? {
      var k := BlockFor(Setting(t, false, seeds, random), COMMAND_CONTINUE, [], true, 0);
      LastPads(k, [], true, false);
      assert k.content + [] == [];
    } else {
      ReshapeFits(input.mb);
      var pieces := Reshaped(input.mb);
      var c := Setting(t, VisionRecords.ScanAll(VisionRecords.INITIAL, input.mb).value, seeds, random);
      if pieces != [] {
        PadFromIsGood(c, pieces, 0, true, false, t.isTLS);
        assert pieces[0..] == pieces;
      }
    }
  }

  lemma {:induction false} JoinContinue(a: seq<Block>, b: seq<Block>, plain: seq<byte>)
    requires Grammar(a, []) && !Terminated(a) && b != [] && Grammar(b, plain)
    ensures Grammar(a + b, plain) && Terminated(a + b) == Terminated(b) && EndsDirect(a + b) == EndsDirect(b)
  {
    assert (a + b)[|a + b| - 1] == b[|b| - 1];
  }

  lemma {:induction false} Regroup(a: seq<byte>, b: seq<byte>, c: seq<byte>)
    ensures a + b + c + [] == a + [] + [] + (b + c)
  {
    Assoc(a, b, c);
    assert a + [] + [] == a && a + b + c + [] == a + b + c;
  }

  lemma {:induction false} SentWhilePadding(s: Sent, p: Pads, data: seq<byte>)
    requires Grammar(s.blocks, []) && !Terminated(s.blocks) && s.plain == [] && s.direct == []
    requires GoodPads(p, data)
    ensures var n := Append(s, Sent(p.blocks, p.plain, []));
            && Grammar(n.blocks, n.plain) && (p.isPadding <==> !Terminated(n.blocks))
            && (p.armed <==> EndsDirect(n.blocks)) && (p.armed ==> n.plain == []) && n.direct == []
            && Carried(n) == Carried(s) + data
  {
    var n := Append(s, Sent(p.blocks, p.plain, []));
    assert n.plain == p.plain;
    JoinContinue(s.blocks, p.blocks, p.plain);
    ContentsAppend(s.blocks, p.blocks);
    Regroup(Contents(s.blocks), Contents(p.blocks), p.plain);
  }

  lemma {:induction false} SentThrough(s: Sent, data: seq<byte>, direct: bool)
    requires Grammar(s.blocks, s.plain) && Terminated(s.blocks)
    requires if direct then s.plain == [] else s.direct == []
    ensures var n := Append(s, if direct then Sent([], [], data) else Sent([], data, []));
            && n.blocks == s.blocks && Grammar(n.blocks, n.plain)
            && n.plain == s.plain + (if direct then [] else data)
            && n.direct == s.direct + (if direct then data else [])
            && Carried(n) == Carried(s) + data
  {
    var n := Append(s, if direct then Sent([], [], data) else Sent([], data, []));
    assert n.blocks == s.blocks;
  }

  /** One call keeps the invariant and carries exactly its bytes. */
  lemma {:induction false} CallKeeps(c: Conn, seeds: Seeds, input: Input, random: seq<nat>, stale: seq<seq<byte>>)
    requires SafeSeeds(seeds) && Inv(c) && Legal(c.writer.isPadding, input)
    ensures var o := Call(c.writer, c.traffic, seeds, input, random, stale);
            var n := Conn(o.writer, o.traffic, Append(c.sent, o.sent));
            && Inv(n) && Carried(n.sent) == Carried(c.sent) + Concat(Payloads(input))
  {
    FilterKeepsSound(c.traffic, Payloads(input), stale, 0);
    var t := Filter(c.traffic, Payloads(input), stale);
    if c.writer.isPadding {
      PadKeeps(t, seeds, input, random);
      var p := Pad(t, seeds, input, random);
      if GoodPads(p, Concat(Payloads(input))) {
        SentWhilePadding(c.sent, p, Concat(Payloads(input)));
      } else {
        assert Append(c.sent, Sent([], [], [])) == c.sent;
        assert Carried(c.sent) + [] == Carried(c.sent);
      }
    } else {
      SentThrough(c.sent, Concat(Payloads(input)), c.writer.armed || c.writer.direct);
    }
  }

  lemma {:induction false} EventKeeps(c: Conn, seeds: Seeds, e: Event)
    requires SafeSeeds(seeds) && Inv(c) && LegalEvent(c, e)
    ensures Inv(After(c, seeds, e)) && Carried(After(c, seeds, e).sent) == Carried(c.sent) + WrittenBy(e)
  {
    if e.Peer? {
      FilterKeepsSound(c.traffic, e.mb, e.stale, 0);
      assert Carried(c.sent) + [] == Carried(c.sent);
    } else {
      CallKeeps(c, seeds, InputOf(e), e.random, if e.Write? then e.stale else []);
      if e.Write? {
        CompactConserves(e.views, BUF_SIZE);
      }
    }
  }

  /** VISION WRITER GRAMMAR. Over every run each direction emits Continue blocks, at most
      one terminal block, and only then unpadded bytes; direct copy is armed or in use
      exactly after a Direct block. */
  lemma {:induction false} RunKeeps(c: Conn, seeds: Seeds, es: seq<Event>)
    requires SafeSeeds(seeds) && Inv(c) && LegalRun(c, seeds, es)
    ensures Inv(RunAll(c, seeds, es))
    decreases |es|
  {
    if es != [] {
      EventKeeps(c, seeds, es[0]);
      RunKeeps(After(c, seeds, es[0]), seeds, es[1..]);
    }
  }

  /** What was sent carries exactly what was written. */
  lemma {:induction false} RunCarries(c: Conn, seeds: Seeds, es: seq<Event>)
    requires SafeSeeds(seeds) && Inv(c) && LegalRun(c, seeds, es)
    ensures Carried(RunAll(c, seeds, es).sent) == Carried(c.sent) + Written(es)
    decreases |es|
  {
    if es == [] {
      assert Carried(c.sent) + [] == Carried(c.sent);
    } else {
      EventKeeps(c, seeds, es[0]);
      RunCarries(After(c, seeds, es[0]), seeds, es[1..]);
      Assoc(Carried(c.sent), WrittenBy(es[0]), Written(es[1..]));
    }
  }

  /** A call emits a Direct block exactly when it arms the switch to direct copy, and the
      following call uses the raw connection. */
  lemma {:induction false} DirectArms(c: Conn, seeds: Seeds, e: Event)
    requires SafeSeeds(seeds) && Inv(c) && LegalEvent(c, e) && !e.Peer?
    ensures var n := After(c, seeds, e);
            && (n.writer.armed <==> EndsDirect(n.sent.blocks) && !EndsDirect(c.sent.blocks))
            && (c.writer.armed ==> n.writer.direct && n.sent.blocks == c.sent.blocks && n.sent.plain == c.sent.plain)
  {
    CallKeeps(c, seeds, InputOf(e), e.random, if e.Write? then e.stale else []);
    var n := After(c, seeds, e);
    assert c.writer.isPadding ==> !EndsDirect(c.sent.blocks);
    if !c.writer.isPadding {
      assert n.sent.blocks == c.sent.blocks + [] == c.sent.blocks;
      if c.writer.armed {
        assert n.sent.plain == c.sent.plain + [] == c.sent.plain;
      }
    }
  }

  // -------------------------------------------------- the bytes on the outer connection

  lemma {:induction false} WiresAppend(a: seq<Block>, b: seq<Block>)
    ensures Wires(a + b) == Wires(a) + Wires(b)
  {
    if a == [] {
      assert a + b == b;
    } else {
      WiresAppend(a[1..], b);
      assert (a + b)[0] == a[0] && (a + b)[1..] == a[1..] + b;
      Assoc(Wire(a[0]), Wires(a[1..]), Wires(b));
    }
  }

  /** What a call puts on the outer connection continues the wire image. */
  lemma {:induction false} ImageGrows(uuid: seq<byte>, s: Sent, o: Sent)
    requires o.blocks != [] || s.blocks == [] ==> s.plain == []
    requires s.blocks == [] && o.blocks == [] ==> o.plain == []
    ensures Image(uuid, s.blocks, s.plain) + OuterBytes(if s.blocks == [] then uuid else [], o)
            == Image(uuid, s.blocks + o.blocks, s.plain + o.plain)
  {
    if s.blocks == [] {
      assert s.blocks + o.blocks == o.blocks && s.plain + o.plain == o.plain;
    } else if o.blocks == [] {
      assert s.blocks + o.blocks == s.blocks;
      Assoc(uuid + Wires(s.blocks), s.plain, o.plain);
    } else {
      WiresAppend(s.blocks, o.blocks);
      var w, v := Wires(s.blocks), Wires(o.blocks);
      assert s.plain + o.plain == o.plain && uuid + w + s.plain == uuid + w && [] + v == v;
      Assoc(uuid, w, v);
      Assoc(uuid + w, v, o.plain);
    }
  }

  /** Over every run the writes on the outer connection are the wire image of what was sent:
      one call appends its bytes, with the UUID before the first block only. */
  lemma {:induction false} CallImage(uuid: seq<byte>, c: Conn, seeds: Seeds, input: Input,
                                     random: seq<nat>, stale: seq<seq<byte>>)
    requires SafeSeeds(seeds) && Inv(c) && Legal(c.writer.isPadding, input)
    ensures var o := Call(c.writer, c.traffic, seeds, input, random, stale).sent;
            var n := Append(c.sent, o);
            Image(uuid, c.sent.blocks, c.sent.plain) + OuterBytes(if c.sent.blocks == [] then uuid else [], o)
            == Image(uuid, n.blocks, n.plain)
  {
    var t := Filter(c.traffic, Payloads(input), stale);
    FilterKeepsSound(c.traffic, Payloads(input), stale, 0);
    if c.writer.isPadding {
      PadKeeps(t, seeds, input, random);
    }
    ImageGrows(uuid, c.sent, Call(c.writer, c.traffic, seeds, input, random, stale).sent);
  }

  // ---------------------------------------------------------------------- end to end

  /** END TO END. Take any run of writes. However the padded stream is cut into buffers
      (the first of at least 21 bytes), unpadding it and appending the raw connection's
      bytes gives exactly what was written, if and only if no buffer beginning after the
      terminal block starts with the user's UUID and no earlier one holds more than 8192
      bytes of data. */
  lemma {:induction false} VisionEndToEnd(uuid: seq<byte>, seeds: Seeds, es: seq<Event>, s: Sent, mb: seq<seq<byte>>)
    requires |uuid| == 16 && SafeSeeds(seeds) && LegalRun(NEW_CONN, seeds, es)
    requires s == RunAll(NEW_CONN, seeds, es).sent
    requires s.blocks != [] && Concat(mb) == Image(uuid, s.blocks, s.plain) && mb != [] && 21 <= |mb[0]|
    ensures UnpadAll(uuid, FRESH, mb).out + s.direct == Written(es) <==> GoodBuffers(uuid, s.blocks, -16, mb)
  {
    WholeRun(seeds, es);
    VisionRoundTrip(uuid, s.blocks, s.plain, mb);
    SameTail(UnpadAll(uuid, FRESH, mb).out, Contents(s.blocks) + s.plain, s.direct);
  }

  lemma {:induction false} WholeRun(seeds: Seeds, es: seq<Event>)
    requires SafeSeeds(seeds) && LegalRun(NEW_CONN, seeds, es)
    ensures var s := RunAll(NEW_CONN, seeds, es).sent;
            && Grammar(s.blocks, s.plain) && Carried(s) == Written(es)
            && (s.blocks == [] ==> Written(es) == [])
  {
    RunKeeps(NEW_CONN, seeds, es);
    RunCarries(NEW_CONN, seeds, es);
    assert Carried(NEW_CONN.sent) == [] && [] + Written(es) == Written(es);
  }

  lemma {:induction false} SameTail(x: seq<byte>, y: seq<byte>, z: seq<byte>)
    ensures x + z == y + z <==> x == y
  {
    if x + z == y + z {
      assert |x| == |y|;
      assert x == (x + z)[..|x|] == (y + z)[..|y|] == y;
    }
  }
}
