/** One Vision direction from end to end: WriteMultiBuffer calls, any cut into reads, the reader. */
module VisionLink {
  import opened Bytes
  import opened Buffers
  import opened BufferedReaders
  import opened VisionUnpadding
  import opened VisionStream
  import opened VisionTraffic
  import opened VisionPadding
  import opened VisionConnection
  import opened VisionRuns
  import opened VisionReader

  /** The writer where the run has led to `c`: its outer connection holds the wire image. */
  ghost predicate At(w: Writer, c: Conn)
    reads w, w.state
  {
    && w.Valid() && w.Value() == c.writer && w.state.Value() == c.traffic
    && w.outer == Image(w.userUuid, c.sent.blocks, c.sent.plain) && w.raw == c.sent.direct
    && w.uuid == (if c.sent.blocks == [] then w.userUuid else [])
  }

  /** One write, or one look at the other direction's buffers. */
  method Happen(w: Writer, ghost c: Conn, e: Event)
    requires At(w, c) && Inv(c) && LegalEvent(c, e)
    modifies w, w.state
    ensures At(w, VisionRuns.After(c, w.seeds, e))
  {
    match e {
      case Peer(mb, stale) =>
        var _ := w.Recognise(mb, stale);
      case WriteHeader(random) =>
        CallImage(w.userUuid, c, w.seeds, HeaderOnly, random, []);
        w.WriteMultiBuffer(HeaderOnly, random, []);
      case Write(views, random, stale) =>
        var input := Content(Payload(Compacted(views)));
        CallImage(w.userUuid, c, w.seeds, input, random, stale);
        w.WriteMultiBuffer(input, random, stale);
    }
  }

  /** WRITER RUNS. After any run of calls the outer connection holds exactly the wire image of
      the blocks and plain bytes sent, and the raw connection the direct bytes. */
  method RunWriter(w: Writer, es: seq<Event>)
    requires At(w, NEW_CONN) && LegalRun(NEW_CONN, w.seeds, es)
    modifies w, w.state
    ensures var s := RunAll(NEW_CONN, w.seeds, es).sent;
            w.outer == Image(w.userUuid, s.blocks, s.plain) && w.raw == s.direct
  {
    ghost var c, want := NEW_CONN, RunAll(NEW_CONN, w.seeds, es);
    assert es[0..] == es;
    for i := 0 to |es|
      invariant At(w, c) && Inv(c)
      invariant LegalRun(c, w.seeds, es[i..]) && RunAll(c, w.seeds, es[i..]) == want
    {
      assert es[i..][0] == es[i] && es[i..][1..] == es[i + 1..];
      EventKeeps(c, w.seeds, es[i]);
      Happen(w, c, es[i]);
      c := VisionRuns.After(c, w.seeds, es[i]);
    }
  }

  /** With `outs` delivered, the reads from `chunks` on owe the rest of `want`. */
  ghost predicate Reading(uuid: seq<byte>, want: seq<seq<byte>>, outs: seq<seq<byte>>, p: Phase,
                          filtering: seq<bool>, chunks: seq<seq<seq<byte>>>)
  {
    && ValidState(p.state) && |filtering| == |chunks|
    && want == outs + Deliveries(uuid, p, filtering, chunks)
  }

  lemma {:induction false} ReadingTurn(uuid: seq<byte>, want: seq<seq<byte>>, outs: seq<seq<byte>>, p: Phase,
                                       filtering: seq<bool>, chunks: seq<seq<seq<byte>>>)
    requires Reading(uuid, want, outs, p, filtering, chunks) && chunks != []
    ensures var d := ReadCall(uuid, p, filtering[0], chunks[0]);
            Reading(uuid, want, outs + [d.out], d.phase, filtering[1..], chunks[1..])
  {
    var d := ReadCall(uuid, p, filtering[0], chunks[0]);
    Assoc(outs, [d.out], Deliveries(uuid, d.phase, filtering[1..], chunks[1..]));
  }

  /** The reader's calls, one for each read of the connection. */
  method RunReader(r: Reader, filtering: seq<bool>, chunks: seq<seq<seq<byte>>>) returns (outs: seq<seq<byte>>)
    requires ValidState(r.unpadder.state) && |filtering| == |chunks|
    modifies r, r.unpadder
    ensures outs == Deliveries(r.unpadder.userUuid, old(r.Value()), filtering, chunks)
  {
    outs := [];
    ghost var uuid, want := r.unpadder.userUuid, Deliveries(r.unpadder.userUuid, r.Value(), filtering, chunks);
    assert filtering[0..] == filtering && chunks[0..] == chunks && outs + want == want;
    for i := 0 to |chunks|
      invariant Reading(uuid, want, outs, r.Value(), filtering[i..], chunks[i..])
    {
      ReadingTurn(uuid, want, outs, r.Value(), filtering[i..], chunks[i..]);
      assert filtering[i..][1..] == filtering[i + 1..] && chunks[i..][1..] == chunks[i + 1..];
      var mb := r.ReadMultiBuffer(chunks[i], filtering[i]);
      outs := outs + [Concat(mb)];
    }
  }

  /** The first buffer is large enough for the UUID to be recognised. */
  predicate Opens(chunks: seq<seq<seq<byte>>>) {
    chunks != [] && chunks[0] != [] && 21 <= |chunks[0][0]|
  }

  /** The reads without the UUID. */
  function Behind(chunks: seq<seq<seq<byte>>>): (r: seq<seq<seq<byte>>>)
    requires Opens(chunks)
    ensures |r| == |chunks|
  {
    [[chunks[0][0][16..]] + chunks[0][1..]] + chunks[1..]
  }

  lemma {:induction false} OpensWithUuid(uuid: seq<byte>, all: seq<byte>, chunks: seq<seq<seq<byte>>>)
    requires |uuid| == 16 && Opens(chunks) && ConcatAll(chunks) == uuid + all
    ensures var first, more := chunks[0][0][16..], chunks[0][1..];
            && chunks == [[uuid + first] + more] + chunks[1..]
            && first + Concat(more) + ConcatAll(chunks[1..]) == all
  {
    var b, more, rest := chunks[0][0], chunks[0][1..], ConcatAll(chunks[1..]);
    Assoc(b, Concat(more), rest);
    var c := b + (Concat(more) + rest);
    assert b[..16] == c[..16] == uuid && b == uuid + b[16..];
    assert chunks[0] == [b] + more && chunks == [chunks[0]] + chunks[1..];
    assert b[16..] + (Concat(more) + rest) == c[16..] == all;
    Assoc(b[16..], Concat(more), rest);
  }

  /** What the reads of a run's wire image deliver. */
  lemma {:induction false} ReadsOfRun(uuid: seq<byte>, seeds: Seeds, es: seq<Event>, s: Sent,
                                      filtering: seq<bool>, chunks: seq<seq<seq<byte>>>)
    requires |uuid| == 16 && SafeSeeds(seeds) && LegalRun(NEW_CONN, seeds, es)
    requires s == RunAll(NEW_CONN, seeds, es).sent && ConcatAll(chunks) == Image(uuid, s.blocks, s.plain)
    requires Opens(chunks) && |filtering| == |chunks|
    ensures s.blocks != []
    ensures Deliveries(uuid, NEW_PHASE, filtering, chunks) == Shares(START, Behind(chunks))
            <==> ReadsWell(uuid, s.blocks, 0, filtering, Behind(chunks))
    ensures Concat(Shares(START, Behind(chunks))) + s.direct == Written(es)
    ensures Monotone(filtering) && Standard(Behind(chunks)) ==>
              (Concat(Deliveries(uuid, NEW_PHASE, filtering, chunks)) + s.direct == Written(es)
               <==> ReadsWell(uuid, s.blocks, 0, filtering, Behind(chunks)))
  {
    WholeRun(seeds, es);
    assert |ConcatAll(chunks)| > 0;
    Assoc(uuid, Wires(s.blocks), s.plain);
    OpensWithUuid(uuid, Wires(s.blocks) + s.plain, chunks);
    var first, more := chunks[0][0][16..], chunks[0][1..];
    ReaderRoundTrip(uuid, s.blocks, s.plain, first, more, filtering, chunks[1..]);
    if Monotone(filtering) && Standard(Behind(chunks)) {
      ReaderTotal(uuid, s.blocks, s.plain, first, more, filtering, chunks[1..]);
      DeliveriesJoined(uuid, NEW_PHASE, filtering, chunks);
      SameTail(ReadAll(uuid, NEW_PHASE, filtering, chunks).out, Contents(s.blocks) + s.plain, s.direct);
    }
  }

  /** VISION FROM CALL TO CALL. Any run of WriteMultiBuffer calls and looks at the peer, the
      outer connection cut into any reads of any buffers (the first of at least 21 bytes), and
      the reader's calls under any course of the packet budget: every read delivers its share,
      which with the raw connection's bytes make up exactly what was written, if and only if
      no read is passed on raw before the terminal block has ended, no buffer unpadded after
      it starts with the UUID, and none before it holds more than 8192 bytes of data. */
  method Exchange(uuid: seq<byte>, seeds: Seeds, es: seq<Event>, sizes: seq<seq<nat>>, budget: nat -> bool)
    returns (chunks: seq<seq<seq<byte>>>, filtering: seq<bool>, outs: seq<seq<byte>>, direct: seq<byte>)
    requires |uuid| == 16 && SafeSeeds(seeds) && LegalRun(NEW_CONN, seeds, es)
    ensures var s := RunAll(NEW_CONN, seeds, es).sent;
            && chunks == CutUp(Image(uuid, s.blocks, s.plain), sizes)
            && filtering == seq(|chunks|, budget)
            && (chunks == [] ==> Written(es) == [] == direct)
            && (Opens(chunks) ==>
                  && s.blocks != []
                  && (outs == Shares(START, Behind(chunks))
                      <==> ReadsWell(uuid, s.blocks, 0, filtering, Behind(chunks)))
                  && Concat(Shares(START, Behind(chunks))) + direct == Written(es)
                  && (Monotone(filtering) && Standard(Behind(chunks)) ==>
                        (Concat(outs) + direct == Written(es)
                         <==> ReadsWell(uuid, s.blocks, 0, filtering, Behind(chunks)))))
  {
    var state := new TrafficState();
    var w := new Writer(state, uuid, seeds);
    RunWriter(w, es);
    chunks, direct := CutUp(w.outer, sizes), w.raw;
    filtering := seq(|chunks|, budget);
    var unpadder := new Unpadder(uuid);
    var r := new Reader(unpadder);
    outs := RunReader(r, filtering, chunks);
    ghost var s := RunAll(NEW_CONN, seeds, es).sent;
    CutUpConserves(Image(uuid, s.blocks, s.plain), sizes);
    WholeRun(seeds, es);
    if Opens(chunks) {
      ReadsOfRun(uuid, seeds, es, s, filtering, chunks);
    }
  }
}
