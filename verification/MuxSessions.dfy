/** Session writers (common/mux/writer.go) and the session manager that numbers them
    (common/mux/session.go). */
module MuxSessions {
  import opened Bytes
  import opened Buffers
  import opened MuxFrames
  import opened MuxEvents
  import opened MuxServer

  // ------------------------------------------------------------------------ writers

  const STREAM_FRAME := 32 * 1024

  /** Frames of one session from a writer that has (`followup`) or has not sent its first. */
  predicate Script(fs: seq<Frame>, id: nat, followup: bool) {
    fs == [] ||
    (&& fs[0].meta.sessionId == id
     && fs[0].meta.status == (if followup then STATUS_KEEP else STATUS_NEW)
     && Script(fs[1..], id, true))
  }

  function PayloadOf(fs: seq<Frame>): seq<byte> {
    if fs == [] then [] else DataOf(fs[0]) + PayloadOf(fs[1..])
  }

  lemma {:induction false} ScriptSnoc(fs: seq<Frame>, f: Frame, id: nat, followup: bool)
    requires Script(fs, id, followup) && f.meta.sessionId == id
    requires f.meta.status == if followup || fs != [] then STATUS_KEEP else STATUS_NEW
    ensures Script(fs + [f], id, followup) && PayloadOf(fs + [f]) == PayloadOf(fs) + DataOf(f)
    decreases |fs|
  {
    var all, none: seq<Frame> := fs + [f], [];
    if fs == [] {
      assert all[0] == f && all[1..] == none && PayloadOf(none) == [];
      assert DataOf(f) + [] == [] + DataOf(f);
    } else {
      ScriptSnoc(fs[1..], f, id, true);
      assert all[0] == fs[0] && all[1..] == fs[1..] + [f];
      var x, y, z := DataOf(fs[0]), PayloadOf(fs[1..]), DataOf(f);
      Assoc(x, y, z);
    }
  }

  lemma {:induction false} ScriptAt(fs: seq<Frame>, id: nat, followup: bool, i: nat)
    requires Script(fs, id, followup) && i < |fs|
    ensures fs[i].meta.sessionId == id
    ensures fs[i].meta.status == if followup || i > 0 then STATUS_KEEP else STATUS_NEW
    decreases |fs|
  {
    if i > 0 {
      ScriptAt(fs[1..], id, true, i - 1);
      assert fs[i] == fs[1..][i - 1];
    }
  }

  class Writer {
    const id: nat
    const dest: Destination
    const globalId: seq<byte>
    const inbound: Option<Inbound>
    const packet: bool
    var followup: bool
    var frames: seq<Frame>       // everything written to the link by this session

    /** The frames so far are one script, each for this writer's destination. */
    ghost predicate Valid()
      reads this
    {
      && Script(frames, id, false) && (followup <==> frames != [])
      && forall i :: 0 <= i < |frames| ==> Addressed(frames[i])
    }

    predicate Addressed(f: Frame) {
      && f.meta.target == dest && f.meta.globalId == globalId && f.meta.inbound == inbound
      && (f.data.Some? <==> HasData(f.meta.option))
    }

    constructor (id: nat, dest: Destination, globalId: seq<byte>, inbound: Option<Inbound>, packet: bool)
      ensures Valid() && this.id == id && this.packet == packet && frames == []
      ensures this.dest == dest && this.globalId == globalId && this.inbound == inbound
    {
      this.id, this.dest, this.globalId, this.inbound, this.packet := id, dest, globalId, inbound, packet;
      followup, frames := false, [];
    }

    /** getNextFrameMeta and writeMetaWithFrame: the first frame announces the session. */
    method WriteFrame(data: Option<seq<byte>>, udp: Option<Destination>)
      requires Valid()
      modifies this
      ensures Valid() && PayloadOf(frames) == PayloadOf(old(frames)) + (if data.Some? then data.value else [])
      ensures |frames| == |old(frames)| + 1 && frames[..|old(frames)|] == old(frames)
      ensures frames[|old(frames)|].data == data && frames[|old(frames)|].udp == udp
    {
      var status := if followup then STATUS_KEEP else STATUS_NEW;
      followup := true;
      var option: byte := if data.Some? then 1 else 0;
      var f := Frame(Meta(dest, id, option, status, globalId, inbound), udp, data);
      ScriptSnoc(frames, f, id, false);
      frames := frames + [f];
    }

    /** Stream frames behind `before`; with `left`, what is still to be written, they make `goal`.
        The last one could not take the next buffer. */
    ghost predicate Streaming(before: seq<Frame>, goal: seq<byte>, left: seq<seq<byte>>)
      reads this
    {
      && Valid() && PayloadOf(frames) + Concat(left) == goal && Streamed(before, frames)
      && (|before| < |frames| && left != [] ==> 32768 < |DataOf(frames[|frames| - 1])| + |left[0]|)
    }

    /** A stream write, cut into frames of at most 32 KiB, of which any two neighbours hold at
        least that much together. */
    method WriteStream(mb: seq<seq<byte>>)
      requires Valid()
      modifies this
      ensures Valid() && PayloadOf(frames) == PayloadOf(old(frames)) + Concat(mb)
      ensures |frames| > |old(frames)| && Streamed(old(frames), frames)
    {
      if |Concat(mb)| == 0 {
        WriteFrame(None, None);
        assert Concat(mb) == [];
        return;
      }
      var left := mb;
      ghost var before, goal := frames, PayloadOf(frames) + Concat(mb);
      while |Concat(left)| > 0
        invariant Streaming(before, goal, left) && (left != mb ==> |frames| > |before|)
        decreases |Concat(left)|, |left|
      {
        left := WriteChunk(left, before, goal);
      }
      assert PayloadOf(frames) + Concat(left) == PayloadOf(frames);
    }

    /** One turn of the loop: SplitSize and writeData. */
    method WriteChunk(left: seq<seq<byte>>, ghost before: seq<Frame>, ghost goal: seq<byte>)
      returns (rest: seq<seq<byte>>)
      requires Streaming(before, goal, left) && Concat(left) != []
      modifies this
      ensures Streaming(before, goal, rest) && |frames| > |before|
      ensures |Concat(rest)| < |Concat(left)| || (|Concat(rest)| == |Concat(left)| && |rest| < |left|)
    {
      SplitSizeTakes(left, STREAM_FRAME);
      var s := SplitSizeOf(left, STREAM_FRAME);
      Assoc(PayloadOf(frames), Concat(s.taken), Concat(s.rest));
      ghost var sofar := frames;
      WriteFrame(Some(Concat(s.taken)), None);
      StreamedMore(before, sofar, frames);
      rest := s.rest;
    }

    /** A packet write: one frame per buffer, addressed to the buffer's destination, up to
        the last buffer that is not empty; one frame without data if all are. */
    method WritePackets(ps: seq<Datagram>) returns (ghost n: nat)
      requires Valid()
      modifies this
      ensures Valid() && PayloadOf(frames) == PayloadOf(old(frames)) + Concat(Contents(ps))
      ensures n <= |ps| && AllEmpty(ps[n..]) && (n > 0 ==> !AllEmpty(ps[n - 1..]))
      ensures if n > 0 then Datagrams(old(frames), frames, ps, n) else NoData(old(frames), frames)
    {
      ghost var before := frames;
      var sent := SendEach(ps);
      n := sent;
      RestEmpty(ps, n);
      if sent == 0 {
        assert frames == before;
        WriteFrame(None, None);
      }
    }

    /** The loop of a packet write. */
    method SendEach(ps: seq<Datagram>) returns (n: nat)
      requires Valid()
      modifies this
      ensures Valid() && n <= |ps| && AllEmpty(ps[n..]) && (n > 0 ==> !AllEmpty(ps[n - 1..]))
      ensures Datagrams(old(frames), frames, ps, n)
      ensures PayloadOf(frames) == PayloadOf(old(frames)) + Concat(Contents(ps[..n]))
    {
      ghost var before := frames;
      n := 0;
      assert Contents(ps[..0]) == [] && PayloadOf(before) + [] == PayloadOf(before);
      while n < |ps| && !AllEmpty(ps[n..])
        invariant 0 <= n <= |ps| && Valid() && Sending(before, ps, n) && (n > 0 ==> !AllEmpty(ps[n - 1..]))
      {
        SendOne(before, ps, n);
        n := n + 1;
      }
    }

    method SendOne(ghost before: seq<Frame>, ps: seq<Datagram>, i: nat)
      requires i < |ps| && Valid() && Sending(before, ps, i)
      modifies this
      ensures Valid() && Sending(before, ps, i + 1)
    {
      ContentsSnoc(ps, i);
      Assoc(PayloadOf(before), Concat(Contents(ps[..i])), ps[i].bytes);
      ghost var sofar := frames;
      WriteFrame(Some(ps[i].bytes), ps[i].udp);
      DatagramsMore(before, sofar, frames, ps, i);
    }

    /** Close: the End frame that follows the session's other frames. */
    method Close(hasError: bool) returns (f: Frame)
      ensures f == EndFrame(id, hasError) && IsEnd(f)
    {
      f := EndFrame(id, hasError);
    }

    /** The first `n` datagrams have become frames behind `before`. */
    ghost predicate Sending(before: seq<Frame>, ps: seq<Datagram>, n: nat)
      requires n <= |ps|
      reads this
    {
      && PayloadOf(frames) == PayloadOf(before) + Concat(Contents(ps[..n]))
      && Datagrams(before, frames, ps, n)
    }
  }

  /** A frame that carries one datagram. */
  predicate IsDatagram(f: Frame, p: Datagram) {
    f.data == Some(p.bytes) && f.udp == p.udp
  }

  /** Behind `before` there is one frame for each of the first `n` datagrams. */
  predicate Datagrams(before: seq<Frame>, fs: seq<Frame>, ps: seq<Datagram>, n: nat) {
    && n <= |ps| && |fs| == |before| + n && fs[..|before|] == before
    && (forall i :: |before| <= i < |fs| ==> IsDatagram(fs[i], ps[i - |before|]))
  }

  /** Behind `before` there is one frame without data. */
  predicate NoData(before: seq<Frame>, fs: seq<Frame>) {
    && |fs| == |before| + 1 && fs[..|before|] == before
    && fs[|before|].data == None && fs[|before|].udp == None
  }

  lemma {:induction false} DatagramsMore(before: seq<Frame>, sofar: seq<Frame>, fs: seq<Frame>, ps: seq<Datagram>,
                                         n: nat)
    requires Datagrams(before, sofar, ps, n) && n < |ps| && |fs| == |sofar| + 1 && fs[..|sofar|] == sofar
    requires IsDatagram(fs[|sofar|], ps[n])
    ensures Datagrams(before, fs, ps, n + 1)
  {
    assert fs[..|before|] == fs[..|sofar|][..|before|];
    forall i | |before| <= i < |fs| ensures IsDatagram(fs[i], ps[i - |before|]) {
      if i < |sofar| {
        assert fs[i] == fs[..|sofar|][i];
      }
    }
  }

  /** A frame of a stream session. */
  predicate StreamFrame(f: Frame) {
    f.udp == None && (f.data.Some? ==> |f.data.value| <= 32768)
  }

  /** The frames behind `before` are stream frames, and no smaller than need be. */
  predicate Streamed(before: seq<Frame>, fs: seq<Frame>) {
    && |before| <= |fs| && fs[..|before|] == before
    && (forall i :: |before| <= i < |fs| ==> StreamFrame(fs[i]))
    && (forall i :: |before| < i < |fs| ==> 32768 <= |DataOf(fs[i - 1])| + |DataOf(fs[i])|)
  }

  lemma {:induction false} StreamedMore(before: seq<Frame>, sofar: seq<Frame>, fs: seq<Frame>)
    requires Streamed(before, sofar) && |fs| == |sofar| + 1 && fs[..|sofar|] == sofar && StreamFrame(fs[|sofar|])
    requires |before| < |sofar| ==> 32768 <= |DataOf(sofar[|sofar| - 1])| + |DataOf(fs[|sofar|])|
    ensures Streamed(before, fs)
  {
    assert fs[..|before|] == fs[..|sofar|][..|before|];
    forall i | |before| <= i < |fs| ensures StreamFrame(fs[i]) {
      if i < |sofar| {
        assert fs[i] == fs[..|sofar|][i];
      }
    }
  }

  /** An inbound endpoint that is missing or can be sent. */
  predicate GoodInbound(parse: IpParser, i: Inbound) {
    && (i.source.network != Unknown ==> GoodEndpoint(parse, i.source))
    && (i.local.network != Unknown ==> GoodEndpoint(parse, i.local))
  }

  /** What a writer with proper addresses emits is what the server can read, if its first frame
      is not too long. */
  lemma {:induction false} WriterFrameValid(w: Writer, parse: IpParser, f: Frame)
    requires w.Addressed(f) && w.id < 65536 && |w.globalId| == 8 && f.meta.sessionId == w.id
    requires f.meta.status == STATUS_NEW || f.meta.status == STATUS_KEEP
    requires GoodEndpoint(parse, w.dest)
    requires f.udp.Some? ==> GoodEndpoint(parse, f.udp.value) && f.udp.value.network == UDP
    requires w.inbound.Some? ==>
      && GoodInbound(parse, w.inbound.value)
      && 5 + AddressLength(w.dest.address) + InboundLength(w.inbound.value) <= META_LIMIT
    requires if w.dest.network == UDP then f.data.Some? ==> |f.data.value| <= BUF_SIZE else StreamFrame(f)
    ensures ValidFrame(parse, w.inbound.Some?, f)
  {
  }

  const OPTION_ERROR: byte := 2

  function EndFrame(id: nat, hasError: bool): Frame {
    Frame(Meta(NOWHERE, id, if hasError then OPTION_ERROR else 0, STATUS_END, NO_GLOBAL_ID, None), None, None)
  }

  /** What stands in a writer's frames: its id, status 1 in the first and 2 in every later one, and
      option 1 exactly with data. */
  lemma {:induction false} WriterLayout(w: Writer, i: nat)
    requires w.Valid() && w.id < 65536 && i < |w.frames|
    ensures var f := w.frames[i];
            Fixed(f.meta)[..3] == [w.id / 256, w.id % 256, if i == 0 then 1 else 2]
            && (Fixed(f.meta)[3] % 2 == 1 <==> f.data.Some?)
  {
    ScriptAt(w.frames, w.id, false, i);
    assert w.Addressed(w.frames[i]);
  }

  /** The End frame: status 3, and option 2 with an error. */
  lemma {:induction false} EndLayout(id: nat, hasError: bool)
    requires id < 65536
    ensures var f := EndFrame(id, hasError);
            Body(f.meta, f.udp) == [id / 256, id % 256, 3, if hasError then 2 else 0] && f.data == None
  {
  }

  /** A frame on the link: the length of its metadata, the metadata, and its payload behind the
      payload's length. */
  lemma {:induction false} FrameWireLayout(f: Frame)
    ensures var b, n := Body(f.meta, f.udp), |Body(f.meta, f.udp)|;
            FrameWire(f) == [(n / 256) % 256, n % 256] + b
                            + if f.data.None? then []
                              else [(|f.data.value| / 256) % 256, |f.data.value| % 256] + f.data.value
  {
  }

  function Contents(ps: seq<Datagram>): seq<seq<byte>> {
    if ps == [] then [] else [ps[0].bytes] + Contents(ps[1..])
  }

  /** MultiBuffer.IsEmpty. */
  predicate AllEmpty(ps: seq<Datagram>) {
    forall i :: 0 <= i < |ps| ==> ps[i].bytes == []
  }

  lemma {:induction false} ContentsSnoc(ps: seq<Datagram>, i: nat)
    requires i < |ps|
    ensures Concat(Contents(ps[..i + 1])) == Concat(Contents(ps[..i])) + ps[i].bytes
  {
    ContentsAppend(ps[..i], ps[i]);
    assert ps[..i] + [ps[i]] == ps[..i + 1];
    ConcatSnoc(Contents(ps[..i]), ps[i].bytes);
  }

  lemma {:induction false} ContentsAppend(ps: seq<Datagram>, p: Datagram)
    ensures Contents(ps + [p]) == Contents(ps) + [p.bytes]
  {
    var all := ps + [p];
    if ps != [] {
      ContentsAppend(ps[1..], p);
      assert all[0] == ps[0] && all[1..] == ps[1..] + [p];
    }
  }

  lemma {:induction false} RestEmpty(ps: seq<Datagram>, i: nat)
    requires i <= |ps| && AllEmpty(ps[i..])
    ensures Concat(Contents(ps)) == Concat(Contents(ps[..i]))
    decreases |ps| - i
  {
    if i < |ps| {
      assert ps[i] == ps[i..][0];
      assert ps[i + 1..] == ps[i..][1..];
      ContentsSnoc(ps, i);
      RestEmpty(ps, i + 1);
    } else {
      assert ps[..i] == ps;
    }
  }

  // -------------------------------------------------------- from one writer to its output

  /** An End frame without data. */
  predicate IsEnd(f: Frame) {
    f.meta.status == STATUS_END && f.data == None
  }

  /** A session's frames on the link: its writer's script, and perhaps the End frame. */
  predicate Complete(fs: seq<Frame>, script: seq<Frame>) {
    fs == script || (|fs| == |script| + 1 && fs[..|script|] == script && IsEnd(fs[|script|]))
  }

  /** What a script carries to an output, of packets or not. */
  function OutputOf(fs: seq<Frame>, packet: bool): Output {
    if fs == [] then SILENT else Plus(Part(Arrival(fs[0]), packet), OutputOf(fs[1..], packet))
  }

  /** The first frame of several events that begin with one. */
  lemma {:induction false} FirstFrame(es: seq<Event>, fs: seq<Frame>, script: seq<Frame>)
    requires es != [] && es[0].Arrives? && FramesIn(es) == fs && Complete(fs, script)
    ensures fs != [] && fs[0] == es[0].frame && fs[1..] == FramesIn(es[1..])
    ensures if script == [] then IsEnd(fs[0]) && fs[1..] == []
            else script[0] == fs[0] && Complete(fs[1..], script[1..])
  {
    assert fs == [es[0].frame] + FramesIn(es[1..]);
    if |fs| == |script| + 1 && script != [] {
      assert fs[0] == fs[..|script|][0];
      assert fs[1..][..|script| - 1] == fs[..|script|][1..] == script[1..];
    }
  }

  /** A session's events behind its first frame carry the rest of its script. */
  lemma {:induction false} RestOfScript(es: seq<Event>, fs: seq<Frame>, script: seq<Frame>, id: nat, packet: bool)
    requires FramesIn(es) == fs && Complete(fs, script) && Script(script, id, true) && BrokenArePrefixes(es)
    ensures Loose(es) && Sent(es, packet) == OutputOf(script, packet)
    decreases |es|
  {
    if es != [] {
      var tail := es[1..];
      assert forall i :: 0 <= i < |tail| ==> tail[i] == es[i + 1];
      if es[0].Closes? {
        assert [] + FramesIn(tail) == FramesIn(tail);
        RestOfScript(tail, fs, script, id, packet);
        PlusSilent(Sent(tail, packet));
      } else {
        FirstFrame(es, fs, script);
        if script == [] {
          RestOfScript(tail, fs[1..], [], id, packet);
          PlusSilent(SILENT);
        } else {
          RestOfScript(tail, fs[1..], script[1..], id, packet);
        }
      }
      assert forall i :: 0 < i < |es| ==> es[i] == tail[i - 1];
    }
  }

  lemma {:induction false} ScriptContinues(es: seq<Event>, fs: seq<Frame>, script: seq<Frame>, id: nat)
    requires Unbroken(es) && FramesIn(es) == fs && Complete(fs, script) && Script(script, id, true)
    ensures Continues(es)
    decreases |es|
  {
    if es != [] {
      var tail := es[1..];
      assert forall i :: 0 <= i < |tail| ==> tail[i] == es[i + 1];
      assert es[0].Arrives?;
      FirstFrame(es, fs, script);
      if script == [] {
        NoFrames(tail);
      } else {
        ScriptContinues(tail, fs[1..], script[1..], id);
      }
    }
  }

  lemma {:induction false} NoFrames(es: seq<Event>)
    requires Unbroken(es)
    ensures es != [] ==> FramesIn(es) != []
  {
    if es != [] {
      assert es[0].Arrives?;
    }
  }

  /** MUX END TO END. On any link, among any other sessions, closes and failures: if the
      frames numbered `id` are exactly one writer's frames and its output works, the output
      ends up with exactly what that writer sent. */
  lemma {:induction false} SessionDelivers(s: Server, es: seq<Event>, id: nat, script: seq<Frame>)
    requires Unbroken(Concerns(es, id)) && Complete(FramesIn(Concerns(es, id)), script)
    requires script != [] && Script(script, id, false)
    ensures var t := AfterAll(s, es);
            id in t.delivered && t.delivered[id] == OutputOf(script, PacketTarget(script[0]))
  {
    var mine := Concerns(es, id);
    var fs := FramesIn(mine);
    assert mine != [] && mine[0].Arrives?;
    FirstFrame(mine, fs, script);
    assert forall i :: 0 <= i < |mine[1..]| ==> mine[1..][i] == mine[i + 1];
    ScriptContinues(mine[1..], fs[1..], script[1..], id);
    RestOfScript(mine[1..], fs[1..], script[1..], id, PacketTarget(script[0]));
    Demultiplexes(s, es, id);
  }

  /** A session's first frame, whatever becomes of it. */
  lemma {:induction false} OpenedOrNot(s: Server, f: Frame, broken: Option<seq<byte>>, id: nat) returns (p: Output)
    requires f.meta.sessionId == id && f.meta.status == STATUS_NEW && id !in s.open && id !in s.delivered
    requires broken.Some? ==> broken.value <= DataOf(f)
    ensures var t, d := AfterEvent(s, Arrives(f, broken)), Part(Arrival(f), PacketTarget(f));
            && Begins(p, d) && (id in t.delivered ==> t.delivered[id] == p)
            && (id in t.open ==> id in t.delivered && p == d && t.open[id] == PacketTarget(f))
  {
    p := if broken.Some? && f.data.Some? then Output(broken.value, []) else Part(Arrival(f), PacketTarget(f));
    PlusSilent(p);
  }

  /** On any link, whatever fails or closes: the output of a session whose frames are one
      writer's holds nothing but a beginning of what that writer sent, if it exists at all. */
  lemma {:induction false} SessionNeverForeign(s: Server, es: seq<Event>, id: nat, script: seq<Frame>)
    requires Complete(FramesIn(Concerns(es, id)), script) && Script(script, id, false)
    requires BrokenArePrefixes(Concerns(es, id)) && id !in s.open && id !in s.delivered
    ensures var t := AfterAll(s, es);
            id in t.delivered ==>
              script != [] && Begins(t.delivered[id], OutputOf(script, PacketTarget(script[0])))
    decreases |es|
  {
    if es != [] {
      var e, mine, tail := es[0], Concerns(es, id), Concerns(es[1..], id);
      var t, fs := AfterEvent(s, e), FramesIn(mine);
      if !Mine(e, id) {
        OthersLeaveAlone(s, e, id);
        SessionNeverForeign(t, es[1..], id, script);
      } else {
        assert mine[0] == e && mine[1..] == tail;
        assert forall i :: 0 <= i < |tail| ==> tail[i] == mine[i + 1];
        if e.Closes? {
          assert [] + FramesIn(tail) == FramesIn(tail);
          SessionNeverForeign(t, es[1..], id, script);
        } else {
          FirstFrame(mine, fs, script);
          FirstNeverForeign(s, es, id, script);
        }
      }
    }
  }

  /** The same from the session's first frame on. */
  lemma {:induction false} FirstNeverForeign(s: Server, es: seq<Event>, id: nat, script: seq<Frame>)
    requires es != [] && es[0].Arrives? && es[0].frame.meta.sessionId == id
    requires var tail := Concerns(es[1..], id);
             && BrokenArePrefixes(tail) && BrokenArePrefixes([es[0]])
             && (if script == [] then IsEnd(es[0].frame) && FramesIn(tail) == []
                 else script[0] == es[0].frame && Complete(FramesIn(tail), script[1..]))
    requires Script(script, id, false) && id !in s.open && id !in s.delivered
    ensures var t := AfterAll(s, es);
            id in t.delivered ==>
              script != [] && Begins(t.delivered[id], OutputOf(script, PacketTarget(script[0])))
  {
    var e, tail, t := es[0], Concerns(es[1..], id), AfterEvent(s, es[0]);
    assert [e][0] == e;
    if script == [] {
      RestOfScript(tail, [], [], id, false);
      ShutStays(t, es[1..], id);
    } else {
      var packet, rest := PacketTarget(script[0]), OutputOf(script[1..], PacketTarget(script[0]));
      RestOfScript(tail, FramesIn(tail), script[1..], id, packet);
      var p := OpenedOrNot(s, e.frame, e.broken, id);
      BeginsThen(SILENT, p, Part(Arrival(e.frame), packet), rest);
      PlusSilent(p);
      PlusSilent(OutputOf(script, packet));
      if id in t.delivered {
        NeverForeign(t, es[1..], id, packet);
      } else {
        ShutStays(t, es[1..], id);
      }
    }
  }

  // ----------------------------------------------------------------- session numbering

  /** SessionManager: the live sessions, a 16-bit counter and the closed flag. */
  class SessionManager {
    var sessions: set<nat>
    var count: nat
    var closed: bool
    ghost var issued: seq<nat>      // every id Allocate has handed out

    constructor ()
      ensures sessions == {} && count == 0 && !closed && issued == []
    {
      sessions, count, closed, issued := {}, 0, false, [];
    }

    /** Under a reuse limit, the ids handed out are 1, 2, 3, ... and live ones among them. */
    ghost predicate Limited(limit: nat)
      reads this
    {
      0 < limit < 65536 && count <= limit && issued == UpTo(count) && forall id :: id in sessions ==> id in issued
    }

    /** Allocate: a new id unless closed or at a limit; `maxReuse` is cut to 16 bits, and 0
        means no limit. */
    method Allocate(maxConcurrency: nat, maxReuse: nat) returns (id: Option<nat>)
      modifies this
      ensures var full := closed || (maxConcurrency > 0 && |old(sessions)| >= maxConcurrency)
                          || (maxReuse % 65536 > 0 && old(count) >= maxReuse % 65536);
              if full then id == None && sessions == old(sessions) && count == old(count) && issued == old(issued)
              else id == Some((old(count) + 1) % 65536) && count == (old(count) + 1) % 65536
                   && sessions == old(sessions) + {count} && issued == old(issued) + [count]
      ensures closed == old(closed)
      ensures old(Limited(maxReuse % 65536)) ==>
                Limited(maxReuse % 65536) && (id.Some? ==> id.value !in old(issued) && id.value !in old(sessions))
    {
      var maxConnection := maxReuse % 65536;
      if || closed
         || (maxConcurrency > 0 && |sessions| >= maxConcurrency)
         || (maxConnection > 0 && count >= maxConnection)
      {
        return None;
      }
      count := (count + 1) % 65536;
      sessions := sessions + {count};
      issued := issued + [count];
      id := Some(count);
    }

    method Remove(id: nat)
      modifies this`sessions
      ensures sessions == if closed then old(sessions) else old(sessions) - {id}
      ensures forall limit: nat :: old(Limited(limit)) ==> Limited(limit)
    {
      if !closed {
        sessions := sessions - {id};
      }
    }
  }

  function UpTo(n: nat): (s: seq<nat>)
    ensures |s| == n && forall i :: 0 <= i < n ==> s[i] == i + 1
  {
    if n == 0 then [] else UpTo(n - 1) + [n]
  }

  /** The counter after `k` unlimited allocations. */
  function WrappedAfter(count: nat, k: nat): nat {
    if k == 0 then count else (WrappedAfter(count, k - 1) + 1) % 65536
  }

  lemma {:induction false} WrappedValue(count: nat, k: nat)
    requires count < 65536
    ensures WrappedAfter(count, k) == (count + k) % 65536
  {
    if k > 0 {
      WrappedValue(count, k - 1);
    }
  }

  /** Without a reuse limit the counter wraps, and 65536 allocations later an id returns. */
  lemma {:induction false} UnlimitedIdsRepeat(count: nat)
    requires count < 65536
    ensures WrappedAfter(count, 65536) == count
  {
    WrappedValue(count, 65536);
  }
}
