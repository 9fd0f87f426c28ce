/** The demultiplexing server (common/mux/server.go, common/mux/reader.go): one link, many
    sessions, each payload to the output of its own session. */
module MuxServer {
  import opened Bytes
  import opened BufferedReaders
  import opened ChunkStreams
  import opened MuxFrames
  import opened MuxEvents

  // ------------------------------------------------------------------ the frame handler

  datatype PacketRead = Packet(bytes: seq<byte>) | TooLarge | Broken

  /** PacketReader.ReadMultiBuffer: one datagram. A declared size above the buffer size is
      refused before the payload is read. */
  method ReadPacket(reader: BufferedReader, ghost d: seq<byte>, ghost rest: seq<byte>) returns (r: PacketRead)
    modifies reader
    ensures old(reader.Remaining()) == Be16(|d|) + d + rest && |d| < 65536 ==>
              if |d| <= BUF_SIZE then r == Packet(d) && reader.Remaining() == rest
              else r == TooLarge && reader.Remaining() == d + rest
  {
    ghost var all := Be16(|d|) + d + rest;
    assert all[..2] == Be16(|d|) && all[2..] == d + rest;
    var size := reader.ReadFull(2);
    if size == None {
      return Broken;
    }
    if U16(size.value, 0) > BUF_SIZE {
      return TooLarge;
    }
    assert (d + rest)[..|d|] == d && (d + rest)[|d|..] == rest;
    var b := reader.ReadFull(U16(size.value, 0));
    r := if b == None then Broken else Packet(b.value);
  }

  /** A payload copied by a session's reader, packet or stream, to an output that accepts
      `accept` writes; `None` for no output at all (the payload is discarded). Either way
      exactly the payload is consumed. */
  method CopyPayload(reader: BufferedReader, packet: bool, accept: Option<nat>, ghost d: seq<byte>,
                     ghost rest: seq<byte>)
    returns (ok: bool, got: seq<byte>, failed: bool)
    modifies reader
    ensures old(reader.Remaining()) == Be16(|d|) + d + rest && |d| < 65536 && (packet ==> |d| <= BUF_SIZE) ==>
              && ok && reader.Remaining() == rest && got <= d && (!failed ==> got == d)
    ensures accept == None ==> !failed
  {
    ghost var expected := reader.Remaining() == Be16(|d|) + d + rest && |d| < 65536;
    if packet {
      var p := ReadPacket(reader, d, rest);
      if !p.Packet? {
        return false, [], false;
      }
      failed := accept == Some(0) && p.bytes != [];
      return true, if failed then [] else p.bytes, failed;
    }
    var r := new ChunkStreamReader(reader, 1);
    ghost var a := if d == [] then Ahead([], [], true, rest) else Ahead([], [d], false, rest);
    if expected {
      OneChunkAhead(d, rest);
    }
    got, failed := CopyOrDiscard(r, accept, a);
    ok := true;
  }

  lemma {:induction false} OneChunkAhead(d: seq<byte>, rest: seq<byte>)
    ensures var a := if d == [] then Ahead([], [], true, rest) else Ahead([], [d], false, rest);
            AheadBytes(a) == Be16(|d|) + d + rest && AheadData(a) == d
  {
    var none: seq<seq<byte>> := [];
    assert ChunkWire(none) == [] && Concat(none) == [];
    assert [d][1..] == none;
    assert ChunkWire([d]) == Be16(|d|) + d + ChunkWire(none);
    assert Concat([d]) == d + Concat(none);
  }

  /** Frames and reading flags agree, so parsing gives back what was sent. */
  lemma {:induction false} ParsesBack(parse: IpParser, reverse: bool, f: Frame)
    requires ValidFrame(parse, reverse, f) && FindsIps(parse)
    ensures |Body(f.meta, f.udp)| <= META_LIMIT
    ensures Unmarshal(parse, Body(f.meta, f.udp), reverse) == Some(Received(f.meta, f.udp))
  {
    FrameRoundTrip(parse, f.meta, f.udp);
    BodyLengthExact(parse, f.meta, f.udp);
    FixedFields(f.meta, Tail(f.meta, f.udp).bytes);
  }

  /** FrameMetadata.Unmarshal from the link. */
  method ReadMeta(reader: BufferedReader, parse: IpParser, reverse: bool, ghost f: Frame, ghost rest: seq<byte>)
    returns (m: Option<Meta>)
    modifies reader
    ensures old(reader.Remaining()) == FrameWire(f) + rest && ValidFrame(parse, reverse, f) && FindsIps(parse) ==>
              && m == Some(Received(f.meta, f.udp))
              && reader.Remaining() == (if f.data.Some? then Be16(|f.data.value|) + f.data.value + rest else rest)
    ensures (&& old(reader.Remaining()) == FrameWire(f) + rest && WellFormed(parse, f.meta, f.udp) && FindsIps(parse)
             && BodyLength(f.meta, f.udp) > META_LIMIT) ==> m == None
  {
    ghost var body, tail := Body(f.meta, f.udp), if f.data.Some? then Be16(|f.data.value|) + f.data.value else [];
    ghost var all := FrameWire(f) + rest;
    assert all == Be16(|body|) + (body + (tail + rest));
    assert all[..2] == Be16(|body|) && all[2..] == body + (tail + rest);
    assert (body + (tail + rest))[..|body|] == body && (body + (tail + rest))[|body|..] == tail + rest;
    if WellFormed(parse, f.meta, f.udp) && FindsIps(parse) {
      BodyLengthExact(parse, f.meta, f.udp);
      if ValidFrame(parse, reverse, f) {
        ParsesBack(parse, reverse, f);
      }
    }
    var n := reader.ReadFull(2);
    if n == None || U16(n.value, 0) > META_LIMIT {
      return None;
    }
    var b := reader.ReadFull(U16(n.value, 0));
    m := if b == None then None else Unmarshal(parse, b.value, reverse);
  }

  class ServerWorker {
    const reader: BufferedReader
    const reverse: bool
    var sessions: map<nat, bool>
    var outputs: map<nat, Output>
    var replies: seq<nat>       // sessions the peer was told to close

    ghost function Value(): Server
      reads this
    {
      Server(sessions, outputs)
    }

    constructor (reader: BufferedReader, reverse: bool)
      ensures this.reader == reader && this.reverse == reverse && Value() == NOBODY
      ensures replies == []
    {
      this.reader, this.reverse := reader, reverse;
      sessions, outputs, replies := map[], map[], [];
    }

    /** A session closed from its own side. */
    method CloseSession(id: nat)
      modifies this`sessions
      ensures Value() == AfterEvent(old(Value()), Closes(id))
    {
      sessions := sessions - {id};
    }

    /** Copies a payload to session `id`; a failing output closes the session, and the rest
        of the payload is discarded. */
    method CopyTo(id: nat, udp: Option<Destination>, accept: Option<nat>, ghost d: seq<byte>, ghost rest: seq<byte>)
      returns (ok: bool, broken: Option<seq<byte>>)
      modifies this`sessions, this`outputs, reader
      ensures old(reader.Remaining()) == Be16(|d|) + d + rest && |d| < 65536
              && (id in old(sessions) && old(sessions)[id] ==> |d| <= BUF_SIZE) ==>
                && ok && reader.Remaining() == rest
                && Value() == Deliver(old(Value()), id, Datagram(d, udp), broken)
                && (broken.Some? ==> broken.value <= d)
      ensures accept == None ==> broken == None
    {
      var packet := id in sessions && sessions[id];
      var got, failed;
      ok, got, failed := CopyPayload(reader, packet, accept, d, rest);
      var sofar := if id in outputs then outputs[id] else SILENT;
      broken := None;
      if failed {
        outputs := outputs[id := Plus(sofar, Output(got, []))];
        sessions := sessions - {id};
        broken := Some(got);
      } else {
        outputs := outputs[id := Plus(sofar, Part(Datagram(got, udp), packet))];
      }
    }

    method Discard(ghost d: seq<byte>, ghost rest: seq<byte>)
      modifies reader
      ensures old(reader.Remaining()) == Be16(|d|) + d + rest && |d| < 65536 ==> reader.Remaining() == rest
    {
      var ok, got, failed := CopyPayload(reader, false, None, d, rest);
    }

    /** handleXUDPSingle. `established` is the outcome of xudpEstablish up to the session table,
        which may be closed: the datagram has gone to the flow, and the session is entered in the
        table or the link given up. An oversize datagram is dropped, but its payload is left on
        the link. */
    method HandleXudp(m: Meta, established: bool, closed: bool, ghost d: seq<byte>, ghost rest: seq<byte>)
      returns (ok: bool, broken: Option<seq<byte>>)
      modifies this`sessions, this`outputs, reader
      ensures old(reader.Remaining()) == Be16(|d|) + d + rest && |d| < 65536 ==>
                if |d| > BUF_SIZE then ok && reader.Remaining() == d + rest && Value() == old(Value())
                else && reader.Remaining() == rest && (broken == None <==> established)
                     && ok == !(established && closed)
                     && Value() == if established && ok
                                   then Deliver(Opened(old(Value()), m, true), m.sessionId, Datagram(d, UdpOf(m)), None)
                                   else old(Value())
      ensures broken == None || broken == Some([])
      ensures established ==> broken == None
    {
      broken := if established then None else Some([]);
      var p := ReadPacket(reader, d, rest);
      match p {
        case TooLarge => return true, broken;
        case Broken => return false, broken;
        case Packet(bytes) =>
          if established {
            if closed {
              return false, broken;
            }
            sessions := sessions[m.sessionId := true];
            outputs := outputs[m.sessionId := Part(Datagram(bytes, UdpOf(m)), true)];
          }
      }
      ok := true;
      PlusSilent(Part(Datagram(d, UdpOf(m)), true));
    }

    /** handleStatusNew for a session of its own. Without a way to its target there is no
        session, the payload is discarded, and the link is given up; so it is when the session
        table is closed, with the payload unread. */
    method HandleNew(m: Meta, c: Choice, ghost d: seq<byte>, ghost rest: seq<byte>)
      returns (ok: bool, broken: Option<seq<byte>>)
      modifies this, reader
      ensures c.dispatched && !c.closed && HasData(m.option)
              && old(reader.Remaining()) == Be16(|d|) + d + rest && |d| < 65536
              && (m.target.network == UDP ==> |d| <= BUF_SIZE) ==>
                && ok && reader.Remaining() == rest && (broken.Some? ==> broken.value <= d)
                && Value() == Deliver(Opened(old(Value()), m, m.target.network == UDP), m.sessionId,
                                      Datagram(d, UdpOf(m)), broken)
      ensures c.dispatched && !c.closed && !HasData(m.option) ==>
                && ok && broken == None && reader.Remaining() == old(reader.Remaining())
                && Value() == Opened(old(Value()), m, m.target.network == UDP)
      ensures !c.dispatched || c.closed ==> !ok && broken == None && Value() == old(Value())
      ensures !c.dispatched && HasData(m.option) && old(reader.Remaining()) == Be16(|d|) + d + rest && |d| < 65536 ==>
                reader.Remaining() == rest
      ensures c.dispatched && c.closed ==> reader.Remaining() == old(reader.Remaining())
      ensures c.accept == None ==> broken == None
      ensures replies == old(replies)
    {
      if !c.dispatched {
        if HasData(m.option) {
          Discard(d, rest);
        }
        return false, None;
      }
      if c.closed {
        return false, None;
      }
      sessions := sessions[m.sessionId := m.target.network == UDP];
      outputs := outputs[m.sessionId := SILENT];
      if !HasData(m.option) {
        return true, None;
      }
      ok, broken := CopyTo(m.sessionId, UdpOf(m), c.accept, d, rest);
    }

    /** handleStatusKeep, for a frame with data. The peer of a session that is not open is told
        to close it. */
    method HandleKeep(m: Meta, accept: Option<nat>, ghost d: seq<byte>, ghost rest: seq<byte>)
      returns (ok: bool, broken: Option<seq<byte>>)
      modifies this`sessions, this`outputs, this`replies, reader
      ensures old(reader.Remaining()) == Be16(|d|) + d + rest && |d| < 65536
              && (m.sessionId in old(sessions) && old(sessions)[m.sessionId] ==> |d| <= BUF_SIZE) ==>
                && ok && reader.Remaining() == rest && (broken.Some? ==> broken.value <= d)
                && Value() == if m.sessionId in old(sessions)
                              then Deliver(old(Value()), m.sessionId, Datagram(d, UdpOf(m)), broken)
                              else old(Value())
      ensures replies == old(replies) + if m.sessionId in old(sessions) then [] else [m.sessionId]
      ensures accept == None ==> broken == None
    {
      ok, broken := true, None;
      if m.sessionId !in sessions {
        replies := replies + [m.sessionId];
        Discard(d, rest);
      } else {
        ok, broken := CopyTo(m.sessionId, UdpOf(m), accept, d, rest);
      }
    }

    /** handleStatusKeep, handleStatusEnd and handleStatusKeepAlive. */
    method HandleOld(m: Meta, accept: Option<nat>, ghost d: seq<byte>, ghost rest: seq<byte>)
      returns (ok: bool, broken: Option<seq<byte>>)
      requires m.status != STATUS_NEW
      modifies this, reader
      ensures HasData(m.option) && old(reader.Remaining()) == Be16(|d|) + d + rest && |d| < 65536
              && m.status in {STATUS_KEEP, STATUS_END, STATUS_KEEP_ALIVE}
              && (m.sessionId in old(sessions) && old(sessions)[m.sessionId] ==> |d| <= BUF_SIZE) ==>
                && ok && reader.Remaining() == rest && (broken.Some? ==> broken.value <= d)
                && Value() == AfterOld(old(Value()), m, d, broken)
      ensures !HasData(m.option) && m.status in {STATUS_KEEP, STATUS_END, STATUS_KEEP_ALIVE} ==>
                && ok && broken == None && reader.Remaining() == old(reader.Remaining())
                && Value() == AfterOld(old(Value()), m, d, broken)
      ensures replies == old(replies) + if NotOpen(old(Value()), m) then [m.sessionId] else []
      ensures accept == None ==> broken == None
    {
      ok, broken := true, None;
      if m.status == STATUS_KEEP_ALIVE {
        if HasData(m.option) {
          Discard(d, rest);
        }
      } else if m.status == STATUS_END {
        sessions := sessions - {m.sessionId};
        if HasData(m.option) {
          Discard(d, rest);
        }
      } else if m.status == STATUS_KEEP {
        if HasData(m.option) {
          ok, broken := HandleKeep(m, accept, d, rest);
        }
      } else {
        ok := false;
      }
    }

    /** The link continues with frame `f`, in a state where its payload can be read. */
    ghost predicate Faces(parse: IpParser, f: Frame, rest: seq<byte>)
      reads this, reader
    {
      && reader.Remaining() == FrameWire(f) + rest && ValidFrame(parse, reverse, f) && FindsIps(parse)
      && (f.meta.sessionId in sessions && sessions[f.meta.sessionId] ==> |DataOf(f)| <= BUF_SIZE)
    }

    /** handleStatusNew, behind the metadata of frame `f`. */
    method HandleOpening(m: Meta, allowed: Network, c: Choice, ghost f: Frame, ghost rest: seq<byte>)
      returns (ok: bool, broken: Option<seq<byte>>)
      modifies this, reader
      ensures old(FacesPayload(m, f, rest)) && f.meta.status == STATUS_NEW && !Refused(f, allowed, c) ==>
                && ok && reader.Remaining() == rest && (broken.Some? ==> broken.value <= DataOf(f))
                && Value() == AfterEvent(old(Value()), Arrives(f, broken))
      ensures old(FacesPayload(m, f, rest)) && Refused(f, allowed, c) ==> !ok && Value() == old(Value())
      ensures replies == old(replies)
      ensures c.accept == None ==> broken == None
    {
      if allowed != Network.Unknown && m.target.network != allowed {
        ok, broken := false, None;
      } else if m.globalId != NO_GLOBAL_ID {
        ok, broken := HandleXudp(m, c.accept == None, c.closed, DataOf(f), rest);
      } else {
        ok, broken := HandleNew(m, c, DataOf(f), rest);
      }
    }

    /** handleFrame. Each handler consumes exactly its frame and does to the sessions what
        the frame says; a New frame may be refused, which ends the link. `allowed` is the
        network restriction, if any. */
    method HandleFrame(parse: IpParser, allowed: Network, c: Choice, ghost f: Frame, ghost rest: seq<byte>)
      returns (ok: bool, broken: Option<seq<byte>>)
      modifies this, reader
      ensures old(Faces(parse, f, rest)) && !Refused(f, allowed, c) ==>
                && ok && reader.Remaining() == rest && (broken.Some? ==> broken.value <= DataOf(f))
                && Value() == AfterEvent(old(Value()), Arrives(f, broken))
      ensures old(Faces(parse, f, rest)) && Refused(f, allowed, c) ==> !ok && Value() == old(Value())
      ensures old(Faces(parse, f, rest)) ==> replies == old(replies) + RepliesTo(old(Value()), f)
      ensures c.accept == None ==> broken == None
    {
      var meta := ReadMeta(reader, parse, reverse, f, rest);
      if meta == None {
        return false, None;
      }
      var m := meta.value;
      assert old(Faces(parse, f, rest)) ==> FacesPayload(m, f, rest);
      if m.status == STATUS_NEW {
        ok, broken := HandleOpening(m, allowed, c, f, rest);
      } else {
        ok, broken := HandleOld(m, c.accept, DataOf(f), rest);
      }
    }

    /** The metadata of frame `f` has been read, and its payload is next on the link. */
    ghost predicate FacesPayload(m: Meta, f: Frame, rest: seq<byte>)
      reads this, reader
    {
      && m == Received(f.meta, f.udp) && m.option == f.meta.option && m.status == f.meta.status
      && m.sessionId == f.meta.sessionId && (m.status == STATUS_NEW ==> m.target == f.meta.target)
      && m.status in {STATUS_NEW, STATUS_KEEP, STATUS_END, STATUS_KEEP_ALIVE}
      && (f.data.Some? <==> HasData(m.option))
      && reader.Remaining() == (if f.data.Some? then Be16(|f.data.value|) + f.data.value + rest else rest)
      && |DataOf(f)| < 65536 && (m.status == STATUS_NEW && m.target.network == UDP ==> |DataOf(f)| <= BUF_SIZE)
      && (m.sessionId in sessions && sessions[m.sessionId] ==> |DataOf(f)| <= BUF_SIZE)
    }
  }

  /** What the surroundings do in one turn: the sessions they close before the frame, how many
      writes an output accepts before it fails (`None`: all; for the first frame of an XUDP
      session, whether its flow is established), whether there is a way to the target of a new
      session, and whether the session table is closed. */
  datatype Choice = Choice(closes: seq<nat>, accept: Option<nat>, dispatched: bool, closed: bool)

  /** A New frame whose network is not allowed, whose session finds no way to its target, or no
      room in a closed table. */
  predicate Refused(f: Frame, allowed: Network, c: Choice) {
    && f.meta.status == STATUS_NEW
    && (|| (allowed != Network.Unknown && f.meta.target.network != allowed)
        || if IsXudp(f) then c.accept == None && c.closed else !c.dispatched || c.closed)
  }

  /** A Keep frame with data for a session that is not open. */
  predicate NotOpen(s: Server, m: Meta) {
    m.status == STATUS_KEEP && HasData(m.option) && m.sessionId !in s.open
  }

  function RepliesTo(s: Server, f: Frame): seq<nat> {
    if NotOpen(s, f.meta) then [f.meta.sessionId] else []
  }

  function Opened(s: Server, m: Meta, packet: bool): Server {
    Server(s.open[m.sessionId := packet], s.delivered[m.sessionId := SILENT])
  }

  /** The effect of a frame that opens no session. */
  function AfterOld(s: Server, m: Meta, d: seq<byte>, broken: Option<seq<byte>>): Server {
    if m.status == STATUS_KEEP then
      if HasData(m.option) && m.sessionId in s.open then Deliver(s, m.sessionId, Datagram(d, UdpOf(m)), broken) else s
    else if m.status == STATUS_END then s.(open := s.open - {m.sessionId})
    else s
  }

  // -------------------------------------------------------------------- the whole link

  predicate OpensPacket(f: Frame, id: nat) {
    f.meta.status == STATUS_NEW && f.meta.sessionId == id && f.meta.target.network == UDP
  }

  /** Sessions opened for UDP carry payloads of at most a pooled buffer. */
  ghost predicate PacketsFit(fs: seq<Frame>) {
    forall i, j :: 0 <= i < |fs| && 0 <= j < |fs| && OpensPacket(fs[i], fs[j].meta.sessionId) ==>
      |DataOf(fs[j])| <= BUF_SIZE
  }

  ghost predicate ValidLink(parse: IpParser, reverse: bool, fs: seq<Frame>) {
    (forall i :: 0 <= i < |fs| ==> ValidFrame(parse, reverse, fs[i])) && PacketsFit(fs) && FindsIps(parse)
  }

  /** The frames among the events of a run. */
  function FramesIn(es: seq<Event>): seq<Frame> {
    if es == [] then [] else (if es[0].Arrives? then [es[0].frame] else []) + FramesIn(es[1..])
  }

  predicate BrokenArePrefixes(es: seq<Event>) {
    forall i :: 0 <= i < |es| && es[i].Arrives? && es[i].broken.Some? ==> es[i].broken.value <= DataOf(es[i].frame)
  }

  lemma {:induction false} FramesInSnoc(es: seq<Event>, e: Event)
    ensures FramesIn(es + [e]) == FramesIn(es) + (if e.Arrives? then [e.frame] else [])
    decreases |es|
  {
    var all, last: seq<Frame> := es + [e], if e.Arrives? then [e.frame] else [];
    if es == [] {
      assert all[0] == e && all[1..] == es;
      assert last + [] == last && [] + last == last;
    } else {
      assert all[0] == es[0] && all[1..] == es[1..] + [e];
      FramesInSnoc(es[1..], e);
      var first: seq<Frame> := if es[0].Arrives? then [es[0].frame] else [];
      Assoc(first, FramesIn(es[1..]), last);
    }
  }

  /** Packet sessions are those some frame opened as such. */
  ghost predicate PacketsKnown(open: map<nat, bool>, fs: seq<Frame>) {
    forall id :: id in open && open[id] ==> exists i :: 0 <= i < |fs| && OpensPacket(fs[i], id)
  }

  lemma {:induction false} PacketsStayKnown(s: Server, fs: seq<Frame>, i: nat, broken: Option<seq<byte>>)
    requires i < |fs| && PacketsKnown(s.open, fs)
    ensures PacketsKnown(AfterEvent(s, Arrives(fs[i], broken)).open, fs)
  {
  }

  /** The frames of one session. */
  function OfSession(fs: seq<Frame>, id: nat): seq<Frame> {
    if fs == [] then []
    else (if fs[0].meta.sessionId == id then [fs[0]] else []) + OfSession(fs[1..], id)
  }

  lemma {:induction false} OfSessionSnoc(fs: seq<Frame>, f: Frame, id: nat)
    ensures OfSession(fs + [f], id) == if f.meta.sessionId == id then OfSession(fs, id) + [f] else OfSession(fs, id)
    decreases |fs|
  {
    if fs == [] {
      assert (fs + [f])[1..] == [];
    } else {
      assert (fs + [f])[1..] == fs[1..] + [f];
      OfSessionSnoc(fs[1..], f, id);
    }
  }

  /** Among the first `n` turns nobody closes the session and its output never fails. */
  predicate Spared(cs: seq<Choice>, fs: seq<Frame>, n: nat, id: nat)
    requires n <= |cs| == |fs|
  {
    forall i :: 0 <= i < n ==> id !in cs[i].closes && (fs[i].meta.sessionId == id ==> cs[i].accept == None)
  }

  /** The session's own events are exactly its frames, all delivered. */
  predicate Smooth(es: seq<Event>, fs: seq<Frame>, id: nat) {
    Unbroken(Concerns(es, id)) && FramesIn(Concerns(es, id)) == OfSession(fs, id)
  }

  lemma {:induction false} UnbrokenSnoc(es: seq<Event>, f: Frame)
    requires Unbroken(es)
    ensures Unbroken(es + [Arrives(f, None)]) && FramesIn(es + [Arrives(f, None)]) == FramesIn(es) + [f]
  {
    FramesInSnoc(es, Arrives(f, None));
  }

  lemma {:induction false} SmoothFrame(es: seq<Event>, fs: seq<Frame>, f: Frame, broken: Option<seq<byte>>, id: nat)
    requires Smooth(es, fs, id) && (f.meta.sessionId == id ==> broken == None)
    ensures Smooth(es + [Arrives(f, broken)], fs + [f], id)
  {
    ConcernsSnoc(es, Arrives(f, broken), id);
    OfSessionSnoc(fs, f, id);
    if f.meta.sessionId == id {
      UnbrokenSnoc(Concerns(es, id), f);
    }
  }

  function CloseEvents(ids: seq<nat>): (es: seq<Event>)
    ensures |es| == |ids| && forall k :: 0 <= k < |ids| ==> es[k] == Closes(ids[k])
  {
    seq(|ids|, k requires 0 <= k < |ids| => Closes(ids[k]))
  }

  lemma {:induction false} SmoothCloses(es: seq<Event>, fs: seq<Frame>, ids: seq<nat>, id: nat)
    requires Smooth(es, fs, id) && id !in ids
    ensures Smooth(es + CloseEvents(ids), fs, id)
    decreases |ids|
  {
    if ids == [] {
      assert es + CloseEvents(ids) == es;
    } else {
      var n := |ids| - 1;
      SmoothCloses(es, fs, ids[..n], id);
      assert CloseEvents(ids) == CloseEvents(ids[..n]) + [Closes(ids[n])];
      Assoc(es, CloseEvents(ids[..n]), [Closes(ids[n])]);
      ConcernsSnoc(es + CloseEvents(ids[..n]), Closes(ids[n]), id);
    }
  }

  /** After `n` frames, every session spared in so many turns has seen exactly its own frames. */
  ghost predicate AllSmooth(cs: seq<Choice>, fs: seq<Frame>, turns: nat, n: nat, es: seq<Event>)
    requires n <= turns <= |cs| == |fs|
  {
    forall id :: Spared(cs, fs, turns, id) ==> Smooth(es, fs[..n], id)
  }

  lemma {:induction false} AllSmoothCloses(cs: seq<Choice>, fs: seq<Frame>, i: nat, es: seq<Event>)
    requires i < |cs| == |fs| && AllSmooth(cs, fs, i, i, es)
    ensures AllSmooth(cs, fs, i + 1, i, es + CloseEvents(cs[i].closes))
  {
    var turns, after := i + 1, es + CloseEvents(cs[i].closes);
    forall id | Spared(cs, fs, turns, id) ensures Smooth(after, fs[..i], id) {
      assert Spared(cs, fs, i, id);
      SmoothCloses(es, fs[..i], cs[i].closes, id);
    }
  }

  lemma {:induction false} AllSmoothFrame(cs: seq<Choice>, fs: seq<Frame>, i: nat, es: seq<Event>,
                                          broken: Option<seq<byte>>)
    requires i < |cs| == |fs| && AllSmooth(cs, fs, i + 1, i, es)
    requires cs[i].accept == None ==> broken == None
    ensures AllSmooth(cs, fs, i + 1, i + 1, es + [Arrives(fs[i], broken)])
  {
    var turns, after, handled := i + 1, es + [Arrives(fs[i], broken)], fs[..i + 1];
    assert fs[..i] + [fs[i]] == handled;
    forall id | Spared(cs, fs, turns, id) ensures Smooth(after, handled, id) {
      SmoothFrame(es, fs[..i], fs[i], broken, id);
    }
  }

  /** The events are those of the first `n` frames, and the server is as they leave it. */
  ghost predicate Reached(w: ServerWorker, es: seq<Event>, fs: seq<Frame>, n: nat)
    requires n <= |fs|
    reads w
  {
    && w.Value() == AfterAll(NOBODY, es) && w.replies == RepliesBy(es)
    && FramesIn(es) == fs[..n] && BrokenArePrefixes(es)
  }

  /** The run so far: frames before `i` handled, the rest still on the link. */
  ghost predicate Serving(w: ServerWorker, es: seq<Event>, fs: seq<Frame>, i: nat)
    requires i <= |fs|
    reads w, w.reader
  {
    w.reader.Remaining() == LinkWire(fs[i..]) && Reached(w, es, fs, i) && PacketsKnown(w.sessions, fs)
  }

  /** The reply to a frame, told by the table and told by the events. */
  lemma {:induction false} RepliesFrame(es: seq<Event>, f: Frame, broken: Option<seq<byte>>)
    requires f.data.Some? <==> HasData(f.meta.option)
    ensures RepliesBy(es + [Arrives(f, broken)]) == RepliesBy(es) + RepliesTo(AfterAll(NOBODY, es), f)
  {
    RepliesSnoc(es, Arrives(f, broken));
    OpenExactly(es, f.meta.sessionId);
  }

  method ServeFrame(w: ServerWorker, parse: IpParser, allowed: Network, c: Choice,
                    ghost es: seq<Event>, ghost fs: seq<Frame>, ghost i: nat)
    returns (ok: bool, ghost broken: Option<seq<byte>>)
    requires i < |fs| && Serving(w, es, fs, i) && ValidLink(parse, w.reverse, fs)
    modifies w, w.reader
    ensures ok == !Refused(fs[i], allowed, c)
    ensures if ok then Serving(w, es + [Arrives(fs[i], broken)], fs, i + 1)
            else w.Value() == old(w.Value()) && w.replies == old(w.replies)
    ensures c.accept == None ==> broken == None
  {
    ghost var f, rest := fs[i], LinkWire(fs[i + 1..]);
    assert fs[i..][0] == f && fs[i..][1..] == fs[i + 1..];
    ghost var s := w.Value();
    assert w.Faces(parse, f, rest);
    ok, broken := w.HandleFrame(parse, allowed, c, f, rest);
    if ok {
      PacketsStayKnown(s, fs, i, broken);
      EventsNext(es, fs, i, broken);
    }
  }

  /** One more frame among the events. */
  lemma {:induction false} EventsNext(es: seq<Event>, fs: seq<Frame>, i: nat, broken: Option<seq<byte>>)
    requires i < |fs| && FramesIn(es) == fs[..i] && BrokenArePrefixes(es)
    requires fs[i].data.Some? <==> HasData(fs[i].meta.option)
    requires broken.Some? ==> broken.value <= DataOf(fs[i])
    ensures var after, s := es + [Arrives(fs[i], broken)], AfterAll(NOBODY, es);
            && AfterAll(NOBODY, after) == AfterEvent(s, Arrives(fs[i], broken))
            && RepliesBy(after) == RepliesBy(es) + RepliesTo(s, fs[i])
            && FramesIn(after) == fs[..i + 1] && BrokenArePrefixes(after)
  {
    AfterAllSnoc(NOBODY, es, Arrives(fs[i], broken));
    RepliesFrame(es, fs[i], broken);
    FramesInSnoc(es, Arrives(fs[i], broken));
    assert fs[..i] + [fs[i]] == fs[..i + 1];
  }

  /** Closes a session from its own side. */
  method CloseOne(w: ServerWorker, id: nat, ghost es: seq<Event>, ghost fs: seq<Frame>, ghost i: nat)
    requires i <= |fs| && Serving(w, es, fs, i)
    modifies w`sessions
    ensures Serving(w, es + [Closes(id)], fs, i)
  {
    w.CloseSession(id);
    AfterAllSnoc(NOBODY, es, Closes(id));
    RepliesSnoc(es, Closes(id));
    FramesInSnoc(es, Closes(id));
  }

  method CloseAll(w: ServerWorker, ids: seq<nat>, ghost es: seq<Event>, ghost fs: seq<Frame>, ghost i: nat)
    requires i <= |fs| && Serving(w, es, fs, i)
    modifies w`sessions
    ensures Serving(w, es + CloseEvents(ids), fs, i)
  {
    assert es + CloseEvents(ids[..0]) == es;
    for k := 0 to |ids|
      invariant Serving(w, es + CloseEvents(ids[..k]), fs, i)
    {
      CloseOne(w, ids[k], es + CloseEvents(ids[..k]), fs, i);
      assert CloseEvents(ids[..k + 1]) == CloseEvents(ids[..k]) + [Closes(ids[k])];
      Assoc(es, CloseEvents(ids[..k]), [Closes(ids[k])]);
    }
    assert ids[..|ids|] == ids;
  }

  /** One turn of the server: some sessions close, then one frame is handled, or refused. */
  method ServeTurn(w: ServerWorker, parse: IpParser, allowed: Network, cs: seq<Choice>,
                   ghost es: seq<Event>, ghost fs: seq<Frame>, i: nat) returns (ok: bool, ghost es': seq<Event>)
    requires i < |cs| == |fs| && Serving(w, es, fs, i) && ValidLink(parse, w.reverse, fs)
    requires AllSmooth(cs, fs, i, i, es)
    modifies w, w.reader
    ensures ok == !Refused(fs[i], allowed, cs[i])
    ensures ok ==> Serving(w, es', fs, i + 1) && AllSmooth(cs, fs, i + 1, i + 1, es')
    ensures !ok ==> Reached(w, es', fs, i) && AllSmooth(cs, fs, i + 1, i, es')
  {
    CloseAll(w, cs[i].closes, es, fs, i);
    AllSmoothCloses(cs, fs, i, es);
    es' := es + CloseEvents(cs[i].closes);
    ghost var broken;
    ok, broken := ServeFrame(w, parse, allowed, cs[i], es', fs, i);
    if ok {
      AllSmoothFrame(cs, fs, i, es', broken);
      es' := es' + [Arrives(fs[i], broken)];
    }
  }

  lemma {:induction false} NoneHandled(cs: seq<Choice>, fs: seq<Frame>)
    requires |cs| == |fs|
    ensures AllSmooth(cs, fs, 0, 0, [])
  {
    assert fs[..0] == [];
  }

  lemma {:induction false} ServingStarts(w: ServerWorker, fs: seq<Frame>)
    requires w.Value() == NOBODY && w.replies == [] && w.reader.Remaining() == LinkWire(fs)
    ensures Serving(w, [], fs, 0)
  {
    assert fs[0..] == fs;
  }

  /** None of the first `n` frames is refused. */
  ghost predicate NoneRefused(fs: seq<Frame>, allowed: Network, cs: seq<Choice>, n: nat)
    requires n <= |cs| == |fs|
  {
    forall i :: 0 <= i < n ==> !Refused(fs[i], allowed, cs[i])
  }

  /** The first frame that is refused is number `n`, or there is none. */
  ghost predicate StopsAt(fs: seq<Frame>, allowed: Network, cs: seq<Choice>, n: nat)
    requires |cs| == |fs|
  {
    n <= |fs| && NoneRefused(fs, allowed, cs, n) && (n < |fs| ==> Refused(fs[n], allowed, cs[n]))
  }

  lemma {:induction false} NextNotRefused(fs: seq<Frame>, allowed: Network, cs: seq<Choice>, n: nat)
    requires n < |cs| == |fs| && NoneRefused(fs, allowed, cs, n)
    ensures if Refused(fs[n], allowed, cs[n]) then StopsAt(fs, allowed, cs, n) else NoneRefused(fs, allowed, cs, n + 1)
  {
  }

  lemma {:induction false} ServingEnds(w: ServerWorker, es: seq<Event>, fs: seq<Frame>)
    requires Serving(w, es, fs, |fs|)
    ensures w.reader.Remaining() == [] && Reached(w, es, fs, |fs|)
  {
    assert fs[|fs|..] == [];
  }

  /** SERVING A LINK. Before each frame any sessions may be closed from their own side, and any
      output may fail, XUDP flow not be established, way to a target be missing or the session
      table be closed: the choices say which. The link is read to its end, or up to the first
      New frame that is refused. The run has the effect of its frames in order, and every
      session that is spared sees exactly its own frames. */
  method Serve(w: ServerWorker, parse: IpParser, allowed: Network, cs: seq<Choice>, ghost fs: seq<Frame>)
    returns (n: nat, ghost es: seq<Event>)
    requires w.Value() == NOBODY && w.replies == []
    requires ValidLink(parse, w.reverse, fs) && w.reader.Remaining() == LinkWire(fs)
    requires |cs| == |fs|
    modifies w, w.reader
    ensures StopsAt(fs, allowed, cs, n) && (n == |fs| ==> w.reader.Remaining() == [])
    ensures Reached(w, es, fs, n) && AllSmooth(cs, fs, Min(n + 1, |fs|), n, es)
  {
    es := [];
    ServingStarts(w, fs);
    NoneHandled(cs, fs);
    n := 0;
    while n < |cs|
      invariant n <= |cs| && Serving(w, es, fs, n) && AllSmooth(cs, fs, n, n, es)
      invariant NoneRefused(fs, allowed, cs, n)
    {
      NextNotRefused(fs, allowed, cs, n);
      var ok;
      ok, es := ServeTurn(w, parse, allowed, cs, es, fs, n);
      if !ok {
        return;
      }
      n := n + 1;
    }
    ServingEnds(w, es, fs);
  }
}
