/** What the frames of a mux link mean to its sessions (common/mux/server.go). */
module MuxEvents {
  import opened Bytes
  import opened MuxFrames

  // ---------------------------------------------------------------- frames on a link

  /** A frame as a session writer emits it: metadata, the UDP destination of its buffer,
      and a payload exactly when the data option is set. */
  datatype Frame = Frame(meta: Meta, udp: Option<Destination>, data: Option<seq<byte>>)

  function FrameWire(f: Frame): seq<byte> {
    Be16(|Body(f.meta, f.udp)|) + Body(f.meta, f.udp) +
    (if f.data.Some? then Be16(|f.data.value|) + f.data.value else [])
  }

  function LinkWire(fs: seq<Frame>): seq<byte> {
    if fs == [] then [] else FrameWire(fs[0]) + LinkWire(fs[1..])
  }

  /** Payloads of at most a pooled buffer for packets, and of 16-bit length for streams. */
  predicate ValidFrame(parse: IpParser, reverse: bool, f: Frame) {
    && WellFormed(parse, f.meta, f.udp)
    && (f.meta.status == STATUS_NEW ==> f.meta.inbound.Some? == reverse)
    && BodyLength(f.meta, f.udp) <= META_LIMIT
    && (f.data.Some? <==> HasData(f.meta.option))
    && (f.data.Some? ==>
          || |f.data.value| <= BUF_SIZE
          || (|f.data.value| < 65536 && f.udp == None && f.meta.target.network != UDP))
  }

  /** The frame opens a session of an XUDP flow. */
  predicate IsXudp(f: Frame) {
    f.meta.status == STATUS_NEW && Received(f.meta, f.udp).globalId != NO_GLOBAL_ID
  }

  function DataOf(f: Frame): seq<byte> {
    if f.data.Some? then f.data.value else []
  }

  // ---------------------------------------------------------------- what the server does

  /** A buffer with the UDP destination it is addressed to. */
  datatype Datagram = Datagram(bytes: seq<byte>, udp: Option<Destination>)

  /** The payload of a frame with the address that the reader of packets gives it: the session's
      target for the first frame, whatever its own address, and nothing for a later one that
      does not name any. */
  function Arrival(f: Frame): Datagram {
    Datagram(DataOf(f), UdpOf(Received(f.meta, f.udp)))
  }

  function UdpOf(m: Meta): Option<Destination> {
    if m.target.network == UDP then Some(m.target) else None
  }

  /** What an output has received: all bytes, and for sessions of packets the datagrams. */
  datatype Output = Output(bytes: seq<byte>, packets: seq<Datagram>)

  const SILENT := Output([], [])

  function Plus(a: Output, b: Output): Output {
    Output(a.bytes + b.bytes, a.packets + b.packets)
  }

  /** `a` is the beginning of `b`. */
  predicate Begins(a: Output, b: Output) {
    a.bytes <= b.bytes && a.packets <= b.packets
  }

  /** A payload on its own; an empty one is never written to an output. */
  function Part(d: Datagram, packet: bool): Output {
    Output(d.bytes, if packet && d.bytes != [] then [d] else [])
  }

  lemma {:induction false} PlusAssoc(a: Output, b: Output, c: Output)
    ensures Plus(a, Plus(b, c)) == Plus(Plus(a, b), c)
  {
    Assoc(a.bytes, b.bytes, c.bytes);
    Assoc(a.packets, b.packets, c.packets);
  }

  lemma {:induction false} PlusSilent(a: Output)
    ensures Plus(a, SILENT) == a && Plus(SILENT, a) == a
  {
    assert a.bytes + [] == a.bytes && a.packets + [] == a.packets;
    assert [] + a.bytes == a.bytes && [] + a.packets == a.packets;
  }

  /** Open sessions (with their transfer type: packet or not), and what each session id's
      output has received. */
  datatype Server = Server(open: map<nat, bool>, delivered: map<nat, Output>)

  /** `broken` is what got through before the session's output failed, if it did; for the first
      frame of an XUDP session, that the flow was not established. */
  datatype Event = Arrives(frame: Frame, broken: Option<seq<byte>>) | Closes(id: nat)

  predicate PacketTarget(f: Frame) {
    f.meta.target.network == UDP
  }

  /** Delivering `d` to an open session; a failed output closes the session. */
  function Deliver(s: Server, id: nat, d: Datagram, broken: Option<seq<byte>>): Server {
    var sofar := if id in s.delivered then s.delivered[id] else SILENT;
    if broken == None then s.(delivered := s.delivered[id := Plus(sofar, Part(d, id in s.open && s.open[id]))])
    else Server(s.open - {id}, s.delivered[id := Plus(sofar, Output(broken.value, []))])
  }

  function AfterEvent(s: Server, e: Event): Server {
    match e
    case Closes(id) => s.(open := s.open - {id})
    case Arrives(f, broken) =>
      var id := f.meta.sessionId;
      if f.meta.status == STATUS_NEW then
        if IsXudp(f) && broken.Some? then s
        else
          var t := Server(s.open[id := PacketTarget(f)], s.delivered[id := SILENT]);
          if f.data.Some? then Deliver(t, id, Arrival(f), broken) else t
      else if f.meta.status == STATUS_KEEP then
        if f.data.Some? && id in s.open then Deliver(s, id, Arrival(f), broken) else s
      else if f.meta.status == STATUS_END then s.(open := s.open - {id})
      else s
  }

  function AfterAll(s: Server, es: seq<Event>): Server
    decreases |es|
  {
    if es == [] then s else AfterAll(AfterEvent(s, es[0]), es[1..])
  }

  // ------------------------------------------------------------------ isolation

  predicate Mine(e: Event, id: nat) {
    match e
    case Closes(i) => i == id
    case Arrives(f, _) => f.meta.sessionId == id
  }

  /** The part of a run that concerns one session. */
  function Concerns(es: seq<Event>, id: nat): seq<Event> {
    if es == [] then []
    else if Mine(es[0], id) then [es[0]] + Concerns(es[1..], id)
    else Concerns(es[1..], id)
  }

  /** The frames of one writer after its first: Keep frames and at most one End, last. */
  predicate Continues(es: seq<Event>) {
    es == [] ||
    (&& es[0].Arrives?
     && (if es[0].frame.meta.status == STATUS_END then es[1..] == []
         else es[0].frame.meta.status == STATUS_KEEP && Continues(es[1..])))
  }

  /** The part of an event that may reach the output of a session. */
  function Share(e: Event, packet: bool): Output {
    if e.Arrives? && e.frame.meta.status != STATUS_END then Part(Arrival(e.frame), packet) else SILENT
  }

  /** What the frames of a session, packets or not, carry. */
  function Sent(es: seq<Event>, packet: bool): Output {
    if es == [] then SILENT
    else Plus(Share(es[0], packet), Sent(es[1..], packet))
  }

  predicate Unbroken(es: seq<Event>) {
    forall i :: 0 <= i < |es| ==> es[i].Arrives? && es[i].broken == None
  }

  /** Events of other sessions do not touch this one. */
  lemma {:induction false} OthersLeaveAlone(s: Server, e: Event, id: nat)
    requires !Mine(e, id)
    ensures var t := AfterEvent(s, e);
            && (id in t.open <==> id in s.open) && (id in s.open ==> t.open[id] == s.open[id])
            && (id in t.delivered <==> id in s.delivered) && (id in s.delivered ==> t.delivered[id] == s.delivered[id])
  {
  }

  /** Once open, a session's output receives its writer's Keep payloads, in order, whatever
      the other sessions do. */
  lemma {:induction false} OpenSessionReceives(s: Server, es: seq<Event>, id: nat)
    requires id in s.open && id in s.delivered
    requires Continues(Concerns(es, id)) && Unbroken(Concerns(es, id))
    ensures var t := AfterAll(s, es);
            id in t.delivered && t.delivered[id] == Plus(s.delivered[id], Sent(Concerns(es, id), s.open[id]))
    decreases |es|
  {
    if es == [] {
      PlusSilent(s.delivered[id]);
    } else {
      var e, mine := es[0], Concerns(es, id);
      var t := AfterEvent(s, e);
      if Mine(e, id) {
        assert mine[0] == e && mine[1..] == Concerns(es[1..], id);
        assert e.Arrives? && e.broken == None;
        assert forall i :: 0 <= i < |mine[1..]| ==> mine[1..][i] == mine[i + 1];
        if e.frame.meta.status == STATUS_END {
          ClosedSessionKeeps(t, es[1..], id);
          PlusSilent(SILENT);
          PlusSilent(s.delivered[id]);
        } else {
          KeepReceived(s, e.frame, id);
          OpenSessionReceives(t, es[1..], id);
          PlusAssoc(s.delivered[id], Part(Arrival(e.frame), s.open[id]), Sent(mine[1..], s.open[id]));
        }
      } else {
        OthersLeaveAlone(s, e, id);
        OpenSessionReceives(t, es[1..], id);
      }
    }
  }

  lemma {:induction false} KeepReceived(s: Server, f: Frame, id: nat)
    requires id in s.open && id in s.delivered && f.meta.sessionId == id && f.meta.status == STATUS_KEEP
    ensures var t := AfterEvent(s, Arrives(f, None));
            && id in t.open && t.open[id] == s.open[id]
            && id in t.delivered && t.delivered[id] == Plus(s.delivered[id], Part(Arrival(f), s.open[id]))
  {
    PlusSilent(s.delivered[id]);
  }

  lemma {:induction false} ClosedSessionKeeps(s: Server, es: seq<Event>, id: nat)
    requires id in s.delivered && Concerns(es, id) == []
    ensures var t := AfterAll(s, es); id in t.delivered && t.delivered[id] == s.delivered[id]
    decreases |es|
  {
    if es != [] {
      assert Concerns(es[1..], id) == [];
      OthersLeaveAlone(s, es[0], id);
      ClosedSessionKeeps(AfterEvent(s, es[0]), es[1..], id);
    }
  }

  lemma {:induction false} NewReceived(s: Server, f: Frame, id: nat)
    requires f.meta.sessionId == id && f.meta.status == STATUS_NEW
    ensures var t := AfterEvent(s, Arrives(f, None));
            && id in t.open && t.open[id] == PacketTarget(f)
            && id in t.delivered && t.delivered[id] == Part(Arrival(f), PacketTarget(f))
  {
    PlusSilent(Part(Arrival(f), PacketTarget(f)));
  }

  /** MUX DEMULTIPLEXING. In every interleaving of any sessions' frames, session closes and
      output failures on one link, a session whose own frames are New, Keep..., End and
      whose output works receives exactly what its writer sent, in order: the bytes, and for
      a session of packets the datagrams one by one with their addresses. */
  lemma {:induction false} Demultiplexes(s: Server, es: seq<Event>, id: nat)
    requires var mine := Concerns(es, id);
             && mine != [] && Unbroken(mine) && Continues(mine[1..])
             && mine[0].frame.meta.status == STATUS_NEW
    ensures var t, mine := AfterAll(s, es), Concerns(es, id);
            id in t.delivered && t.delivered[id] == Sent(mine, PacketTarget(mine[0].frame))
    decreases |es|
  {
    var e, mine := es[0], Concerns(es, id);
    var t := AfterEvent(s, e);
    if Mine(e, id) {
      assert mine[0] == e && mine[1..] == Concerns(es[1..], id);
      assert e.Arrives? && e.broken == None;
      assert forall i :: 0 <= i < |mine[1..]| ==> mine[1..][i] == mine[i + 1];
      NewReceived(s, e.frame, id);
      OpenSessionReceives(t, es[1..], id);
    } else {
      Demultiplexes(t, es[1..], id);
    }
  }

  /** A session's later events in any order, with outputs that may fail midway. */
  predicate Loose(es: seq<Event>) {
    forall i :: 0 <= i < |es| && es[i].Arrives? ==>
      && es[i].frame.meta.status != STATUS_NEW
      && (es[i].frame.meta.status != STATUS_KEEP ==> es[i].frame.data == None)
      && (es[i].broken.Some? ==> es[i].broken.value <= DataOf(es[i].frame))
  }

  lemma {:induction false} PrefixThen<T>(x: seq<T>, p: seq<T>, d: seq<T>, y: seq<T>)
    requires p <= d
    ensures x <= x + p <= x + (d + y)
  {
    assert x + p == (x + (d + y))[..|x + p|];
  }

  /** What got through of a payload, with whatever follows it, begins the whole. */
  lemma {:induction false} BeginsThen(x: Output, p: Output, d: Output, y: Output)
    requires Begins(p, d)
    ensures Begins(x, Plus(x, p)) && Begins(Plus(x, p), Plus(x, Plus(d, y)))
  {
    PrefixThen(x.bytes, p.bytes, d.bytes, y.bytes);
    PrefixThen(x.packets, p.packets, d.packets, y.packets);
  }

  /** One event of a session that is not its opening. */
  lemma {:induction false} LooseEvent(s: Server, e: Event, id: nat)
    requires Mine(e, id) && Loose([e])
    ensures var t := AfterEvent(s, e);
            && (id !in s.open ==> id !in t.open && (id in t.delivered <==> id in s.delivered)
                                  && (id in s.delivered ==> t.delivered[id] == s.delivered[id]))
            && (id in t.open ==> id in s.open && t.open[id] == s.open[id])
  {
    assert [e][0] == e;
  }

  lemma {:induction false} LooseReceived(s: Server, e: Event, id: nat) returns (p: Output)
    requires Mine(e, id) && Loose([e]) && id in s.open && id in s.delivered
    ensures var t := AfterEvent(s, e);
            && id in t.delivered && t.delivered[id] == Plus(s.delivered[id], p) && Begins(p, Share(e, s.open[id]))
            && (id in t.open ==> p == Share(e, s.open[id]))
  {
    assert [e][0] == e;
    PlusSilent(s.delivered[id]);
    if e.Arrives? && e.frame.meta.status == STATUS_KEEP && e.frame.data.Some? {
      p := if e.broken == None then Part(Arrival(e.frame), s.open[id]) else Output(e.broken.value, []);
    } else {
      p := SILENT;
    }
  }

  /** A session that is not open receives nothing, unless it is opened. */
  lemma {:induction false} ShutStays(s: Server, es: seq<Event>, id: nat)
    requires id !in s.open && Loose(Concerns(es, id))
    ensures var t := AfterAll(s, es);
            && (id in t.delivered <==> id in s.delivered)
            && (id in s.delivered ==> t.delivered[id] == s.delivered[id])
    decreases |es|
  {
    if es != [] {
      var e, mine := es[0], Concerns(es, id);
      if Mine(e, id) {
        assert mine[0] == e && mine[1..] == Concerns(es[1..], id);
        assert forall i :: 0 <= i < |mine[1..]| ==> mine[1..][i] == mine[i + 1];
        LooseEvent(s, e, id);
      } else {
        OthersLeaveAlone(s, e, id);
      }
      ShutStays(AfterEvent(s, e), es[1..], id);
    }
  }

  /** Whatever fails or closes, an output only ever holds the beginning of what its own writer
      sent. */
  lemma {:induction false} NeverForeign(s: Server, es: seq<Event>, id: nat, packet: bool)
    requires id in s.delivered && Loose(Concerns(es, id)) && (id in s.open ==> s.open[id] == packet)
    ensures var t := AfterAll(s, es);
            && id in t.delivered && Begins(s.delivered[id], t.delivered[id])
            && Begins(t.delivered[id], Plus(s.delivered[id], Sent(Concerns(es, id), packet)))
            && (id !in s.open ==> t.delivered[id] == s.delivered[id])
    decreases |es|
  {
    if id !in s.open {
      ShutStays(s, es, id);
    } else if es != [] {
      var e, mine := es[0], Concerns(es, id);
      var t := AfterEvent(s, e);
      if Mine(e, id) {
        assert mine[0] == e && mine[1..] == Concerns(es[1..], id);
        assert forall i :: 0 <= i < |mine[1..]| ==> mine[1..][i] == mine[i + 1];
        var d, y := Share(e, packet), Sent(mine[1..], packet);
        var p := LooseReceived(s, e, id);
        LooseEvent(s, e, id);
        NeverForeign(t, es[1..], id, packet);
        BeginsThen(s.delivered[id], p, d, y);
        PlusAssoc(s.delivered[id], d, y);
      } else {
        OthersLeaveAlone(s, e, id);
        NeverForeign(t, es[1..], id, packet);
      }
    }
  }

  // ---------------------------------------------------------------- the life of a session

  lemma {:induction false} AfterAllSnoc(s: Server, es: seq<Event>, e: Event)
    ensures AfterAll(s, es + [e]) == AfterEvent(AfterAll(s, es), e)
    decreases |es|
  {
    var all := es + [e];
    if es == [] {
      assert all[0] == e && all[1..] == es;
    } else {
      assert all[0] == es[0] && all[1..] == es[1..] + [e];
      AfterAllSnoc(AfterEvent(s, es[0]), es[1..], e);
    }
  }

  lemma {:induction false} ConcernsSnoc(es: seq<Event>, e: Event, id: nat)
    ensures Concerns(es + [e], id) == if Mine(e, id) then Concerns(es, id) + [e] else Concerns(es, id)
    decreases |es|
  {
    if es == [] {
      assert (es + [e])[1..] == [];
    } else {
      assert (es + [e])[1..] == es[1..] + [e];
      ConcernsSnoc(es[1..], e, id);
    }
  }

  /** The event opens its session: a New frame, unless it is for an XUDP flow that is not
      established. */
  predicate Opens(e: Event) {
    e.Arrives? && e.frame.meta.status == 1 && !(IsXudp(e.frame) && e.broken.Some?)
  }

  /** The event shuts its session: Close from its own side, an End frame, or a payload that its
      output does not take. */
  predicate Shuts(e: Event) {
    match e
    case Closes(_) => true
    case Arrives(f, broken) =>
      || f.meta.status == 3
      || (broken.Some? && f.data.Some? && (f.meta.status == 2 || (f.meta.status == 1 && !IsXudp(f))))
  }

  /** By its own events a session is open: some New frame opened it, and nothing shut it since. */
  predicate OpenBy(mine: seq<Event>) {
    exists k :: 0 <= k < |mine| && OpenSince(mine, k)
  }

  predicate OpenSince(mine: seq<Event>, k: nat)
    requires k < |mine|
  {
    Opens(mine[k]) && forall j :: k <= j < |mine| ==> !Shuts(mine[j])
  }

  lemma {:induction false} OpenBySnoc(mine: seq<Event>, e: Event)
    ensures OpenBy(mine + [e]) <==> !Shuts(e) && (Opens(e) || OpenBy(mine))
  {
    var all, n := mine + [e], |mine|;
    assert all[n] == e && forall j :: 0 <= j < n ==> all[j] == mine[j];
    if OpenBy(all) {
      var k :| 0 <= k < |all| && OpenSince(all, k);
      assert !Shuts(all[n]);
      if k < n {
        assert forall j :: k <= j < n ==> !Shuts(all[j]) && all[j] == mine[j];
        assert OpenSince(mine, k);
      }
    }
    if !Shuts(e) && Opens(e) {
      assert OpenSince(all, n);
    } else if !Shuts(e) && OpenBy(mine) {
      var k :| 0 <= k < n && OpenSince(mine, k);
      assert OpenSince(all, k);
    }
  }

  /** One event of a session opens it, shuts it, or leaves it as it was. */
  lemma {:induction false} OpenStep(s: Server, e: Event, id: nat)
    requires Mine(e, id)
    ensures id in AfterEvent(s, e).open <==> !Shuts(e) && (Opens(e) || id in s.open)
    ensures Opens(e) && !Shuts(e) ==> AfterEvent(s, e).open[id] == PacketTarget(e.frame)
    ensures !Opens(e) && !Shuts(e) && id in s.open ==> AfterEvent(s, e).open[id] == s.open[id]
    ensures !Opens(e) && id !in s.open ==> AfterEvent(s, e).delivered == s.delivered
  {
  }

  const NOBODY := Server(map[], map[])

  /** LIFETIME. In every run, from its own events alone: a session is open at the end if and only
      if some New frame opened it and since then there was no End frame for it, no Close from its
      own side and no payload that its output did not take. Its transfer type is that of the last
      New frame that opened it. */
  lemma {:induction false} OpenExactly(es: seq<Event>, id: nat)
    ensures id in AfterAll(NOBODY, es).open <==> OpenBy(Concerns(es, id))
    ensures id in AfterAll(NOBODY, es).open ==> AfterAll(NOBODY, es).open[id] == TypeBy(Concerns(es, id))
    decreases |es|
  {
    if es != [] {
      var n := |es| - 1;
      var before, e := es[..n], es[n];
      assert es == before + [e];
      OpenExactly(before, id);
      AfterAllSnoc(NOBODY, before, e);
      ConcernsSnoc(before, e, id);
      var s := AfterAll(NOBODY, before);
      if Mine(e, id) {
        OpenStep(s, e, id);
        OpenBySnoc(Concerns(before, id), e);
        TypeBySnoc(Concerns(before, id), e);
      } else {
        OthersLeaveAlone(s, e, id);
      }
    }
  }

  /** The transfer type named by the last opening New frame: packets or not. */
  function TypeBy(mine: seq<Event>): bool {
    if mine == [] then false
    else
      var n := |mine| - 1;
      if Opens(mine[n]) then mine[n].frame.meta.target.network == UDP else TypeBy(mine[..n])
  }

  lemma {:induction false} TypeBySnoc(mine: seq<Event>, e: Event)
    ensures TypeBy(mine + [e]) == if Opens(e) then PacketTarget(e.frame) else TypeBy(mine)
  {
    assert (mine + [e])[..|mine|] == mine;
  }

  predicate NoneOpens(mine: seq<Event>) {
    forall i :: 0 <= i < |mine| ==> !Opens(mine[i])
  }

  lemma {:induction false} ShutReceivesNothing(s: Server, es: seq<Event>, id: nat)
    requires id !in s.open && NoneOpens(Concerns(es, id))
    ensures var t := AfterAll(s, es);
            && id !in t.open && (id in t.delivered <==> id in s.delivered)
            && (id in s.delivered ==> t.delivered[id] == s.delivered[id])
    decreases |es|
  {
    if es != [] {
      var e, mine := es[0], Concerns(es, id);
      if Mine(e, id) {
        assert mine[0] == e && mine[1..] == Concerns(es[1..], id);
        assert forall i :: 0 <= i < |mine[1..]| ==> mine[1..][i] == mine[i + 1];
        OpenStep(s, e, id);
      } else {
        OthersLeaveAlone(s, e, id);
      }
      ShutReceivesNothing(AfterEvent(s, e), es[1..], id);
    }
  }

  /** AFTER THE END. Once a session is shut, whatever comes for it, its output stays as it is
      until a New frame opens the session again. */
  lemma {:induction false} ClosedForGood(es: seq<Event>, more: seq<Event>, id: nat)
    requires !OpenBy(Concerns(es, id)) && NoneOpens(Concerns(more, id))
    ensures var s, t := AfterAll(NOBODY, es), AfterAll(NOBODY, es + more);
            && id !in t.open && (id in t.delivered <==> id in s.delivered)
            && (id in s.delivered ==> t.delivered[id] == s.delivered[id])
  {
    OpenExactly(es, id);
    AfterAllAppend(NOBODY, es, more);
    ShutReceivesNothing(AfterAll(NOBODY, es), more, id);
  }

  lemma {:induction false} AfterAllAppend(s: Server, a: seq<Event>, b: seq<Event>)
    ensures AfterAll(s, a + b) == AfterAll(AfterAll(s, a), b)
    decreases |a|
  {
    if a == [] {
      assert a + b == b;
    } else {
      assert (a + b)[0] == a[0] && (a + b)[1..] == a[1..] + b;
      AfterAllAppend(AfterEvent(s, a[0]), a[1..], b);
    }
  }

  /** The peer is told to close a session for each payload that comes for it while, by its own
      events so far, it is not open. */
  function RepliesBy(es: seq<Event>): seq<nat> {
    if es == [] then []
    else
      var n := |es| - 1;
      RepliesBy(es[..n]) + if Unheard(es[..n], es[n]) then [es[n].frame.meta.sessionId] else []
  }

  /** A Keep frame with data for a session that is not open. */
  predicate Unheard(before: seq<Event>, e: Event) {
    && e.Arrives? && e.frame.meta.status == 2 && e.frame.data.Some?
    && !OpenBy(Concerns(before, e.frame.meta.sessionId))
  }

  lemma {:induction false} RepliesSnoc(es: seq<Event>, e: Event)
    ensures RepliesBy(es + [e]) == RepliesBy(es) + if Unheard(es, e) then [e.frame.meta.sessionId] else []
  {
    assert (es + [e])[..|es|] == es;
  }
}
