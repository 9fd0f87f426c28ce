/** One call of VisionWriter.WriteMultiBuffer (proxy/proxy.go): traffic recognition, the padding
    branch, and the two connections its bytes can land on. */
module VisionConnection {
  import opened Bytes

  import opened VisionUnpadding
  import opened VisionStream
  import opened VisionRecords
  import opened VisionPadding
  import opened VisionTraffic
  import opened VisionWriter

  /** One WriteMultiBuffer argument after compaction: the single nil buffer that pads a
      header, or the bytes of each buffer. */
  datatype Input = HeaderOnly | Content(mb: seq<seq<byte>>)

  /** IsPadding and WriterDirectCopy of the direction, and whether the writer has switched. */
  datatype WriterState = WriterState(isPadding: bool, armed: bool, direct: bool)

  const NEW_WRITER := WriterState(true, false, false)

  /** What goes out: padding blocks and plain bytes on the outer connection, then bytes on
      the raw connection underneath. */
  datatype Sent = Sent(blocks: seq<Block>, plain: seq<byte>, direct: seq<byte>)

  const NOTHING := Sent([], [], [])

  datatype Outcome = Outcome(writer: WriterState, traffic: Traffic, sent: Sent)

  function Payloads(input: Input): seq<seq<byte>> {
    if input.HeaderOnly? then [] else input.mb
  }

  /** Calls that do not panic: standard buffers, and while padding, no record header cut
      so that the record scan fails. */
  predicate Legal(padding: bool, input: Input) {
    match input
    case HeaderOnly => padding
    case Content(mb) =>
      && (forall i :: 0 <= i < |mb| ==> |mb[i]| <= BUF_SIZE)
      && (padding ==> ScanAll(INITIAL, mb).Some?)
  }

  function Filter(t: Traffic, mb: seq<seq<byte>>, stale: seq<seq<byte>>): Traffic {
    if t.packetsToFilter > 0 then FilterAll(t, mb, stale, 0) else t
  }

  /** What a padding call emits. */
  function Pad(t: Traffic, seeds: Seeds, input: Input, random: seq<nat>): Pads
    requires SafeSeeds(seeds) && Legal(true, input)
  {
    if input.HeaderOnly? then
      Pads([BlockFor(Setting(t, false, seeds, random), COMMAND_CONTINUE, [], true, 0)], [], true, false)
    else
      var c := Setting(t, ScanAll(INITIAL, input.mb).value, seeds, random);
      PadFrom(c, Reshaped(input.mb), 0, true, false, t.isTLS)
  }

  /** One call of WriteMultiBuffer. */
  function Call(w: WriterState, t: Traffic, seeds: Seeds, input: Input, random: seq<nat>,
                stale: seq<seq<byte>>): Outcome
    requires SafeSeeds(seeds) && Legal(w.isPadding, input)
  {
    var mb := Payloads(input);
    var t' := Filter(t, mb, stale);
    var w' := if w.armed then w.(armed := false, direct := true) else w;
    if !w.isPadding then
      Outcome(w', t', if w'.direct then Sent([], [], Concat(mb)) else Sent([], Concat(mb), []))
    else
      var p := Pad(t', seeds, input, random);
      Outcome(w'.(isPadding := p.isPadding, armed := p.armed), t', Sent(p.blocks, p.plain, []))
  }

  /** The bytes a call writes to the outer connection; the UUID precedes the first block. */
  function OuterBytes(uuid: seq<byte>, sent: Sent): seq<byte> {
    if sent.blocks == [] then sent.plain else uuid + Wires(sent.blocks) + sent.plain
  }

  lemma {:induction false} OneBlockOut(uuid: seq<byte>, k: Block)
    ensures OuterBytes(uuid, Sent([k], [], [])) == uuid + Wire(k)
  {
    var none: seq<Block> := [];
    WiresSnoc(none, k);
    assert none + [k] == [k] && Wires(none) + Wire(k) == Wire(k);
    var w := uuid + Wires([k]);
    assert w + [] == w;
  }

  /** The padding branch of WriteMultiBuffer for data; `left` is the UUID still to be sent. */
  method PadData(mb: seq<seq<byte>>, t: Traffic, seeds: Seeds, random: seq<nat>, uuid: seq<byte>)
    returns (out: seq<byte>, isPadding: bool, armed: bool, left: seq<byte>)
    requires SafeSeeds(seeds) && |uuid| <= 16 && ScanAll(INITIAL, mb).Some?
    requires forall i :: 0 <= i < |Reshaped(mb)| ==> |Reshaped(mb)[i]| <= ROOM
    ensures var c := Setting(t, ScanAll(INITIAL, mb).value, seeds, random);
            var p := PadFrom(c, Reshaped(mb), 0, true, false, t.isTLS);
            && isPadding == p.isPadding && armed == p.armed
            && out == OuterBytes(uuid, Sent(p.blocks, p.plain, []))
            && left == if p.blocks == [] then uuid else []
  {
    var complete := IsCompleteRecord(mb);
    var pieces := ReshapeMultiBuffer(mb);
    var c := Setting(t, complete.value, seeds, random);
    BlocksIffPieces(c, pieces);
    out, isPadding, armed := PadPieces(c, pieces, uuid);
    left := if pieces == [] then uuid else [];
  }

  /** The long padding that hides a header sent without data. */
  method PadHeader(c: Setting, uuid: seq<byte>) returns (out: seq<byte>)
    requires SafeSeeds(c.seeds) && |uuid| <= 16
    ensures out == OuterBytes(uuid, Sent([BlockFor(c, COMMAND_CONTINUE, [], true, 0)], [], []))
  {
    out := WriteBlock(c, COMMAND_CONTINUE, [], true, 0, uuid);
    OneBlockOut(uuid, BlockFor(c, COMMAND_CONTINUE, [], true, 0));
  }

  /** The padding branch of WriteMultiBuffer. */
  method PadCall(input: Input, t: Traffic, seeds: Seeds, random: seq<nat>, uuid: seq<byte>)
    returns (out: seq<byte>, isPadding: bool, armed: bool, left: seq<byte>)
    requires SafeSeeds(seeds) && Legal(true, input) && |uuid| <= 16
    ensures var p := Pad(t, seeds, input, random);
            && isPadding == p.isPadding && armed == p.armed
            && out == OuterBytes(uuid, Sent(p.blocks, p.plain, []))
            && left == if p.blocks == [] then uuid else []
  {
    if input.HeaderOnly? {
      out := PadHeader(Setting(t, false, seeds, random), uuid);
      isPadding, armed, left := true, false, [];
    } else {
      ReshapeFits(input.mb);
      out, isPadding, armed, left := PadData(input.mb, t, seeds, random, uuid);
    }
  }

  // ------------------------------------------------------------- the writer, imperative

  class Writer {
    const state: TrafficState
    const seeds: Seeds
    const userUuid: seq<byte>
    var isPadding: bool
    var switchToDirectCopy: bool
    var direct: bool
    var uuid: seq<byte>
    var outer: seq<byte>    // bytes written to the outer connection
    var raw: seq<byte>      // bytes written to the raw connection

    ghost predicate Valid()
      reads this
    {
      SafeSeeds(seeds) && |userUuid| == 16 && (uuid == userUuid || uuid == [])
    }

    ghost function Value(): WriterState
      reads this
    {
      WriterState(isPadding, switchToDirectCopy, direct)
    }

    constructor (state: TrafficState, uuid: seq<byte>, seeds: Seeds)
      requires |uuid| == 16 && SafeSeeds(seeds)
      ensures Valid() && this.state == state && this.seeds == seeds && userUuid == uuid
      ensures Value() == NEW_WRITER && this.uuid == uuid && outer == [] && raw == []
    {
      this.state, this.seeds, this.userUuid := state, seeds, uuid;
      this.isPadding, this.switchToDirectCopy, this.direct := true, false, false;
      this.uuid, this.outer, this.raw := uuid, [], [];
    }

    /** Traffic recognition, while the packet budget lasts. */
    method Recognise(mb: seq<seq<byte>>, stale: seq<seq<byte>>) returns (t: Traffic)
      modifies state
      ensures state.Value() == t == Filter(old(state.Value()), mb, stale)
    {
      if state.packetsToFilter > 0 {
        state.XtlsFilterTls(mb, stale);
      }
      t := Traffic(state.packetsToFilter, state.enableXtls, state.isTLS12orAbove, state.isTLS,
                   state.cipher, state.remainingServerHello);
    }

    /** A call after padding has ended. */
    method WriteThrough(mb: seq<seq<byte>>)
      modifies this`outer, this`raw
      ensures direct ==> outer == old(outer) && raw == old(raw) + Concat(mb)
      ensures !direct ==> outer == old(outer) + Concat(mb) && raw == old(raw)
    {
      if direct {
        raw := raw + Concat(mb);
      } else {
        outer := outer + Concat(mb);
      }
    }

    /** The call's bytes land on exactly one of the two connections. */
    method WriteMultiBuffer(input: Input, random: seq<nat>, stale: seq<seq<byte>>)
      requires Valid() && Legal(isPadding, input)
      modifies this, state
      ensures Valid()
      ensures var o := Call(old(Value()), old(state.Value()), seeds, input, random, stale);
              && Value() == o.writer && state.Value() == o.traffic
              && outer == old(outer) + OuterBytes(old(uuid), o.sent)
              && raw == old(raw) + o.sent.direct
              && uuid == (if o.sent.blocks == [] then old(uuid) else [])
    {
      ghost var o := Call(Value(), state.Value(), seeds, input, random, stale);
      if switchToDirectCopy {
        direct := true;
        switchToDirectCopy := false;
      }
      var traffic := Recognise(Payloads(input), stale);
      assert o.traffic == traffic;
      if !isPadding {
        WriteThrough(Payloads(input));
        ghost var c, none: seq<byte> := Concat(Payloads(input)), [];
        assert o.sent == if direct then Sent([], none, c) else Sent([], c, none);
        assert old(outer) + none == old(outer) && old(raw) + none == old(raw);
      } else {
        ghost var p := Pad(traffic, seeds, input, random);
        assert o.sent == Sent(p.blocks, p.plain, []);
        var out, left;
        out, isPadding, switchToDirectCopy, left := PadCall(input, traffic, seeds, random, uuid);
        outer := outer + out;
        uuid := left;
        assert o.sent.direct == [] && raw + [] == raw;
      }
    }
  }

  lemma {:induction false} BlocksIffPieces(c: Setting, pieces: seq<seq<byte>>)
    requires SafeSeeds(c.seeds)
    ensures var p := PadFrom(c, pieces, 0, true, false, c.traffic.isTLS);
            && (p.blocks == [] <==> pieces == []) && (pieces == [] ==> p.plain == [])
  {
  }
}
