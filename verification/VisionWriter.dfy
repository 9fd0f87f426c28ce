/** VisionWriter (proxy/proxy.go): the padding loop and the run of one direction, from the
    first padded block to raw or direct copy. */
module VisionWriter {
  import opened Bytes
  import opened VisionUnpadding
  import opened VisionStream
  import opened VisionRecords
  import opened VisionPadding
  import opened VisionTraffic

  // --------------------------------------------------------------- the padding loop

  /** What stays fixed during one call. `random[i]` is the draw for piece `i`. */
  datatype Setting = Setting(traffic: Traffic, complete: bool, seeds: Seeds, random: seq<nat>)

  function DrawAt(random: seq<nat>, i: nat): nat {
    if i < |random| then random[i] else 0
  }

  /** What the loop emits and leaves behind. */
  datatype Pads = Pads(blocks: seq<Block>, plain: seq<byte>, isPadding: bool, armed: bool)

  function Terminal(c: Setting): byte {
    if c.traffic.enableXtls then COMMAND_DIRECT else COMMAND_END
  }

  predicate StartsRecord(c: Setting, b: seq<byte>) {
    c.traffic.isTLS && |b| >= 6 && b[..3] == APPLICATION_DATA && c.complete
  }

  /** For compatibility with earlier receivers padding ends one packet early. */
  predicate GivesUp(c: Setting) {
    !c.traffic.isTLS12orAbove && c.traffic.packetsToFilter <= 1
  }

  function BlockFor(c: Setting, command: byte, b: seq<byte>, long: bool, i: nat): (k: Block)
    requires SafeSeeds(c.seeds)
    ensures k.command == command && k.content == b && (|b| <= ROOM ==> ValidBlock(k))
  {
    PaddingNeverNegative(c.seeds);
    Padded(command, b, long, c.seeds, DrawAt(c.random, i))
  }

  /** What one turn of the loop decides about piece `b`: its command and padding mode,
      and the variables of the next turn. */
  datatype Turn = Turn(command: byte, padLong: bool, isPadding: bool, armed: bool, long: bool, stop: bool)

  function Decide(c: Setting, b: seq<byte>, last: bool, isPadding: bool, armed: bool, long: bool): Turn {
    if StartsRecord(c, b) then
      Turn(if last then Terminal(c) else COMMAND_CONTINUE, true, false, armed || c.traffic.enableXtls, false, false)
    else if GivesUp(c) then Turn(COMMAND_END, long, false, armed, long, true)
    else Turn(if last && !isPadding then Terminal(c) else COMMAND_CONTINUE, long, isPadding, armed, long, false)
  }

  /** The loop from piece `i` on. */
  function PadFrom(c: Setting, pieces: seq<seq<byte>>, i: nat, isPadding: bool, armed: bool, long: bool): Pads
    requires SafeSeeds(c.seeds) && i <= |pieces|
    decreases |pieces| - i
  {
    if i == |pieces| then Pads([], [], isPadding, armed)
    else
      var t := Decide(c, pieces[i], i == |pieces| - 1, isPadding, armed, long);
      var k := BlockFor(c, t.command, pieces[i], t.padLong, i);
      if t.stop then Pads([k], Concat(pieces[i + 1..]), t.isPadding, t.armed)
      else
        var p := PadFrom(c, pieces, i + 1, t.isPadding, t.armed, t.long);
        p.(blocks := [k] + p.blocks)
  }

  /** What a call's pads must look like, whichever way the loop went. */
  predicate GoodPads(p: Pads, data: seq<byte>) {
    && p.blocks != []
    && Grammar(p.blocks, p.plain)
    && (p.isPadding <==> !Terminated(p.blocks))
    && (p.armed <==> p.blocks[|p.blocks| - 1].command == COMMAND_DIRECT)
    && (p.armed ==> p.plain == [])
    && Contents(p.blocks) + p.plain == data
  }

  lemma {:induction false} ConsPads(k: Block, p: Pads, rest: seq<byte>)
    requires k.command == COMMAND_CONTINUE && ValidBlock(k) && GoodPads(p, rest)
    ensures GoodPads(p.(blocks := [k] + p.blocks), k.content + rest)
  {
    var bs := [k] + p.blocks;
    assert bs[1..] == p.blocks && bs[|bs| - 1] == p.blocks[|p.blocks| - 1];
    assert Contents(bs) + p.plain == k.content + (Contents(p.blocks) + p.plain);
  }

  lemma {:induction false} LastPads(k: Block, plain: seq<byte>, isPadding: bool, armed: bool)
    requires ValidBlock(k) && (isPadding <==> k.command == COMMAND_CONTINUE)
    requires (armed <==> k.command == COMMAND_DIRECT) && (plain != [] ==> !isPadding && !armed)
    ensures GoodPads(Pads([k], plain, isPadding, armed), k.content + plain)
  {
    var none: seq<Block> := [];
    assert [k][1..] == none;
    assert Contents([k]) == k.content + Contents(none);
  }

  lemma {:induction false} ConcatFrom(pieces: seq<seq<byte>>, i: nat)
    requires i < |pieces|
    ensures Concat(pieces[i..]) == pieces[i] + Concat(pieces[i + 1..])
    ensures i == |pieces| - 1 ==> Concat(pieces[i..]) == pieces[i]
  {
    assert pieces[i..][1..] == pieces[i + 1..];
  }

  /** The loop emits Continue blocks, then at most one terminal block, then plain bytes;
      it ends padding exactly with a terminal block, and arms direct copy exactly with a
      Direct one. */
  lemma {:induction false} PadFromIsGood(c: Setting, pieces: seq<seq<byte>>, i: nat, isPadding: bool, armed: bool,
                                         long: bool)
    requires SafeSeeds(c.seeds) && Sound(c.traffic) && i < |pieces|
    requires forall k :: 0 <= k < |pieces| ==> |pieces[k]| <= ROOM
    requires armed <==> !isPadding && c.traffic.enableXtls
    ensures GoodPads(PadFrom(c, pieces, i, isPadding, armed, long), Concat(pieces[i..]))
    decreases |pieces| - i
  {
    var t := Decide(c, pieces[i], i == |pieces| - 1, isPadding, armed, long);
    var k := BlockFor(c, t.command, pieces[i], t.padLong, i);
    ConcatFrom(pieces, i);
    if t.stop {
      LastPads(k, Concat(pieces[i + 1..]), t.isPadding, t.armed);
    } else if i == |pieces| - 1 {
      LastPads(k, [], t.isPadding, t.armed);
      assert pieces[i] + [] == pieces[i] && [k] + [] == [k];
    } else {
      PadFromIsGood(c, pieces, i + 1, t.isPadding, t.armed, t.long);
      ConsPads(k, PadFrom(c, pieces, i + 1, t.isPadding, t.armed, t.long), Concat(pieces[i + 1..]));
    }
  }

  lemma {:induction false} WiresSnoc(blocks: seq<Block>, b: Block)
    ensures Wires(blocks + [b]) == Wires(blocks) + Wire(b)
  {
    var all := blocks + [b];
    if blocks == [] {
      var none: seq<Block> := [];
      assert all[0] == b && all[1..] == none;
      assert Wires(all) == Wire(b) + Wires(none);
      assert Wire(b) + [] == Wire(b) && [] + Wire(b) == Wire(b);
    } else {
      WiresSnoc(blocks[1..], b);
      var x, y, z := Wire(blocks[0]), Wires(blocks[1..]), Wire(b);
      assert all[0] == blocks[0] && all[1..] == blocks[1..] + [b];
      Assoc(x, y, z);
    }
  }

  /** With `done` already emitted, the loop at index `i` will come to `want`. */
  ghost predicate Padding(want: Pads, done: seq<Block>, c: Setting, pieces: seq<seq<byte>>, i: nat,
                          isPadding: bool, armed: bool, long: bool)
    requires SafeSeeds(c.seeds) && i <= |pieces|
  {
    var q := PadFrom(c, pieces, i, isPadding, armed, long);
    want == q.(blocks := done + q.blocks)
  }

  lemma {:induction false} PaddingTurn(want: Pads, done: seq<Block>, c: Setting, pieces: seq<seq<byte>>, i: nat,
                                       isPadding: bool, armed: bool, long: bool)
    requires SafeSeeds(c.seeds) && i < |pieces| && Padding(want, done, c, pieces, i, isPadding, armed, long)
    ensures var t := Decide(c, pieces[i], i == |pieces| - 1, isPadding, armed, long);
            var k := BlockFor(c, t.command, pieces[i], t.padLong, i);
            if t.stop then want == Pads(done + [k], Concat(pieces[i + 1..]), t.isPadding, t.armed)
            else Padding(want, done + [k], c, pieces, i + 1, t.isPadding, t.armed, t.long)
  {
    var q := PadFrom(c, pieces, i, isPadding, armed, long).blocks;
    Assoc(done, [q[0]], q[1..]);
  }

  /** The branches of one turn. */
  method Choose(c: Setting, b: seq<byte>, last: bool, isPadding: bool, armed: bool, long: bool) returns (t: Turn)
    ensures t == Decide(c, b, last, isPadding, armed, long)
  {
    t := Turn(COMMAND_CONTINUE, long, isPadding, armed, long, false);
    if c.traffic.isTLS && |b| >= 6 && b[..3] == APPLICATION_DATA && c.complete {
      if c.traffic.enableXtls {
        t := t.(armed := true);
      }
      if last {
        t := t.(command := COMMAND_END);
        if c.traffic.enableXtls {
          t := t.(command := COMMAND_DIRECT);
        }
      }
      t := t.(padLong := true, isPadding := false, long := false);
    } else if !c.traffic.isTLS12orAbove && c.traffic.packetsToFilter <= 1 {
      t := t.(isPadding := false, command := COMMAND_END, stop := true);
    } else if last && !isPadding {
      t := t.(command := COMMAND_END);
      if c.traffic.enableXtls {
        t := t.(command := COMMAND_DIRECT);
      }
    }
  }

  /** The variables of the loop, with what has been written so far. */
  datatype Loop = Loop(wire: seq<byte>, pending: seq<byte>, isPadding: bool, armed: bool, long: bool)

  /** At index `i` the loop has emitted `done` and will come to `want`. */
  ghost predicate Looping(want: Pads, done: seq<Block>, c: Setting, pieces: seq<seq<byte>>, i: nat, uuid: seq<byte>,
                          l: Loop)
    requires SafeSeeds(c.seeds) && i <= |pieces|
  {
    && Padding(want, done, c, pieces, i, l.isPadding, l.armed, l.long)
    && l.pending == (if i == 0 then uuid else [])
    && l.wire + l.pending == uuid + Wires(done)
  }

  method WriteBlock(c: Setting, command: byte, b: seq<byte>, long: bool, i: nat, pending: seq<byte>)
    returns (w: seq<byte>)
    requires SafeSeeds(c.seeds) && |pending| <= 16 && |b| <= ROOM
    ensures w == pending + Wire(BlockFor(c, command, b, long, i))
  {
    PaddingNeverNegative(c.seeds);
    w := XtlsPadding(b, command, pending, long, c.seeds, DrawAt(c.random, i));
  }

  /** One turn: one block written; the UUID goes out with the first. */
  method PadPiece(ghost want: Pads, ghost done: seq<Block>, c: Setting, pieces: seq<seq<byte>>, i: nat,
                  ghost uuid: seq<byte>, l: Loop) returns (m: Loop, stop: bool, ghost done': seq<Block>)
    requires SafeSeeds(c.seeds) && i < |pieces| && |uuid| <= 16 && |pieces[i]| <= ROOM
    requires Looping(want, done, c, pieces, i, uuid, l)
    ensures m.wire == uuid + Wires(done')
    ensures if stop then want == Pads(done', Concat(pieces[i + 1..]), m.isPadding, m.armed)
            else Looping(want, done', c, pieces, i + 1, uuid, m)
  {
    PaddingTurn(want, done, c, pieces, i, l.isPadding, l.armed, l.long);
    var t := Choose(c, pieces[i], i == |pieces| - 1, l.isPadding, l.armed, l.long);
    var w := WriteBlock(c, t.command, pieces[i], t.padLong, i, l.pending);
    ghost var k := BlockFor(c, t.command, pieces[i], t.padLong, i);
    WiresSnoc(done, k);
    SendBlock(l.wire, l.pending, uuid, Wires(done), Wire(k));
    m, stop, done' := Loop(l.wire + w, [], t.isPadding, t.armed, t.long), t.stop, done + [k];
  }

  lemma {:induction false} SendBlock(wire: seq<byte>, pending: seq<byte>, uuid: seq<byte>, ws: seq<byte>, w: seq<byte>)
    requires wire + pending == uuid + ws
    ensures wire + (pending + w) == uuid + (ws + w)
    ensures wire + (pending + w) + [] == uuid + (ws + w)
  {
    Assoc(wire, pending, w);
  }

  /** The loop over the reshaped pieces: the bytes it writes, and the two flags it sets. */
  method PadPieces(c: Setting, pieces: seq<seq<byte>>, uuid: seq<byte>)
    returns (wire: seq<byte>, isPadding: bool, armed: bool)
    requires SafeSeeds(c.seeds) && |uuid| <= 16
    requires forall k :: 0 <= k < |pieces| ==> |pieces[k]| <= ROOM
    ensures var p := PadFrom(c, pieces, 0, true, false, c.traffic.isTLS);
            && isPadding == p.isPadding && armed == p.armed
            && wire == if pieces == [] then [] else uuid + Wires(p.blocks) + p.plain
  {
    var l := Loop([], uuid, true, false, c.traffic.isTLS);
    ghost var want, done: seq<Block> := PadFrom(c, pieces, 0, true, false, l.long), [];
    assert done + want.blocks == want.blocks;
    for i := 0 to |pieces|
      invariant Looping(want, done, c, pieces, i, uuid, l)
      invariant i == 0 ==> l.wire == []
    {
      var stop;
      l, stop, done := PadPiece(want, done, c, pieces, i, uuid, l);
      if stop {
        return l.wire + Concat(pieces[i + 1..]), l.isPadding, l.armed;
      }
    }
    assert done + [] == done && l.wire + [] == l.wire;
    return l.wire, l.isPadding, l.armed;
  }
}
