/** VisionReader (proxy/proxy.go): deciding, read by read, whether the stream is still
    padded, has gone plain, or has gone to direct copy. */
module VisionReader {
  import opened Bytes
  import opened BufferedReaders
  import opened VisionUnpadding
  import opened VisionStream

  /** WithinPaddingBuffers and ReaderDirectCopy beside the unpadding state. */
  datatype Phase = Phase(state: ReadState, within: bool, direct: bool)

  const NEW_PHASE := Phase(FRESH, true, false)

  /** The phase test after a read that was unpadded; it does not look at
      RemainingCommand. */
  function Switch(p: Phase): Phase {
    if p.state.content > 0 || p.state.padding > 0 || p.state.current == 0 then p.(within := true)
    else if p.state.current == 1 then p.(within := false)
    else if p.state.current == 2 then p.(within := false, direct := true)
    else p
  }

  /** Does this read go through XtlsUnpadding? `filtering` is NumberOfPacketToFilter > 0. */
  predicate Unpads(p: Phase, filtering: bool) {
    !p.direct && (p.within || filtering)
  }

  datatype Delivered = Delivered(phase: Phase, out: seq<byte>)

  /** One call of ReadMultiBuffer on the buffers it got. */
  function ReadCall(uuid: seq<byte>, p: Phase, filtering: bool, mb: seq<seq<byte>>): (d: Delivered)
    requires ValidState(p.state)
    ensures ValidState(d.phase.state)
  {
    if Concat(mb) == [] then Delivered(p, [])
    else if Unpads(p, filtering) then
      var u := UnpadAll(uuid, p.state, mb);
      Delivered(Switch(p.(state := u.state)), u.out)
    else Delivered(p, Concat(mb))
  }

  /** All reads of a connection; `filtering[i]` goes with `chunks[i]`. */
  function ReadAll(uuid: seq<byte>, p: Phase, filtering: seq<bool>, chunks: seq<seq<seq<byte>>>): Delivered
    requires ValidState(p.state) && |filtering| == |chunks|
    decreases |chunks|
  {
    if chunks == [] then Delivered(p, [])
    else
      var d := ReadCall(uuid, p, filtering[0], chunks[0]);
      var e := ReadAll(uuid, d.phase, filtering[1..], chunks[1..]);
      Delivered(e.phase, d.out + e.out)
  }

  /** With `done` delivered, the buffers `left` still owe the rest of `want`. */
  predicate Owed(uuid: seq<byte>, want: Unpadded, done: seq<byte>, s: ReadState, left: seq<seq<byte>>)
    requires ValidState(s)
  {
    var u := UnpadAll(uuid, s, left);
    want.state == u.state && want.out == done + u.out
  }

  lemma {:induction false} OwedTurn(uuid: seq<byte>, want: Unpadded, done: seq<byte>, s: ReadState,
                                    left: seq<seq<byte>>)
    requires ValidState(s) && left != [] && Owed(uuid, want, done, s, left)
    ensures var u := Unpad(uuid, s, left[0]); Owed(uuid, want, done + u.out, u.state, left[1..])
  {
    var u := Unpad(uuid, s, left[0]);
    Assoc(done, u.out, UnpadAll(uuid, u.state, left[1..]).out);
  }

  /** The direction's reader. */
  class Reader {
    const unpadder: Unpadder
    var within: bool
    var direct: bool

    ghost function Value(): Phase
      reads this, unpadder
    {
      Phase(unpadder.state, within, direct)
    }

    constructor (unpadder: Unpadder)
      ensures this.unpadder == unpadder && within && !direct
    {
      this.unpadder, within, direct := unpadder, true, false;
    }

    /** The calls of XtlsUnpadding; what comes out empty is dropped. */
    method UnpadEach(mb: seq<seq<byte>>) returns (out: seq<seq<byte>>)
      requires ValidState(unpadder.state)
      modifies unpadder
      ensures ValidState(unpadder.state)
      ensures Unpadded(unpadder.state, Concat(out)) == UnpadAll(unpadder.userUuid, old(unpadder.state), mb)
    {
      out := [];
      ghost var uuid := unpadder.userUuid;
      ghost var want := UnpadAll(uuid, unpadder.state, mb);
      assert mb[0..] == mb && [] + want.out == want.out;
      for i := 0 to |mb|
        invariant ValidState(unpadder.state) && Owed(uuid, want, Concat(out), unpadder.state, mb[i..])
      {
        OwedTurn(uuid, want, Concat(out), unpadder.state, mb[i..]);
        assert mb[i..][0] == mb[i] && mb[i..][1..] == mb[i + 1..];
        var piece := unpadder.XtlsUnpadding(mb[i]);
        ConcatSnoc(out, piece);
        if |piece| > 0 {
          out := out + [piece];
        } else {
          assert Concat(out) + piece == Concat(out);
        }
      }
      assert mb[|mb|..] == [] && Concat(out) + [] == Concat(out);
    }

    method ReadMultiBuffer(mb: seq<seq<byte>>, filtering: bool) returns (out: seq<seq<byte>>)
      requires ValidState(unpadder.state)
      modifies this, unpadder
      ensures ValidState(unpadder.state)
      ensures Delivered(Value(), Concat(out)) == ReadCall(unpadder.userUuid, old(Value()), filtering, mb)
    {
      if |Concat(mb)| == 0 {
        assert Concat(mb) == [];
        return mb;
      }
      if direct || !(within || filtering) {
        return mb;
      }
      out := UnpadEach(mb);
      if unpadder.state.content > 0 || unpadder.state.padding > 0 || unpadder.state.current == 0 {
        within := true;
      } else if unpadder.state.current == 1 {
        within := false;
      } else if unpadder.state.current == 2 {
        within := false;
        direct := true;
      }
    }
  }

  // ------------------------------------------------------------ when the reads are right

  /** What each read delivers. */
  function Deliveries(uuid: seq<byte>, p: Phase, filtering: seq<bool>, chunks: seq<seq<seq<byte>>>): seq<seq<byte>>
    requires ValidState(p.state) && |filtering| == |chunks|
    decreases |chunks|
  {
    if chunks == [] then []
    else
      var d := ReadCall(uuid, p, filtering[0], chunks[0]);
      [d.out] + Deliveries(uuid, d.phase, filtering[1..], chunks[1..])
  }

  /** What each read should deliver: its share of one continuous unpadding. */
  function Shares(s: ReadState, chunks: seq<seq<seq<byte>>>): seq<seq<byte>>
    requires ValidState(s)
    decreases |chunks|
  {
    if chunks == [] then []
    else
      var u := Run(s, Concat(chunks[0]));
      [u.out] + Shares(u.state, chunks[1..])
  }

  lemma {:induction false} DeliveriesJoined(uuid: seq<byte>, p: Phase, filtering: seq<bool>,
                                            chunks: seq<seq<seq<byte>>>)
    requires ValidState(p.state) && |filtering| == |chunks|
    ensures Concat(Deliveries(uuid, p, filtering, chunks)) == ReadAll(uuid, p, filtering, chunks).out
    decreases |chunks|
  {
    if chunks != [] {
      DeliveriesJoined(uuid, ReadCall(uuid, p, filtering[0], chunks[0]).phase, filtering[1..], chunks[1..]);
    }
  }

  lemma {:induction false} SharesJoined(s: ReadState, chunks: seq<seq<seq<byte>>>)
    requires ValidState(s)
    ensures Concat(Shares(s, chunks)) == Run(s, ConcatAll(chunks)).out
    decreases |chunks|
  {
    if chunks != [] {
      RunAppend(s, Concat(chunks[0]), ConcatAll(chunks[1..]));
      SharesJoined(Run(s, Concat(chunks[0])).state, chunks[1..]);
    }
  }

  /** A read either unpads cleanly or passes bytes through after the padding's end. */
  predicate GoodRead(uuid: seq<byte>, p: Phase, filtering: bool, mb: seq<seq<byte>>)
    requires ValidState(p.state)
  {
    Concat(mb) != [] ==> if Unpads(p, filtering) then Clean(uuid, p.state, mb) else Idle(p.state)
  }

  predicate GoodReads(uuid: seq<byte>, p: Phase, filtering: seq<bool>, chunks: seq<seq<seq<byte>>>)
    requires ValidState(p.state) && |filtering| == |chunks|
    decreases |chunks|
  {
    chunks == [] ||
    (&& GoodRead(uuid, p, filtering[0], chunks[0])
     && GoodReads(uuid, ReadCall(uuid, p, filtering[0], chunks[0]).phase, filtering[1..], chunks[1..]))
  }

  /** Padding is only ever given up between blocks or inside a header. */
  predicate PhaseInv(p: Phase) {
    ValidState(p.state) && (p.direct || !p.within ==> Idle(p.state) || 0 < p.state.command)
  }

  lemma {:induction false} ReadCallKeeps(uuid: seq<byte>, p: Phase, filtering: bool, mb: seq<seq<byte>>)
    requires PhaseInv(p)
    ensures PhaseInv(ReadCall(uuid, p, filtering, mb).phase)
    ensures |ReadCall(uuid, p, filtering, mb).out| <= |Concat(mb)|
  {
    UnpadAllShrinks(uuid, p.state, mb);
  }

  /** A good read is a piece of the continuous unpadding; a bad one delivers too few bytes or
      too many. */
  lemma {:induction false} ReadIsRun(uuid: seq<byte>, p: Phase, filtering: bool, mb: seq<seq<byte>>)
    requires PhaseInv(p)
    ensures var d, u := ReadCall(uuid, p, filtering, mb), Run(p.state, Concat(mb));
            && (GoodRead(uuid, p, filtering, mb) ==> u == Unpadded(d.phase.state, d.out))
            && (!GoodRead(uuid, p, filtering, mb) ==>
                  if Unpads(p, filtering) then |d.out| < |u.out| else |u.out| < |d.out| == |Concat(mb)|)
  {
    if Concat(mb) != [] {
      if Unpads(p, filtering) {
        SplitIrrelevant(uuid, p.state, mb);
        UncleanLoses(uuid, p.state, mb);
      } else if !Idle(p.state) {
        RunHeaderByte(p.state, Concat(mb));
      }
    }
  }

  /** READER PHASES. For any reads of a stream, in buffers of any sizes, every read delivers
      its share of one continuous unpadding if and only if every read is good. */
  lemma {:induction false} ReaderExact(uuid: seq<byte>, p: Phase, filtering: seq<bool>, chunks: seq<seq<seq<byte>>>)
    requires PhaseInv(p) && |filtering| == |chunks|
    ensures Deliveries(uuid, p, filtering, chunks) == Shares(p.state, chunks) <==> GoodReads(uuid, p, filtering, chunks)
    decreases |chunks|
  {
    if chunks != [] {
      var d := ReadCall(uuid, p, filtering[0], chunks[0]);
      ReadIsRun(uuid, p, filtering[0], chunks[0]);
      if GoodRead(uuid, p, filtering[0], chunks[0]) {
        ReadCallKeeps(uuid, p, filtering[0], chunks[0]);
        ReaderExact(uuid, d.phase, filtering[1..], chunks[1..]);
        var x, y := Deliveries(uuid, d.phase, filtering[1..], chunks[1..]), Shares(d.phase.state, chunks[1..]);
        assert ([d.out] + x)[1..] == x && ([d.out] + y)[1..] == y;
      } else {
        assert Deliveries(uuid, p, filtering, chunks)[0] != Shares(p.state, chunks)[0];
      }
    }
  }

  // -------------------------------------------------- the delivered bytes as a whole

  predicate Standard(chunks: seq<seq<seq<byte>>>) {
    forall i, j :: 0 <= i < |chunks| && 0 <= j < |chunks[i]| ==> |chunks[i][j]| <= BUF_SIZE
  }

  /** Once the packet budget is spent, filtering never resumes. */
  predicate Monotone(filtering: seq<bool>) {
    forall i, j :: 0 <= i < j < |filtering| && filtering[j] ==> filtering[i]
  }

  lemma {:induction false} ReadAllShrinks(uuid: seq<byte>, p: Phase, filtering: seq<bool>, chunks: seq<seq<seq<byte>>>)
    requires PhaseInv(p) && |filtering| == |chunks|
    ensures |ReadAll(uuid, p, filtering, chunks).out| <= |ConcatAll(chunks)|
    decreases |chunks|
  {
    if chunks != [] {
      ReadCallKeeps(uuid, p, filtering[0], chunks[0]);
      ReadAllShrinks(uuid, ReadCall(uuid, p, filtering[0], chunks[0]).phase, filtering[1..], chunks[1..]);
    }
  }

  /** A stream that has stopped being unpadded stays so. */
  lemma {:induction false} RawForever(uuid: seq<byte>, p: Phase, filtering: seq<bool>, chunks: seq<seq<seq<byte>>>)
    requires ValidState(p.state) && |filtering| == |chunks|
    requires p.direct || (!p.within && forall i :: 0 <= i < |filtering| ==> !filtering[i])
    ensures ReadAll(uuid, p, filtering, chunks).out == ConcatAll(chunks)
    decreases |chunks|
  {
    if chunks != [] {
      assert filtering != [] ==> forall i :: 0 <= i < |filtering[1..]| ==> filtering[1..][i] == filtering[i + 1];
      RawForever(uuid, p, filtering[1..], chunks[1..]);
    }
  }

  /** With standard buffers an unclean cut means that raw bytes have begun. */
  lemma {:induction false} UncleanIsIdle(uuid: seq<byte>, s: ReadState, mb: seq<seq<byte>>)
    requires ValidState(s) && !Clean(uuid, s, mb) && forall j :: 0 <= j < |mb| ==> |mb[j]| <= BUF_SIZE
    ensures Idle(Run(s, Concat(mb)).state)
    decreases |mb|
  {
    RunAppend(s, mb[0], Concat(mb[1..]));
    if CleanCall(uuid, s, mb[0]) {
      UncleanIsIdle(uuid, Run(s, mb[0]).state, mb[1..]);
    }
  }

  /** After a bad read the delivered bytes are too few or too many. */
  lemma {:induction false} BadReadShows(uuid: seq<byte>, p: Phase, filtering: seq<bool>, chunks: seq<seq<seq<byte>>>)
    requires PhaseInv(p) && |filtering| == |chunks| > 0 && Monotone(filtering) && Standard(chunks)
    requires !GoodRead(uuid, p, filtering[0], chunks[0])
    ensures |ReadAll(uuid, p, filtering, chunks).out| != |Run(p.state, ConcatAll(chunks)).out|
  {
    var mb, rest, flags := chunks[0], ConcatAll(chunks[1..]), filtering[1..];
    ReadIsRun(uuid, p, filtering[0], mb);
    RunAppend(p.state, Concat(mb), rest);
    if Unpads(p, filtering[0]) {
      ReadCallKeeps(uuid, p, filtering[0], mb);
      UncleanIsIdle(uuid, p.state, mb);
      ReadAllShrinks(uuid, ReadCall(uuid, p, filtering[0], mb).phase, flags, chunks[1..]);
    } else {
      assert forall i :: 0 <= i < |flags| ==> flags[i] == filtering[i + 1];
      RawForever(uuid, p, flags, chunks[1..]);
    }
  }

  /** In standard buffers the delivered bytes are right as a whole only if they are right
      read by read. */
  lemma {:induction false} TotalExact(uuid: seq<byte>, p: Phase, filtering: seq<bool>, chunks: seq<seq<seq<byte>>>)
    requires PhaseInv(p) && |filtering| == |chunks| && Monotone(filtering) && Standard(chunks)
    ensures ReadAll(uuid, p, filtering, chunks).out == Run(p.state, ConcatAll(chunks)).out
            <==> GoodReads(uuid, p, filtering, chunks)
    decreases |chunks|
  {
    if chunks != [] {
      if GoodRead(uuid, p, filtering[0], chunks[0]) {
        var rest, d := ConcatAll(chunks[1..]), ReadCall(uuid, p, filtering[0], chunks[0]);
        ReadIsRun(uuid, p, filtering[0], chunks[0]);
        RunAppend(p.state, Concat(chunks[0]), rest);
        ReadCallKeeps(uuid, p, filtering[0], chunks[0]);
        TotalExact(uuid, d.phase, filtering[1..], chunks[1..]);
        var x, y, z := d.out, ReadAll(uuid, d.phase, filtering[1..], chunks[1..]).out, Run(d.phase.state, rest).out;
        assert (x + y)[|x|..] == y && (x + z)[|x|..] == z;
      } else {
        BadReadShows(uuid, p, filtering, chunks);
      }
    }
  }

  /** The phase test ignores the header counter: a read that ends right after the command
      byte of a Direct block makes the reader give up unpadding, and the rest of the block
      is delivered as if it were data. */
  lemma {:induction false} EarlySwitch(uuid: seq<byte>, s: ReadState, content: seq<byte>, padding: nat, filtering: bool)
    requires Mid(s) && s.command == 5 && s.content <= 0 && s.padding <= 0
    requires |content| < 65536 && padding < 65536
    ensures var wire := Wire(Block(COMMAND_DIRECT, content, padding));
            var d := ReadAll(uuid, Phase(s, true, false), [filtering, filtering], [[wire[..1]], [wire[1..]]]);
            d.phase.direct && d.out == wire[1..] != content
  {
    var wire := Wire(Block(COMMAND_DIRECT, content, padding));
    var a, b: seq<seq<byte>> := [wire[..1]], [wire[1..]];
    var p := Phase(s, true, false);
    var none: seq<seq<byte>>, nil: seq<byte> := [], [];
    assert a[1..] == none && b[1..] == none;
    ConcatOne(wire[..1]);
    ConcatOne(wire[1..]);
    var t := HeaderByte(s, COMMAND_DIRECT);
    assert wire[..1] == [COMMAND_DIRECT];
    RunHeaderByte(s, wire[..1]);
    assert wire[..1][1..] == nil;
    assert Run(s, wire[..1]) == Unpadded(t, []);
    assert UnpadAll(uuid, s, a) == Unpadded(t, [] + nil);
    var q := Phase(t, false, true);
    assert ReadCall(uuid, p, filtering, a) == Delivered(q, []);
    assert ReadCall(uuid, q, filtering, b) == Delivered(q, wire[1..]);
    var flags := [filtering, filtering];
    var chunks := [a, b];
    assert chunks[1..] == [b] && flags[1..] == [filtering];
    assert |chunks[1..]| == 1 && |flags[1..]| == 1;
    RawForever(uuid, q, flags[1..], chunks[1..]);
    assert ConcatAll(chunks[1..]) == Concat(b) + nil;
    assert [] + wire[1..] == wire[1..];
  }

  // ----------------------------------------------------- a condition on offsets alone

  /** Where the last block begins, counted from the end of the UUID. */
  function LastStart(blocks: seq<Block>): nat
    requires blocks != []
  {
    if |blocks| == 1 then 0 else |Wire(blocks[0])| + LastStart(blocks[1..])
  }

  function Last(blocks: seq<Block>): Block
    requires blocks != []
  {
    blocks[|blocks| - 1]
  }

  /** After `n` bytes of the header neither counter shows that the block goes on. */
  predicate Pending(b: Block, n: int) {
    0 < n < 5 && (n == 2 ==> |b.content| < 256) && (3 <= n ==> b.content == []) && (n == 4 ==> b.padding < 256)
  }

  /** A read of a padded stream that ends at offset `at` finds the counters spent. */
  predicate GaveUp(blocks: seq<Block>, at: int)
    requires blocks != []
  {
    |Wires(blocks)| <= at || Pending(Last(blocks), at - LastStart(blocks))
  }

  /** The read that begins at offset `at` is not unpadded. */
  predicate Stops(blocks: seq<Block>, at: int, filtering: bool)
    requires blocks != []
  {
    && GaveUp(blocks, at)
    && (Last(blocks).command == COMMAND_DIRECT || (Last(blocks).command == COMMAND_END && !filtering))
  }

  /** The reads of `chunks`, the first of which begins at offset `at`: a read that is not
      unpadded begins behind the blocks, and the others have good buffers. */
  predicate ReadsWell(uuid: seq<byte>, blocks: seq<Block>, at: nat, filtering: seq<bool>, chunks: seq<seq<seq<byte>>>)
    requires blocks != [] && |filtering| == |chunks|
    decreases |chunks|
  {
    chunks == [] ||
    (&& ReadsWellAt(uuid, blocks, at, filtering[0], chunks[0])
     && ReadsWell(uuid, blocks, at + |Concat(chunks[0])|, filtering[1..], chunks[1..]))
  }

  predicate ReadsWellAt(uuid: seq<byte>, blocks: seq<Block>, at: nat, filtering: bool, mb: seq<seq<byte>>)
    requires blocks != []
  {
    Concat(mb) != [] ==>
      if Stops(blocks, at, filtering) then |Wires(blocks)| <= at else GoodBuffers(uuid, blocks, at, mb)
  }

  predicate Between(s: ReadState) {
    Mid(s) && s.command == 5 && s.current == 0 && s.content <= 0 && s.padding <= 0
  }

  /** The counters after some bytes of a header. */
  lemma {:induction false} HeaderPrefix(s: ReadState, b: Block)
    requires Between(s) && ValidBlock(b)
    ensures var h := Header(b);
            && Run(s, h[..1]).state == s.(command := 4, current := b.command)
            && Run(s, h[..2]).state == s.(command := 3, current := b.command, content := |b.content| / 256 * 256)
            && Run(s, h[..3]).state == s.(command := 2, current := b.command, content := |b.content|)
            && Run(s, h[..4]).state
               == s.(command := 1, current := b.command, content := |b.content|, padding := b.padding / 256 * 256)
  {
    var h := Header(b);
    var s1 := OneHeaderByte(s, h, 0);
    var s2 := OneHeaderByte(s, h, 1);
    var s3 := OneHeaderByte(s, h, 2);
    var s4 := OneHeaderByte(s, h, 3);
  }

  lemma {:induction false} OneHeaderByte(s: ReadState, h: seq<byte>, k: nat) returns (t: ReadState)
    requires Between(s) && k < 4 && |h| == 5
    requires var r := Run(s, h[..k]).state; Mid(r) && r.command == 5 - k
    ensures t == Run(s, h[..k + 1]).state == HeaderByte(Run(s, h[..k]).state, h[k])
    ensures Mid(t) && t.command == 4 - k
  {
    var r := Run(s, h[..k]).state;
    t := HeaderByte(r, h[k]);
    assert h[..k] + [h[k]] == h[..k + 1];
    RunAppend(s, h[..k], [h[k]]);
    RunHeaderByte(r, [h[k]]);
    assert [h[k]][1..] == [];
  }

  /** The phase test inside a block. */
  lemma {:induction false} InsideSwitch(s: ReadState, b: Block, p: seq<byte>)
    requires Between(s) && ValidBlock(b) && |p| < |Wire(b)| && p == Wire(b)[..|p|]
    ensures var t := Run(s, p).state;
            && ((t.content > 0 || t.padding > 0 || t.current == 0) <==> (b.command == 0 || !Pending(b, |p|)))
            && (0 < |p| ==> t.current == b.command)
  {
    if 0 < |p| < 5 {
      HeaderPrefix(s, b);
      assert p == Header(b)[..|p|];
    } else {
      InsideBlock(s, b, p);
    }
  }

  lemma {:induction false} GaveUpTail(blocks: seq<Block>, at: int)
    requires 1 < |blocks|
    ensures Last(blocks[1..]) == Last(blocks)
    ensures at < |Wire(blocks[0])| ==> !GaveUp(blocks, at)
    ensures GaveUp(blocks, at) <==> GaveUp(blocks[1..], at - |Wire(blocks[0])|)
  {
  }

  /** What the phase test finds at offset `at`: it is over or not, and with which command. */
  predicate Tests(t: ReadState, blocks: seq<Block>, at: int)
    requires blocks != []
  {
    var over := GaveUp(blocks, at) && Last(blocks).command != COMMAND_CONTINUE;
    && ((t.content > 0 || t.padding > 0 || t.current == 0) <==> !over)
    && (over ==> t.current == Last(blocks).command)
  }

  lemma {:induction false} SwitchInFirst(s: ReadState, blocks: seq<Block>, raw: seq<byte>, q: seq<byte>)
    requires Between(s) && blocks != [] && Grammar(blocks, raw) && q <= Wires(blocks) + raw
    requires |q| < |Wire(blocks[0])|
    ensures Tests(Run(s, q).state, blocks, |q|)
  {
    FirstBlock(blocks, raw);
    var w, rest := Wire(blocks[0]), Wires(blocks[1..]) + raw;
    assert q == (w + rest)[..|q|] == w[..|q|];
    InsideSwitch(s, blocks[0], q);
    if blocks[1..] != [] {
      GaveUpTail(blocks, |q|);
    } else {
      assert Wires(blocks[1..]) == [] && |Wires(blocks)| == |w|;
    }
  }

  /** The phase test anywhere in a transcript. */
  lemma {:induction false} SwitchPoint(s: ReadState, blocks: seq<Block>, raw: seq<byte>, q: seq<byte>)
    requires Between(s) && blocks != [] && Grammar(blocks, raw) && q <= Wires(blocks) + raw
    ensures Tests(Run(s, q).state, blocks, |q|)
    decreases |blocks|
  {
    var b, tail := blocks[0], blocks[1..];
    var w := Wire(b);
    if |q| < |w| {
      SwitchInFirst(s, blocks, raw, q);
    } else {
      FirstBlock(blocks, raw);
      PrefixSplit(q, w, Wires(tail) + raw);
      RunBlock(s, b);
      RunAppend(s, w, q[|w|..]);
      if tail != [] {
        GaveUpTail(blocks, |q|);
        SwitchPoint(After(b), tail, raw, q[|w|..]);
      } else {
        assert Wires(tail) == [] && |Wires(blocks)| == |w|;
      }
    }
  }

  /** The phase after good reads up to `past`. */
  predicate PhaseAt(blocks: seq<Block>, past: seq<byte>, p: Phase)
    requires blocks != []
  {
    p.state == Run(START, past).state && Shows(p, GaveUp(blocks, |past|), Last(blocks).command)
  }

  /** The two flags when padding is `over` and the last command is `k`. */
  predicate Shows(p: Phase, over: bool, k: byte) {
    && (p.direct <==> over && k == COMMAND_DIRECT)
    && (p.within <==> !(over && (k == COMMAND_DIRECT || k == COMMAND_END)))
  }

  lemma {:induction false} SwitchShows(p: Phase, filtering: bool, t: ReadState, k: byte, was: bool, over: bool)
    requires Shows(p, was, k) && Unpads(p, filtering)
    requires (t.content > 0 || t.padding > 0 || t.current == 0) <==> !(over && k != COMMAND_CONTINUE)
    requires over && k != COMMAND_CONTINUE ==> t.current == k
    ensures Shows(Switch(p.(state := t)), over, k)
  {
  }

  lemma {:induction false} OneReadByOffset(uuid: seq<byte>, blocks: seq<Block>, raw: seq<byte>, past: seq<byte>,
                                           p: Phase, filtering: bool, mb: seq<seq<byte>>)
    requires blocks != [] && Grammar(blocks, raw) && past + Concat(mb) <= Wires(blocks) + raw
    requires PhaseAt(blocks, past, p)
    ensures GoodRead(uuid, p, filtering, mb) <==> ReadsWellAt(uuid, blocks, |past|, filtering, mb)
  {
    assert past <= past + Concat(mb);
    CleanByOffset(uuid, blocks, raw, past, mb);
    IdleFromEnd(START, blocks, raw, past);
  }

  /** A good read that unpads. */
  lemma {:induction false} UnpaddedMoves(uuid: seq<byte>, blocks: seq<Block>, raw: seq<byte>, past: seq<byte>,
                                         p: Phase, filtering: bool, mb: seq<seq<byte>>)
    requires blocks != [] && Grammar(blocks, raw) && past + Concat(mb) <= Wires(blocks) + raw
    requires PhaseAt(blocks, past, p) && Unpads(p, filtering) && Clean(uuid, p.state, mb)
    ensures var t := UnpadAll(uuid, p.state, mb).state;
            PhaseAt(blocks, past + Concat(mb), Switch(p.(state := t)))
  {
    var q := past + Concat(mb);
    RunAppend(START, past, Concat(mb));
    SplitIrrelevant(uuid, p.state, mb);
    SwitchPoint(START, blocks, raw, q);
    SwitchShows(p, filtering, Run(START, q).state, Last(blocks).command, GaveUp(blocks, |past|), GaveUp(blocks, |q|));
  }

  lemma {:induction false} PhaseMoves(uuid: seq<byte>, blocks: seq<Block>, raw: seq<byte>, past: seq<byte>,
                                      p: Phase, filtering: bool, mb: seq<seq<byte>>)
    requires blocks != [] && Grammar(blocks, raw) && past + Concat(mb) <= Wires(blocks) + raw
    requires PhaseAt(blocks, past, p) && GoodRead(uuid, p, filtering, mb)
    ensures PhaseAt(blocks, past + Concat(mb), ReadCall(uuid, p, filtering, mb).phase)
  {
    var q := past + Concat(mb);
    if Concat(mb) == [] {
      assert q == past;
    } else if Unpads(p, filtering) {
      UnpaddedMoves(uuid, blocks, raw, past, p, filtering, mb);
    } else {
      RunAppend(START, past, Concat(mb));
      assert past <= q;
      IdleFromEnd(START, blocks, raw, past);
    }
  }

  /** The first read: with it the stream is spoilt, or all depends on the rest. */
  lemma {:induction false} FirstRead(uuid: seq<byte>, blocks: seq<Block>, raw: seq<byte>, past: seq<byte>, p: Phase,
                                     filtering: seq<bool>, chunks: seq<seq<seq<byte>>>)
    returns (good: bool, now: seq<byte>, next: Phase)
    requires blocks != [] && Grammar(blocks, raw) && |filtering| == |chunks| > 0
    requires past + ConcatAll(chunks) == Wires(blocks) + raw && PhaseAt(blocks, past, p) && PhaseInv(p)
    ensures now + ConcatAll(chunks[1..]) == Wires(blocks) + raw && PhaseInv(next)
    ensures good ==> PhaseAt(blocks, now, next)
    ensures GoodReads(uuid, p, filtering, chunks) <==>
            good && GoodReads(uuid, next, filtering[1..], chunks[1..])
    ensures ReadsWell(uuid, blocks, |past|, filtering, chunks) <==>
            good && ReadsWell(uuid, blocks, |now|, filtering[1..], chunks[1..])
  {
    var mb := chunks[0];
    good, now := GoodRead(uuid, p, filtering[0], mb), past + Concat(mb);
    next := ReadCall(uuid, p, filtering[0], mb).phase;
    Assoc(past, Concat(mb), ConcatAll(chunks[1..]));
    OneReadByOffset(uuid, blocks, raw, past, p, filtering[0], mb);
    ReadCallKeeps(uuid, p, filtering[0], mb);
    if good {
      PhaseMoves(uuid, blocks, raw, past, p, filtering[0], mb);
    }
  }

  lemma {:induction false} GoodByOffset(uuid: seq<byte>, blocks: seq<Block>, raw: seq<byte>, past: seq<byte>,
                                        p: Phase, filtering: seq<bool>, chunks: seq<seq<seq<byte>>>)
    requires blocks != [] && Grammar(blocks, raw) && |filtering| == |chunks|
    requires past + ConcatAll(chunks) == Wires(blocks) + raw
    requires PhaseAt(blocks, past, p) && PhaseInv(p)
    ensures GoodReads(uuid, p, filtering, chunks) <==> ReadsWell(uuid, blocks, |past|, filtering, chunks)
    decreases |chunks|
  {
    if chunks != [] {
      var good, now, next := FirstRead(uuid, blocks, raw, past, p, filtering, chunks);
      if good {
        GoodByOffset(uuid, blocks, raw, now, next, filtering[1..], chunks[1..]);
      }
    }
  }

  lemma {:induction false} GoodFromStart(uuid: seq<byte>, blocks: seq<Block>, raw: seq<byte>,
                                         filtering: seq<bool>, chunks: seq<seq<seq<byte>>>)
    requires blocks != [] && Grammar(blocks, raw) && |filtering| == |chunks|
    requires ConcatAll(chunks) == Wires(blocks) + raw
    ensures GoodReads(uuid, Phase(START, true, false), filtering, chunks)
            <==> ReadsWell(uuid, blocks, 0, filtering, chunks)
  {
    assert [] + ConcatAll(chunks) == ConcatAll(chunks);
    assert Run(START, []).state == START;
    GoodByOffset(uuid, blocks, raw, [], Phase(START, true, false), filtering, chunks);
  }

  /** Opening the stream is the same as starting right behind the UUID. */
  lemma {:induction false} StripUuid(uuid: seq<byte>, first: seq<byte>, more: seq<seq<byte>>,
                                     filtering: seq<bool>, chunks: seq<seq<seq<byte>>>)
    requires |uuid| == 16 && 5 <= |first| && |filtering| == |chunks| + 1
    ensures ReadAll(uuid, NEW_PHASE, filtering, [[uuid + first] + more] + chunks)
            == ReadAll(uuid, Phase(START, true, false), filtering, [[first] + more] + chunks)
    ensures Deliveries(uuid, NEW_PHASE, filtering, [[uuid + first] + more] + chunks)
            == Deliveries(uuid, Phase(START, true, false), filtering, [[first] + more] + chunks)
    ensures ConcatAll([[first] + more] + chunks) == first + Concat(more) + ConcatAll(chunks)
  {
    var a, b := [uuid + first] + more, [first] + more;
    assert (uuid + first)[..16] == uuid && (uuid + first)[16..] == first;
    assert a[0] == uuid + first && a[1..] == more && b[0] == first && b[1..] == more;
    assert Unpad(uuid, FRESH, a[0]) == Unpad(uuid, START, b[0]);
    assert UnpadAll(uuid, FRESH, a) == UnpadAll(uuid, START, b);
    assert |Concat(a)| > 0 && |Concat(b)| > 0;
    assert ([a] + chunks)[0] == a && ([a] + chunks)[1..] == chunks;
    assert ([b] + chunks)[0] == b && ([b] + chunks)[1..] == chunks;
  }

  /** VISION READER. A stream of blocks and raw bytes, delivered in any reads of any buffers,
      the first of at least 21 bytes: every read delivers its share of the written bytes if
      and only if the offsets, the last block and the packet budget say so. */
  lemma {:induction false} ReaderRoundTrip(uuid: seq<byte>, blocks: seq<Block>, raw: seq<byte>, first: seq<byte>,
                                           more: seq<seq<byte>>, filtering: seq<bool>, chunks: seq<seq<seq<byte>>>)
    requires |uuid| == 16 && blocks != [] && Grammar(blocks, raw) && 5 <= |first|
    requires |filtering| == |chunks| + 1
    requires first + Concat(more) + ConcatAll(chunks) == Wires(blocks) + raw
    ensures var plain, padded := [[first] + more] + chunks, [[uuid + first] + more] + chunks;
            && (Deliveries(uuid, NEW_PHASE, filtering, padded) == Shares(START, plain)
                <==> ReadsWell(uuid, blocks, 0, filtering, plain))
            && Concat(Shares(START, plain)) == Contents(blocks) + raw
  {
    var p, plain := Phase(START, true, false), [[first] + more] + chunks;
    StripUuid(uuid, first, more, filtering, chunks);
    GoodFromStart(uuid, blocks, raw, filtering, plain);
    ReaderExact(uuid, p, filtering, plain);
    SharesJoined(START, plain);
    RunTranscript(START, blocks, raw);
  }

  /** The same for the delivered bytes as a whole, in standard buffers. */
  lemma {:induction false} ReaderTotal(uuid: seq<byte>, blocks: seq<Block>, raw: seq<byte>, first: seq<byte>,
                                       more: seq<seq<byte>>, filtering: seq<bool>, chunks: seq<seq<seq<byte>>>)
    requires |uuid| == 16 && blocks != [] && Grammar(blocks, raw) && 5 <= |first|
    requires |filtering| == |chunks| + 1 && Monotone(filtering)
    requires first + Concat(more) + ConcatAll(chunks) == Wires(blocks) + raw
    requires Standard([[first] + more] + chunks)
    ensures ReadAll(uuid, NEW_PHASE, filtering, [[uuid + first] + more] + chunks).out == Contents(blocks) + raw
            <==> ReadsWell(uuid, blocks, 0, filtering, [[first] + more] + chunks)
  {
    var p, plain := Phase(START, true, false), [[first] + more] + chunks;
    StripUuid(uuid, first, more, filtering, chunks);
    GoodFromStart(uuid, blocks, raw, filtering, plain);
    TotalExact(uuid, p, filtering, plain);
    RunTranscript(START, blocks, raw);
  }
}
