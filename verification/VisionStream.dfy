/** The Vision padding wire format and its round trip: XtlsUnpadding gives back the bytes that
    were written, however the receiving side cuts the stream into buffers. */
module VisionStream {
  import opened Bytes
  import opened VisionUnpadding

  /** One padding block; the padding itself is zeroed buffer space. */
  datatype Block = Block(command: byte, content: seq<byte>, padding: nat)

  predicate ValidBlock(b: Block) {
    |b.content| < 65536 && b.padding < 65536
  }

  function Header(b: Block): (h: seq<byte>)
    ensures |h| == 5
  {
    [b.command] + Be16(|b.content|) + Be16(b.padding)
  }

  function Wire(b: Block): (w: seq<byte>)
    ensures |w| == 5 + |b.content| + b.padding
  {
    Header(b) + b.content + Zeros(b.padding)
  }

  /** A block byte by byte: command, length of the content, length of the padding, the content,
      and zeros. */
  lemma {:induction false} BlockLayout(b: Block, i: nat)
    requires ValidBlock(b) && i < 5 + |b.content| + b.padding
    ensures var n, p := |b.content|, b.padding;
            Wire(b)[i] == if i == 0 then b.command
                          else if i == 1 then n / 256 else if i == 2 then n % 256
                          else if i == 3 then p / 256 else if i == 4 then p % 256
                          else if i < 5 + n then b.content[i - 5]
                          else 0
  {
  }

  function Wires(blocks: seq<Block>): seq<byte> {
    if blocks == [] then [] else Wire(blocks[0]) + Wires(blocks[1..])
  }

  function Contents(blocks: seq<Block>): seq<byte> {
    if blocks == [] then [] else blocks[0].content + Contents(blocks[1..])
  }

  predicate Terminated(blocks: seq<Block>) {
    blocks != [] && blocks[|blocks| - 1].command != COMMAND_CONTINUE
  }

  /** What one direction may put on the wire: Continue blocks, then at most one
      terminal block, and raw bytes only after a terminal block. */
  predicate Grammar(blocks: seq<Block>, raw: seq<byte>) {
    && (forall i :: 0 <= i < |blocks| ==> ValidBlock(blocks[i]))
    && (forall i :: 0 <= i < |blocks| - 1 ==> blocks[i].command == COMMAND_CONTINUE)
    && (raw != [] ==> Terminated(blocks))
  }

  /** The state between two blocks, after the given block. */
  function After(b: Block): ReadState {
    if b.command == COMMAND_CONTINUE then ReadState(5, 0, 0, 0) else ReadState(-1, -1, -1, b.command)
  }

  const START := ReadState(5, -1, -1, 0)

  lemma {:induction false} RunHeader(s: ReadState, b: Block)
    requires Mid(s) && s.command == 5 && ValidBlock(b)
    ensures Run(s, Header(b)) == Unpadded(Settle(ReadState(0, |b.content|, b.padding, b.command)), [])
  {
    var h := Header(b);
    var s4 := HeaderByte(s, h[0]);
    var s3 := HeaderByte(s4, h[1]);
    var s2 := HeaderByte(s3, h[2]);
    var s1 := HeaderByte(s2, h[3]);
    var s0 := Settle(HeaderByte(s1, h[4]));
    assert s0 == Settle(ReadState(0, |b.content|, b.padding, b.command));
    RunHeaderByte(s1, h[4..]);
    RunHeaderByte(s2, h[3..]);
    RunHeaderByte(s3, h[2..]);
    RunHeaderByte(s4, h[1..]);
    RunHeaderByte(s, h[0..]);
    assert h[4..][1..] == [] && h[3..][1..] == h[4..] && h[2..][1..] == h[3..];
    assert h[1..][1..] == h[2..] && h[0..][1..] == h[1..] && h[0..] == h;
  }

  lemma {:induction false} RunBody(b: Block)
    requires ValidBlock(b)
    ensures var s := Settle(ReadState(0, |b.content|, b.padding, b.command));
            ValidState(s) && Run(s, b.content + Zeros(b.padding)) == Unpadded(After(b), b.content)
  {
    var s := ReadState(0, |b.content|, b.padding, b.command);
    var t, z := s.(content := 0), Zeros(b.padding);
    if b.padding > 0 {
      RunAllPadding(t, z);
    } else {
      assert z == [];
    }
    if b.content != [] {
      RunContent(s, b.content, z);
      assert b.content + [] == b.content;
    } else {
      assert b.content + z == z;
    }
  }

  /** A whole block leaves exactly its content behind. */
  lemma {:induction false} RunBlock(s: ReadState, b: Block)
    requires Mid(s) && s.command == 5 && ValidBlock(b)
    ensures Run(s, Wire(b)) == Unpadded(After(b), b.content)
  {
    var body := b.content + Zeros(b.padding);
    assert Wire(b) == Header(b) + body;
    RunHeader(s, b);
    RunBody(b);
    RunAppend(s, Header(b), body);
    assert [] + b.content == b.content;
  }

  /** Peeling the first block off a transcript. */
  lemma {:induction false} FirstBlock(blocks: seq<Block>, raw: seq<byte>)
    requires blocks != [] && Grammar(blocks, raw)
    ensures Wires(blocks) + raw == Wire(blocks[0]) + (Wires(blocks[1..]) + raw)
    ensures Contents(blocks) + raw == blocks[0].content + (Contents(blocks[1..]) + raw)
    ensures if blocks[0].command == COMMAND_CONTINUE then Grammar(blocks[1..], raw)
            else blocks[1..] == [] && Wires(blocks[1..]) + raw == raw && Contents(blocks[1..]) + raw == raw
    ensures blocks[1..] != [] ==> Terminated(blocks[1..]) == Terminated(blocks)
  {
    var tail := blocks[1..];
    TailGrammar(blocks, raw);
    Assoc(Wire(blocks[0]), Wires(tail), raw);
    Assoc(blocks[0].content, Contents(tail), raw);
    if tail == [] {
      assert Wires(tail) == [] && Contents(tail) == [] && [] + raw == raw;
    }
  }

  lemma {:induction false} TailGrammar(blocks: seq<Block>, raw: seq<byte>)
    requires blocks != [] && Grammar(blocks, raw)
    ensures if blocks[0].command == COMMAND_CONTINUE then Grammar(blocks[1..], raw) else blocks[1..] == []
    ensures blocks[1..] != [] ==> Terminated(blocks[1..]) == Terminated(blocks)
  {
    var tail := blocks[1..];
    assert forall i :: 0 <= i < |tail| ==> tail[i] == blocks[i + 1];
  }

  /** Reading a whole transcript from the state right after the UUID. */
  lemma {:induction false} RunTranscript(s: ReadState, blocks: seq<Block>, raw: seq<byte>)
    requires Mid(s) && s.command == 5 && Grammar(blocks, raw)
    ensures Run(s, Wires(blocks) + raw).out == Contents(blocks) + raw
    decreases |blocks|
  {
    if blocks == [] {
      assert Wires(blocks) + raw == [];
    } else {
      var b, rest := blocks[0], Wires(blocks[1..]) + raw;
      FirstBlock(blocks, raw);
      RunBlock(s, b);
      RunAppend(s, Wire(b), rest);
      if b.command == COMMAND_CONTINUE {
        RunTranscript(After(b), blocks[1..], raw);
      } else {
        assert Run(After(b), raw).out == raw;
      }
    }
  }

  // ---------------------------------------------------- where a terminal block ends

  /** How many more bytes the block cannot do without. */
  function AtLeast(s: ReadState): int {
    if s.command > 0 then s.command else s.content + s.padding
  }

  lemma {:induction false} RunShort(s: ReadState, p: seq<byte>)
    requires Mid(s) && |p| < AtLeast(s)
    ensures Mid(Run(s, p).state)
    ensures 0 < s.command ==> Run(s, p).state.command == s.command - |p|
    ensures s.command == 0 ==> Run(s, p).state.command == 0
    ensures Run(s, p).state.current == if s.command == 5 && p != [] then p[0] else s.current
    ensures |Run(s, p).out| == if 0 < s.command then 0 else Min(|p|, s.content)
    decreases |p|
  {
    if p != [] {
      RunShort(Step(s, p[0]).state, p[1..]);
    }
  }

  /** Inside a block the machine is never idle. */
  lemma {:induction false} InsideBlock(s: ReadState, b: Block, p: seq<byte>)
    requires Mid(s) && s.command == 5 && ValidBlock(b)
    requires |p| < |Wire(b)| && p == Wire(b)[..|p|]
    ensures Mid(Run(s, p).state)
    ensures 0 < |p| ==> Run(s, p).state.current == b.command
    ensures 5 <= |p| ==> Run(s, p).state.command == 0
    ensures |p| < 5 ==> Run(s, p).state.command == 5 - |p|
    ensures |Run(s, p).out| == if |p| < 5 then 0 else Min(|p| - 5, |b.content|)
  {
    if |p| < 5 {
      RunShort(s, p);
      if p != [] { assert p[0] == Wire(b)[0]; }
    } else {
      var t := ReadState(0, |b.content|, b.padding, b.command);
      RunHeader(s, b);
      assert p == Header(b) + p[5..];
      RunAppend(s, Header(b), p[5..]);
      assert Settle(t) == t;
      RunShort(t, p[5..]);
    }
  }

  /** The machine is idle exactly from the end of a terminal block on. */
  lemma {:induction false} IdleFromEnd(s: ReadState, blocks: seq<Block>, raw: seq<byte>, p: seq<byte>)
    requires Mid(s) && s.command == 5 && Grammar(blocks, raw) && p <= Wires(blocks) + raw
    ensures Idle(Run(s, p).state) <==> Terminated(blocks) && |Wires(blocks)| <= |p|
    ensures Idle(Run(s, p).state) ==> Run(s, p).state.current == blocks[|blocks| - 1].command
    decreases |blocks|
  {
    if blocks == [] {
      assert p == [];
    } else {
      var b, rest := blocks[0], Wires(blocks[1..]) + raw;
      FirstBlock(blocks, raw);
      var w := Wire(b);
      if |p| < |w| {
        assert p == (w + rest)[..|p|] == w[..|p|];
        InsideBlock(s, b, p);
      } else {
        var q := p[|w|..];
        PrefixSplit(p, w, rest);
        RunBlock(s, b);
        RunAppend(s, w, q);
        if b.command == COMMAND_CONTINUE {
          IdleFromEnd(After(b), blocks[1..], raw, q);
        } else {
          assert Run(After(b), q).state == After(b);
        }
      }
    }
  }

  lemma {:induction false} PrefixSplit(p: seq<byte>, w: seq<byte>, rest: seq<byte>)
    requires p <= w + rest && |w| <= |p|
    ensures p == w + p[|w|..] && p[|w|..] <= rest
  {
    assert p == (w + rest)[..|p|];
  }

  // ---------------------------------------------------------------- re-splitting

  /** A call that does what one continuous reading would: an idle machine does not take the
      buffer for the start of a new padded stream, and unpadded output fits its buffer. */
  predicate CleanCall(uuid: seq<byte>, s: ReadState, b: seq<byte>)
    requires ValidState(s)
  {
    if Idle(s) then !HasUuid(uuid, b) else |Run(s, b).out| <= BUF_SIZE
  }

  predicate Clean(uuid: seq<byte>, s: ReadState, mb: seq<seq<byte>>)
    requires ValidState(s)
    decreases |mb|
  {
    mb == [] || (CleanCall(uuid, s, mb[0]) && Clean(uuid, Run(s, mb[0]).state, mb[1..]))
  }

  lemma {:induction false} UnpadExact(uuid: seq<byte>, s: ReadState, b: seq<byte>)
    requires ValidState(s)
    ensures |Unpad(uuid, s, b).out| <= |b|
    ensures CleanCall(uuid, s, b) ==> Unpad(uuid, s, b) == Run(s, b)
    ensures !CleanCall(uuid, s, b) ==> |Unpad(uuid, s, b).out| < |Run(s, b).out|
    ensures !Idle(s) ==> Unpad(uuid, s, b).state == Run(s, b).state
  {
  }

  lemma {:induction false} UnpadAllShrinks(uuid: seq<byte>, s: ReadState, mb: seq<seq<byte>>)
    requires ValidState(s)
    ensures |UnpadAll(uuid, s, mb).out| <= |Concat(mb)|
    decreases |mb|
  {
    if mb != [] {
      UnpadExact(uuid, s, mb[0]);
      UnpadAllShrinks(uuid, Unpad(uuid, s, mb[0]).state, mb[1..]);
    }
  }

  /** A cut that is not clean loses bytes. */
  lemma {:induction false} UncleanLoses(uuid: seq<byte>, s: ReadState, mb: seq<seq<byte>>)
    requires ValidState(s)
    ensures |UnpadAll(uuid, s, mb).out| <= |Run(s, Concat(mb)).out|
    ensures !Clean(uuid, s, mb) ==> |UnpadAll(uuid, s, mb).out| < |Run(s, Concat(mb)).out|
    decreases |mb|
  {
    if mb != [] {
      var u := Unpad(uuid, s, mb[0]);
      UnpadExact(uuid, s, mb[0]);
      RunAppend(s, mb[0], Concat(mb[1..]));
      if Idle(s) && HasUuid(uuid, mb[0]) {
        UnpadAllShrinks(uuid, u.state, mb[1..]);
      } else {
        UncleanLoses(uuid, u.state, mb[1..]);
      }
    }
  }

  /** Cutting a stream into buffers changes nothing exactly when the cut is clean. */
  lemma {:induction false} SplitIrrelevant(uuid: seq<byte>, s: ReadState, mb: seq<seq<byte>>)
    requires ValidState(s)
    ensures UnpadAll(uuid, s, mb).out == Run(s, Concat(mb)).out <==> Clean(uuid, s, mb)
    ensures Clean(uuid, s, mb) ==> UnpadAll(uuid, s, mb) == Run(s, Concat(mb))
    decreases |mb|
  {
    if !Clean(uuid, s, mb) {
      UncleanLoses(uuid, s, mb);
    } else if mb != [] {
      UnpadExact(uuid, s, mb[0]);
      RunAppend(s, mb[0], Concat(mb[1..]));
      SplitIrrelevant(uuid, Run(s, mb[0]).state, mb[1..]);
    }
  }

  // -------------------------------------------------- the same in terms of offsets

  /** How many of the first `n` bytes of a transcript are data. */
  function ContentBefore(blocks: seq<Block>, n: int): nat {
    if n < 0 then 0
    else if blocks == [] then n
    else if n < |Wire(blocks[0])| then if n < 5 then 0 else Min(n - 5, |blocks[0].content|)
    else |blocks[0].content| + ContentBefore(blocks[1..], n - |Wire(blocks[0])|)
  }

  lemma {:induction false} ContentInFirst(s: ReadState, blocks: seq<Block>, raw: seq<byte>, p: seq<byte>)
    requires Mid(s) && s.command == 5 && blocks != [] && Grammar(blocks, raw) && p <= Wires(blocks) + raw
    requires |p| < |Wire(blocks[0])|
    ensures |Run(s, p).out| == ContentBefore(blocks, |p|)
  {
    var w, rest := Wire(blocks[0]), Wires(blocks[1..]) + raw;
    FirstBlock(blocks, raw);
    assert p == (w + rest)[..|p|] == w[..|p|];
    InsideBlock(s, blocks[0], p);
  }

  lemma {:induction false} ContentSoFar(s: ReadState, blocks: seq<Block>, raw: seq<byte>, p: seq<byte>)
    requires Mid(s) && s.command == 5 && Grammar(blocks, raw) && p <= Wires(blocks) + raw
    ensures |Run(s, p).out| == ContentBefore(blocks, |p|)
    decreases |blocks|
  {
    if blocks == [] {
      assert p == [];
    } else if |p| < |Wire(blocks[0])| {
      ContentInFirst(s, blocks, raw, p);
    } else {
      var b, w := blocks[0], Wire(blocks[0]);
      var q := p[|w|..];
      FirstBlock(blocks, raw);
      PrefixSplit(p, w, Wires(blocks[1..]) + raw);
      RunBlock(s, b);
      RunAppend(s, w, q);
      if b.command == COMMAND_CONTINUE {
        ContentSoFar(After(b), blocks[1..], raw, q);
      } else {
        assert Run(After(b), q).out == q;
      }
    }
  }

  /** The buffer `b` that begins at offset `at` of a transcript, counted from the end of the
      UUID: behind the blocks it does not start with the UUID; before that, the data in it
      fits a pooled buffer. */
  predicate GoodBuffer(uuid: seq<byte>, blocks: seq<Block>, at: int, b: seq<byte>) {
    if |Wires(blocks)| <= at then !HasUuid(uuid, b)
    else ContentBefore(blocks, at + |b|) <= ContentBefore(blocks, at) + BUF_SIZE
  }

  predicate GoodBuffers(uuid: seq<byte>, blocks: seq<Block>, at: int, mb: seq<seq<byte>>)
    decreases |mb|
  {
    mb == [] || (GoodBuffer(uuid, blocks, at, mb[0]) && GoodBuffers(uuid, blocks, at + |mb[0]|, mb[1..]))
  }

  lemma {:induction false} CallByOffset(uuid: seq<byte>, blocks: seq<Block>, raw: seq<byte>, p: seq<byte>, b: seq<byte>)
    requires Grammar(blocks, raw) && p + b <= Wires(blocks) + raw
    ensures CleanCall(uuid, Run(START, p).state, b) <==> GoodBuffer(uuid, blocks, |p|, b)
  {
    var all := Wires(blocks) + raw;
    assert p == (p + b)[..|p|] == all[..|p|];
    IdleFromEnd(START, blocks, raw, p);
    RunAppend(START, p, b);
    ContentSoFar(START, blocks, raw, p);
    ContentSoFar(START, blocks, raw, p + b);
    assert !Terminated(blocks) && |Wires(blocks)| <= |p| ==> b == [];
  }

  lemma {:induction false} CleanByOffset(uuid: seq<byte>, blocks: seq<Block>, raw: seq<byte>,
                                         p: seq<byte>, mb: seq<seq<byte>>)
    requires Grammar(blocks, raw) && p + Concat(mb) <= Wires(blocks) + raw
    ensures Clean(uuid, Run(START, p).state, mb) <==> GoodBuffers(uuid, blocks, |p|, mb)
    decreases |mb|
  {
    if mb != [] {
      var q := p + mb[0];
      Assoc(p, mb[0], Concat(mb[1..]));
      assert q <= q + Concat(mb[1..]);
      CallByOffset(uuid, blocks, raw, p, mb[0]);
      RunAppend(START, p, mb[0]);
      CleanByOffset(uuid, blocks, raw, q, mb[1..]);
    }
  }

  /** The whole wire image of one direction: the UUID before the first block. */
  function Image(uuid: seq<byte>, blocks: seq<Block>, raw: seq<byte>): seq<byte> {
    if blocks == [] then [] else uuid + Wires(blocks) + raw
  }

  /** The first buffer opens the stream; the rest continues it. */
  lemma {:induction false} FirstBuffer(uuid: seq<byte>, all: seq<byte>, mb: seq<seq<byte>>)
    requires |uuid| == 16 && mb != [] && 21 <= |mb[0]| && Concat(mb) == uuid + all
    ensures HasUuid(uuid, mb[0])
    ensures mb[0][16..] + Concat(mb[1..]) == all
    ensures Unpad(uuid, FRESH, mb[0]) == Unpad(uuid, START, mb[0][16..])
  {
    var c := mb[0] + Concat(mb[1..]);
    assert mb[0][..16] == c[..16] == uuid;
    assert mb[0][16..] + Concat(mb[1..]) == c[16..] == all;
  }

  lemma {:induction false} RestOfBuffers(uuid: seq<byte>, all: seq<byte>, mb: seq<seq<byte>>)
    requires |uuid| == 16 && mb != [] && 21 <= |mb[0]| && Concat(mb) == uuid + all
    ensures Concat([mb[0][16..]] + mb[1..]) == all
    ensures UnpadAll(uuid, FRESH, mb).out == Run(START, all).out
            <==> Clean(uuid, START, [mb[0][16..]] + mb[1..])
  {
    FirstBuffer(uuid, all, mb);
    var stripped := [mb[0][16..]] + mb[1..];
    assert stripped[0] == mb[0][16..] && stripped[1..] == mb[1..];
    assert Concat(stripped) == all;
    assert UnpadAll(uuid, FRESH, mb) == UnpadAll(uuid, START, stripped);
    SplitIrrelevant(uuid, START, stripped);
  }

  lemma {:induction false} CleanFromStart(uuid: seq<byte>, blocks: seq<Block>, raw: seq<byte>, mb: seq<seq<byte>>)
    requires Grammar(blocks, raw) && Concat(mb) == Wires(blocks) + raw
    ensures Clean(uuid, START, mb) <==> GoodBuffers(uuid, blocks, 0, mb)
  {
    assert [] + Concat(mb) == Concat(mb);
    CleanByOffset(uuid, blocks, raw, [], mb);
  }

  /** Counting from the UUID's start is counting from offset -16. */
  lemma {:induction false} GoodFromUuid(uuid: seq<byte>, blocks: seq<Block>, mb: seq<seq<byte>>)
    requires blocks != [] && mb != [] && 21 <= |mb[0]|
    ensures GoodBuffers(uuid, blocks, -16, mb) <==> GoodBuffers(uuid, blocks, 0, [mb[0][16..]] + mb[1..])
  {
    var stripped := [mb[0][16..]] + mb[1..];
    assert stripped[0] == mb[0][16..] && stripped[1..] == mb[1..];
    assert ContentBefore(blocks, 0) == 0 == ContentBefore(blocks, -16);
  }

  /** VISION ROUND TRIP. For every transcript and every re-splitting into buffers of any
      sizes whose first holds at least 21 bytes, unpadding returns exactly the written bytes
      if and only if no buffer beginning after the terminal block starts with the user's
      UUID and no earlier one holds more than 8192 bytes of data. */
  lemma {:induction false} VisionRoundTrip(uuid: seq<byte>, blocks: seq<Block>, raw: seq<byte>, mb: seq<seq<byte>>)
    requires |uuid| == 16 && blocks != [] && Grammar(blocks, raw)
    requires Concat(mb) == Image(uuid, blocks, raw)
    requires mb != [] && 21 <= |mb[0]|
    ensures UnpadAll(uuid, FRESH, mb).out == Contents(blocks) + raw <==> GoodBuffers(uuid, blocks, -16, mb)
  {
    Assoc(uuid, Wires(blocks), raw);
    RunTranscript(START, blocks, raw);
    RestOfBuffers(uuid, Wires(blocks) + raw, mb);
    CleanFromStart(uuid, blocks, raw, [mb[0][16..]] + mb[1..]);
    GoodFromUuid(uuid, blocks, mb);
  }

  // ------------------------------------------------------------- standard buffers

  /** With `past` bytes already read, no buffer that begins at or after offset `end`
      starts with the UUID. */
  predicate NoLateUuid(uuid: seq<byte>, mb: seq<seq<byte>>, past: int, end: int) {
    forall i :: 0 <= i < |mb| && end <= past + |Concat(mb[..i])| ==> !HasUuid(uuid, mb[i])
  }

  lemma {:induction false} LateUuidTail(uuid: seq<byte>, mb: seq<seq<byte>>, past: int, end: int)
    requires mb != []
    ensures NoLateUuid(uuid, mb, past, end) <==>
            && (end <= past ==> !HasUuid(uuid, mb[0]))
            && NoLateUuid(uuid, mb[1..], past + |mb[0]|, end)
  {
    var tail := mb[1..];
    assert mb[..0] == [];
    forall i | 0 < i < |mb|
      ensures |Concat(mb[..i])| == |mb[0]| + |Concat(tail[..i - 1])| && mb[i] == tail[i - 1]
    {
      assert mb[..i][1..] == tail[..i - 1];
    }
    if NoLateUuid(uuid, mb, past, end) {
      forall i | 0 <= i < |tail| && end <= past + |mb[0]| + |Concat(tail[..i])|
        ensures !HasUuid(uuid, tail[i])
      {
        assert |Concat(mb[..i + 1])| == |mb[0]| + |Concat(tail[..i])| && tail[i] == mb[i + 1];
      }
    }
  }

  lemma {:induction false} ContentSteps(blocks: seq<Block>, at: int, n: nat)
    ensures ContentBefore(blocks, at) <= ContentBefore(blocks, at + n) <= ContentBefore(blocks, at) + n
    decreases |blocks|
  {
    if blocks != [] {
      var w := |Wire(blocks[0])|;
      if w <= at {
        ContentSteps(blocks[1..], at - w, n);
      } else if w <= at + n {
        ContentSteps(blocks[1..], 0, at + n - w);
        assert ContentBefore(blocks[1..], 0) == 0;
      }
    }
  }

  /** Buffers of at most 8192 bytes lose nothing to the cut: the UUID is the only danger. */
  lemma {:induction false} StandardBuffers(uuid: seq<byte>, blocks: seq<Block>, at: int, mb: seq<seq<byte>>)
    requires forall i :: 0 <= i < |mb| ==> |mb[i]| <= BUF_SIZE
    ensures GoodBuffers(uuid, blocks, at, mb) <==> NoLateUuid(uuid, mb, at, |Wires(blocks)|)
    decreases |mb|
  {
    if mb != [] {
      LateUuidTail(uuid, mb, at, |Wires(blocks)|);
      ContentSteps(blocks, at, |mb[0]|);
      assert forall i :: 0 <= i < |mb[1..]| ==> mb[1..][i] == mb[i + 1];
      StandardBuffers(uuid, blocks, at + |mb[0]|, mb[1..]);
    }
  }

  // ------------------------------------------------------------- where the law fails

  lemma {:induction false} UnpadOne(uuid: seq<byte>, s: ReadState, b: seq<byte>)
    requires ValidState(s)
    ensures UnpadAll(uuid, s, [b]) == Unpad(uuid, s, b)
  {
    var u, none: seq<seq<byte>> := Unpad(uuid, s, b), [];
    assert [b][1..] == none;
    assert UnpadAll(uuid, u.state, none) == Unpadded(u.state, []);
    assert u.out + [] == u.out;
  }

  /** A whole stream in one buffer comes out cut at 8192 bytes. */
  lemma {:induction false} OneBufferIsCut(uuid: seq<byte>, blocks: seq<Block>, raw: seq<byte>)
    requires |uuid| == 16 && blocks != [] && Grammar(blocks, raw)
    ensures UnpadAll(uuid, FRESH, [Image(uuid, blocks, raw)]).out == Take(Contents(blocks) + raw, BUF_SIZE)
  {
    var all, b := Wires(blocks) + raw, Image(uuid, blocks, raw);
    Assoc(uuid, Wires(blocks), raw);
    assert b == uuid + all && b[..16] == uuid && b[16..] == all;
    RunTranscript(START, blocks, raw);
    UnpadOne(uuid, FRESH, b);
  }

  /** Two blocks of 5000 bytes, such as the writer emits, in one buffer: 1808 bytes are lost. */
  lemma {:induction false} OversizeBufferLoses(uuid: seq<byte>)
    requires |uuid| == 16
    ensures var b := Block(COMMAND_CONTINUE, Zeros(5000), 0);
            && Grammar([b, b], []) && |Contents([b, b])| == 10000
            && |UnpadAll(uuid, FRESH, [Image(uuid, [b, b], [])]).out| == 8192
  {
    var b, none: seq<Block> := Block(COMMAND_CONTINUE, Zeros(5000), 0), [];
    assert [b, b][1..] == [b] && [b][1..] == none;
    assert |Contents([b])| == 5000 + |Contents(none)|;
    assert |Contents([b, b])| == 5000 + |Contents([b])|;
    OneBufferIsCut(uuid, [b, b], []);
  }

  lemma {:induction false} IdleClean(uuid: seq<byte>, s: ReadState, mb: seq<seq<byte>>)
    requires ValidState(s) && Idle(s)
    ensures Clean(uuid, s, mb) <==> forall i :: 0 <= i < |mb| ==> !HasUuid(uuid, mb[i])
    decreases |mb|
  {
    if mb != [] {
      var tail := mb[1..];
      assert Run(s, mb[0]).state == s;
      IdleClean(uuid, s, tail);
      assert forall i :: 0 < i < |mb| ==> mb[i] == tail[i - 1];
      assert forall i :: 0 <= i < |tail| ==> tail[i] == mb[i + 1];
    }
  }

  /** The 21-byte condition is needed. A stream passes through padded, UUID and all, if and
      only if its first buffer is shorter and no later one starts with the UUID. */
  lemma {:induction false} ShortFirstBufferFails(uuid: seq<byte>, blocks: seq<Block>, raw: seq<byte>,
                                                 mb: seq<seq<byte>>)
    requires |uuid| == 16 && blocks != [] && Grammar(blocks, raw)
    requires mb != [] && Concat(mb) == Image(uuid, blocks, raw)
    ensures Image(uuid, blocks, raw) != Contents(blocks) + raw
    ensures UnpadAll(uuid, FRESH, mb).out == Image(uuid, blocks, raw)
            <==> |mb[0]| < 21 && forall i :: 0 < i < |mb| ==> !HasUuid(uuid, mb[i])
  {
    var all, wire := Wires(blocks) + raw, Image(uuid, blocks, raw);
    Assoc(uuid, Wires(blocks), raw);
    RunTranscript(START, blocks, raw);
    assert |wire| == 16 + |all| && |Contents(blocks) + raw| <= |all|;
    if 21 <= |mb[0]| {
      FirstBuffer(uuid, all, mb);
    }
    assert Run(FRESH, wire).out == wire;
    SplitIrrelevant(uuid, FRESH, mb);
    IdleClean(uuid, FRESH, mb);
  }
}
