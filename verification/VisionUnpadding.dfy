/** XtlsUnpadding (proxy/proxy.go): the resumable state machine that strips Vision
    padding blocks from a stream cut into buffers at arbitrary places. */
module VisionUnpadding {
  import opened Bytes

  const COMMAND_CONTINUE: byte := 0
  const COMMAND_END: byte := 1
  const COMMAND_DIRECT: byte := 2

  /** RemainingCommand, RemainingContent, RemainingPadding and CurrentCommand of
      one direction of a connection. */
  datatype ReadState = ReadState(command: int, content: int, padding: int, current: int)

  const FRESH := ReadState(-1, -1, -1, 0)

  /** The three counters of the initial state; also the state after a terminal block. */
  predicate Idle(s: ReadState) {
    s.command == -1 && s.content == -1 && s.padding == -1
  }

  /** States in the middle of a block. */
  predicate Mid(s: ReadState) {
    || (1 <= s.command <= 5 && (s.command <= 3 ==> 0 <= s.content) && (s.command == 1 ==> 0 <= s.padding))
    || (s.command == 0 && 0 <= s.content && 0 <= s.padding && 0 < s.content + s.padding)
  }

  predicate ValidState(s: ReadState) {
    Idle(s) || Mid(s)
  }

  /** Closes a block whose counters have all run out. */
  function Settle(s: ReadState): ReadState {
    if s.command <= 0 && s.content <= 0 && s.padding <= 0 then
      if s.current == 0 then s.(command := 5) else ReadState(-1, -1, -1, s.current)
    else s
  }

  /** One header byte. The two-byte fields are assembled high byte first; the low
      byte is or-ed into a value whose low byte is zero, which is addition. */
  function HeaderByte(s: ReadState, x: byte): ReadState
    requires Mid(s) && 0 < s.command
  {
    var t := match s.command
      case 5 => s.(current := x)
      case 4 => s.(content := x * 256)
      case 3 => s.(content := s.content + x)
      case 2 => s.(padding := x * 256)
      case _ => s.(padding := s.padding + x);
    t.(command := s.command - 1)
  }

  datatype Unpadded = Unpadded(state: ReadState, out: seq<byte>)

  /** The reference reading of a stream: one byte at a time. */
  function Step(s: ReadState, x: byte): (u: Unpadded)
    requires Mid(s)
    ensures ValidState(u.state) && |u.out| <= 1
  {
    if 0 < s.command then Unpadded(Settle(HeaderByte(s, x)), [])
    else if 0 < s.content then Unpadded(Settle(s.(content := s.content - 1)), [x])
    else Unpadded(Settle(s.(padding := s.padding - 1)), [])
  }

  /** Reading on from `s`; once a terminal block has closed, bytes pass through. */
  function Run(s: ReadState, bs: seq<byte>): (u: Unpadded)
    requires ValidState(s)
    ensures ValidState(u.state) && |u.out| <= |bs|
    decreases |bs|
  {
    if bs == [] then Unpadded(s, [])
    else if Idle(s) then Unpadded(s, bs)
    else
      var u := Step(s, bs[0]);
      var v := Run(u.state, bs[1..]);
      Unpadded(v.state, u.out + v.out)
  }

  predicate HasUuid(uuid: seq<byte>, b: seq<byte>) {
    |b| >= 21 && |uuid| == 16 && b[..16] == uuid
  }

  /** What one call of XtlsUnpadding does to the state and returns. A buffer met in the
      idle state passes through whole; unpadded output goes into a new pooled buffer, and
      what does not fit there is lost. */
  function Unpad(uuid: seq<byte>, s: ReadState, b: seq<byte>): (u: Unpadded)
    requires ValidState(s)
    ensures ValidState(u.state)
  {
    if Idle(s) && !HasUuid(uuid, b) then Unpadded(s, b)
    else
      var u := if Idle(s) then Run(s.(command := 5), b[16..]) else Run(s, b);
      Unpadded(u.state, Take(u.out, BUF_SIZE))
  }

  /** The calls of XtlsUnpadding on a list of buffers, outputs concatenated. */
  function UnpadAll(uuid: seq<byte>, s: ReadState, mb: seq<seq<byte>>): (u: Unpadded)
    requires ValidState(s)
    ensures ValidState(u.state)
    decreases |mb|
  {
    if mb == [] then Unpadded(s, [])
    else
      var u := Unpad(uuid, s, mb[0]);
      var v := UnpadAll(uuid, u.state, mb[1..]);
      Unpadded(v.state, u.out + v.out)
  }

  // ---------------------------------------------------------------- the byte loop

  lemma {:induction false} RunHeaderByte(s: ReadState, bs: seq<byte>)
    requires Mid(s) && 0 < s.command && 0 < |bs|
    ensures var t := Settle(HeaderByte(s, bs[0]));
            && ValidState(t)
            && Run(s, bs) == Unpadded(Run(t, bs[1..]).state, [] + Run(t, bs[1..]).out)
  {
  }

  lemma {:induction false} RunContentByte(s: ReadState, bs: seq<byte>)
    requires Mid(s) && s.command == 0 && 0 < s.content && 0 < |bs|
    ensures var t := Settle(s.(content := s.content - 1));
            && ValidState(t)
            && Run(s, bs) == Unpadded(Run(t, bs[1..]).state, [bs[0]] + Run(t, bs[1..]).out)
  {
  }

  lemma {:induction false} RunPaddingByte(s: ReadState, bs: seq<byte>)
    requires Mid(s) && s.command == 0 && s.content == 0 && 0 < s.padding && 0 < |bs|
    ensures var t := Settle(s.(padding := s.padding - 1));
            && ValidState(t)
            && Run(s, bs) == Unpadded(Run(t, bs[1..]).state, [] + Run(t, bs[1..]).out)
  {
  }

  /** Bytes that are all content of the current block. */
  lemma {:induction false} RunAllContent(s: ReadState, c: seq<byte>)
    requires Mid(s) && s.command == 0 && 0 < |c| <= s.content
    ensures Run(s, c) == Unpadded(Settle(s.(content := s.content - |c|)), c)
    decreases |c|
  {
    RunContentByte(s, c);
    var s1 := s.(content := s.content - 1);
    if |c| == 1 {
      assert c == [c[0]] && c[1..] == [];
    } else {
      assert Settle(s1) == s1;
      RunAllContent(s1, c[1..]);
      assert [c[0]] + c[1..] == c;
    }
  }

  /** Bytes that are all padding of the current block. */
  lemma {:induction false} RunAllPadding(s: ReadState, p: seq<byte>)
    requires Mid(s) && s.command == 0 && s.content == 0 && 0 < |p| <= s.padding
    ensures Run(s, p) == Unpadded(Settle(s.(padding := s.padding - |p|)), [])
    decreases |p|
  {
    RunPaddingByte(s, p);
    var s1 := s.(padding := s.padding - 1);
    if |p| == 1 {
      assert p[1..] == [];
    } else {
      assert Settle(s1) == s1;
      RunAllPadding(s1, p[1..]);
    }
  }

  lemma {:induction false} IdleAppend(s: ReadState, a: seq<byte>, b: seq<byte>)
    requires Idle(s)
    ensures Run(s, a + b) == Unpadded(s, a + b)
    ensures Run(s, a) == Unpadded(s, a) && Run(s, b) == Unpadded(s, b)
  {
  }

  lemma {:induction false} RunAppend(s: ReadState, a: seq<byte>, b: seq<byte>)
    requires ValidState(s)
    ensures var u := Run(s, a);
            var v := Run(u.state, b);
            Run(s, a + b) == Unpadded(v.state, u.out + v.out)
    decreases |a|
  {
    if Idle(s) {
      IdleAppend(s, a, b);
    } else if a == [] {
      assert a + b == b;
      assert [] + Run(s, b).out == Run(s, b).out;
    } else {
      var u := Step(s, a[0]);
      RunAppend(u.state, a[1..], b);
      assert (a + b)[0] == a[0] && (a + b)[1..] == a[1..] + b;
      var m := Run(u.state, a[1..]);
      Assoc(u.out, m.out, Run(m.state, b).out);
    }
  }

  lemma {:induction false} RunContent(s: ReadState, c: seq<byte>, rest: seq<byte>)
    requires Mid(s) && s.command == 0 && 0 < |c| <= s.content
    ensures var t := Settle(s.(content := s.content - |c|));
            ValidState(t) && Run(s, c + rest) == Unpadded(Run(t, rest).state, c + Run(t, rest).out)
  {
    RunAllContent(s, c);
    RunAppend(s, c, rest);
  }

  lemma {:induction false} RunPadding(s: ReadState, p: seq<byte>, rest: seq<byte>)
    requires Mid(s) && s.command == 0 && s.content == 0 && 0 < |p| <= s.padding
    ensures var t := Settle(s.(padding := s.padding - |p|));
            ValidState(t) && Run(s, p + rest) == Unpadded(Run(t, rest).state, [] + Run(t, rest).out)
  {
    RunAllPadding(s, p);
    RunAppend(s, p, rest);
  }

  /** What one turn of the loop takes from the front of `bs`, and the counters it leaves. */
  predicate Turns(s: ReadState, bs: seq<byte>, t: ReadState, piece: seq<byte>, rest: seq<byte>)
    requires Mid(s) && 0 < |bs|
  {
    if 0 < s.command then t == HeaderByte(s, bs[0]) && piece == [] && rest == bs[1..]
    else if 0 < s.content then
      var n := Min(s.content, |bs|);
      t == s.(content := s.content - n) && piece == bs[..n] && rest == bs[n..]
    else
      var n := Min(s.padding, |bs|);
      t == s.(padding := s.padding - n) && piece == [] && rest == bs[n..]
  }

  lemma {:induction false} TakeDrop(bs: seq<byte>, n: nat)
    requires n <= |bs|
    ensures bs[..n] + bs[n..] == bs
  {
  }

  /** The reference machine in one turn of the loop. */
  lemma {:induction false} RunPiece(s: ReadState, bs: seq<byte>, t: ReadState, piece: seq<byte>, rest: seq<byte>)
    requires Mid(s) && 0 < |bs| && Turns(s, bs, t, piece, rest)
    ensures ValidState(Settle(t))
    ensures Run(s, bs) == Unpadded(Run(Settle(t), rest).state, piece + Run(Settle(t), rest).out)
  {
    if 0 < s.command {
      RunHeaderByte(s, bs);
    } else {
      var n := Min(if 0 < s.content then s.content else s.padding, |bs|);
      TakeDrop(bs, n);
      if 0 < s.content {
        RunContent(s, bs[..n], rest);
      } else {
        RunPadding(s, bs[..n], rest);
      }
    }
  }

  lemma {:induction false} RunIdle(s: ReadState, bs: seq<byte>)
    requires Idle(s)
    ensures Run(s, bs) == Unpadded(s, bs)
  {
  }

  /** One turn of the loop in closed form: the next piece of output and what is left. */
  lemma {:induction false} RunTurn(want: Unpadded, full: seq<byte>, s: ReadState, bs: seq<byte>,
                                   t: ReadState, piece: seq<byte>, rest: seq<byte>)
    requires Mid(s) && 0 < |bs| && Turns(s, bs, t, piece, rest)
    requires want == Unpadded(Run(s, bs).state, full + Run(s, bs).out)
    ensures ValidState(Settle(t))
    ensures want == Unpadded(Run(Settle(t), rest).state, full + piece + Run(Settle(t), rest).out)
    ensures Idle(Settle(t)) ==> want == Unpadded(Settle(t), full + piece + rest)
  {
    RunPiece(s, bs, t, piece, rest);
    Assoc(full, piece, Run(Settle(t), rest).out);
    if Idle(Settle(t)) {
      RunIdle(Settle(t), rest);
    }
  }

  /** The byte loop of XtlsUnpadding over the rest of one buffer: header bytes one by
      one, content and padding in runs. The result goes into a pooled buffer, so
      output past its capacity is lost. */
  method UnpadLoop(start: ReadState, b: seq<byte>) returns (s: ReadState, out: seq<byte>)
    requires Mid(start)
    ensures s == Run(start, b).state
    ensures out == Take(Run(start, b).out, BUF_SIZE)
  {
    s, out := start, [];
    var rest := b;
    ghost var full: seq<byte> := [];
    ghost var want := Run(start, b);
    while |rest| > 0
      invariant Mid(s)
      invariant out == Take(full, BUF_SIZE)
      invariant want == Unpadded(Run(s, rest).state, full + Run(s, rest).out)
      decreases |rest|
    {
      ghost var s0, rest0 := s, rest;
      var piece := [];
      if 0 < s.command {
        s := HeaderByte(s, rest[0]);
        rest := rest[1..];
      } else if 0 < s.content {
        var n := Min(s.content, |rest|);
        piece := rest[..n];
        s := s.(content := s.content - n);
        rest := rest[n..];
      } else {
        var n := Min(s.padding, |rest|);
        s := s.(padding := s.padding - n);
        rest := rest[n..];
      }
      RunTurn(want, full, s0, rest0, s, piece, rest);
      TakeMore(full, piece, BUF_SIZE);
      out := Take(out + piece, BUF_SIZE);
      full := full + piece;
      if s.command <= 0 && s.content <= 0 && s.padding <= 0 {
        if s.current == 0 {
          s := s.(command := 5);
        } else {
          s := ReadState(-1, -1, -1, s.current);
          TakeMore(full, rest, BUF_SIZE);
          if |rest| > 0 {
            out := Take(out + rest, BUF_SIZE);
          }
          return;
        }
      }
    }
  }

  /** The reader state of one direction of a connection. */
  class Unpadder {
    const userUuid: seq<byte>
    var state: ReadState

    constructor (uuid: seq<byte>)
      ensures userUuid == uuid && state == FRESH
    {
      userUuid := uuid;
      state := FRESH;
    }

    method XtlsUnpadding(b: seq<byte>) returns (out: seq<byte>)
      requires ValidState(state)
      modifies this
      ensures ValidState(state)
      ensures Unpadded(state, out) == Unpad(userUuid, old(state), b)
    {
      var rest := b;
      if Idle(state) {
        if |rest| >= 21 && |userUuid| == 16 && rest[..16] == userUuid {
          rest := rest[16..];
          state := state.(command := 5);
        } else {
          return b;
        }
      }
      state, out := UnpadLoop(state, rest);
    }
  }
}
