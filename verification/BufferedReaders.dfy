/** BufferedReader (common/buf/reader.go): a reader that keeps what it has not handed out, in
    front of a source that divides the stream into reads and buffers as it likes. Every such
    division is a cut of the stream, over which the round trips quantify. */
module BufferedReaders {
  import opened Bytes
  import opened Buffers

  /** All bytes of a list of lists of buffers. */
  function ConcatAll(source: seq<seq<seq<byte>>>): seq<byte> {
    if source == [] then [] else Concat(source[0]) + ConcatAll(source[1..])
  }

  /** `source` is what the underlying reader will still return, call by call, before it
      reports end of file; it never returns data together with an error. */
  class BufferedReader {
    var buffer: seq<seq<byte>>
    var source: seq<seq<seq<byte>>>

    /** The bytes still to be delivered, in order. */
    ghost function Remaining(): seq<byte>
      reads this
    {
      Concat(buffer) + ConcatAll(source)
    }

    constructor (source: seq<seq<seq<byte>>>)
      ensures this.source == source && buffer == [] && Remaining() == ConcatAll(source)
    {
      this.buffer, this.source := [], source;
    }

    method BufferedBytes() returns (n: nat)
      ensures n == |Concat(buffer)| && n <= |Remaining()|
    {
      n := |Concat(buffer)|;
    }

    /** Delivers the next at most `n` bytes, from the internal buffer if it holds any. */
    method Read(n: nat) returns (data: seq<byte>, eof: bool)
      modifies this
      ensures old(Remaining()) == data + Remaining() && |data| <= n
      ensures eof ==> data == [] && Remaining() == []
      ensures !eof && 0 < n ==> 0 < |data| || |source| < old(|source|)
      ensures |source| <= old(|source|)
    {
      eof := false;
      ghost var all := Remaining();
      var mb := buffer;
      if |Concat(buffer)| == 0 {
        if source == [] {
          return [], true;
        }
        mb, source := source[0], source[1..];
      }
      SplitBytesTakes(mb, n);
      var s := SplitBytesOf(mb, n);
      data := Concat(s.taken);
      buffer := s.rest;
      assert data + (Concat(s.rest) + ConcatAll(source)) == Concat(mb) + ConcatAll(source);
    }

    /** Hands over the internal buffer, or else the next buffers of the source. */
    method ReadMultiBuffer() returns (mb: seq<seq<byte>>, eof: bool)
      modifies this
      ensures old(Remaining()) == Concat(mb) + Remaining()
      ensures eof ==> mb == [] && Remaining() == []
    {
      if |Concat(buffer)| != 0 {
        mb, eof := buffer, false;
        buffer := [];
      } else if source == [] {
        mb, eof := [], true;
      } else {
        mb, eof := source[0], false;
        source := source[1..];
      }
    }

    /** Buffers of at most `size` bytes in all, cutting only a first buffer that is larger. */
    method ReadAtMost(size: nat) returns (mb: seq<seq<byte>>, eof: bool)
      modifies this
      ensures old(Remaining()) == Concat(mb) + Remaining() && |Concat(mb)| <= size
      ensures eof ==> mb == [] && Remaining() == []
      ensures !eof && 0 < size ==> 0 < |Concat(mb)| || |source| < old(|source|) || |buffer| < old(|buffer|)
      ensures |source| < old(|source|) || (|source| == old(|source|) && |buffer| <= old(|buffer|))
    {
      eof := false;
      if |Concat(buffer)| == 0 {
        if source == [] {
          return [], true;
        }
        buffer, source := source[0], source[1..];
      }
      ghost var cs := buffer;
      SplitSizeTakes(cs, size);
      var s := SplitSizeOf(buffer, size);
      mb, buffer := s.taken, s.rest;
      assert Concat(mb) + (Concat(s.rest) + ConcatAll(source)) == Concat(cs) + ConcatAll(source);
    }

    /** io.ReadFull over Read: exactly `n` bytes, or none and everything consumed. */
    method ReadFull(n: nat) returns (r: Option<seq<byte>>)
      modifies this
      ensures if n <= |old(Remaining())| then r == Some(old(Remaining())[..n]) && Remaining() == old(Remaining())[n..]
              else r == None && Remaining() == []
      ensures |source| <= old(|source|)
    {
      var got := [];
      ghost var all := Remaining();
      while |got| < n
        invariant |got| <= n && got + Remaining() == all && |source| <= old(|source|)
        decreases |source|, n - |got|
      {
        var data, eof := Read(n - |got|);
        Assoc(got, data, Remaining());
        got := got + data;
        if eof && |got| < n {
          return None;
        }
      }
      assert all[..n] == got && all[n..] == Remaining();
      r := Some(got);
    }
  }

  datatype Request = Bytes(n: nat) | Everything | AtMost(n: nat)

  /** Any mix of reads delivers the source's bytes in order, without gap or repetition. */
  method ReadMix(r: BufferedReader, requests: seq<Request>) returns (out: seq<byte>)
    modifies r
    ensures old(r.Remaining()) == out + r.Remaining()
  {
    out := [];
    ghost var all := r.Remaining();
    assert [] + all == all;
    for i := 0 to |requests|
      invariant all == out + r.Remaining()
    {
      var piece := ReadOne(r, requests[i]);
      Assoc(out, piece, r.Remaining());
      out := out + piece;
    }
  }

  method ReadOne(r: BufferedReader, request: Request) returns (piece: seq<byte>)
    modifies r
    ensures old(r.Remaining()) == piece + r.Remaining()
    ensures request.Bytes? || request.AtMost? ==> |piece| <= request.n
  {
    match request {
      case Bytes(n) =>
        var data, eof := r.Read(n);
        piece := data;
      case Everything =>
        var mb, eof := r.ReadMultiBuffer();
        piece := Concat(mb);
      case AtMost(n) =>
        var mb, eof := r.ReadAtMost(n);
        piece := Concat(mb);
    }
  }

  // ------------------------------------------------------------------- re-chunking

  /** Buffers of the given sizes off the front of a stream. */
  function CutBuffers(wire: seq<byte>, sizes: seq<nat>): seq<seq<byte>>
    decreases |sizes|
  {
    if sizes == [] then []
    else
      var n := Min(sizes[0], |wire|);
      [wire[..n]] + CutBuffers(wire[n..], sizes[1..])
  }

  lemma {:induction false} CutBuffersPrefix(wire: seq<byte>, sizes: seq<nat>)
    ensures Concat(CutBuffers(wire, sizes)) <= wire
    decreases |sizes|
  {
    if sizes != [] {
      var n := Min(sizes[0], |wire|);
      CutBuffersPrefix(wire[n..], sizes[1..]);
      var mb, rest := CutBuffers(wire, sizes), CutBuffers(wire[n..], sizes[1..]);
      assert mb[0] == wire[..n] && mb[1..] == rest;
      assert wire == wire[..n] + wire[n..];
    }
  }

  /** A stream cut into reads of buffers of the given sizes; what is left is one more read. */
  function CutUp(wire: seq<byte>, sizes: seq<seq<nat>>): seq<seq<seq<byte>>>
    decreases |sizes|
  {
    if sizes == [] then if wire == [] then [] else [[wire]]
    else
      var mb := CutBuffers(wire, sizes[0]);
      CutBuffersPrefix(wire, sizes[0]);
      [mb] + CutUp(wire[|Concat(mb)|..], sizes[1..])
  }

  lemma {:induction false} CutUpConserves(wire: seq<byte>, sizes: seq<seq<nat>>)
    ensures ConcatAll(CutUp(wire, sizes)) == wire
    decreases |sizes|
  {
    if sizes == [] {
      if wire != [] {
        var one := [[wire]];
        ConcatOne(wire);
        assert one[1..] == [] && ConcatAll(one[1..]) == [];
        assert ConcatAll(one) == wire + [];
      }
    } else {
      var mb := CutBuffers(wire, sizes[0]);
      CutBuffersPrefix(wire, sizes[0]);
      var rest := CutUp(wire[|Concat(mb)|..], sizes[1..]);
      CutUpConserves(wire[|Concat(mb)|..], sizes[1..]);
      assert ([mb] + rest)[0] == mb && ([mb] + rest)[1..] == rest;
    }
  }

  function Lengths(mb: seq<seq<byte>>): seq<nat> {
    if mb == [] then [] else [|mb[0]|] + Lengths(mb[1..])
  }

  function AllLengths(source: seq<seq<seq<byte>>>): seq<seq<nat>> {
    if source == [] then [] else [Lengths(source[0])] + AllLengths(source[1..])
  }

  lemma {:induction false} EveryCutBuffers(mb: seq<seq<byte>>, rest: seq<byte>)
    ensures CutBuffers(Concat(mb) + rest, Lengths(mb)) == mb
    decreases |mb|
  {
    if mb != [] {
      EveryCutBuffers(mb[1..], rest);
      var wire, sizes := Concat(mb) + rest, Lengths(mb);
      Assoc(mb[0], Concat(mb[1..]), rest);
      assert sizes[0] == |mb[0]| && sizes[1..] == Lengths(mb[1..]);
      assert wire[..|mb[0]|] == mb[0] && wire[|mb[0]|..] == Concat(mb[1..]) + rest;
    }
  }

  /** Every re-chunking of a stream is some CutUp of it. */
  lemma {:induction false} EveryCut(source: seq<seq<seq<byte>>>)
    ensures CutUp(ConcatAll(source), AllLengths(source)) == source
    decreases |source|
  {
    if source != [] {
      var mb, rest := source[0], ConcatAll(source[1..]);
      EveryCutBuffers(mb, rest);
      EveryCut(source[1..]);
      var sizes := AllLengths(source);
      assert sizes[0] == Lengths(mb) && sizes[1..] == AllLengths(source[1..]);
      assert (Concat(mb) + rest)[|Concat(mb)|..] == rest;
    }
  }
}
