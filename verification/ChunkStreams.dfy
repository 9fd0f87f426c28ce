/** ChunkStreamReader and ChunkStreamWriter (common/crypto/chunk.go) with the plain size
    parser: a byte stream as length-prefixed chunks, a zero length ending it. */
module ChunkStreams {
  import opened Bytes
  import opened Buffers
  import opened BufferedReaders

  /** Each chunk behind its 16-bit length. */
  function ChunkWire(xs: seq<seq<byte>>): seq<byte> {
    if xs == [] then [] else Be16(|xs[0]|) + xs[0] + ChunkWire(xs[1..])
  }

  predicate ProperChunks(xs: seq<seq<byte>>) {
    forall i :: 0 <= i < |xs| ==> 0 < |xs[i]| < 65536
  }

  // ------------------------------------------------------------------------- reader

  /** What a reader is about to meet: the rest of the current chunk, whole chunks, perhaps
      a zero-length chunk, and then bytes that are not its own. */
  datatype Ahead = Ahead(current: seq<byte>, chunks: seq<seq<byte>>, zero: bool, rest: seq<byte>)

  function AheadBytes(a: Ahead): seq<byte> {
    a.current + (ChunkWire(a.chunks) + ((if a.zero then Be16(0) else []) + a.rest))
  }

  function AheadData(a: Ahead): seq<byte> {
    a.current + Concat(a.chunks)
  }

  class ChunkStreamReader {
    const reader: BufferedReader
    const maxNumChunk: nat        // 0 for no limit
    var leftOverSize: nat
    var numChunk: nat

    /** The bytes ahead are as described, and reading stops right before `rest`. */
    ghost predicate Expects(a: Ahead)
      reads this, reader
    {
      && |a.current| == leftOverSize && ProperChunks(a.chunks)
      && reader.Remaining() == AheadBytes(a)
      && (if a.zero then maxNumChunk == 0 || numChunk + |a.chunks| < maxNumChunk
          else maxNumChunk > 0 && numChunk + |a.chunks| == maxNumChunk)
    }

    ghost function Position(): (nat, nat, nat)
      reads this, reader
    {
      (|reader.source|, |reader.Remaining()|, |reader.buffer|)
    }

    constructor (reader: BufferedReader, maxNumChunk: nat)
      ensures this.reader == reader && this.maxNumChunk == maxNumChunk && leftOverSize == 0 && numChunk == 0
    {
      this.reader, this.maxNumChunk, leftOverSize, numChunk := reader, maxNumChunk, 0, 0;
    }

    /** Opens the next chunk: counts it and reads its length. `None` stands for end of file. */
    method NextChunk(ghost a: Ahead) returns (size: Option<nat>)
      requires leftOverSize == 0
      modifies this`numChunk, reader
      ensures size.Some? ==> size.value > 0 && |reader.source| <= old(|reader.source|)
                             && |reader.Remaining()| < old(|reader.Remaining()|)
      ensures old(Expects(a)) ==>
                if a.chunks == [] then size == None && reader.Remaining() == a.rest
                else && size == Some(|a.chunks[0]|)
                     && numChunk == old(numChunk) + 1
                     && reader.Remaining() == AheadBytes(Ahead(a.chunks[0], a.chunks[1..], a.zero, a.rest))
    {
      numChunk := numChunk + 1;
      ghost var expected := old(Expects(a));
      if maxNumChunk > 0 && numChunk > maxNumChunk {
        return None;
      }
      if expected {
        Opening(a);
      }
      var b := reader.ReadFull(2);
      if b == None || U16(b.value, 0) == 0 {
        return None;
      }
      size := Some(U16(b.value, 0));
    }

    /** Makes sure that there is a current chunk. */
    method EnterChunk(ghost a: Ahead) returns (eof: bool, ghost a': Ahead)
      modifies this, reader
      ensures eof ==> old(Expects(a)) ==> AheadData(a) == [] && reader.Remaining() == a.rest
      ensures !eof ==> leftOverSize > 0 && (Position() == old(Position()) || Advances(old(Position()), Position()))
      ensures !eof && old(Expects(a)) ==> Expects(a') && a'.rest == a.rest && AheadData(a') == AheadData(a)
    {
      a', eof := a, false;
      if leftOverSize == 0 {
        var next := NextChunk(a);
        if next == None {
          assert a.chunks == [] ==> Concat(a.chunks) == [];
          return true, a;
        }
        leftOverSize := next.value;
        if a.chunks != [] {
          a' := Ahead(a.chunks[0], a.chunks[1..], a.zero, a.rest);
        }
      }
    }

    /** The next buffers of the current chunk. */
    method TakeFromChunk(ghost a: Ahead) returns (mb: seq<seq<byte>>, eof: bool, ghost a': Ahead)
      requires leftOverSize > 0
      modifies this`leftOverSize, reader
      ensures eof ==> mb == []
      ensures !eof ==> Advances(old(Position()), Position())
      ensures old(Expects(a)) ==>
                !eof && Expects(a') && a'.rest == a.rest && Concat(mb) + AheadData(a') == AheadData(a)
    {
      a' := a;
      mb, eof := reader.ReadAtMost(leftOverSize);
      leftOverSize := leftOverSize - |Concat(mb)|;
      if old(Expects(a)) {
        Consume(a, Concat(mb), reader.Remaining());
        a' := a.(current := a.current[|Concat(mb)|..]);
      }
    }

    /** The next buffers of the current chunk, or of the next one. */
    method ReadMultiBuffer(ghost a: Ahead) returns (mb: seq<seq<byte>>, eof: bool, ghost a': Ahead)
      modifies this, reader
      ensures eof ==> mb == []
      ensures !eof ==> Advances(old(Position()), Position())
      ensures old(Expects(a)) ==>
                if eof then AheadData(a) == [] && reader.Remaining() == a.rest
                else Expects(a') && a'.rest == a.rest && Concat(mb) + AheadData(a') == AheadData(a)
    {
      eof, a' := EnterChunk(a);
      if eof {
        return [], true, a';
      }
      mb, eof, a' := TakeFromChunk(a');
    }
  }

  /** A reader advances: it uses up its source, or delivers bytes, or drops empty buffers. */
  predicate Advances(a: (nat, nat, nat), b: (nat, nat, nat)) {
    b.0 < a.0 || (b.0 == a.0 && (b.1 < a.1 || (b.1 == a.1 && b.2 < a.2)))
  }

  /** Taking bytes off the current chunk. */
  lemma {:induction false} Consume(a: Ahead, d: seq<byte>, rem: seq<byte>)
    requires AheadBytes(a) == d + rem && |d| <= |a.current|
    ensures var b := a.(current := a.current[|d|..]);
            rem == AheadBytes(b) && d + AheadData(b) == AheadData(a)
  {
    var b := a.(current := a.current[|d|..]);
    assert d == (d + rem)[..|d|] == a.current[..|d|];
    assert rem == (d + rem)[|d|..] == AheadBytes(b);
    assert a.current == d + b.current;
  }

  /** The bytes at a chunk boundary start with a length. */
  lemma {:induction false} Opening(a: Ahead)
    requires a.current == [] && ProperChunks(a.chunks) && (a.chunks != [] || a.zero)
    ensures var b := AheadBytes(a);
            && |b| >= 2
            && (if a.chunks == [] then U16(b[..2], 0) == 0 && b[2..] == a.rest
                else U16(b[..2], 0) == |a.chunks[0]|
                     && b[2..] == AheadBytes(Ahead(a.chunks[0], a.chunks[1..], a.zero, a.rest)))
  {
    var b := AheadBytes(a);
    var tail := (if a.zero then Be16(0) else []) + a.rest;
    assert b == ChunkWire(a.chunks) + tail;
    if a.chunks == [] {
      assert b == Be16(0) + a.rest;
      assert b[..2] == Be16(0);
    } else {
      var x := a.chunks[0];
      assert b == Be16(|x|) + (x + (ChunkWire(a.chunks[1..]) + tail));
      assert b[..2] == Be16(|x|);
    }
  }

  /** buf.Copy from a chunk reader to a writer that accepts `accept` writes (`None`: all of
      them) and then fails; what is left after a failure is read and discarded, as the mux
      handlers do. */
  method CopyOrDiscard(r: ChunkStreamReader, accept: Option<nat>, ghost a: Ahead) returns (out: seq<byte>, failed: bool)
    modifies r, r.reader
    ensures accept == None ==> !failed
    ensures old(r.Expects(a)) ==>
              && r.reader.Remaining() == a.rest
              && out <= AheadData(a) && (!failed ==> out == AheadData(a))
  {
    out, failed := [], false;
    var writes := 0;
    ghost var expected, left, all: seq<byte> := r.Expects(a), a, [];
    assert all + AheadData(a) == AheadData(a);
    while true
      invariant expected ==> r.Expects(left) && left.rest == a.rest && all + AheadData(left) == AheadData(a)
      invariant out <= all && (!failed ==> out == all) && (accept == None ==> !failed)
      decreases |r.reader.source|, |r.reader.Remaining()|, |r.reader.buffer|
    {
      ghost var before := AheadData(left);
      var mb, eof;
      mb, eof, left := r.ReadMultiBuffer(left);
      if eof {
        assert expected ==> all + before == all;
        return;
      }
      Assoc(all, Concat(mb), AheadData(left));
      all := all + Concat(mb);
      if |Concat(mb)| > 0 && !failed {
        if accept.Some? && writes >= accept.value {
          failed := true;
        } else {
          out := out + Concat(mb);
          writes := writes + 1;
        }
      }
    }
  }

  // ------------------------------------------------------------------------- writer

  const SLICE_SIZE := 8192

  /** The list does not start with empty buffers followed by one larger than a slice. */
  predicate GoodStart(mb: seq<seq<byte>>) {
    mb == [] || mb[0] != [] || FirstBytesFit(mb[1..])
  }

  predicate FirstBytesFit(mb: seq<seq<byte>>) {
    mb == [] || if mb[0] == [] then FirstBytesFit(mb[1..]) else |mb[0]| <= SLICE_SIZE
  }

  /** Whole buffers off the front come to nothing, although there is something, exactly
      behind empty buffers when the next one is too large. */
  lemma {:induction false} EmptyTaken(cs: seq<seq<byte>>)
    ensures var s := WholeBuffers(cs, SLICE_SIZE);
      && (Concat(s.taken) == [] && Concat(cs) != [] <==> !FirstBytesFit(cs))
      && (s.rest == [] || s.rest[0] != [])
    decreases |cs|
  {
    WholeBuffersTakes(cs, SLICE_SIZE);
    RestIsFull(cs, SLICE_SIZE);
    if cs != [] && |cs[0]| <= SLICE_SIZE {
      var t := WholeBuffers(cs[1..], SLICE_SIZE - |cs[0]|);
      assert WholeBuffers(cs, SLICE_SIZE).taken[1..] == t.taken;
      if cs[0] == [] {
        EmptyTaken(cs[1..]);
        assert [] + Concat(t.taken) == Concat(t.taken) && [] + Concat(cs[1..]) == Concat(cs[1..]);
      }
    }
  }

  lemma {:induction false} RestIsFull(cs: seq<seq<byte>>, size: nat)
    ensures var s := WholeBuffers(cs, size); s.rest == [] || |s.rest[0]| > 0
    decreases |cs|
  {
    if cs != [] && |cs[0]| <= size {
      RestIsFull(cs[1..], size - |cs[0]|);
    }
  }

  /** A slice is empty, although there is data, exactly after a bad start; what follows a
      slice starts with data. */
  lemma {:induction false} SliceExact(cs: seq<seq<byte>>)
    ensures var s := SplitSizeOf(cs, SLICE_SIZE);
      && Concat(s.taken) + Concat(s.rest) == Concat(cs) && |Concat(s.taken)| <= SLICE_SIZE
      && (Concat(s.taken) == [] && Concat(cs) != [] <==> !GoodStart(cs))
      && (s.rest == [] || s.rest[0] != [])
  {
    SplitSizeTakes(cs, SLICE_SIZE);
    if cs != [] && |cs[0]| <= SLICE_SIZE {
      EmptyTaken(cs);
    } else if cs != [] {
      var s := SplitSizeOf(cs, SLICE_SIZE);
      assert s.rest[0] == cs[0][SLICE_SIZE..];
    }
  }

  /** All chunks but the first carry data; the first does unless there is none, or the list
      has a bad start. */
  predicate Cut(xs: seq<seq<byte>>, mb: seq<seq<byte>>) {
    && (forall i :: 0 < i < |xs| ==> 0 < |xs[i]| <= SLICE_SIZE)
    && (xs != [] ==> |xs[0]| <= SLICE_SIZE && (xs[0] == [] <==> Concat(mb) == [] || !GoodStart(mb)))
  }

  /** ChunkStreamWriter.WriteMultiBuffer. The chunks always carry the bytes in order; a bad
      start sends the end marker first, and then nothing of it is read. */
  method WriteChunks(mb: seq<seq<byte>>) returns (wire: seq<byte>, ghost xs: seq<seq<byte>>)
    ensures wire == ChunkWire(xs) && xs != [] && Concat(xs) == Concat(mb) && Cut(xs, mb)
    ensures Concat(mb) == [] ==> xs == [[]]
  {
    wire, xs := [], [];
    var left := mb;
    assert [] + Concat(mb) == Concat(mb);
    while true
      invariant wire == ChunkWire(xs) && Concat(xs) + Concat(left) == Concat(mb) && Cut(xs, mb)
      invariant if xs == [] then left == mb else left != [] && left[0] != [] && Concat(left) != []
      decreases |Concat(left)| + (if xs == [] then 1 else 0)
    {
      var slice;
      slice, wire, left := WriteSlice(left, wire, xs);
      Assoc(Concat(xs), slice, Concat(left));
      xs := xs + [slice];
      if |Concat(left)| == 0 {
        assert Concat(xs) + Concat(left) == Concat(xs);
        return;
      }
    }
  }

  /** One turn: a slice behind its length. */
  method WriteSlice(left: seq<seq<byte>>, wire: seq<byte>, ghost xs: seq<seq<byte>>)
    returns (slice: seq<byte>, wire': seq<byte>, rest: seq<seq<byte>>)
    requires wire == ChunkWire(xs)
    ensures wire' == ChunkWire(xs + [slice]) && Concat(xs + [slice]) == Concat(xs) + slice
    ensures slice + Concat(rest) == Concat(left) && |slice| <= SLICE_SIZE
    ensures slice == [] && Concat(left) != [] <==> !GoodStart(left)
    ensures rest == [] || rest[0] != []
  {
    var s := SplitSizeOf(left, SLICE_SIZE);
    SliceExact(left);
    slice, rest := Concat(s.taken), s.rest;
    WireSnoc(xs, slice);
    ConcatSnoc(xs, slice);
    wire' := wire + (Be16(|slice|) + slice);
  }

  lemma {:induction false} WireSnoc(xs: seq<seq<byte>>, x: seq<byte>)
    ensures ChunkWire(xs + [x]) == ChunkWire(xs) + (Be16(|x|) + x)
  {
    var all, none: seq<seq<byte>> := xs + [x], [];
    if xs == [] {
      assert all[0] == x && all[1..] == none && ChunkWire(none) == [];
      assert Be16(|x|) + x + [] == Be16(|x|) + x;
    } else {
      WireSnoc(xs[1..], x);
      assert all[0] == xs[0] && all[1..] == xs[1..] + [x];
      var h, t, w := Be16(|xs[0]|) + xs[0], ChunkWire(xs[1..]), Be16(|x|) + x;
      Assoc(h, t, w);
    }
  }

  // ---------------------------------------------------------------------- both ends

  /** A write that ends the stream: it is empty, or it has a bad start. */
  predicate Ends(mb: seq<seq<byte>>) {
    Concat(mb) == [] || !GoodStart(mb)
  }

  /** The data of the writes before the first one that ends the stream. */
  function Kept(writes: seq<seq<seq<byte>>>): seq<byte> {
    if writes == [] || Ends(writes[0]) then [] else Concat(writes[0]) + Kept(writes[1..])
  }

  /** Data writes with good starts, and then nothing but empty writes. */
  predicate Readable(writes: seq<seq<seq<byte>>>) {
    writes == [] ||
    if Ends(writes[0]) then ConcatAll(writes) == [] else Readable(writes[1..])
  }

  lemma {:induction false} KeptExact(writes: seq<seq<seq<byte>>>)
    ensures Kept(writes) <= ConcatAll(writes)
    ensures Kept(writes) == ConcatAll(writes) <==> Readable(writes)
    decreases |writes|
  {
    if writes != [] && !Ends(writes[0]) {
      KeptExact(writes[1..]);
      var x, y, z := Concat(writes[0]), Kept(writes[1..]), ConcatAll(writes[1..]);
      assert (x + y)[|x|..] == y && (x + z)[|x|..] == z;
    }
  }

  /** What is on the wire after some writes: whole chunks, and perhaps an end marker with
      bytes behind it that nobody will read. */
  datatype OnWire = OnWire(chunks: seq<seq<byte>>, ended: bool, rest: seq<byte>)

  function WireBytes(o: OnWire): seq<byte> {
    ChunkWire(o.chunks) + if o.ended then Be16(0) + o.rest else []
  }

  ghost predicate Written(o: OnWire, writes: seq<seq<seq<byte>>>, i: nat)
    requires i <= |writes|
  {
    ProperChunks(o.chunks) && Kept(writes) == Concat(o.chunks) + if o.ended then [] else Kept(writes[i..])
  }

  lemma {:induction false} ChunkWireAppend(xs: seq<seq<byte>>, ys: seq<seq<byte>>)
    ensures ChunkWire(xs + ys) == ChunkWire(xs) + ChunkWire(ys)
  {
    if xs == [] {
      assert xs + ys == ys;
    } else {
      ChunkWireAppend(xs[1..], ys);
      assert (xs + ys)[0] == xs[0] && (xs + ys)[1..] == xs[1..] + ys;
      Assoc(Be16(|xs[0]|) + xs[0], ChunkWire(xs[1..]), ChunkWire(ys));
    }
  }

  /** The wire after one more write, whose chunks are `xs`. */
  function Onto(o: OnWire, xs: seq<seq<byte>>): OnWire
    requires xs != []
  {
    if o.ended then o.(rest := o.rest + ChunkWire(xs))
    else if xs[0] == [] then OnWire(o.chunks, true, ChunkWire(xs[1..]))
    else o.(chunks := o.chunks + xs)
  }

  lemma {:induction false} OntoWire(o: OnWire, xs: seq<seq<byte>>)
    requires xs != []
    ensures WireBytes(Onto(o, xs)) == WireBytes(o) + ChunkWire(xs)
  {
    var w := ChunkWire(o.chunks);
    if o.ended {
      Assoc(Be16(0), o.rest, ChunkWire(xs));
      Assoc(w, Be16(0) + o.rest, ChunkWire(xs));
    } else if xs[0] == [] {
      assert ChunkWire(xs) == Be16(0) + [] + ChunkWire(xs[1..]) == Be16(0) + ChunkWire(xs[1..]);
      assert w + [] == w;
    } else {
      ChunkWireAppend(o.chunks, xs);
      assert w + [] == w && w + ChunkWire(xs) + [] == w + ChunkWire(xs);
    }
  }

  lemma {:induction false} OntoWritten(o: OnWire, xs: seq<seq<byte>>, writes: seq<seq<seq<byte>>>, i: nat)
    requires i < |writes| && Written(o, writes, i)
    requires xs != [] && Cut(xs, writes[i]) && Concat(xs) == Concat(writes[i])
    ensures Written(Onto(o, xs), writes, i + 1)
  {
    if !o.ended {
      var left := writes[i..];
      assert left[0] == writes[i] && left[1..] == writes[i + 1..];
      if xs[0] == [] {
        assert Kept(left) == [];
      } else {
        ConcatAppend(o.chunks, xs);
        Assoc(Concat(o.chunks), Concat(xs), Kept(left[1..]));
      }
    }
  }

  lemma {:induction false} WireAhead(o: OnWire)
    requires o.ended
    ensures AheadBytes(Ahead([], o.chunks, true, o.rest)) == WireBytes(o)
    ensures AheadData(Ahead([], o.chunks, true, o.rest)) == Concat(o.chunks)
  {
    assert [] + WireBytes(o) == WireBytes(o) && [] + Concat(o.chunks) == Concat(o.chunks);
  }

  /** Any writes, one after another. */
  method WriteAll(writes: seq<seq<seq<byte>>>) returns (wire: seq<byte>, ghost o: OnWire)
    ensures wire == WireBytes(o) && Written(o, writes, |writes|)
  {
    wire, o := [], OnWire([], false, []);
    assert writes[0..] == writes && [] + Kept(writes) == Kept(writes);
    for i := 0 to |writes|
      invariant wire == WireBytes(o) && Written(o, writes, i)
    {
      var w, xs := WriteChunks(writes[i]);
      OntoWire(o, xs);
      OntoWritten(o, xs, writes, i);
      wire, o := wire + w, Onto(o, xs);
    }
  }

  /** CHUNK STREAM. Any sequence of writes, ended by an empty one and cut into reads in any way,
      is read back as the data before the first write that is empty or has a bad start: as all
      of it, if and only if there is no bad start and nothing behind an empty write. */
  method RoundTrip(writes: seq<seq<seq<byte>>>, sizes: seq<seq<nat>>) returns (out: seq<byte>)
    ensures out == Kept(writes)
    ensures out == ConcatAll(writes) <==> Readable(writes)
  {
    var wire, o := WriteAll(writes);
    var end, xs := WriteChunks([]);
    OntoWire(o, xs);
    o := Onto(o, xs);
    WireAhead(o);
    CutUpConserves(wire + end, sizes);
    var b := new BufferedReader(CutUp(wire + end, sizes));
    var r := new ChunkStreamReader(b, 0);
    var failed;
    out, failed := CopyOrDiscard(r, None, Ahead([], o.chunks, true, o.rest));
    KeptExact(writes);
    assert writes[|writes|..] == [] && Concat(o.chunks) + [] == Concat(o.chunks);
  }

  /** An empty buffer before one of 8193 bytes: the write is lost, with all that follow. */
  lemma {:induction false} BadStartIsLost(more: seq<seq<seq<byte>>>)
    ensures var mb := [[], Zeros(8193)];
      && !GoodStart(mb) && |Concat(mb)| == 8193
      && Concat(SplitSizeOf(mb, SLICE_SIZE).taken) == [] && Kept([mb] + more) == []
  {
    var big := Zeros(8193);
    var mb := [[], big];
    assert mb[1..] == [big];
    ConcatOne(big);
    assert Concat(mb) == [] + big == big;
    SliceExact(mb);
    assert ([mb] + more)[0] == mb;
  }
}
