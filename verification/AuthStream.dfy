/** AuthenticationWriter and AuthenticationReader (common/crypto/auth.go): a byte stream as
    sealed chunks, each with its own size field and padding. */
module AuthStream {
  import opened Bytes
  import opened Buffers
  import opened BufferedReaders

  /** An AEAD as a pair of functions of nonce and text. */
  datatype Aead = Aead(overhead: nat, seal: (seq<byte>, seq<byte>) -> seq<byte>,
                       open: (seq<byte>, seq<byte>) -> Option<seq<byte>>)

  /** Opening undoes sealing under the same nonce, and sealing adds `overhead` bytes. */
  ghost predicate Inverse(a: Aead) {
    forall n: seq<byte>, p: seq<byte> ::
      |a.seal(n, p)| == |p| + a.overhead && a.open(n, a.seal(n, p)) == Some(p)
  }

  /** A chunk size codec; the first argument counts its uses. */
  datatype SizeParser = SizeParser(bytes: nat, encode: (nat, nat) -> seq<byte>, decode: (nat, seq<byte>) -> Option<nat>)

  ghost predicate SoundParser(s: SizeParser) {
    forall k: nat, n: nat :: n < 65536 ==> |s.encode(k, n)| == s.bytes && s.decode(k, s.encode(k, n)) == Some(n)
  }

  /** What both ends agree on. `nonce` and `padding` give the k-th output of the nonce and
      padding generators. */
  datatype Codec = Codec(aead: Aead, nonce: nat -> seq<byte>, parser: SizeParser, padding: nat -> nat, maxPadding: nat)

  ghost predicate Sound(c: Codec) {
    && Inverse(c.aead) && SoundParser(c.parser)
    && (forall k: nat :: c.padding(k) <= c.maxPadding)
    && c.aead.overhead + c.parser.bytes + c.maxPadding < BUF_SIZE
  }

  // ------------------------------------------------------------------- size parsers

  /** PlainChunkSizeParser. */
  function PlainParser(): SizeParser {
    SizeParser(2, (k, n) => Be16(n), (k, b) => if |b| == 2 then Some(U16(b, 0)) else None)
  }

  lemma {:induction false} PlainParserSound()
    ensures SoundParser(PlainParser())
  {
  }

  /** AEADChunkSizeParser: the size without the overhead, sealed; 16-bit arithmetic wraps. */
  function AeadParser(a: Aead, nonce: nat -> seq<byte>): SizeParser {
    SizeParser(2 + a.overhead,
               (k, n) => a.seal(nonce(k), Be16((n - a.overhead) % 65536)),
               (k, b) => var r := a.open(nonce(k), b);
                         if r.Some? && |r.value| == 2 then Some((U16(r.value, 0) + a.overhead) % 65536) else None)
  }

  lemma {:induction false} AeadParserSound(a: Aead, nonce: nat -> seq<byte>)
    requires Inverse(a)
    ensures SoundParser(AeadParser(a, nonce))
  {
    var s := AeadParser(a, nonce);
    forall k: nat, n: nat | n < 65536
      ensures |s.encode(k, n)| == s.bytes && s.decode(k, s.encode(k, n)) == Some(n)
    {
      var b := Be16((n - a.overhead) % 65536);
      assert s.encode(k, n) == a.seal(nonce(k), b);
      WrapBack(n, a.overhead);
    }
  }

  lemma {:induction false} WrapBack(n: nat, o: nat)
    requires n < 65536
    ensures ((n - o) % 65536 + o) % 65536 == n
  {
  }

  // ------------------------------------------------------------------------- chunks

  /** One sealed chunk: its plaintext and the random padding behind it. */
  datatype Chunk = Chunk(plain: seq<byte>, junk: seq<byte>)

  ghost predicate ValidChunk(c: Codec, k: nat, x: Chunk) {
    |x.junk| == c.padding(k) && c.parser.bytes + |x.plain| + c.aead.overhead + |x.junk| <= BUF_SIZE
  }

  /** The encoded size: sealed text and padding. */
  ghost function SizeOf(c: Codec, x: Chunk): nat {
    |x.plain| + c.aead.overhead + |x.junk|
  }

  ghost function Body(c: Codec, k: nat, x: Chunk): seq<byte> {
    c.aead.seal(c.nonce(k), x.plain) + x.junk
  }

  ghost function WireOf(c: Codec, k: nat, xs: seq<Chunk>): seq<byte>
    decreases |xs|
  {
    if xs == [] then []
    else c.parser.encode(k, SizeOf(c, xs[0])) + (Body(c, k, xs[0]) + WireOf(c, k + 1, xs[1..]))
  }

  ghost function Plain(xs: seq<Chunk>): seq<byte> {
    if xs == [] then [] else xs[0].plain + Plain(xs[1..])
  }

  ghost predicate ValidChunks(c: Codec, k: nat, xs: seq<Chunk>)
    decreases |xs|
  {
    xs == [] || (ValidChunk(c, k, xs[0]) && ValidChunks(c, k + 1, xs[1..]))
  }

  /** There is an empty chunk. */
  ghost predicate Ended(xs: seq<Chunk>) {
    xs != [] && (xs[0].plain == [] || Ended(xs[1..]))
  }

  /** The plaintext before the first empty chunk. */
  ghost function UpToEnd(xs: seq<Chunk>): seq<byte> {
    if xs == [] || xs[0].plain == [] then [] else xs[0].plain + UpToEnd(xs[1..])
  }

  ghost predicate AllFull(xs: seq<Chunk>) {
    forall i :: 0 <= i < |xs| ==> xs[i].plain != []
  }

  lemma {:induction false} Snoc(c: Codec, k: nat, xs: seq<Chunk>, x: Chunk)
    requires ValidChunks(c, k, xs) && ValidChunk(c, k + |xs|, x)
    ensures ValidChunks(c, k, xs + [x])
    ensures WireOf(c, k, xs + [x])
            == WireOf(c, k, xs) + (c.parser.encode(k + |xs|, SizeOf(c, x)) + Body(c, k + |xs|, x))
    ensures Plain(xs + [x]) == Plain(xs) + x.plain
    decreases |xs|
  {
    var all, none: seq<Chunk> := xs + [x], [];
    if xs == [] {
      assert all[0] == x && all[1..] == none;
      assert Plain(none) == [] && WireOf(c, k + 1, none) == [];
      assert Body(c, k, x) + [] == Body(c, k, x) && x.plain + [] == x.plain;
    } else {
      Snoc(c, k + 1, xs[1..], x);
      assert all[0] == xs[0] && all[1..] == xs[1..] + [x];
      var h, b, w := c.parser.encode(k, SizeOf(c, xs[0])), Body(c, k, xs[0]), WireOf(c, k + 1, xs[1..]);
      var t := c.parser.encode(k + |xs|, SizeOf(c, x)) + Body(c, k + |xs|, x);
      assert h + (b + (w + t)) == h + (b + w) + t;
      Assoc(xs[0].plain, Plain(xs[1..]), x.plain);
    }
  }

  /** The first empty chunk ends the stream behind full ones ... */
  lemma {:induction false} EndedSnoc(xs: seq<Chunk>, x: Chunk)
    requires AllFull(xs) && x.plain == []
    ensures Ended(xs + [x]) && UpToEnd(xs + [x]) == Plain(xs)
    decreases |xs|
  {
    var all := xs + [x];
    if xs == [] {
      assert all[0] == x;
    } else {
      assert all[0] == xs[0] && all[1..] == xs[1..] + [x];
      EndedSnoc(xs[1..], x);
    }
  }

  /** ... and nothing behind it counts. */
  lemma {:induction false} EndedMore(xs: seq<Chunk>, ys: seq<Chunk>)
    requires Ended(xs)
    ensures Ended(xs + ys) && UpToEnd(xs + ys) == UpToEnd(xs)
    decreases |xs|
  {
    assert (xs + ys)[0] == xs[0] && (xs + ys)[1..] == xs[1..] + ys;
    if xs[0].plain != [] {
      EndedMore(xs[1..], ys);
    }
  }

  method RandomBytes(n: nat) returns (junk: seq<byte>)
    ensures |junk| == n
  {
    assert |Zeros(n)| == n;
    junk :| |junk| == n;
  }

  // ------------------------------------------------------------------------- writer

  class AuthenticationWriter {
    const codec: Codec
    var pads: nat      // uses of the padding generator
    var sizes: nat     // uses of the size encoder
    var seals: nat     // uses of the nonce generator
    var wire: seq<byte>
    ghost var chunks: seq<Chunk>

    /** The generators are in lockstep and the wire holds exactly the chunks so far. */
    ghost predicate Valid()
      reads this
    {
      && Sound(codec)
      && pads == sizes == seals == |chunks|
      && ValidChunks(codec, 0, chunks)
      && wire == WireOf(codec, 0, chunks)
    }

    constructor (codec: Codec)
      requires Sound(codec)
      ensures Valid() && this.codec == codec && wire == [] && chunks == []
    {
      this.codec := codec;
      pads, sizes, seals, wire, chunks := 0, 0, 0, [], [];
    }

    /** Seals one chunk; too large a chunk is an error. */
    method Seal(b: seq<byte>) returns (ok: bool)
      requires Valid()
      modifies this
      ensures codec.parser.bytes + |b| + codec.aead.overhead + codec.maxPadding <= BUF_SIZE ==> ok
      ensures ok ==> Valid() && |chunks| == |old(chunks)| + 1 && chunks[..|old(chunks)|] == old(chunks)
                     && chunks[|old(chunks)|].plain == b
      ensures !ok ==> pads == old(pads) + 1 && sizes == old(sizes) && seals == old(seals)
                      && wire == old(wire) && chunks == old(chunks)
    {
      var encryptedSize := |b| + codec.aead.overhead;
      var paddingSize := codec.padding(pads);
      if codec.parser.bytes + encryptedSize + paddingSize > BUF_SIZE {
        pads := pads + 1;
        return false;
      }
      var header := codec.parser.encode(sizes, encryptedSize + paddingSize);
      var text := codec.aead.seal(codec.nonce(seals), b);
      var junk := RandomBytes(paddingSize);
      Commit(header + (text + junk), Chunk(b, junk));
      ok := true;
    }

    /** One more chunk on the wire, one more use of each generator. */
    method Commit(bytes: seq<byte>, ghost x: Chunk)
      requires Valid() && ValidChunk(codec, |chunks|, x)
      requires bytes == codec.parser.encode(|chunks|, SizeOf(codec, x)) + Body(codec, |chunks|, x)
      modifies this
      ensures Valid() && chunks == old(chunks) + [x]
    {
      Snoc(codec, 0, chunks, x);
      pads, sizes, seals := pads + 1, sizes + 1, seals + 1;
      wire := wire + bytes;
      chunks := chunks + [x];
    }

    /** The payload of a full chunk. */
    function PayloadSize(): int
      reads this
    {
      BUF_SIZE - codec.aead.overhead - codec.parser.bytes - codec.maxPadding
    }

    /** Beyond `before` only non-empty chunks were written, each as large as can be but perhaps
        the last, and `left` completes `goal`. */
    ghost predicate Writing(before: seq<Chunk>, left: seq<seq<byte>>, goal: seq<byte>)
      reads this
    {
      && Valid() && |before| <= |chunks| && chunks[..|before|] == before && AllFull(chunks[|before|..])
      && Plain(chunks) + Concat(left) == goal && LargeChunks(chunks, |before|, PayloadSize(), Concat(left) == [])
    }

    /** Cuts the data into chunks of PayloadSize bytes, across buffer boundaries. */
    method WriteStream(mb: seq<seq<byte>>) returns (ok: bool)
      requires Valid() && Concat(mb) != []
      modifies this
      ensures ok && Valid()
      ensures |old(chunks)| <= |chunks| && chunks[..|old(chunks)|] == old(chunks)
      ensures AllFull(chunks[|old(chunks)|..]) && Plain(chunks) == Plain(old(chunks)) + Concat(mb)
      ensures LargeChunks(chunks, |old(chunks)|,
                          8192 - codec.aead.overhead - codec.parser.bytes - codec.maxPadding, true)
    {
      var left := mb;
      ghost var before, goal := chunks, Plain(chunks) + Concat(mb);
      while true
        invariant Concat(left) != [] && Writing(before, left, goal)
        decreases |Concat(left)|
      {
        left := WriteNext(left, before, goal);
        if |Concat(left)| == 0 {
          break;
        }
      }
      assert Concat(left) == [] && Plain(chunks) + [] == Plain(chunks);
      ok := true;
    }

    method WriteNext(left: seq<seq<byte>>, ghost before: seq<Chunk>, ghost goal: seq<byte>)
      returns (rest: seq<seq<byte>>)
      requires Concat(left) != [] && Writing(before, left, goal)
      modifies this
      ensures |Concat(rest)| < |Concat(left)| && Writing(before, rest, goal)
    {
      ghost var sofar := chunks;
      rest := WriteChunk(left);
      LargeNext(sofar, chunks, |before|, PayloadSize(), Concat(rest) == []);
    }

    /** One turn of the loop: SplitBytes and Seal. */
    method WriteChunk(left: seq<seq<byte>>) returns (rest: seq<seq<byte>>)
      requires Valid() && Concat(left) != []
      modifies this
      ensures Valid() && |chunks| == |old(chunks)| + 1 && chunks[..|old(chunks)|] == old(chunks)
      ensures chunks[|old(chunks)|].plain == Take(Concat(left), PayloadSize()) != []
      ensures |Concat(rest)| == |Concat(left)| - |chunks[|old(chunks)|].plain|
      ensures Plain(chunks) + Concat(rest) == Plain(old(chunks)) + Concat(left)
    {
      SplitBytesTakes(left, PayloadSize());
      var s := SplitBytesOf(left, PayloadSize());
      ghost var before := chunks;
      var ok := Seal(Concat(s.taken));
      SealedPlain(before, chunks);
      Assoc(Plain(before), Concat(s.taken), Concat(s.rest));
      rest := s.rest;
    }

    /** A write of data, or of nothing: the empty write ends the stream. */
    method WriteMultiBuffer(mb: seq<seq<byte>>) returns (ok: bool)
      requires Valid()
      modifies this
      ensures ok && Valid()
      ensures |old(chunks)| <= |chunks| && chunks[..|old(chunks)|] == old(chunks)
      ensures if Concat(mb) == [] then |chunks| == |old(chunks)| + 1 && chunks[|old(chunks)|].plain == []
              else AllFull(chunks[|old(chunks)|..]) && LargeChunks(chunks, |old(chunks)|, PayloadSize(), true)
      ensures Plain(chunks) == Plain(old(chunks)) + Concat(mb)
    {
      if |Concat(mb)| == 0 {
        ghost var before := chunks;
        ok := Seal([]);
        SealedPlain(before, chunks);
      } else {
        ok := WriteStream(mb);
      }
    }
  }

  /** From `from` on all chunks hold `size` bytes; only the last one, of a write that is done, may
      hold fewer. */
  ghost predicate LargeChunks(xs: seq<Chunk>, from: nat, size: int, done: bool) {
    forall i :: from <= i < |xs| ==> |xs[i].plain| == size || (done && i == |xs| - 1 && |xs[i].plain| < size)
  }

  lemma {:induction false} LargeNext(before: seq<Chunk>, xs: seq<Chunk>, from: nat, size: int, done: bool)
    requires LargeChunks(before, from, size, false) && |xs| == |before| + 1 && xs[..|before|] == before
    requires |xs[|before|].plain| == size || (done && |xs[|before|].plain| < size)
    ensures LargeChunks(xs, from, size, done)
  {
    assert forall i :: 0 <= i < |before| ==> xs[i] == before[i];
  }

  lemma {:induction false} SealedPlain(before: seq<Chunk>, after: seq<Chunk>)
    requires |after| == |before| + 1 && after[..|before|] == before
    ensures Plain(after) == Plain(before) + after[|before|].plain
    decreases |before|
  {
    if before == [] {
      var none: seq<Chunk> := [];
      assert after[1..] == none && Plain(none) == [];
    } else {
      assert after[0] == before[0] && after[1..][..|before| - 1] == before[1..];
      SealedPlain(before[1..], after[1..]);
      var x, y, z := before[0].plain, Plain(before[1..]), after[|before|].plain;
      Assoc(x, y, z);
    }
  }

  // ------------------------------------------------------------------------- reader

  datatype Status = Ok | Soft | Eof | Failed

  class AuthenticationReader {
    const codec: Codec
    const reader: BufferedReader
    var size: nat
    var paddingLen: nat
    var hasSize: bool
    var done: bool
    var pads: nat      // uses of the padding generator
    var sizes: nat     // uses of the size decoder
    var opens: nat     // uses of the nonce generator

    /** The generators stand at chunk `k` and the chunks `xs` are still to come; with a
        cached size, the size field of the first of them has been consumed. */
    ghost predicate Expects(k: nat, xs: seq<Chunk>)
      reads this, reader
    {
      && Sound(codec) && !done && Ended(xs) && ValidChunks(codec, k, xs) && opens == k
      && if hasSize then
           && xs[0].plain != [] && size == SizeOf(codec, xs[0]) && paddingLen == codec.padding(k)
           && pads == sizes == k + 1
           && reader.Remaining() == Body(codec, k, xs[0]) + WireOf(codec, k + 1, xs[1..])
         else pads == sizes == k && reader.Remaining() == WireOf(codec, k, xs)
    }

    constructor (codec: Codec, reader: BufferedReader)
      ensures this.codec == codec && this.reader == reader && !hasSize && !done
      ensures pads == sizes == opens == 0
    {
      this.codec, this.reader := codec, reader;
      size, paddingLen, hasSize, done, pads, sizes, opens := 0, 0, false, false, 0, 0, 0;
    }

    /** The next chunk's size and padding: the cached ones, or decoded from the stream. */
    method ReadSize(ghost k: nat, ghost xs: seq<Chunk>) returns (r: Option<(nat, nat)>)
      modifies this, reader
      ensures done == old(done) && !hasSize && opens == old(opens)
      ensures old(Expects(k, xs)) ==>
                && r == Some((SizeOf(codec, xs[0]), codec.padding(k))) && pads == sizes == k + 1
                && reader.Remaining() == Body(codec, k, xs[0]) + WireOf(codec, k + 1, xs[1..])
    {
      if hasSize {
        hasSize := false;
        return Some((size, paddingLen));
      }
      ghost var all := reader.Remaining();
      var b := reader.ReadFull(codec.parser.bytes);
      if b == None {
        return None;
      }
      var padding := codec.padding(pads);
      var n := codec.parser.decode(sizes, b.value);
      pads, sizes := pads + 1, sizes + 1;
      if n == None {
        return None;
      }
      r := Some((n.value, padding));
    }

    /** Reads a chunk's body and opens it without its padding. The two branches of the
        source differ only in the storage they read into. */
    method ReadBody(n: nat, padding: nat, ghost k: nat, ghost x: Chunk, ghost rest: seq<byte>)
      returns (r: Option<seq<byte>>)
      modifies this, reader
      ensures hasSize == old(hasSize) && done == old(done) && pads == old(pads) && sizes == old(sizes)
      ensures old(Sound(codec) && opens == k && ValidChunk(codec, k, x)
                  && n == SizeOf(codec, x) && padding == codec.padding(k)
                  && reader.Remaining() == Body(codec, k, x) + rest) ==>
                r == Some(x.plain) && opens == k + 1 && reader.Remaining() == rest
    {
      var b := reader.ReadFull(n);
      if b == None {
        return None;
      }
      var text := BytesTo(b.value, n - padding);
      r := codec.aead.open(codec.nonce(opens), text);
      opens := opens + 1;
      ghost var sealed := codec.aead.seal(codec.nonce(k), x.plain);
      assert (sealed + x.junk + rest)[..|sealed| + |x.junk|] == sealed + x.junk;
      assert (sealed + x.junk)[..|sealed|] == sealed;
    }

    /** The answer of a read that expects chunks `xs`: the first of them appended to `mb`, nothing
        yet, or the end of the stream. */
    ghost predicate Answers(status: Status, soft: bool, mb: seq<seq<byte>>, mb': seq<seq<byte>>, k: nat,
                            xs: seq<Chunk>)
      requires xs != []
      reads this, reader
    {
      match status
      case Ok => xs[0].plain != [] && Expects(k + 1, xs[1..]) && Concat(mb') == Concat(mb) + xs[0].plain
      case Soft => soft && Expects(k, xs)
      case Eof => xs[0].plain == [] && done
      case Failed => false
    }

    /** One chunk. A soft read takes nothing from the underlying reader: with less than a
        whole chunk buffered it stops, remembering a size it has already decoded. */
    method ReadInternal(soft: bool, mb: seq<seq<byte>>, ghost k: nat, ghost xs: seq<Chunk>)
      returns (status: Status, mb': seq<seq<byte>>)
      modifies this, reader
      ensures status != Ok ==> mb' == mb
      ensures old(done) && !soft ==> status == Eof
      ensures status == Eof ==> done
      ensures old(Expects(k, xs)) ==> Answers(status, soft, mb, mb', k, xs)
    {
      var buffered := reader.BufferedBytes();
      if soft && buffered < codec.parser.bytes {
        return Soft, mb;
      }
      if done {
        return Eof, mb;
      }
      var sp := ReadSize(k, xs);
      if sp == None {
        return Failed, mb;
      }
      status, mb' := AtSize(soft, sp.value.0, sp.value.1, mb, k, xs);
    }

    /** The size of the next chunk and its padding have been read. */
    ghost predicate Sized(k: nat, xs: seq<Chunk>, n: nat, padding: nat)
      reads this, reader
    {
      && Sound(codec) && !done && !hasSize && Ended(xs) && ValidChunks(codec, k, xs)
      && opens == k && pads == sizes == k + 1 && n == SizeOf(codec, xs[0]) && padding == codec.padding(k)
      && reader.Remaining() == Body(codec, k, xs[0]) + WireOf(codec, k + 1, xs[1..])
    }

    /** What follows a size: the end of the stream, a chunk that is not there yet, or a chunk. */
    method AtSize(soft: bool, n: nat, padding: nat, mb: seq<seq<byte>>, ghost k: nat, ghost xs: seq<Chunk>)
      returns (status: Status, mb': seq<seq<byte>>)
      modifies this, reader
      ensures status != Ok ==> mb' == mb
      ensures status == Eof ==> done
      ensures old(Sized(k, xs, n, padding)) ==> Answers(status, soft, mb, mb', k, xs)
    {
      if n == codec.aead.overhead + padding {
        done := true;
        return Eof, mb;
      }
      var buffered := reader.BufferedBytes();
      if soft && n > buffered {
        size, paddingLen, hasSize := n, padding, true;
        return Soft, mb;
      }
      status, mb' := TakeChunk(n, padding, mb, k, xs);
    }

    /** Reads, opens and appends the chunk whose size is known. */
    method TakeChunk(n: nat, padding: nat, mb: seq<seq<byte>>, ghost k: nat, ghost xs: seq<Chunk>)
      returns (status: Status, mb': seq<seq<byte>>)
      modifies this, reader
      ensures status == Failed || status == Ok
      ensures status != Ok ==> mb' == mb
      ensures old(Sized(k, xs, n, padding)) && xs[0].plain != [] ==>
                status == Ok && Expects(k + 1, xs[1..]) && Concat(mb') == Concat(mb) + xs[0].plain
    {
      var plain := ReadBody(n, padding, k, if xs == [] then Chunk([], []) else xs[0],
                            if xs == [] then [] else WireOf(codec, k + 1, xs[1..]));
      if plain == None {
        return Failed, mb;
      }
      ConcatSnoc(mb, plain.value);
      return Ok, mb + [plain.value];
    }

    /** Chunks `xs` are still to come, or only the end of file is. */
    ghost predicate Awaits(k: nat, xs: seq<Chunk>)
      reads this, reader
    {
      Expects(k, xs) || (done && UpToEnd(xs) == [])
    }

    /** One hard read, then up to fifteen soft ones. A caller that awaits `xs` gets the
        plaintext of at least one chunk, or end of file when there is none left. */
    method ReadMultiBuffer(ghost k: nat, ghost xs: seq<Chunk>)
      returns (mb: seq<seq<byte>>, status: Status, ghost k': nat, ghost xs': seq<Chunk>)
      modifies this, reader
      ensures status == Ok || mb == []
      ensures old(done) ==> status == Eof && done
      ensures old(Awaits(k, xs)) ==>
                if UpToEnd(xs) == [] then status == Eof && done
                else status == Ok && |xs'| < |xs| && Concat(mb) + UpToEnd(xs') == UpToEnd(xs) && Awaits(k', xs')
    {
      ghost var expected := Expects(k, xs);
      k', xs' := k + 1, if xs == [] then [] else xs[1..];
      if xs != [] {
        Peel([], xs);
      }
      status, mb := ReadInternal(false, [], k, xs);
      if status != Ok {
        return [], status, k, xs;
      }
      assert expected ==> Concat(mb) + UpToEnd(xs') == UpToEnd(xs);
      mb, status, k', xs' := SoftReads(mb, k', xs');
    }

    /** The soft reads: whole chunks that are already buffered. */
    method SoftReads(mb0: seq<seq<byte>>, ghost k: nat, ghost xs: seq<Chunk>)
      returns (mb: seq<seq<byte>>, status: Status, ghost k': nat, ghost xs': seq<Chunk>)
      modifies this, reader
      ensures status == Ok || (status == Failed && mb == [])
      ensures old(Expects(k, xs)) ==>
                && status == Ok && |xs'| <= |xs| && Concat(mb) + UpToEnd(xs') == Concat(mb0) + UpToEnd(xs)
                && Awaits(k', xs')
    {
      mb, k', xs' := mb0, k, xs;
      ghost var expected := Expects(k, xs);
      for i := 1 to 16
        invariant expected ==>
          Expects(k', xs') && |xs'| <= |xs| && Concat(mb) + UpToEnd(xs') == Concat(mb0) + UpToEnd(xs)
      {
        var st;
        st, mb, k', xs' := SoftRead(mb, k', xs');
        if st == Failed {
          return [], Failed, k', xs';
        }
        if st != Ok {
          return mb, Ok, k', xs';
        }
      }
      status := Ok;
    }

    method SoftRead(mb: seq<seq<byte>>, ghost k: nat, ghost xs: seq<Chunk>)
      returns (status: Status, mb': seq<seq<byte>>, ghost k': nat, ghost xs': seq<Chunk>)
      modifies this, reader
      ensures old(Expects(k, xs)) ==>
                && status != Failed && |xs'| <= |xs| && Concat(mb') + UpToEnd(xs') == Concat(mb) + UpToEnd(xs)
                && (status == Ok ==> Expects(k', xs')) && Awaits(k', xs')
    {
      if xs != [] {
        Peel(Concat(mb), xs);
      }
      status, mb' := ReadInternal(true, mb, k, xs);
      k', xs' := k, xs;
      if status == Ok && xs != [] {
        k', xs' := k + 1, xs[1..];
      }
    }
  }

  lemma {:induction false} Peel(sofar: seq<byte>, xs: seq<Chunk>)
    requires xs != []
    ensures xs[0].plain != [] ==> sofar + xs[0].plain + UpToEnd(xs[1..]) == sofar + UpToEnd(xs)
  {
    Assoc(sofar, xs[0].plain, UpToEnd(xs[1..]));
  }

  /** Reads a whole stream: everything up to the first empty chunk, then end of file. */
  method ReadStream(r: AuthenticationReader, ghost xs: seq<Chunk>) returns (out: seq<byte>)
    requires r.Expects(0, xs)
    modifies r, r.reader
    ensures out == UpToEnd(xs) && r.done
  {
    out := [];
    ghost var k: nat, left := 0, xs;
    assert out + UpToEnd(xs) == UpToEnd(xs);
    while true
      invariant out + UpToEnd(left) == UpToEnd(xs) && r.Awaits(k, left)
      decreases |left|
    {
      ghost var before := UpToEnd(left);
      var mb, status;
      mb, status, k, left := r.ReadMultiBuffer(k, left);
      if status == Eof {
        assert out + before == out;
        return;
      }
      Assoc(out, Concat(mb), UpToEnd(left));
      out := out + Concat(mb);
    }
  }

  /** The data of the writes before the first empty one. */
  function BeforeEnd(writes: seq<seq<seq<byte>>>): seq<byte> {
    if writes == [] || Concat(writes[0]) == [] then [] else Concat(writes[0]) + BeforeEnd(writes[1..])
  }

  /** There is no data behind an empty write. */
  predicate EndsOnce(writes: seq<seq<seq<byte>>>) {
    writes == [] || if Concat(writes[0]) == [] then ConcatAll(writes) == [] else EndsOnce(writes[1..])
  }

  lemma {:induction false} BeforeEndExact(writes: seq<seq<seq<byte>>>)
    ensures BeforeEnd(writes) <= ConcatAll(writes)
    ensures BeforeEnd(writes) == ConcatAll(writes) <==> EndsOnce(writes)
    decreases |writes|
  {
    if writes != [] && Concat(writes[0]) != [] {
      BeforeEndExact(writes[1..]);
      var x, y, z := Concat(writes[0]), BeforeEnd(writes[1..]), ConcatAll(writes[1..]);
      assert (x + y)[|x|..] == y && (x + z)[|x|..] == z;
    }
  }

  /** The first `i` writes have become `chunks`. */
  ghost predicate Sealed(chunks: seq<Chunk>, writes: seq<seq<seq<byte>>>, i: nat)
    requires i <= |writes|
  {
    if Ended(chunks) then UpToEnd(chunks) == BeforeEnd(writes)
    else AllFull(chunks) && Plain(chunks) + BeforeEnd(writes[i..]) == BeforeEnd(writes)
  }

  lemma {:induction false} FullIsOpen(xs: seq<Chunk>)
    requires AllFull(xs)
    ensures !Ended(xs)
    decreases |xs|
  {
    if xs != [] {
      assert forall i :: 0 <= i < |xs[1..]| ==> xs[1..][i] == xs[i + 1];
      FullIsOpen(xs[1..]);
    }
  }

  /** One more write, whose chunks are `more`. */
  lemma {:induction false} SealedNext(chunks: seq<Chunk>, more: seq<Chunk>, writes: seq<seq<seq<byte>>>, i: nat)
    requires i < |writes| && Sealed(chunks, writes, i) && Plain(chunks + more) == Plain(chunks) + Concat(writes[i])
    requires if Concat(writes[i]) == [] then |more| == 1 && more[0].plain == [] else AllFull(more)
    ensures Sealed(chunks + more, writes, i + 1)
    ensures Ended(chunks) || Concat(writes[i]) == [] ==> Ended(chunks + more)
  {
    var left := writes[i..];
    assert left[0] == writes[i] && left[1..] == writes[i + 1..];
    if Ended(chunks) {
      EndedMore(chunks, more);
    } else if Concat(writes[i]) == [] {
      assert more == [more[0]];
      EndedSnoc(chunks, more[0]);
      assert Plain(chunks) + [] == Plain(chunks);
    } else {
      assert AllFull(chunks + more);
      FullIsOpen(chunks + more);
      Assoc(Plain(chunks), Concat(writes[i]), BeforeEnd(left[1..]));
    }
  }

  /** One write of a stream. */
  method WriteOne(w: AuthenticationWriter, writes: seq<seq<seq<byte>>>, i: nat)
    requires w.Valid() && i < |writes| && Sealed(w.chunks, writes, i)
    modifies w
    ensures w.Valid() && Sealed(w.chunks, writes, i + 1)
    ensures old(Ended(w.chunks)) || Concat(writes[i]) == [] ==> Ended(w.chunks)
  {
    ghost var before := w.chunks;
    var ok := w.WriteMultiBuffer(writes[i]);
    ghost var more := w.chunks[|before|..];
    assert w.chunks == before + more;
    SealedNext(before, more, writes, i);
  }

  /** Writes a whole stream: any writes, and an empty one at the end. */
  method WriteStreamOf(codec: Codec, writes: seq<seq<seq<byte>>>) returns (wire: seq<byte>, ghost chunks: seq<Chunk>)
    requires Sound(codec)
    ensures wire == WireOf(codec, 0, chunks) && ValidChunks(codec, 0, chunks) && Ended(chunks)
    ensures UpToEnd(chunks) == BeforeEnd(writes)
  {
    var w := new AuthenticationWriter(codec);
    var all, none: seq<seq<byte>> := writes, [];
    all := all + [none];
    assert all[0..] == all && [] + BeforeEnd(all) == BeforeEnd(all);
    for i := 0 to |all|
      invariant w.Valid() && w.codec == codec && fresh(w) && Sealed(w.chunks, all, i)
      invariant i == |all| ==> Ended(w.chunks)
    {
      WriteOne(w, all, i);
    }
    BeforeEndSnoc(writes);
    wire, chunks := w.wire, w.chunks;
  }

  lemma {:induction false} BeforeEndSnoc(writes: seq<seq<seq<byte>>>)
    ensures BeforeEnd(writes + [[]]) == BeforeEnd(writes)
    decreases |writes|
  {
    var all, none: seq<seq<byte>> := writes, [];
    all := all + [none];
    if writes == [] {
      assert all[0] == none && Concat(none) == [];
    } else {
      assert all[0] == writes[0] && all[1..] == writes[1..] + [none];
      BeforeEndSnoc(writes[1..]);
    }
  }

  /** AUTHENTICATED STREAM ROUND TRIP. Whatever is written, ended by an empty write, and however
      the wire is cut into reads and buffers: the reader returns exactly the data before the
      first empty write and then end of file, again and again; all data, if and only if there
      is none behind an empty write. */
  method RoundTrip(codec: Codec, writes: seq<seq<seq<byte>>>, sizes: seq<seq<nat>>, asks: nat)
    returns (out: seq<byte>, answers: seq<Status>)
    requires Sound(codec)
    ensures out == BeforeEnd(writes)
    ensures out == ConcatAll(writes) <==> EndsOnce(writes)
    ensures |answers| == asks && forall i :: 0 <= i < asks ==> answers[i] == Eof
  {
    var wire, chunks := WriteStreamOf(codec, writes);
    CutUpConserves(wire, sizes);
    var b := new BufferedReader(CutUp(wire, sizes));
    var r := new AuthenticationReader(codec, b);
    out := ReadStream(r, chunks);
    BeforeEndExact(writes);
    answers := [];
    while |answers| < asks
      invariant |answers| <= asks && r.done && forall i :: 0 <= i < |answers| ==> answers[i] == Eof
    {
      var mb, status, k, xs := r.ReadMultiBuffer(0, []);
      answers := answers + [status];
    }
  }

  /** Buffer.BytesTo: a negative position counts from the end. */
  function BytesTo(b: seq<byte>, to: int): seq<byte>
    requires to <= |b|
  {
    var i := if to < 0 then to + |b| else to;
    if i < 0 then [] else b[..i]
  }
}
