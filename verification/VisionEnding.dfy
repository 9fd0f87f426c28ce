/** When VisionWriter (proxy/proxy.go) ends padding, and how. */
module VisionEnding {
  import opened Bytes
  import opened VisionStream
  import opened VisionRecords
  import opened VisionPadding
  import opened VisionTraffic
  import opened VisionWriter
  import opened VisionConnection

  // ------------------------------------------------- told without the loop's branches

  /** The piece looks like the start of an application-data record. */
  predicate RecordStart(b: seq<byte>) {
    6 <= |b| && b[0] == 0x17 && b[1] == 3 && b[2] == 3
  }

  /** Inside recognised TLS, whole records (`whole`) let padding end at a record's start. */
  predicate EndsAt(t: Traffic, whole: bool, b: seq<byte>) {
    t.isTLS && whole && RecordStart(b)
  }

  /** No TLS 1.2 or later was recognised, and the packet budget is all but used up. */
  predicate BudgetOut(t: Traffic) {
    !t.isTLS12orAbove && t.packetsToFilter <= 1
  }

  predicate SomeRecordStart(t: Traffic, whole: bool, pieces: seq<seq<byte>>) {
    exists i :: 0 <= i < |pieces| && EndsAt(t, whole, pieces[i])
  }

  /** Padding ends with these pieces. */
  predicate Ends(t: Traffic, whole: bool, pieces: seq<seq<byte>>) {
    SomeRecordStart(t, whole, pieces) || (BudgetOut(t) && pieces != [])
  }

  /** How many pieces become blocks: all of them, or up to the first that is no record start
      when the budget is out. */
  predicate PaddedPieces(t: Traffic, whole: bool, pieces: seq<seq<byte>>, n: nat) {
    && n <= |pieces| && (pieces != [] ==> 0 < n)
    && (!BudgetOut(t) ==> n == |pieces|)
    && (BudgetOut(t) ==> forall i :: 0 <= i < n - 1 ==> EndsAt(t, whole, pieces[i]))
    && (n < |pieces| ==> !EndsAt(t, whole, pieces[n - 1]))
  }

  /** Long padding, inside TLS: for a record start, and for what comes before the first one. */
  predicate Long(t: Traffic, whole: bool, pieces: seq<seq<byte>>, i: nat)
    requires i < |pieces|
  {
    t.isTLS && (EndsAt(t, whole, pieces[i]) || forall j :: 0 <= j < i ==> !EndsAt(t, whole, pieces[j]))
  }

  /** The command of block `i` of `n`: 0 goes on; the last one ends padding (1), or ends it and
      switches to direct copy (2). */
  function CommandOf(t: Traffic, ends: bool, i: nat, n: nat): byte {
    if !ends || i < n - 1 then 0 else if t.enableXtls then 2 else 1
  }

  /** Block `k` of `n`: its command, its piece, and padding of the length drawn for it. */
  predicate BlockTold(c: Setting, pieces: seq<seq<byte>>, k: nat, n: nat, b: Block)
    requires k < |pieces|
  {
    && b.command == CommandOf(c.traffic, Ends(c.traffic, c.complete, pieces), k, n) && b.content == pieces[k]
    && b.padding == PaddingLength(c.seeds, Long(c.traffic, c.complete, pieces, k), |pieces[k]|, DrawAt(c.random, k))
  }

  /** What becomes of the pieces from `i` on. */
  predicate Told(c: Setting, pieces: seq<seq<byte>>, i: nat, p: Pads) {
    var t, whole, n, ends := c.traffic, c.complete, i + |p.blocks|, Ends(c.traffic, c.complete, pieces);
    && PaddedPieces(t, whole, pieces, n) && p.plain == Concat(pieces[n..])
    && (i < |pieces| ==> p.blocks != [])
    && p.isPadding == !ends && p.armed == (ends && t.enableXtls)
    && forall k :: 0 <= k < |p.blocks| ==> BlockTold(c, pieces, i + k, n, p.blocks[k])
  }

  // ------------------------------------------------------------------ the loop does that

  lemma {:induction false} SameStart(c: Setting, b: seq<byte>)
    ensures StartsRecord(c, b) == EndsAt(c.traffic, c.complete, b)
  {
    if |b| >= 6 {
      assert b[..3] == [b[0], b[1], b[2]];
    }
  }

  /** The loop's variables before piece `i`. */
  predicate Sofar(c: Setting, pieces: seq<seq<byte>>, i: nat, isPadding: bool, armed: bool, long: bool) {
    var t, whole := c.traffic, c.complete;
    && i <= |pieces|
    && (isPadding <==> forall j :: 0 <= j < i ==> !EndsAt(t, whole, pieces[j]))
    && (armed <==> !isPadding && t.enableXtls) && (long <==> isPadding && t.isTLS)
    && (BudgetOut(t) ==> forall j :: 0 <= j < i ==> EndsAt(t, whole, pieces[j]))
  }

  lemma {:induction false} SofarNext(c: Setting, pieces: seq<seq<byte>>, i: nat, isPadding: bool, armed: bool,
                                     long: bool)
    requires Sofar(c, pieces, i, isPadding, armed, long) && i < |pieces|
    ensures var t := Decide(c, pieces[i], i == |pieces| - 1, isPadding, armed, long);
            && t.padLong == Long(c.traffic, c.complete, pieces, i)
            && (if t.stop then BudgetOut(c.traffic) && !EndsAt(c.traffic, c.complete, pieces[i])
                else Sofar(c, pieces, i + 1, t.isPadding, t.armed, t.long))
  {
    SameStart(c, pieces[i]);
  }

  /** The loop stops at piece `i`, out of budget. */
  lemma {:induction false} StopTold(c: Setting, pieces: seq<seq<byte>>, i: nat, isPadding: bool, armed: bool,
                                    long: bool)
    requires SafeSeeds(c.seeds) && Sound(c.traffic) && i < |pieces| && Sofar(c, pieces, i, isPadding, armed, long)
    requires Decide(c, pieces[i], i == |pieces| - 1, isPadding, armed, long).stop
    ensures Told(c, pieces, i, PadFrom(c, pieces, i, isPadding, armed, long))
  {
    SofarNext(c, pieces, i, isPadding, armed, long);
  }

  lemma {:induction false} HeadTold(c: Setting, pieces: seq<seq<byte>>, i: nat, isPadding: bool, armed: bool,
                                    long: bool, n: nat)
    requires SafeSeeds(c.seeds) && i < |pieces| && Sofar(c, pieces, i, isPadding, armed, long)
    requires !Decide(c, pieces[i], i == |pieces| - 1, isPadding, armed, long).stop
    requires i < n && (n == i + 1 <==> i == |pieces| - 1)
    ensures var t := Decide(c, pieces[i], i == |pieces| - 1, isPadding, armed, long);
            BlockTold(c, pieces, i, n, BlockFor(c, t.command, pieces[i], t.padLong, i))
  {
    SofarNext(c, pieces, i, isPadding, armed, long);
    SameStart(c, pieces[i]);
    if i == |pieces| - 1 {
      var t, whole := c.traffic, c.complete;
      assert Ends(t, whole, pieces) <==> !isPadding || EndsAt(t, whole, pieces[i]) || BudgetOut(t);
    }
  }

  /** Piece `i` becomes a block in front of what the rest becomes. */
  lemma {:induction false} ConsTold(c: Setting, pieces: seq<seq<byte>>, i: nat, b: Block, rest: Pads)
    requires i < |pieces| && Told(c, pieces, i + 1, rest)
    requires BlockTold(c, pieces, i, i + 1 + |rest.blocks|, b)
    ensures Told(c, pieces, i, rest.(blocks := [b] + rest.blocks))
  {
    var bs, n := [b] + rest.blocks, i + 1 + |rest.blocks|;
    forall k | 0 <= k < |bs| ensures BlockTold(c, pieces, i + k, n, bs[k]) {
      if k > 0 {
        assert BlockTold(c, pieces, i + 1 + (k - 1), n, rest.blocks[k - 1]);
      }
    }
  }

  /** Behind the last piece. */
  lemma {:induction false} NoneTold(c: Setting, pieces: seq<seq<byte>>, isPadding: bool, armed: bool, long: bool)
    requires Sofar(c, pieces, |pieces|, isPadding, armed, long)
    ensures Told(c, pieces, |pieces|, Pads([], [], isPadding, armed))
  {
    assert pieces[|pieces|..] == [];
    assert pieces != [] && BudgetOut(c.traffic) ==> EndsAt(c.traffic, c.complete, pieces[0]);
  }

  lemma {:induction false} PadFromTold(c: Setting, pieces: seq<seq<byte>>, i: nat, isPadding: bool, armed: bool,
                                       long: bool)
    requires SafeSeeds(c.seeds) && Sound(c.traffic) && Sofar(c, pieces, i, isPadding, armed, long)
    ensures Told(c, pieces, i, PadFrom(c, pieces, i, isPadding, armed, long))
    decreases |pieces| - i
  {
    if i == |pieces| {
      NoneTold(c, pieces, isPadding, armed, long);
    } else {
      var t := Decide(c, pieces[i], i == |pieces| - 1, isPadding, armed, long);
      SofarNext(c, pieces, i, isPadding, armed, long);
      if t.stop {
        StopTold(c, pieces, i, isPadding, armed, long);
      } else {
        var rest := PadFrom(c, pieces, i + 1, t.isPadding, t.armed, t.long);
        PadFromTold(c, pieces, i + 1, t.isPadding, t.armed, t.long);
        HeadTold(c, pieces, i, isPadding, armed, long, i + 1 + |rest.blocks|);
        ConsTold(c, pieces, i, BlockFor(c, t.command, pieces[i], t.padLong, i), rest);
      }
    }
  }

  // ------------------------------------------------------------------- one padding call

  /** A write while padding: the buffers are whole records, as the scan of their bytes says. */
  predicate Whole(mb: seq<seq<byte>>) {
    Answer(Concat(mb), Cuts(mb, 0), 0, Zeros(5)) == Some(true)
  }

  /** A header without data: one Continue block, empty but for long padding; padding goes on. */
  lemma {:induction false} HeaderKeepsPadding(w: WriterState, t: Traffic, seeds: Seeds, random: seq<nat>)
    requires SafeSeeds(seeds) && w.isPadding && !w.armed
    ensures var o := Call(w, t, seeds, HeaderOnly, random, []);
            && o.writer == w && o.traffic == t && o.sent.plain == [] && o.sent.direct == []
            && |o.sent.blocks| == 1 && o.sent.blocks[0].command == 0 && o.sent.blocks[0].content == []
            && o.sent.blocks[0].padding == PaddingLength(seeds, true, 0, DrawAt(random, 0))
  {
    assert Payloads(HeaderOnly) == [];
  }

  /** PADDING ENDS. A write of data while padding, after its look at the traffic: padding is over
      if and only if it is inside TLS, the bytes are whole application-data records and some
      piece starts one, or no TLS 1.2 or later was recognised, at most one packet is left in the
      budget and there is a piece. The last block then says Direct with EnableXtls, and End
      otherwise; all others say Continue. Without a budget the End block is the first piece that
      starts no record, or the last, and the rest is plain. */
  lemma {:induction false} PaddingEnds(w: WriterState, t: Traffic, seeds: Seeds, mb: seq<seq<byte>>, random: seq<nat>,
                                       stale: seq<seq<byte>>)
    requires SafeSeeds(seeds) && w.isPadding && !w.armed && Legal(true, Content(mb)) && Sound(t)
    ensures var o, u := Call(w, t, seeds, Content(mb), random, stale), Filter(t, mb, stale);
            && o.traffic == u && Sound(u)
            && (!o.writer.isPadding <==> Ends(u, Whole(mb), Reshaped(mb)))
            && (o.writer.armed <==> !o.writer.isPadding && u.enableXtls) && o.sent.direct == []
            && Told(Setting(u, Whole(mb), seeds, random), Reshaped(mb), 0,
                    Pads(o.sent.blocks, o.sent.plain, o.writer.isPadding, o.writer.armed))
    ensures NoStraddle(Concat(mb), Cuts(mb, 0), 0) ==> Whole(mb) == WholeRecords(Concat(mb), 0)
  {
    FilterKeepsSound(t, mb, stale, 0);
    ScanExact(mb);
    PadFromTold(Setting(Filter(t, mb, stale), Whole(mb), seeds, random), Reshaped(mb), 0, true, false,
                Filter(t, mb, stale).isTLS);
    if NoStraddle(Concat(mb), Cuts(mb, 0), 0) {
      CompleteRecordScan(mb);
    }
  }
}
