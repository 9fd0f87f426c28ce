/** XtlsPadding and ReshapeMultiBuffer (proxy/proxy.go): cutting outgoing buffers into
    pieces that leave room for the block structure, and building the padded blocks. */
module VisionPadding {
  import opened Bytes
  import opened VisionRecords
  import opened VisionStream

  /** UUID, command, content length, padding length: 16 + 1 + 2 + 2. */
  const OVERHEAD := 21
  const ROOM := BUF_SIZE - OVERHEAD

  // --------------------------------------------------------------------- reshaping

  predicate OccursAt(s: seq<byte>, pattern: seq<byte>, i: int) {
    0 <= i && i + |pattern| <= |s| && s[i..i + |pattern|] == pattern
  }

  /** Index of the last occurrence of `pattern` at or before `n`, or -1. */
  function LastIndex(s: seq<byte>, pattern: seq<byte>, n: nat): (r: int)
    ensures -1 <= r <= n
    ensures 0 <= r ==> OccursAt(s, pattern, r)
    ensures forall i :: r < i <= n ==> !OccursAt(s, pattern, i)
  {
    if OccursAt(s, pattern, n) then n else if n == 0 then -1 else LastIndex(s, pattern, n - 1)
  }

  /** Where an over-long buffer is cut: at a record start if that leaves room on both
      sides, else in the middle. */
  function CutIndex(b: seq<byte>): (k: nat)
    requires ROOM <= |b|
    ensures 21 <= k <= ROOM
  {
    var index := if b[..3] == APPLICATION_DATA then 0 else LastIndex(b, APPLICATION_DATA, |b|);
    if index < 21 || index > ROOM then BUF_SIZE / 2 else index
  }

  /** The pieces one buffer becomes. The second half goes into a pooled buffer. */
  function Pieces(b: seq<byte>): seq<seq<byte>> {
    if |b| < ROOM then [b] else [b[..CutIndex(b)], Take(b[CutIndex(b)..], BUF_SIZE)]
  }

  /** A buffer survives the cut when what follows the cut fits a pooled buffer. */
  predicate Survives(b: seq<byte>) {
    |b| < ROOM || |b| - CutIndex(b) <= BUF_SIZE
  }

  function Reshaped(mb: seq<seq<byte>>): seq<seq<byte>> {
    if mb == [] then [] else Pieces(mb[0]) + Reshaped(mb[1..])
  }

  lemma {:induction false} ReshapedSnoc(mb: seq<seq<byte>>, b: seq<byte>)
    ensures Reshaped(mb + [b]) == Reshaped(mb) + Pieces(b)
  {
    if mb == [] {
      assert mb + [b] == [b];
      assert Reshaped([b]) == Pieces(b) + Reshaped([]);
    } else {
      ReshapedSnoc(mb[1..], b);
      assert (mb + [b])[1..] == mb[1..] + [b];
    }
  }

  method ReshapeMultiBuffer(mb: seq<seq<byte>>) returns (mb2: seq<seq<byte>>)
    ensures mb2 == Reshaped(mb)
  {
    var needReshape := 0;
    for i := 0 to |mb|
      invariant needReshape == 0 ==> forall j :: 0 <= j < i ==> |mb[j]| < ROOM
      invariant 0 <= needReshape
    {
      if |mb[i]| >= ROOM {
        needReshape := needReshape + 1;
      }
    }
    if needReshape == 0 {
      UntouchedWhenShort(mb);
      return mb;
    }
    mb2 := [];
    for i := 0 to |mb|
      invariant mb2 == Reshaped(mb[..i])
    {
      var b := mb[i];
      if |b| >= ROOM {
        var index := -1;
        if |b| >= 3 && b[..3] == APPLICATION_DATA {
          index := 0;
        } else {
          index := LastIndex(b, APPLICATION_DATA, |b|);
        }
        if index < 21 || index > ROOM {
          index := BUF_SIZE / 2;
        }
        var second := Take(b[index..], BUF_SIZE);
        mb2 := mb2 + [b[..index], second];
      } else {
        mb2 := mb2 + [b];
      }
      assert mb[..i + 1] == mb[..i] + [b];
      ReshapedSnoc(mb[..i], b);
    }
    assert mb[..|mb|] == mb;
  }

  lemma {:induction false} UntouchedWhenShort(mb: seq<seq<byte>>)
    requires forall j :: 0 <= j < |mb| ==> |mb[j]| < ROOM
    ensures Reshaped(mb) == mb
  {
    if mb != [] {
      UntouchedWhenShort(mb[1..]);
    }
  }

  lemma {:induction false} PiecesOf(b: seq<byte>)
    ensures if Survives(b) then Concat(Pieces(b)) == b else |Concat(Pieces(b))| < |b|
    ensures |b| <= BUF_SIZE ==> Survives(b)
    ensures |b| <= BUF_SIZE ==> forall i :: 0 <= i < |Pieces(b)| ==> |Pieces(b)[i]| <= ROOM
    ensures b != [] ==> forall i :: 0 <= i < |Pieces(b)| ==> Pieces(b)[i] != []
  {
    if |b| < ROOM {
      assert Concat([b]) == b + Concat([]);
    } else {
      var x, y := b[..CutIndex(b)], Take(b[CutIndex(b)..], BUF_SIZE);
      assert [x, y][1..] == [y];
      assert Concat([y]) == y + Concat([]);
      assert Concat([x, y]) == x + y;
      assert x + b[CutIndex(b)..] == b;
    }
  }

  /** An application-data record seems to start at `i`. */
  predicate RecordAt(b: seq<byte>, i: nat) {
    i + 3 <= |b| && b[i] == 0x17 && b[i + 1] == 3 && b[i + 2] == 3
  }

  ghost predicate LastRecordAt(b: seq<byte>, i: nat) {
    RecordAt(b, i) && forall j: nat :: i < j ==> !RecordAt(b, j)
  }

  lemma {:induction false} RecordOccurs(b: seq<byte>, i: nat)
    ensures RecordAt(b, i) <==> OccursAt(b, APPLICATION_DATA, i)
  {
    if i + 3 <= |b| {
      assert b[i..i + 3] == [b[i], b[i + 1], b[i + 2]];
    }
  }

  /** Where a long buffer is cut: before the last record start in it, if that leaves 21 bytes in
      front of it and room for a block behind it, and in the middle of a pooled buffer otherwise;
      also when the buffer itself starts with a record. */
  lemma {:induction false} CutAtLastRecord(b: seq<byte>, i: nat)
    requires 8171 <= |b| <= 8192
    ensures !RecordAt(b, 0) && 21 <= i <= 8171 && LastRecordAt(b, i) ==> Pieces(b) == [b[..i], b[i..]]
    ensures RecordAt(b, 0) || (forall j: nat :: 21 <= j <= 8171 ==> !LastRecordAt(b, j)) ==>
              Pieces(b) == [b[..4096], b[4096..]]
  {
    var last := LastIndex(b, APPLICATION_DATA, |b|);
    forall j: nat ensures RecordAt(b, j) <==> OccursAt(b, APPLICATION_DATA, j) {
      RecordOccurs(b, j);
    }
    assert b[..3] == b[0..3];
    if 0 <= last {
      assert LastRecordAt(b, last);
    }
  }

  predicate AllSurvive(mb: seq<seq<byte>>) {
    mb == [] || (Survives(mb[0]) && AllSurvive(mb[1..]))
  }

  /** Reshaping keeps every byte exactly when every buffer survives its cut. */
  lemma {:induction false} ReshapeConserves(mb: seq<seq<byte>>)
    ensures if AllSurvive(mb) then Concat(Reshaped(mb)) == Concat(mb)
            else |Concat(Reshaped(mb))| < |Concat(mb)|
    decreases |mb|
  {
    if mb != [] {
      ReshapeConserves(mb[1..]);
      PiecesOf(mb[0]);
      ConcatAppend(Pieces(mb[0]), Reshaped(mb[1..]));
    }
  }

  /** Standard buffers come out whole, in pieces that leave room for a block header. */
  lemma {:induction false} ReshapeFits(mb: seq<seq<byte>>)
    requires forall i :: 0 <= i < |mb| ==> |mb[i]| <= BUF_SIZE
    ensures Concat(Reshaped(mb)) == Concat(mb)
    ensures forall i :: 0 <= i < |Reshaped(mb)| ==> |Reshaped(mb)[i]| <= ROOM
    decreases |mb|
  {
    if mb != [] {
      var b, tail := mb[0], mb[1..];
      ReshapeFits(tail);
      PiecesOf(b);
      ConcatAppend(Pieces(b), Reshaped(tail));
      assert forall i :: 0 <= i < |tail| ==> tail[i] == mb[i + 1];
    }
  }

  // ----------------------------------------------------------------------- padding

  /** The four parameters of the padding length distribution. */
  datatype Seeds = Seeds(longBelow: uint32, longRange: uint32, longBase: uint32, shortRange: uint32)

  /** A draw below `n`, or 0 when there is nothing to draw; as `random` ranges over the
      naturals this takes every value below `n`. */
  function Draw(n: nat, random: nat): (d: nat)
    ensures n > 0 ==> d < n
  {
    if n > 1 then Min(random, n - 1) else 0
  }

  /** The padding length, in 32-bit arithmetic, before and after fitting it to the buffer. */
  function WantedPadding(seeds: Seeds, long: bool, length: nat, random: nat): int {
    if length < Int32(seeds.longBelow) && long then Int32(Draw(seeds.longRange, random) + seeds.longBase - length)
    else Int32(Draw(seeds.shortRange, random))
  }

  function PaddingLength(seeds: Seeds, long: bool, length: nat, random: nat): int {
    if ROOM - length < 0 then 0 else Min(WantedPadding(seeds, long, length, random), ROOM - length)
  }

  /** No content length and no draw can make the padding negative, not even through the sign of
      a 32-bit number. */
  predicate SafeSeeds(seeds: Seeds) {
    && seeds.shortRange <= 0x8000_0000
    && (|| Int32(seeds.longBelow) <= 0
        || (&& Min(ROOM, Int32(seeds.longBelow) - 1) <= seeds.longBase
            && seeds.longBase + (if seeds.longRange > 1 then seeds.longRange else 1) <= 0x8000_0000))
  }

  /** A draw and a content length for which unsafe seeds make the padding negative. */
  lemma {:induction false} UnsafeSeeds(seeds: Seeds) returns (long: bool, length: nat, random: nat)
    requires !SafeSeeds(seeds)
    ensures PaddingLength(seeds, long, length, random) < 0
  {
    if seeds.shortRange > 0x8000_0000 {
      long, length, random := false, 0, 0x8000_0000;
    } else if seeds.longBase < Min(ROOM, Int32(seeds.longBelow) - 1) {
      long, length, random := true, seeds.longBase + 1, 0;
    } else if seeds.longBase >= 0x8000_0000 {
      long, length, random := true, 0, 0;
    } else {
      long, length, random := true, 0, 0x8000_0000 - seeds.longBase;
    }
  }

  /** The seeds under which XtlsPadding never extends a buffer by a negative length are
      exactly the safe ones. */
  lemma {:induction false} PaddingNeverNegative(seeds: Seeds)
    ensures SafeSeeds(seeds) <==>
            forall long, length: nat, random: nat :: 0 <= PaddingLength(seeds, long, length, random)
  {
    if !SafeSeeds(seeds) {
      var long, length, random := UnsafeSeeds(seeds);
    }
  }

  /** How many values a draw below `n` takes. */
  function Values(n: nat): nat {
    if n > 1 then n else 1
  }

  /** Content and padding together, when padding is long; the content's length does not show. */
  function LongTotal(seeds: Seeds, d: nat): int {
    Min(seeds.longBase + d, 8171)
  }

  function ShortPadding(length: nat, d: nat): int {
    Min(d, 8171 - length)
  }

  lemma {:induction false} LongOf(seeds: Seeds, length: nat, random: nat)
    requires SafeSeeds(seeds) && length <= 8171 && length < Int32(seeds.longBelow)
    ensures length + PaddingLength(seeds, true, length, random) == LongTotal(seeds, Draw(seeds.longRange, random))
  {
    var n := Draw(seeds.longRange, random) + seeds.longBase - length;
    assert 0 <= n < 0x8000_0000;
    assert Int32(n) == n;
  }

  lemma {:induction false} ShortOf(seeds: Seeds, long: bool, length: nat, random: nat)
    requires SafeSeeds(seeds) && length <= 8171 && !(long && length < Int32(seeds.longBelow))
    ensures PaddingLength(seeds, long, length, random) == ShortPadding(length, Draw(seeds.shortRange, random))
  {
    var n := Draw(seeds.shortRange, random);
    assert Int32(n) == n;
  }

  /** Long padding of short content fills the block up to a size that is drawn without regard to
      the content; all other padding is drawn by itself. Every value of the range can come. */
  lemma {:induction false} PaddingShape(seeds: Seeds, long: bool, length: nat, random: nat, d: nat)
    requires SafeSeeds(seeds) && length <= 8171
    ensures if long && length < Int32(seeds.longBelow) then
              && (exists k: nat :: k < Values(seeds.longRange)
                                   && length + PaddingLength(seeds, long, length, random) == LongTotal(seeds, k))
              && (d < Values(seeds.longRange) ==>
                    exists r: nat :: length + PaddingLength(seeds, long, length, r) == LongTotal(seeds, d))
            else
              && (exists k: nat :: k < Values(seeds.shortRange)
                                   && PaddingLength(seeds, long, length, random) == ShortPadding(length, k))
              && (d < Values(seeds.shortRange) ==>
                    exists r: nat :: PaddingLength(seeds, long, length, r) == ShortPadding(length, d))
  {
    if long && length < Int32(seeds.longBelow) {
      LongOf(seeds, length, random);
      LongOf(seeds, length, d);
    } else {
      ShortOf(seeds, long, length, random);
      ShortOf(seeds, long, length, d);
    }
  }

  function Padded(command: byte, content: seq<byte>, long: bool, seeds: Seeds, random: nat): (b: Block)
    requires 0 <= PaddingLength(seeds, long, |content|, random)
    ensures |content| <= ROOM ==> ValidBlock(b) && |Wire(b)| <= BUF_SIZE - 16
  {
    Block(command, content, PaddingLength(seeds, long, |content|, random))
  }

  /** The padding length of XtlsPadding, branch by branch. */
  method ChoosePadding(contentLen: nat, long: bool, seeds: Seeds, random: nat) returns (paddingLen: int)
    ensures paddingLen == PaddingLength(seeds, long, contentLen, random)
  {
    paddingLen := 0;
    if contentLen < Int32(seeds.longBelow) && long {
      if seeds.longRange > 1 {
        paddingLen := Int32(Draw(seeds.longRange, random) + seeds.longBase - contentLen);
      } else {
        paddingLen := Int32(seeds.longBase - contentLen);
      }
    } else if seeds.shortRange > 1 {
      paddingLen := Int32(Draw(seeds.shortRange, random));
    }
    var room := BUF_SIZE - 21 - contentLen;
    if room < 0 {
      paddingLen := 0;
    } else if paddingLen > room {
      paddingLen := room;
    }
  }

  /** Builds one block in a pooled buffer by a sequence of writes, each of which is cut
      off at the buffer's capacity. Content of at most `ROOM` bytes is never cut. */
  method XtlsPadding(content: seq<byte>, command: byte, uuid: seq<byte>, long: bool,
                     seeds: Seeds, random: nat) returns (wire: seq<byte>)
    requires |uuid| <= 16
    requires 0 <= PaddingLength(seeds, long, |content|, random)
    ensures |wire| <= BUF_SIZE
    ensures |content| <= ROOM ==> wire == uuid + Wire(Padded(command, content, long, seeds, random))
  {
    var paddingLen := ChoosePadding(|content|, long, seeds, random);
    ghost var b := Block(command, content, paddingLen);
    wire := Take(uuid, BUF_SIZE);
    wire := Take(wire + ([command] + Be16(|content|) + Be16(paddingLen)), BUF_SIZE);
    assert wire == uuid + Header(b);
    wire := Take(wire + content, BUF_SIZE);
    wire := wire + Zeros(paddingLen);
    if |content| <= ROOM {
      Assoc(uuid, Header(b) + content, Zeros(paddingLen));
      Assoc(uuid, Header(b), content);
    }
  }

  /** PADDING BLOCKS ALWAYS FIT. Any standard buffers, reshaped, give blocks that fit a
      pooled buffer, carry every byte, and decode. */
  lemma {:induction false} BlocksFit(mb: seq<seq<byte>>, seeds: Seeds, i: nat, command: byte, long: bool, random: nat)
    requires SafeSeeds(seeds)
    requires forall j :: 0 <= j < |mb| ==> |mb[j]| <= BUF_SIZE
    requires i < |Reshaped(mb)|
    ensures 0 <= PaddingLength(seeds, long, |Reshaped(mb)[i]|, random)
    ensures var b := Padded(command, Reshaped(mb)[i], long, seeds, random);
            ValidBlock(b) && b.content == Reshaped(mb)[i] && 16 + |Wire(b)| <= BUF_SIZE
    ensures Concat(Reshaped(mb)) == Concat(mb)
  {
    ReshapeFits(mb);
    PaddingNeverNegative(seeds);
  }
}
