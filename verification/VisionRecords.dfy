/** IsCompleteRecord (proxy/proxy.go): does a list of buffers hold a whole number of TLS
    application-data records (section 5.2 of RFC 8446)? */
module VisionRecords {
  import opened Bytes

  const APPLICATION_DATA: seq<byte> := [0x17, 0x03, 0x03]

  /** The scanner's variables between two turns of its loop. */
  datatype Scanner = Scanner(headerRemaining: int, dataRemaining: int, hi: int, header: seq<byte>)

  predicate ValidScanner(s: Scanner) {
    && |s.header| == 5 && 0 <= s.dataRemaining
    && 0 <= s.hi < 5 && s.headerRemaining == 5 - s.hi
  }

  const INITIAL := Scanner(5, 0, 0, Zeros(5))

  /** `copy(header[hi:], src[i:i+n])`. */
  function Fill(header: seq<byte>, hi: nat, src: seq<byte>, i: nat, n: nat): (h: seq<byte>)
    requires |header| == 5 && hi + n <= 5 && i + n <= |src|
    ensures |h| == 5
    ensures forall j :: 0 <= j < 5 ==> h[j] == if hi <= j < hi + n then src[i + j - hi] else header[j]
  {
    seq(5, j requires 0 <= j < 5 => if hi <= j < hi + n then src[i + j - hi] else header[j])
  }

  predicate ApplicationData(h: seq<byte>)
    requires |h| == 5
  {
    h[0] == 0x17 && h[1] == 0x03 && h[2] == 0x03
  }

  datatype Turn =
    | Panicked                       // a slice with a negative length
    | Rejected                       // not an application-data record
    | Advanced(scanner: Scanner, i: nat)

  /** One turn of the loop at index `i` of the buffer `b`. */
  function TurnAt(s: Scanner, b: seq<byte>, i: nat): (t: Turn)
    requires ValidScanner(s) && i < |b|
    ensures t.Advanced? ==> ValidScanner(t.scanner) && i < t.i <= |b|
  {
    var avail := |b| - i;
    if s.dataRemaining > 0 then
      var skip := Min(s.dataRemaining, avail);
      Advanced(s.(dataRemaining := s.dataRemaining - skip), i + skip)
    else
      var need := s.headerRemaining - s.hi;
      if avail >= need then
        if need < 0 then Panicked
        else
          var h := Fill(s.header, s.hi, b, i, need);
          if !ApplicationData(h) then Rejected
          else Advanced(Scanner(5, U16(h, 3), 0, h), i + need)
      else
        var h := Fill(s.header, s.hi, b, i, avail);
        Advanced(Scanner(s.headerRemaining - avail, 0, s.hi + avail, h), |b|)
  }

  function ScanBuffer(s: Scanner, b: seq<byte>, i: nat): (t: Turn)
    requires ValidScanner(s) && i <= |b|
    ensures t.Advanced? ==> ValidScanner(t.scanner)
    decreases |b| - i
  {
    if i == |b| then Advanced(s, i)
    else
      var t := TurnAt(s, b, i);
      if t.Advanced? then ScanBuffer(t.scanner, b, t.i) else t
  }

  function ScanAll(s: Scanner, mb: seq<seq<byte>>): (r: Option<bool>)
    requires ValidScanner(s)
    decreases |mb|, 0
  {
    if mb == [] then Some(s.headerRemaining == 5 && s.dataRemaining == 0)
    else Resume(ScanBuffer(s, mb[0], 0), mb[1..])
  }

  /** How the scan ends after a turn or a whole buffer. */
  function Resume(t: Turn, rest: seq<seq<byte>>): Option<bool>
    requires t.Advanced? ==> ValidScanner(t.scanner)
    decreases |rest|, 1
  {
    match t
    case Panicked => None
    case Rejected => Some(false)
    case Advanced(s, _) => ScanAll(s, rest)
  }

  /** The header part of a turn. */
  method ReadHeader(s: Scanner, b: seq<byte>, i: nat) returns (t: Turn)
    requires ValidScanner(s) && s.dataRemaining == 0 && i < |b|
    ensures t == TurnAt(s, b, i)
  {
    var need := s.headerRemaining - s.hi;
    var avail := |b| - i;
    if avail >= need {
      if need < 0 {
        return Panicked;
      }
      var header := Fill(s.header, s.hi, b, i, need);
      if header[0] != 0x17 || header[1] != 0x03 || header[2] != 0x03 {
        return Rejected;
      }
      t := Advanced(Scanner(5, U16(header, 3), 0, header), i + need);
    } else {
      var header := Fill(s.header, s.hi, b, i, avail);
      t := Advanced(Scanner(s.headerRemaining - avail, 0, s.hi + avail, header), i + avail);
    }
  }

  /** The inner loop, over one buffer. */
  method ScanOne(start: Scanner, b: seq<byte>) returns (t: Turn)
    requires ValidScanner(start)
    ensures t == ScanBuffer(start, b, 0)
  {
    var s, i := start, 0;
    while i < |b|
      invariant ValidScanner(s) && 0 <= i <= |b|
      invariant ScanBuffer(start, b, 0) == ScanBuffer(s, b, i)
    {
      if s.dataRemaining > 0 {
        var skip := s.dataRemaining;
        if |b| - i < skip {
          skip := |b| - i;
        }
        s := s.(dataRemaining := s.dataRemaining - skip);
        i := i + skip;
      } else {
        var turn := ReadHeader(s, b, i);
        if !turn.Advanced? {
          return turn;
        }
        s, i := turn.scanner, turn.i;
      }
    }
    t := Advanced(s, i);
  }

  /** The outer loop. `None` stands for a run-time panic. */
  method IsCompleteRecord(mb: seq<seq<byte>>) returns (r: Option<bool>)
    ensures r == ScanAll(INITIAL, mb)
  {
    var s := INITIAL;
    for j := 0 to |mb|
      invariant ValidScanner(s) && ScanAll(s, mb[j..]) == ScanAll(INITIAL, mb)
    {
      assert mb[j..][0] == mb[j] && mb[j..][1..] == mb[j + 1..];
      var t := ScanOne(s, mb[j]);
      match t {
        case Panicked => return None;
        case Rejected => return Some(false);
        case Advanced(next, _) => s := next;
      }
    }
    assert mb[|mb|..] == [];
    r := Some(s.headerRemaining == 5 && s.dataRemaining == 0);
  }

  // ------------------------------------------------- the scan of the bytes as a whole

  /** Where one buffer ends and another begins. */
  function Cuts(mb: seq<seq<byte>>, past: nat): (cuts: set<nat>)
    decreases |mb|
  {
    if |mb| <= 1 then {} else {past + |mb[0]|} + Cuts(mb[1..], past + |mb[0]|)
  }

  /** How the header at some offset is read: `Early(k)` takes its first 5 - k bytes from the
      stream, the last k from the header before, and goes on k bytes too early. */
  datatype Reading = Panics | Short | Early(k: nat)

  predicate CutAt(all: seq<byte>, cuts: set<nat>, c: nat) {
    c in cuts && c < |all|
  }

  function HeaderReading(all: seq<byte>, cuts: set<nat>, p: nat): (r: Reading)
    requires p < |all|
    ensures r.Early? ==> r.k <= 2 && p + 5 - r.k <= |all|
  {
    if CutAt(all, cuts, p + 2) then Early(2)
    else if CutAt(all, cuts, p + 3) then Panics
    else if CutAt(all, cuts, p + 1) then if p + 4 <= |all| then Early(1) else Short
    else if CutAt(all, cuts, p + 4) then Panics
    else if p + 5 <= |all| then Early(0) else Short
  }

  /** The scan on from the header at offset `p`, where `stale` is the header read before.
      `None` is the panic. */
  function Answer(all: seq<byte>, cuts: set<nat>, p: nat, stale: seq<byte>): Option<bool>
    requires |stale| == 5
    decreases |all| - p
  {
    if |all| <= p then Some(p == |all|)
    else match HeaderReading(all, cuts, p)
      case Panics => None
      case Short => Some(false)
      case Early(k) => Onward(all, cuts, p, k, stale)
  }

  /** The header at `p` read `k` bytes short. */
  function Onward(all: seq<byte>, cuts: set<nat>, p: nat, k: nat, stale: seq<byte>): Option<bool>
    requires |stale| == 5 && k <= 2 && p + 5 - k <= |all|
    decreases |all| - p, 0
  {
    var h := Fill(stale, 0, all, p, 5 - k);
    if !ApplicationData(h) then Some(false)
    else Answer(all, cuts, p + 5 - k + U16(h, 3), h)
  }

  /** The scan on from the start of a buffer, with `k` bytes of the header at `p` read. */
  function Pending(all: seq<byte>, cuts: set<nat>, p: nat, k: nat, stale: seq<byte>): Option<bool>
    requires |stale| == 5 && 0 < k < 5 && p + k < |all|
  {
    if 3 <= k then None
    else if k == 2 || CutAt(all, cuts, p + 2) then Onward(all, cuts, p, 2, stale)
    else if CutAt(all, cuts, p + 3) then None
    else if p + 4 <= |all| then Onward(all, cuts, p, 1, stale) else Some(false)
  }

  /** `b` lies at `base` in `all`, between two cuts. */
  predicate Lies(all: seq<byte>, cuts: set<nat>, base: nat, b: seq<byte>) {
    && base + |b| <= |all| && (forall j :: 0 <= j < |b| ==> b[j] == all[base + j])
    && (base + |b| < |all| ==> base + |b| in cuts)
    && (forall c :: c in cuts ==> c <= base || base + |b| <= c)
  }

  /** The scanner at offset `g` will come to `answer`. */
  predicate Agrees(s: Scanner, all: seq<byte>, cuts: set<nat>, g: nat, answer: Option<bool>)
    requires ValidScanner(s) && g <= |all|
  {
    if s.hi == 0 then answer == Answer(all, cuts, g + s.dataRemaining, s.header)
    else
      && s.dataRemaining == 0 && s.hi <= g && (g < |all| ==> g in cuts)
      && (forall j :: 0 <= j < s.hi ==> s.header[j] == all[g - s.hi + j])
      && answer == if g == |all| then Some(false) else Pending(all, cuts, g - s.hi, s.hi, s.header)
  }

  predicate TurnOk(t: Turn, all: seq<byte>, cuts: set<nat>, base: nat, answer: Option<bool>)
    requires t.Advanced? ==> ValidScanner(t.scanner) && base + t.i <= |all|
  {
    match t
    case Panicked => answer == None
    case Rejected => answer == Some(false)
    case Advanced(s, i) => Agrees(s, all, cuts, base + i, answer)
  }

  predicate Scanned(t: Turn, all: seq<byte>, cuts: set<nat>, g: nat, answer: Option<bool>)
    requires g <= |all| && (t.Advanced? ==> ValidScanner(t.scanner))
  {
    match t
    case Panicked => answer == None
    case Rejected => answer == Some(false)
    case Advanced(s, _) => Agrees(s, all, cuts, g, answer)
  }

  /** A header filled in two steps is a header filled in one. */
  lemma {:induction false} FillTwice(all: seq<byte>, p: nat, header: seq<byte>, k: nat, b: seq<byte>, i: nat, n: nat)
    requires |header| == 5 && k + n <= 5 && p + k + n <= |all| && i + n <= |b|
    requires forall j :: 0 <= j < k ==> header[j] == all[p + j]
    requires forall j :: i <= j < i + n ==> b[j] == all[p + k + j - i]
    ensures Fill(header, k, b, i, n) == Fill(header, 0, all, p, k + n)
  {
  }

  lemma {:induction false} OnwardOk(all: seq<byte>, cuts: set<nat>, base: nat, i: nat, p: nat, k: nat,
                                    stale: seq<byte>, answer: Option<bool>)
    requires |stale| == 5 && k <= 2 && p + k == base + i && p + 5 - k <= |all|
    requires answer == Onward(all, cuts, p, k, stale)
    ensures var h := Fill(stale, 0, all, p, 5 - k);
            TurnOk(if ApplicationData(h) then Advanced(Scanner(5, U16(h, 3), 0, h), i + 5 - 2 * k) else Rejected,
                   all, cuts, base, answer)
  {
  }

  /** A header that the buffer completes, with `s.hi` of its bytes read before. */
  lemma {:induction false} HeaderDone(s: Scanner, all: seq<byte>, cuts: set<nat>, base: nat, b: seq<byte>, i: nat,
                                      p: nat, answer: Option<bool>)
    requires ValidScanner(s) && s.dataRemaining == 0 && s.hi <= 2 && p + s.hi == base + i
    requires i + 5 - 2 * s.hi <= |b| && i < |b| && Lies(all, cuts, base, b)
    requires forall j :: 0 <= j < s.hi ==> s.header[j] == all[p + j]
    requires answer == Onward(all, cuts, p, s.hi, s.header)
    ensures TurnOk(TurnAt(s, b, i), all, cuts, base, answer)
  {
    FillTwice(all, p, s.header, s.hi, b, i, 5 - s.hi - s.hi);
    OnwardOk(all, cuts, base, i, p, s.hi, s.header, answer);
  }

  /** A header starts and ends in the buffer. */
  lemma {:induction false} WholeTurn(s: Scanner, all: seq<byte>, cuts: set<nat>, base: nat, b: seq<byte>, i: nat,
                                     answer: Option<bool>)
    requires ValidScanner(s) && s.hi == 0 && s.dataRemaining == 0 && i + 5 <= |b| && Lies(all, cuts, base, b)
    requires Agrees(s, all, cuts, base + i, answer)
    ensures TurnOk(TurnAt(s, b, i), all, cuts, base, answer)
  {
    assert HeaderReading(all, cuts, base + i) == Early(0);
    HeaderDone(s, all, cuts, base, b, i, base + i, answer);
  }

  /** Only the bytes behind those read matter. */
  lemma {:induction false} PendingSame(all: seq<byte>, cuts: set<nat>, p: nat, k: nat, stale: seq<byte>, h: seq<byte>)
    requires |stale| == 5 && |h| == 5 && 0 < k < 5 && p + k < |all| && forall j :: k <= j < 5 ==> h[j] == stale[j]
    ensures Pending(all, cuts, p, k, h) == Pending(all, cuts, p, k, stale)
  {
    if k < 3 {
      assert p + 3 <= |all| ==> Fill(h, 0, all, p, 3) == Fill(stale, 0, all, p, 3);
      assert p + 4 <= |all| ==> Fill(h, 0, all, p, 4) == Fill(stale, 0, all, p, 4);
    }
  }

  /** A header cut for the first time after `k` bytes. */
  lemma {:induction false} FirstCut(all: seq<byte>, cuts: set<nat>, p: nat, k: nat, stale: seq<byte>)
    requires |stale| == 5 && 0 < k < 5 && p + k <= |all| && (p + k < |all| ==> p + k in cuts)
    requires forall c :: c in cuts ==> c <= p || p + k <= c
    ensures Answer(all, cuts, p, stale)
            == if p + k == |all| then Some(false) else Pending(all, cuts, p, k, stale)
  {
  }

  /** A header starts in the buffer and goes on behind it, if at all. */
  lemma {:induction false} CutTurn(s: Scanner, all: seq<byte>, cuts: set<nat>, base: nat, b: seq<byte>, i: nat,
                                   answer: Option<bool>)
    requires ValidScanner(s) && s.hi == 0 && s.dataRemaining == 0 && i < |b| < i + 5 && Lies(all, cuts, base, b)
    requires Agrees(s, all, cuts, base + i, answer)
    ensures TurnOk(TurnAt(s, b, i), all, cuts, base, answer)
  {
    var p, k := base + i, |b| - i;
    var h := Fill(s.header, 0, b, i, k);
    FirstCut(all, cuts, p, k, s.header);
    if p + k < |all| {
      PendingSame(all, cuts, p, k, s.header, h);
    }
  }

  lemma {:induction false} PendingJoins(all: seq<byte>, cuts: set<nat>, p: nat, k: nat, stale: seq<byte>)
    requires |stale| == 5 && 1 <= k <= 2 && p + 5 - k <= |all|
    requires k == 1 ==> p + 2 !in cuts && p + 3 !in cuts
    ensures Pending(all, cuts, p, k, stale) == Onward(all, cuts, p, k, stale)
  {
  }

  /** The rest of a straddled header is enough. */
  lemma {:induction false} JoinTurn(s: Scanner, all: seq<byte>, cuts: set<nat>, base: nat, b: seq<byte>,
                                    answer: Option<bool>)
    requires ValidScanner(s) && 0 < s.hi < 3 && 5 - 2 * s.hi <= |b| && Lies(all, cuts, base, b)
    requires Agrees(s, all, cuts, base, answer)
    ensures TurnOk(TurnAt(s, b, 0), all, cuts, base, answer)
  {
    PendingJoins(all, cuts, base - s.hi, s.hi, s.header);
    HeaderDone(s, all, cuts, base, b, 0, base - s.hi, answer);
  }

  /** One byte, and one or two more, and still no header. */
  lemma {:induction false} MoreTurn(s: Scanner, all: seq<byte>, cuts: set<nat>, base: nat, b: seq<byte>,
                                    answer: Option<bool>)
    requires ValidScanner(s) && s.hi == 1 && 0 < |b| < 3 && Lies(all, cuts, base, b)
    requires Agrees(s, all, cuts, base, answer)
    ensures TurnOk(TurnAt(s, b, 0), all, cuts, base, answer)
  {
    var p, n := base - 1, 1 + |b|;
    var h := Fill(s.header, 1, b, 0, |b|);
    if p + n < |all| {
      PendingSame(all, cuts, p, n, s.header, h);
    }
  }

  /** One turn keeps the agreement. */
  lemma {:induction false} TurnAgrees(s: Scanner, all: seq<byte>, cuts: set<nat>, base: nat, b: seq<byte>, i: nat,
                                      answer: Option<bool>)
    requires ValidScanner(s) && i < |b| && Lies(all, cuts, base, b) && Agrees(s, all, cuts, base + i, answer)
    ensures TurnOk(TurnAt(s, b, i), all, cuts, base, answer)
  {
    if s.hi > 0 {
      assert i == 0;
      if 5 - 2 * s.hi <= |b| {
        if s.hi < 3 {
          JoinTurn(s, all, cuts, base, b, answer);
        }
      } else {
        MoreTurn(s, all, cuts, base, b, answer);
      }
    } else if s.dataRemaining == 0 {
      if i + 5 <= |b| {
        WholeTurn(s, all, cuts, base, b, i, answer);
      } else {
        CutTurn(s, all, cuts, base, b, i, answer);
      }
    }
  }

  lemma {:induction false} BufferAgrees(s: Scanner, all: seq<byte>, cuts: set<nat>, base: nat, b: seq<byte>, i: nat,
                                        answer: Option<bool>)
    requires ValidScanner(s) && i <= |b| && Lies(all, cuts, base, b) && Agrees(s, all, cuts, base + i, answer)
    ensures Scanned(ScanBuffer(s, b, i), all, cuts, base + |b|, answer)
    decreases |b| - i, 1
  {
    if i < |b| {
      TurnAgrees(s, all, cuts, base, b, i, answer);
      AfterTurn(TurnAt(s, b, i), all, cuts, base, b, i, answer);
    }
  }

  lemma {:induction false} AfterTurn(t: Turn, all: seq<byte>, cuts: set<nat>, base: nat, b: seq<byte>, i: nat,
                                     answer: Option<bool>)
    requires t.Advanced? ==> ValidScanner(t.scanner) && i < t.i <= |b|
    requires Lies(all, cuts, base, b) && TurnOk(t, all, cuts, base, answer)
    ensures Scanned(if t.Advanced? then ScanBuffer(t.scanner, b, t.i) else t, all, cuts, base + |b|, answer)
    decreases |b| - i, 0
  {
    if t.Advanced? {
      BufferAgrees(t.scanner, all, cuts, base, b, t.i, answer);
    }
  }

  lemma {:induction false} CutsBehind(mb: seq<seq<byte>>, past: nat)
    requires mb != []
    ensures forall c :: c in Cuts(mb, past) ==> past + |mb[0]| <= c
    decreases |mb|
  {
    if |mb| > 1 {
      CutsBehind(mb[1..], past + |mb[0]|);
    }
  }

  /** The buffers `mb` are what `all` holds from `base` on; the cuts up to there are `before`. */
  ghost predicate Located(all: seq<byte>, cuts: set<nat>, before: set<nat>, base: nat, mb: seq<seq<byte>>) {
    && base <= |all| && all[base..] == Concat(mb)
    && cuts == before + Cuts(mb, base) && (forall c :: c in before ==> c <= base)
  }

  lemma {:induction false} LocatedNext(all: seq<byte>, cuts: set<nat>, before: set<nat>, base: nat, mb: seq<seq<byte>>)
    returns (sooner: set<nat>)
    requires mb != [] && Located(all, cuts, before, base, mb)
    ensures Lies(all, cuts, base, mb[0]) && Located(all, cuts, sooner, base + |mb[0]|, mb[1..])
  {
    var b := mb[0];
    assert forall j :: 0 <= j < |b| ==> b[j] == all[base..][j] == all[base + j];
    assert all[base + |b|..] == all[base..][|b|..] == Concat(mb[1..]);
    CutsBehind(mb, base);
    if base + |b| < |all| {
      assert mb[1..] != [];
      assert base + |b| in Cuts(mb, base);
    }
    sooner := if |mb| == 1 then before else before + {base + |b|};
  }

  lemma {:induction false} ScanAgrees(s: Scanner, all: seq<byte>, cuts: set<nat>, before: set<nat>, base: nat,
                                      mb: seq<seq<byte>>, answer: Option<bool>)
    requires ValidScanner(s) && Located(all, cuts, before, base, mb) && Agrees(s, all, cuts, base, answer)
    ensures ScanAll(s, mb) == answer
    decreases |mb|, 1
  {
    if mb == [] {
      assert base == |all|;
    } else {
      var sooner := LocatedNext(all, cuts, before, base, mb);
      BufferAgrees(s, all, cuts, base, mb[0], 0, answer);
      ResumeAgrees(ScanBuffer(s, mb[0], 0), all, cuts, sooner, base + |mb[0]|, mb[1..], answer);
    }
  }

  lemma {:induction false} ResumeAgrees(t: Turn, all: seq<byte>, cuts: set<nat>, before: set<nat>, base: nat,
                                        mb: seq<seq<byte>>, answer: Option<bool>)
    requires Located(all, cuts, before, base, mb) && (t.Advanced? ==> ValidScanner(t.scanner))
    requires Scanned(t, all, cuts, base, answer)
    ensures Resume(t, mb) == answer
    decreases |mb|, 2
  {
    if t.Advanced? {
      ScanAgrees(t.scanner, all, cuts, before, base, mb, answer);
    }
  }

  /** COMPLETE-RECORD SCAN. For every list of buffers the scan is the scan of its bytes as a
      whole, in which a header cut after one or two bytes is completed with bytes of the
      header before it and one cut after three or four panics. */
  lemma {:induction false} ScanExact(mb: seq<seq<byte>>)
    ensures ScanAll(INITIAL, mb) == Answer(Concat(mb), Cuts(mb, 0), 0, Zeros(5))
  {
    assert Concat(mb)[0..] == Concat(mb);
    ScanAgrees(INITIAL, Concat(mb), Cuts(mb, 0), {}, 0, mb, Answer(Concat(mb), Cuts(mb, 0), 0, Zeros(5)));
  }

  // ------------------------------------------------------------ records of RFC 8446

  predicate RecordHeaderAt(all: seq<byte>, p: nat) {
    p + 5 <= |all| && ApplicationData(all[p..p + 5])
  }

  function NextHeader(all: seq<byte>, p: nat): nat
    requires RecordHeaderAt(all, p)
  {
    p + 5 + U16(all, p + 3)
  }

  /** From offset `p` on, the bytes are a whole number of application-data records. */
  predicate WholeRecords(all: seq<byte>, p: nat)
    decreases |all| - p
  {
    p == |all| || (RecordHeaderAt(all, p) && NextHeader(all, p) <= |all| && WholeRecords(all, NextHeader(all, p)))
  }

  /** The header at `p` has no bytes on both sides of a cut. */
  predicate Uncut(all: seq<byte>, cuts: set<nat>, p: nat) {
    forall c :: c in cuts && p < c < p + 5 ==> |all| <= c
  }

  /** No record header reached from offset `p` straddles two buffers. */
  predicate NoStraddle(all: seq<byte>, cuts: set<nat>, p: nat)
    decreases |all| - p
  {
    && Uncut(all, cuts, p)
    && (RecordHeaderAt(all, p) && NextHeader(all, p) <= |all| ==> NoStraddle(all, cuts, NextHeader(all, p)))
  }

  /** An uncut header is read as it stands. */
  lemma {:induction false} UncutHeader(all: seq<byte>, cuts: set<nat>, p: nat, stale: seq<byte>)
    requires |stale| == 5 && p < |all| && Uncut(all, cuts, p)
    ensures Answer(all, cuts, p, stale)
            == if RecordHeaderAt(all, p) then Answer(all, cuts, NextHeader(all, p), all[p..p + 5]) else Some(false)
  {
    assert HeaderReading(all, cuts, p) == if p + 5 <= |all| then Early(0) else Short;
    if p + 5 <= |all| {
      var h := all[p..p + 5];
      assert Fill(stale, 0, all, p, 5) == h;
      assert h[3] == all[p + 3] && h[4] == all[p + 4];
    }
  }

  lemma {:induction false} WholeAnswer(all: seq<byte>, cuts: set<nat>, p: nat, stale: seq<byte>)
    requires |stale| == 5 && p <= |all| && NoStraddle(all, cuts, p)
    ensures Answer(all, cuts, p, stale) == Some(WholeRecords(all, p))
    decreases |all| - p
  {
    if p < |all| {
      UncutHeader(all, cuts, p, stale);
      if RecordHeaderAt(all, p) && NextHeader(all, p) <= |all| {
        WholeAnswer(all, cuts, NextHeader(all, p), all[p..p + 5]);
      }
    }
  }

  /** When no record header straddles two buffers, the scan never panics and answers exactly
      whether the bytes are whole application-data records. */
  lemma {:induction false} CompleteRecordScan(mb: seq<seq<byte>>)
    requires NoStraddle(Concat(mb), Cuts(mb, 0), 0)
    ensures ScanAll(INITIAL, mb) == Some(WholeRecords(Concat(mb), 0))
  {
    ScanExact(mb);
    WholeAnswer(Concat(mb), Cuts(mb, 0), 0, Zeros(5));
  }

  // --------------------------------------------------------- the first straddled header

  /** Whole records with uncut headers lead from `p` to `q`. */
  predicate Reaches(all: seq<byte>, cuts: set<nat>, p: nat, q: nat)
    decreases q - p
  {
    p == q ||
    (&& RecordHeaderAt(all, p) && Uncut(all, cuts, p)
     && NextHeader(all, p) <= q && Reaches(all, cuts, NextHeader(all, p), q))
  }

  /** The last record header before `q`. */
  function LastHeader(all: seq<byte>, cuts: set<nat>, p: nat, q: nat, stale: seq<byte>): (h: seq<byte>)
    requires Reaches(all, cuts, p, q) && |stale| == 5
    ensures |h| == 5
    decreases q - p
  {
    if p == q then stale else LastHeader(all, cuts, NextHeader(all, p), q, all[p..p + 5])
  }

  lemma {:induction false} ReachedAnswer(all: seq<byte>, cuts: set<nat>, p: nat, q: nat, stale: seq<byte>)
    requires Reaches(all, cuts, p, q) && |stale| == 5
    ensures Answer(all, cuts, p, stale) == Answer(all, cuts, q, LastHeader(all, cuts, p, q, stale))
    decreases q - p
  {
    if p != q {
      UncutHeader(all, cuts, p, stale);
      ReachedAnswer(all, cuts, NextHeader(all, p), q, all[p..p + 5]);
    }
  }

  /** Behind any whole records, a header cut after its third or fourth byte, or after its
      first and third, panics as soon as any byte follows. */
  lemma {:induction false} StraddledHeaderPanics(mb: seq<seq<byte>>, q: nat)
    requires var all, cuts := Concat(mb), Cuts(mb, 0);
             && Reaches(all, cuts, 0, q) && q + 2 !in cuts
             && (CutAt(all, cuts, q + 3) || (CutAt(all, cuts, q + 4) && q + 1 !in cuts))
    ensures ScanAll(INITIAL, mb) == None
  {
    ScanExact(mb);
    ReachedAnswer(Concat(mb), Cuts(mb, 0), 0, q, Zeros(5));
  }

  /** Behind any whole records, a header cut after its second byte is completed with the last
      two bytes of the record header before it, one cut after its first byte only with the
      last byte; the scan goes on that many bytes too early, with the length so read. */
  lemma {:induction false} StraddledHeaderIsMisread(mb: seq<seq<byte>>, q: nat, k: nat)
    requires var all, cuts := Concat(mb), Cuts(mb, 0);
             && Reaches(all, cuts, 0, q) && 1 <= k <= 2 && CutAt(all, cuts, q + k)
             && (k == 1 ==> q + 2 !in cuts && q + 3 !in cuts && q + 4 <= |all|)
    ensures var all, cuts := Concat(mb), Cuts(mb, 0);
            var h := Fill(LastHeader(all, cuts, 0, q, Zeros(5)), 0, all, q, 5 - k);
            ScanAll(INITIAL, mb)
            == if ApplicationData(h) then Answer(all, cuts, q + 5 - k + U16(h, 3), h) else Some(false)
  {
    ScanExact(mb);
    EarlyAfterRecords(Concat(mb), Cuts(mb, 0), q, k);
  }

  lemma {:induction false} EarlyAfterRecords(all: seq<byte>, cuts: set<nat>, q: nat, k: nat)
    requires Reaches(all, cuts, 0, q) && 1 <= k <= 2 && CutAt(all, cuts, q + k)
    requires k == 1 ==> q + 2 !in cuts && q + 3 !in cuts && q + 4 <= |all|
    ensures var h := Fill(LastHeader(all, cuts, 0, q, Zeros(5)), 0, all, q, 5 - k);
            Answer(all, cuts, 0, Zeros(5))
            == if ApplicationData(h) then Answer(all, cuts, q + 5 - k + U16(h, 3), h) else Some(false)
  {
    ReachedAnswer(all, cuts, 0, q, Zeros(5));
    EarlyAnswer(all, cuts, q, k, LastHeader(all, cuts, 0, q, Zeros(5)));
  }

  lemma {:induction false} EarlyAnswer(all: seq<byte>, cuts: set<nat>, q: nat, k: nat, stale: seq<byte>)
    requires |stale| == 5 && 1 <= k <= 2 && CutAt(all, cuts, q + k)
    requires k == 1 ==> q + 2 !in cuts && q + 3 !in cuts && q + 4 <= |all|
    ensures var h := Fill(stale, 0, all, q, 5 - k);
            Answer(all, cuts, q, stale)
            == if ApplicationData(h) then Answer(all, cuts, q + 5 - k + U16(h, 3), h) else Some(false)
  {
    assert HeaderReading(all, cuts, q) == Early(k);
  }

  lemma {:induction false} TwoBuffers(a: seq<byte>, b: seq<byte>)
    ensures Concat([a, b]) == a + b && Cuts([a, b], 0) == {|a|}
  {
    ConcatOne(b);
    assert [a, b][1..] == [b];
  }

  /** Every single record, of whatever length but 0x1703, whose header is cut after its second
      byte is taken for an incomplete one. */
  lemma {:induction false} SingleRecordMisread(a: seq<byte>, b: seq<byte>)
    requires |a| == 2 && RecordHeaderAt(a + b, 0) && NextHeader(a + b, 0) == |a + b| && U16(a + b, 3) != 0x1703
    ensures WholeRecords(Concat([a, b]), 0) && ScanAll(INITIAL, [a, b]) == Some(false)
  {
    var all := a + b;
    TwoBuffers(a, b);
    StraddledHeaderIsMisread([a, b], 0, 2);
    assert 8 <= |all| ==> all[3..8][0] == all[3] && all[3..8][1] == all[4];
    UncutHeader(all, {2}, 3, Fill(Zeros(5), 0, all, 0, 3));
  }

  lemma {:induction false} TwoRecords(all: seq<byte>)
    requires all == [0x17, 3, 3, 0, 2, 0xAA, 0xBB, 0x17, 3, 3, 0, 1, 0xCC]
    ensures RecordHeaderAt(all, 0) && NextHeader(all, 0) == 7
    ensures RecordHeaderAt(all, 7) && NextHeader(all, 7) == 13 && WholeRecords(all, 7)
  {
    assert WholeRecords(all, 13);
  }

  /** The condition of CompleteRecordScan is not necessary: here the stale byte happens to fit. */
  lemma {:induction false} StaleByteFits(a: seq<byte>, b: seq<byte>)
    requires a == [0x17, 3, 3, 0, 2, 0xAA, 0xBB, 0x17] && b == [3, 3, 0, 1, 0xCC]
    ensures !NoStraddle(Concat([a, b]), Cuts([a, b], 0), 0)
    ensures WholeRecords(Concat([a, b]), 0) && ScanAll(INITIAL, [a, b]) == Some(true)
  {
    var all, cuts: set<nat>, h := a + b, {8}, a[..5];
    TwoBuffers(a, b);
    TwoRecords(all);
    ScanExact([a, b]);
    assert Uncut(all, cuts, 0) && !Uncut(all, cuts, 7);
    UncutHeader(all, cuts, 0, Zeros(5));
    assert all[0..5] == h;
    EarlyAnswer(all, cuts, 7, 1, h);
    assert Fill(h, 0, all, 7, 4) == h;
  }
}
