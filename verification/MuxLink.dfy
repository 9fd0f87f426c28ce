/** Any number of sessions on one link, from the calls of their writers to the server's outputs. */
module MuxLink {
  import opened Bytes
  import opened BufferedReaders
  import opened MuxFrames
  import opened MuxEvents
  import opened MuxServer
  import opened MuxSessions

  // --------------------------------------------------------------------- one session

  /** What one session is made to do: its writes (of buffers with their UDP destinations) and,
      perhaps, Close with its error flag. */
  datatype Job = Job(dest: Destination, globalId: seq<byte>, inbound: Option<Inbound>,
                     writes: seq<seq<Datagram>>, end: Option<bool>)

  /** Addresses that can be sent, metadata that is not too long, datagrams of at most a pooled
      buffer. */
  predicate GoodJob(parse: IpParser, job: Job) {
    && GoodEndpoint(parse, job.dest) && |job.globalId| == 8
    && (job.inbound.Some? ==>
          && GoodInbound(parse, job.inbound.value)
          && 5 + AddressLength(job.dest.address) + InboundLength(job.inbound.value) <= META_LIMIT)
    && (job.dest.network == UDP ==> forall i :: 0 <= i < |job.writes| ==> GoodPackets(parse, job.writes[i]))
  }

  predicate GoodPackets(parse: IpParser, ps: seq<Datagram>) {
    forall i :: 0 <= i < |ps| ==>
      && |ps[i].bytes| <= BUF_SIZE
      && (ps[i].udp.Some? ==> GoodEndpoint(parse, ps[i].udp.value) && ps[i].udp.value.network == UDP)
  }

  /** The datagrams that are not empty. */
  function Kept(ps: seq<Datagram>): seq<Datagram> {
    if ps == [] then [] else (if ps[0].bytes == [] then [] else [ps[0]]) + Kept(ps[1..])
  }

  /** A write as the other side sees it: the first frame of a session is addressed to the
      session's destination, whatever the address of its datagram. */
  function Readdressed(ps: seq<Datagram>, dest: Destination, first: bool): (qs: seq<Datagram>)
    ensures |qs| == |ps| && forall i :: 0 <= i < |ps| ==> qs[i].bytes == ps[i].bytes
  {
    if first && ps != [] then [ps[0].(udp := Some(dest))] + ps[1..] else ps
  }

  /** What one write should add to the output. */
  function Written(job: Job, ps: seq<Datagram>, first: bool): Output {
    Output(Concat(Contents(ps)), if job.dest.network == UDP then Kept(Readdressed(ps, job.dest, first)) else [])
  }

  /** Everything the session was given with its first `n` writes, in order. */
  function GivenBy(job: Job, n: nat): Output
    requires n <= |job.writes|
  {
    if n == 0 then SILENT else Plus(GivenBy(job, n - 1), Written(job, job.writes[n - 1], n == 1))
  }

  function Given(job: Job): Output {
    GivenBy(job, |job.writes|)
  }

  /** A frame of this job that the server can read. */
  predicate FrameOf(parse: IpParser, job: Job, id: nat, f: Frame) {
    && f.meta.sessionId == id && ValidFrame(parse, job.inbound.Some?, f)
    && (job.dest.network == UDP ==> |DataOf(f)| <= BUF_SIZE)
    && (f.meta.status == STATUS_NEW ==> f.meta.target == job.dest)
  }

  /** The payload part of a frame that a writer for this job may emit. */
  predicate Carries(parse: IpParser, job: Job, f: Frame) {
    if job.dest.network == UDP then
      && (f.data.Some? ==> |f.data.value| <= BUF_SIZE)
      && (f.udp.Some? ==> GoodEndpoint(parse, f.udp.value) && f.udp.value.network == UDP)
    else StreamFrame(f)
  }

  /** A writer made for the job. */
  ghost predicate Emits(parse: IpParser, job: Job, w: Writer)
    reads w
  {
    && w.Valid() && w.dest == job.dest && w.globalId == job.globalId && w.inbound == job.inbound
    && w.packet == (job.dest.network == UDP) && w.id < 65536
    && (forall i :: 0 <= i < |w.frames| ==> Carries(parse, job, w.frames[i]))
  }

  /** A writer made for the job, with what it has been given so far. */
  ghost predicate Working(parse: IpParser, job: Job, w: Writer, given: Output)
    reads w
  {
    Emits(parse, job, w) && OutputOf(w.frames, w.packet) == given
  }

  lemma {:induction false} OutputBytes(fs: seq<Frame>, packet: bool)
    ensures OutputOf(fs, packet).bytes == PayloadOf(fs) && (!packet ==> OutputOf(fs, packet).packets == [])
    decreases |fs|
  {
    if fs != [] {
      OutputBytes(fs[1..], packet);
    }
  }

  lemma {:induction false} OutputAppend(a: seq<Frame>, b: seq<Frame>, packet: bool)
    ensures OutputOf(a + b, packet) == Plus(OutputOf(a, packet), OutputOf(b, packet))
    decreases |a|
  {
    if a == [] {
      assert a + b == b;
      PlusSilent(OutputOf(b, packet));
    } else {
      assert (a + b)[0] == a[0] && (a + b)[1..] == a[1..] + b;
      OutputAppend(a[1..], b, packet);
      PlusAssoc(Part(Arrival(a[0]), packet), OutputOf(a[1..], packet), OutputOf(b, packet));
    }
  }

  lemma {:induction false} ArrivalsKept(fs: seq<Frame>, qs: seq<Datagram>)
    requires |fs| == |qs| && forall i :: 0 <= i < |fs| ==> Arrival(fs[i]) == qs[i]
    ensures OutputOf(fs, true).packets == Kept(qs)
    decreases |fs|
  {
    if fs != [] {
      assert forall i :: 0 <= i < |fs| - 1 ==> fs[1..][i] == fs[i + 1] && qs[1..][i] == qs[i + 1];
      ArrivalsKept(fs[1..], qs[1..]);
    }
  }

  lemma {:induction false} KeptOfPrefix(qs: seq<Datagram>, n: nat)
    requires n <= |qs| && forall i :: n <= i < |qs| ==> qs[i].bytes == []
    ensures Kept(qs[..n]) == Kept(qs)
    decreases |qs|
  {
    if n > 0 {
      assert qs[..n][0] == qs[0] && qs[..n][1..] == qs[1..][..n - 1];
      KeptOfPrefix(qs[1..], n - 1);
    } else if qs != [] {
      assert qs[..0] == [] && qs[1..][..0] == [];
      KeptOfPrefix(qs[1..], 0);
    }
  }

  /** The frame of one datagram, first or later, as it arrives. */
  lemma {:induction false} DatagramArrives(parse: IpParser, job: Job, w: Writer, i: nat, p: Datagram)
    requires Emits(parse, job, w) && job.dest.network == UDP && i < |w.frames| && IsDatagram(w.frames[i], p)
    ensures Arrival(w.frames[i]) == if i == 0 then Datagram(p.bytes, Some(job.dest)) else p
  {
    ScriptAt(w.frames, w.id, false, i);
    assert w.Addressed(w.frames[i]) && Carries(parse, job, w.frames[i]);
  }

  /** Frames added behind `before` may be emitted if the new ones may. */
  lemma {:induction false} CarriesMore(parse: IpParser, job: Job, before: seq<Frame>, fs: seq<Frame>)
    requires |before| <= |fs| && fs[..|before|] == before
    requires forall i :: 0 <= i < |before| ==> Carries(parse, job, before[i])
    requires forall i :: |before| <= i < |fs| ==> Carries(parse, job, fs[i])
    ensures forall i :: 0 <= i < |fs| ==> Carries(parse, job, fs[i])
  {
    forall i | 0 <= i < |fs| ensures Carries(parse, job, fs[i]) {
      if i < |before| {
        assert fs[i] == fs[..|before|][i] == before[i];
      }
    }
  }

  lemma {:induction false} DatagramsCarry(parse: IpParser, job: Job, before: seq<Frame>, fs: seq<Frame>,
                                          ps: seq<Datagram>, n: nat)
    requires job.dest.network == UDP && GoodPackets(parse, ps)
    requires if n > 0 then Datagrams(before, fs, ps, n) else NoData(before, fs)
    requires forall i :: 0 <= i < |before| ==> Carries(parse, job, before[i])
    ensures fs != [] && forall i :: 0 <= i < |fs| ==> Carries(parse, job, fs[i])
  {
    forall i | |before| <= i < |fs| ensures Carries(parse, job, fs[i]) {
      if n > 0 {
        assert IsDatagram(fs[i], ps[i - |before|]);
      }
    }
    CarriesMore(parse, job, before, fs);
  }

  /** The frames behind `before`, one for each datagram up to the last that is not empty. */
  lemma {:induction false} PacketsArrive(parse: IpParser, job: Job, w: Writer, before: seq<Frame>,
                                         ps: seq<Datagram>, n: nat)
    requires Emits(parse, job, w) && job.dest.network == UDP && n <= |ps| && AllEmpty(ps[n..])
    requires if n > 0 then Datagrams(before, w.frames, ps, n) else NoData(before, w.frames)
    ensures OutputOf(w.frames[|before|..], true).packets == Kept(Readdressed(ps, job.dest, before == []))
  {
    var more, qs := w.frames[|before|..], Readdressed(ps, job.dest, before == []);
    assert forall i :: n <= i < |ps| ==> ps[i] == ps[n..][i - n];
    KeptOfPrefix(qs, n);
    if n > 0 {
      forall i | 0 <= i < n ensures Arrival(more[i]) == qs[..n][i] {
        assert more[i] == w.frames[|before| + i];
        DatagramArrives(parse, job, w, |before| + i, ps[i]);
      }
      ArrivalsKept(more, qs[..n]);
    } else {
      assert more[0].data == None && more[1..] == [];
    }
  }

  lemma {:induction false} PacketsWritten(parse: IpParser, job: Job, w: Writer, before: seq<Frame>,
                                          ps: seq<Datagram>, n: nat)
    requires Emits(parse, job, w) && job.dest.network == UDP && n <= |ps| && AllEmpty(ps[n..])
    requires if n > 0 then Datagrams(before, w.frames, ps, n) else NoData(before, w.frames)
    requires PayloadOf(w.frames) == PayloadOf(before) + Concat(Contents(ps))
    ensures OutputOf(w.frames, true) == Plus(OutputOf(before, true), Written(job, ps, before == []))
  {
    PacketsArrive(parse, job, w, before, ps, n);
    assert before + w.frames[|before|..] == w.frames;
    OutputAppend(before, w.frames[|before|..], true);
    OutputBytes(before, true);
    OutputBytes(w.frames, true);
  }

  method WriteDatagrams(w: Writer, ps: seq<Datagram>, ghost parse: IpParser, ghost job: Job, ghost given: Output)
    requires Working(parse, job, w, given) && job.dest.network == UDP && GoodPackets(parse, ps)
    modifies w
    ensures Working(parse, job, w, Plus(given, Written(job, ps, old(w.frames) == []))) && w.frames != []
  {
    ghost var before := w.frames;
    ghost var n := w.WritePackets(ps);
    DatagramsCarry(parse, job, before, w.frames, ps, n);
    PacketsWritten(parse, job, w, before, ps, n);
  }

  /** WriteMultiBuffer, packet or stream. */
  method WriteOne(w: Writer, ps: seq<Datagram>, ghost parse: IpParser, ghost job: Job, ghost given: Output)
    requires Working(parse, job, w, given) && (job.dest.network == UDP ==> GoodPackets(parse, ps))
    modifies w
    ensures Working(parse, job, w, Plus(given, Written(job, ps, old(w.frames) == []))) && w.frames != []
  {
    if w.packet {
      WriteDatagrams(w, ps, parse, job, given);
    } else {
      ghost var before := w.frames;
      w.WriteStream(Contents(ps));
      CarriesMore(parse, job, before, w.frames);
      OutputBytes(before, false);
      OutputBytes(w.frames, false);
    }
  }

  /** The frames of a writer for a good job are frames of the job. */
  lemma {:induction false} WorkingFrames(parse: IpParser, job: Job, w: Writer)
    requires GoodJob(parse, job) && Emits(parse, job, w)
    ensures forall i :: 0 <= i < |w.frames| ==> FrameOf(parse, job, w.id, w.frames[i])
  {
    forall i | 0 <= i < |w.frames| ensures FrameOf(parse, job, w.id, w.frames[i]) {
      ScriptAt(w.frames, w.id, false, i);
      assert w.Addressed(w.frames[i]) && Carries(parse, job, w.frames[i]);
      WriterFrameValid(w, parse, w.frames[i]);
    }
  }

  /** All frames of a job on the link: one script, which carries what the session was given, and
      the End frame if the session is closed. */
  ghost predicate Lines(parse: IpParser, job: Job, id: nat, fs: seq<Frame>) {
    && AllOf(parse, job, id, fs)
    && exists script :: Complete(fs, script) && ScriptOf(job, id, script) && (fs == script <==> job.end.None?)
  }

  ghost predicate ScriptOf(job: Job, id: nat, script: seq<Frame>) {
    && Script(script, id, false) && OutputOf(script, job.dest.network == UDP) == Given(job)
    && (script == [] <==> job.writes == [])
  }

  predicate AllOf(parse: IpParser, job: Job, id: nat, fs: seq<Frame>) {
    forall i :: 0 <= i < |fs| ==> FrameOf(parse, job, id, fs[i])
  }

  lemma {:induction false} ScriptIsLines(parse: IpParser, job: Job, id: nat, script: seq<Frame>)
    requires AllOf(parse, job, id, script) && ScriptOf(job, id, script) && job.end.None?
    ensures Lines(parse, job, id, script)
  {
    assert Complete(script, script);
  }

  lemma {:induction false} EndedIsLines(parse: IpParser, job: Job, id: nat, script: seq<Frame>, f: Frame)
    requires AllOf(parse, job, id, script) && ScriptOf(job, id, script) && job.end.Some?
    requires IsEnd(f) && FrameOf(parse, job, id, f)
    ensures Lines(parse, job, id, script + [f])
  {
    var ended := script + [f];
    assert ended[..|script|] == script && ended[|script|] == f;
    assert Complete(ended, script) && ended != script;
    forall i | 0 <= i < |ended| ensures FrameOf(parse, job, id, ended[i]) {
      if i < |script| {
        assert ended[i] == script[i];
      }
    }
  }

  lemma {:induction false} EndFrameOf(parse: IpParser, job: Job, id: nat, hasError: bool)
    requires id < 65536
    ensures FrameOf(parse, job, id, EndFrame(id, hasError)) && IsEnd(EndFrame(id, hasError))
  {
  }

  /** A writer that has been given everything, without or with its End frame. */
  lemma {:induction false} WorkingLines(parse: IpParser, job: Job, w: Writer)
    requires GoodJob(parse, job) && Working(parse, job, w, Given(job)) && (w.frames == [] <==> job.writes == [])
    ensures Lines(parse, job, w.id,
                  if job.end.None? then w.frames else w.frames + [EndFrame(w.id, job.end.value)])
  {
    WorkingFrames(parse, job, w);
    assert AllOf(parse, job, w.id, w.frames) && ScriptOf(job, w.id, w.frames);
    if job.end.None? {
      ScriptIsLines(parse, job, w.id, w.frames);
    } else {
      EndFrameOf(parse, job, w.id, job.end.value);
      EndedIsLines(parse, job, w.id, w.frames, EndFrame(w.id, job.end.value));
    }
  }

  /** One session's whole life: NewWriter, its writes, Close. */
  method RunJob(ghost parse: IpParser, job: Job, id: nat) returns (fs: seq<Frame>)
    requires GoodJob(parse, job) && id < 65536
    ensures Lines(parse, job, id, fs)
  {
    var w := new Writer(id, job.dest, job.globalId, job.inbound, job.dest.network == UDP);
    for i := 0 to |job.writes|
      invariant Working(parse, job, w, GivenBy(job, i)) && (w.frames == [] <==> i == 0)
    {
      WriteOne(w, job.writes[i], parse, job, GivenBy(job, i));
    }
    fs := w.frames;
    if job.end.Some? {
      var f := w.Close(job.end.value);
      fs := fs + [f];
    }
    WorkingLines(parse, job, w);
  }

  // ------------------------------------------------------------------------- numbering

  predicate Distinct(ids: seq<nat>) {
    forall i, j :: 0 <= i < j < |ids| ==> ids[i] != ids[j]
  }

  /** As many ids as there are sessions, from one manager, within its reuse limit. */
  method Number(n: nat, limit: nat) returns (ids: seq<nat>)
    requires n <= limit < 65536 && 0 < limit
    ensures |ids| == n && Distinct(ids) && forall i :: 0 <= i < n ==> ids[i] < 65536
  {
    var m := new SessionManager();
    ids := [];
    while |ids| < n
      invariant |ids| <= n && m.Limited(limit) && m.issued == ids && m.count == |ids| && !m.closed
    {
      var id := m.Allocate(0, limit);
      ids := ids + [id.value];
    }
  }

  /** Every session does its job. */
  method RunJobs(ghost parse: IpParser, jobs: seq<Job>, ids: seq<nat>) returns (lists: seq<seq<Frame>>)
    requires |ids| == |jobs| && forall i :: 0 <= i < |jobs| ==> GoodJob(parse, jobs[i]) && ids[i] < 65536
    ensures |lists| == |jobs| && forall i :: 0 <= i < |jobs| ==> Lines(parse, jobs[i], ids[i], lists[i])
  {
    lists := [];
    for k := 0 to |jobs|
      invariant |lists| == k && forall i :: 0 <= i < k ==> Lines(parse, jobs[i], ids[i], lists[i])
    {
      var fs := RunJob(parse, jobs[k], ids[k]);
      lists := lists + [fs];
    }
  }

  // ---------------------------------------------------------------------- interleaving

  function Total(lists: seq<seq<Frame>>): nat {
    if lists == [] then 0 else |lists[0]| + Total(lists[1..])
  }

  lemma {:induction false} TotalDrops(lists: seq<seq<Frame>>, k: nat)
    requires k < |lists| && lists[k] != []
    ensures Total(lists[k := lists[k][1..]]) == Total(lists) - 1
    decreases |lists|
  {
    var less := lists[k := lists[k][1..]];
    if k == 0 {
      assert less[1..] == lists[1..];
    } else {
      TotalDrops(lists[1..], k - 1);
      assert less[1..] == lists[1..][k - 1 := lists[1..][k - 1][1..]];
    }
  }

  /** A list that has a frame left, if there is one. */
  function FirstLeft(lists: seq<seq<Frame>>): (k: nat)
    requires Total(lists) > 0
    ensures k < |lists| && lists[k] != []
    decreases |lists|
  {
    if lists[0] != [] then 0 else 1 + FirstLeft(lists[1..])
  }

  /** Whose turn it is: whom the schedule names, if there is a frame left, or else anybody. */
  function Turn(lists: seq<seq<Frame>>, turns: seq<nat>): (k: nat)
    requires Total(lists) > 0
    ensures k < |lists| && lists[k] != []
  {
    if turns != [] && turns[0] < |lists| && lists[turns[0]] != [] then turns[0] else FirstLeft(lists)
  }

  /** The sessions write to the link in turns, one frame at a time. */
  function Merged(lists: seq<seq<Frame>>, turns: seq<nat>): seq<Frame>
    decreases Total(lists)
  {
    if Total(lists) == 0 then []
    else
      var k := Turn(lists, turns);
      TotalDrops(lists, k);
      [lists[k][0]] + Merged(lists[k := lists[k][1..]], if turns == [] then [] else turns[1..])
  }

  /** The lists are numbered. */
  predicate Numbered(lists: seq<seq<Frame>>, ids: seq<nat>) {
    && |lists| == |ids| && Distinct(ids)
    && forall k, i :: 0 <= k < |lists| && 0 <= i < |lists[k]| ==> lists[k][i].meta.sessionId == ids[k]
  }

  lemma {:induction false} NumberedTail(lists: seq<seq<Frame>>, ids: seq<nat>, k: nat)
    requires Numbered(lists, ids) && k < |lists| && lists[k] != []
    ensures Numbered(lists[k := lists[k][1..]], ids)
  {
  }

  lemma {:induction false} NothingLeft(lists: seq<seq<Frame>>, k: nat)
    requires Total(lists) == 0 && k < |lists|
    ensures lists[k] == []
    decreases |lists|
  {
    if k > 0 {
      NothingLeft(lists[1..], k - 1);
    }
  }

  /** However the sessions take turns, each one's frames are on the link in their order. */
  lemma {:induction false} MergedKeepsOrder(lists: seq<seq<Frame>>, ids: seq<nat>, turns: seq<nat>, k: nat)
    requires Numbered(lists, ids) && k < |lists|
    ensures OfSession(Merged(lists, turns), ids[k]) == lists[k]
    decreases Total(lists)
  {
    if Total(lists) == 0 {
      NothingLeft(lists, k);
    } else {
      var j := Turn(lists, turns);
      var less, later := lists[j := lists[j][1..]], if turns == [] then [] else turns[1..];
      TotalDrops(lists, j);
      NumberedTail(lists, ids, j);
      MergedKeepsOrder(less, ids, later, k);
      var fs := Merged(lists, turns);
      assert fs[0] == lists[j][0] && fs[1..] == Merged(less, later);
      assert j == k ==> [lists[j][0]] + lists[j][1..] == lists[j];
    }
  }

  lemma {:induction false} AllEmptyTotal(lists: seq<seq<Frame>>)
    requires forall k :: 0 <= k < |lists| ==> lists[k] == []
    ensures Total(lists) == 0
    decreases |lists|
  {
    if lists != [] {
      assert forall k :: 0 <= k < |lists[1..]| ==> lists[1..][k] == lists[k + 1];
      AllEmptyTotal(lists[1..]);
    }
  }

  /** The frames `fs` are an interleaving of the lists. */
  predicate Interleaves(lists: seq<seq<Frame>>, ids: seq<nat>, fs: seq<Frame>)
    requires |lists| == |ids|
  {
    && (forall i :: 0 <= i < |fs| ==> fs[i].meta.sessionId in ids)
    && (forall k :: 0 <= k < |lists| ==> OfSession(fs, ids[k]) == lists[k])
  }

  /** The first frame of an interleaving is the first of its list. */
  lemma {:induction false} InterleavesNext(lists: seq<seq<Frame>>, ids: seq<nat>, fs: seq<Frame>, k: nat)
    requires Numbered(lists, ids) && Interleaves(lists, ids, fs) && fs != []
    requires k < |ids| && ids[k] == fs[0].meta.sessionId
    ensures lists[k] != [] && lists[k][0] == fs[0] && Interleaves(lists[k := lists[k][1..]], ids, fs[1..])
  {
    var tail := OfSession(fs[1..], ids[k]);
    assert lists[k] == [fs[0]] + tail;
    assert lists[k][1..] == tail;
    var less := lists[k := tail];
    assert forall i :: 0 <= i < |fs[1..]| ==> fs[1..][i] == fs[i + 1];
    forall j | 0 <= j < |less| ensures OfSession(fs[1..], ids[j]) == less[j] {
      if j != k {
        assert OfSession(fs, ids[j]) == [] + OfSession(fs[1..], ids[j]);
      }
    }
  }

  /** Whose frame comes first, and what is left then. */
  lemma {:induction false} FirstOf(lists: seq<seq<Frame>>, ids: seq<nat>, fs: seq<Frame>)
    returns (k: nat, less: seq<seq<Frame>>)
    requires Numbered(lists, ids) && Interleaves(lists, ids, fs) && fs != []
    ensures k < |lists| && lists[k] != [] && lists[k][0] == fs[0] && less == lists[k := lists[k][1..]]
    ensures Numbered(less, ids) && Interleaves(less, ids, fs[1..])
  {
    k :| 0 <= k < |ids| && ids[k] == fs[0].meta.sessionId;
    InterleavesNext(lists, ids, fs, k);
    NumberedTail(lists, ids, k);
    less := lists[k := lists[k][1..]];
  }

  /** Whatever order of frames keeps each session's own order is one that some turns lead to. */
  lemma {:induction false} EveryMerge(lists: seq<seq<Frame>>, ids: seq<nat>, fs: seq<Frame>) returns (turns: seq<nat>)
    requires Numbered(lists, ids) && Interleaves(lists, ids, fs)
    ensures Merged(lists, turns) == fs
    decreases |fs|
  {
    if fs == [] {
      turns := [];
      AllEmptyTotal(lists);
    } else {
      var k, less := FirstOf(lists, ids, fs);
      var later := EveryMerge(less, ids, fs[1..]);
      turns := [k] + later;
      MergedTurn(lists, k, later);
      assert [fs[0]] + fs[1..] == fs;
    }
  }

  /** It is the turn of list `k`. */
  lemma {:induction false} MergedTurn(lists: seq<seq<Frame>>, k: nat, later: seq<nat>)
    requires k < |lists| && lists[k] != []
    ensures Merged(lists, [k] + later) == [lists[k][0]] + Merged(lists[k := lists[k][1..]], later)
  {
    var turns := [k] + later;
    TotalDrops(lists, k);
    assert turns[0] == k && turns[1..] == later;
    assert Total(lists) > 0 && Turn(lists, turns) == k;
  }

  // --------------------------------------------------------------------- a valid link

  /** Each frame belongs to one of the jobs. */
  ghost predicate Owned(parse: IpParser, jobs: seq<Job>, ids: seq<nat>, fs: seq<Frame>)
    requires |jobs| == |ids|
  {
    forall i :: 0 <= i < |fs| ==> exists k :: 0 <= k < |jobs| && FrameOf(parse, jobs[k], ids[k], fs[i])
  }

  ghost predicate AllLines(parse: IpParser, jobs: seq<Job>, ids: seq<nat>, lists: seq<seq<Frame>>) {
    && |jobs| == |ids| == |lists|
    && forall k, i :: 0 <= k < |lists| && 0 <= i < |lists[k]| ==> FrameOf(parse, jobs[k], ids[k], lists[k][i])
  }

  lemma {:induction false} MergedOwned(parse: IpParser, jobs: seq<Job>, ids: seq<nat>, lists: seq<seq<Frame>>,
                                       turns: seq<nat>)
    requires AllLines(parse, jobs, ids, lists)
    ensures Owned(parse, jobs, ids, Merged(lists, turns))
    decreases Total(lists)
  {
    if Total(lists) > 0 {
      var k := Turn(lists, turns);
      var less, later := lists[k := lists[k][1..]], if turns == [] then [] else turns[1..];
      TotalDrops(lists, k);
      MergedOwned(parse, jobs, ids, less, later);
      var fs := Merged(lists, turns);
      assert FrameOf(parse, jobs[k], ids[k], fs[0]);
      assert forall i :: 0 < i < |fs| ==> fs[i] == Merged(less, later)[i - 1];
    }
  }

  lemma {:induction false} OwnedIsValid(parse: IpParser, reverse: bool, jobs: seq<Job>, ids: seq<nat>, fs: seq<Frame>)
    requires |jobs| == |ids| && Distinct(ids) && FindsIps(parse) && Owned(parse, jobs, ids, fs)
    requires forall k :: 0 <= k < |jobs| ==> jobs[k].inbound.Some? == reverse
    ensures ValidLink(parse, reverse, fs)
  {
    forall i, j | 0 <= i < |fs| && 0 <= j < |fs| && OpensPacket(fs[i], fs[j].meta.sessionId)
      ensures |DataOf(fs[j])| <= BUF_SIZE
    {
      var k :| 0 <= k < |jobs| && FrameOf(parse, jobs[k], ids[k], fs[i]);
      var l :| 0 <= l < |jobs| && FrameOf(parse, jobs[l], ids[l], fs[j]);
      assert k == l;
    }
  }

  // --------------------------------------------------------------------- serialising

  /** writeMetaWithFrame: the metadata, and the payload behind its length. It fails exactly when
      an address is refused. */
  method SendFrame(f: Frame) returns (b: seq<byte>, ok: bool)
    ensures ok == Tail(f.meta, f.udp).ok
    ensures ok ==> b == FrameWire(f)
  {
    b, ok := WriteTo(f.meta, f.udp);
    if ok && f.data.Some? {
      b := b + (Be16(|f.data.value|) + f.data.value);
    } else {
      assert b + [] == b;
    }
  }

  lemma {:induction false} LinkWireSnoc(fs: seq<Frame>, f: Frame)
    ensures LinkWire(fs + [f]) == LinkWire(fs) + FrameWire(f)
    decreases |fs|
  {
    var all := fs + [f];
    if fs == [] {
      assert all[0] == f && all[1..] == fs;
      assert FrameWire(f) + [] == FrameWire(f) && [] + FrameWire(f) == FrameWire(f);
    } else {
      assert all[0] == fs[0] && all[1..] == fs[1..] + [f];
      LinkWireSnoc(fs[1..], f);
      Assoc(FrameWire(fs[0]), LinkWire(fs[1..]), FrameWire(f));
    }
  }

  method SendAll(ghost parse: IpParser, ghost reverse: bool, fs: seq<Frame>) returns (wire: seq<byte>)
    requires ValidLink(parse, reverse, fs)
    ensures wire == LinkWire(fs)
  {
    wire := [];
    for i := 0 to |fs|
      invariant wire == LinkWire(fs[..i])
    {
      assert ValidFrame(parse, reverse, fs[i]);
      FrameRoundTrip(parse, fs[i].meta, fs[i].udp);
      var b, ok := SendFrame(fs[i]);
      LinkWireSnoc(fs[..i], fs[i]);
      assert fs[..i] + [fs[i]] == fs[..i + 1];
      wire := wire + b;
    }
    assert fs[..|fs|] == fs;
  }

  // ------------------------------------------------------------------------ all at once

  lemma {:induction false} ConcernsFrames(es: seq<Event>, id: nat)
    ensures FramesIn(Concerns(es, id)) == OfSession(FramesIn(es), id)
    ensures BrokenArePrefixes(es) ==> BrokenArePrefixes(Concerns(es, id))
    decreases |es|
  {
    if es != [] {
      var tail, mine := es[1..], Concerns(es[1..], id);
      assert forall i :: 0 <= i < |tail| ==> tail[i] == es[i + 1];
      ConcernsFrames(tail, id);
      if es[0].Arrives? {
        var all := [es[0].frame] + FramesIn(tail);
        assert all[0] == es[0].frame && all[1..] == FramesIn(tail);
      } else {
        assert [] + FramesIn(tail) == FramesIn(tail) && [] + FramesIn(mine) == FramesIn(mine);
      }
      assert ([es[0]] + mine)[0] == es[0] && ([es[0]] + mine)[1..] == mine;
    }
  }

  lemma {:induction false} OfSessionAppend(a: seq<Frame>, b: seq<Frame>, id: nat)
    ensures OfSession(a + b, id) == OfSession(a, id) + OfSession(b, id)
    decreases |a|
  {
    if a == [] {
      assert a + b == b;
    } else {
      assert (a + b)[0] == a[0] && (a + b)[1..] == a[1..] + b;
      OfSessionAppend(a[1..], b, id);
      var first: seq<Frame> := if a[0].meta.sessionId == id then [a[0]] else [];
      Assoc(first, OfSession(a[1..], id), OfSession(b, id));
    }
  }

  /** Behind the first `n` frames there is none of this session. */
  predicate Handled(fs: seq<Frame>, n: nat, id: nat) {
    forall i :: n <= i < |fs| ==> fs[i].meta.sessionId != id
  }

  lemma {:induction false} OfNobody(fs: seq<Frame>, id: nat)
    requires Handled(fs, 0, id)
    ensures OfSession(fs, id) == []
    decreases |fs|
  {
    if fs != [] {
      assert forall i :: 0 <= i < |fs[1..]| ==> fs[1..][i] == fs[i + 1];
      OfNobody(fs[1..], id);
    }
  }

  /** The session's frames among the first `n`. */
  lemma {:induction false} OfSessionPrefix(fs: seq<Frame>, n: nat, id: nat)
    requires n <= |fs|
    ensures OfSession(fs[..n], id) <= OfSession(fs, id)
    ensures Handled(fs, n, id) ==> OfSession(fs[..n], id) == OfSession(fs, id)
  {
    assert fs[..n] + fs[n..] == fs;
    OfSessionAppend(fs[..n], fs[n..], id);
    if Handled(fs, n, id) {
      assert forall i :: 0 <= i < |fs[n..]| ==> fs[n..][i] == fs[n + i];
      OfNobody(fs[n..], id);
    }
  }

  lemma {:induction false} ScriptPrefix(script: seq<Frame>, id: nat, followup: bool, n: nat)
    requires Script(script, id, followup) && n <= |script|
    ensures Script(script[..n], id, followup)
    decreases |script|
  {
    if n > 0 {
      assert script[..n][0] == script[0] && script[..n][1..] == script[1..][..n - 1];
      ScriptPrefix(script[1..], id, true, n - 1);
    }
  }

  /** The beginning of a session's frames is the beginning of its script. */
  lemma {:induction false} LinesPrefix(some: seq<Frame>, lines: seq<Frame>, script: seq<Frame>, id: nat, packet: bool)
    returns (part: seq<Frame>)
    requires some <= lines && Complete(lines, script) && Script(script, id, false)
    ensures Complete(some, part) && Script(part, id, false) && part <= script
    ensures Begins(OutputOf(part, packet), OutputOf(script, packet))
  {
    var n := if |some| <= |script| then |some| else |script|;
    part := script[..n];
    ScriptPrefix(script, id, false, n);
    assert part + script[n..] == script;
    OutputAppend(part, script[n..], packet);
    if |some| <= |script| {
      assert some == lines[..n] == part;
    } else {
      assert some == lines;
    }
  }

  /** A session's output holds a beginning of what its writer was given, and all of it if the
      session was spared and its frames have all been handled; the session is then open exactly
      if it was not closed by its writer. */
  ghost predicate Fair(job: Job, id: nat, fs: seq<Frame>, cs: seq<Choice>, n: nat, s: Server)
    requires n <= |cs| == |fs|
  {
    && (id in s.delivered ==> Begins(s.delivered[id], Given(job)))
    && (Spared(cs, fs, Min(n + 1, |fs|), id) && Handled(fs, n, id) ==>
          && (job.writes != [] ==> id in s.delivered && s.delivered[id] == Given(job))
          && (id in s.open <==> job.writes != [] && job.end.None?))
  }

  lemma {:induction false} UnbrokenFrames(es: seq<Event>)
    requires Unbroken(es)
    ensures |FramesIn(es)| == |es| && forall i :: 0 <= i < |es| ==> FramesIn(es)[i] == es[i].frame
    decreases |es|
  {
    if es != [] {
      var tail := es[1..];
      assert forall i :: 0 <= i < |tail| ==> tail[i] == es[i + 1];
      assert es[0].Arrives?;
      UnbrokenFrames(tail);
    }
  }

  /** A session all of whose frames have come through is open if its writer did not close it. */
  lemma {:induction false} OpenUnlessEnded(mine: seq<Event>, lines: seq<Frame>, script: seq<Frame>, id: nat)
    requires Unbroken(mine) && FramesIn(mine) == lines && Complete(lines, script) && Script(script, id, false)
    ensures OpenBy(mine) <==> script != [] && lines == script
  {
    UnbrokenFrames(mine);
    if lines != script {
      var n := |script|;
      assert IsEnd(lines[n]) && Shuts(mine[n]);
    } else if script != [] {
      forall j | 0 <= j < |mine| ensures !Shuts(mine[j]) && (j == 0 ==> Opens(mine[j])) {
        ScriptAt(script, id, false, j);
      }
      assert OpenSince(mine, 0);
    }
  }

  /** The first frame of a job's script opens a session of packets or not. */
  lemma {:induction false} JobTarget(parse: IpParser, job: Job, id: nat, lines: seq<Frame>, script: seq<Frame>)
    requires forall i :: 0 <= i < |lines| ==> FrameOf(parse, job, id, lines[i])
    requires Complete(lines, script) && Script(script, id, false) && script != []
    ensures PacketTarget(script[0]) == (job.dest.network == UDP)
  {
    assert lines[0] == script[0] && FrameOf(parse, job, id, lines[0]);
  }

  lemma {:induction false} JobIsFair(parse: IpParser, job: Job, id: nat, lines: seq<Frame>, fs: seq<Frame>,
                                     cs: seq<Choice>, n: nat, es: seq<Event>)
    requires n <= |cs| == |fs| && AllSmooth(cs, fs, Min(n + 1, |fs|), n, es)
    requires FramesIn(es) == fs[..n] && BrokenArePrefixes(es)
    requires Lines(parse, job, id, lines) && OfSession(fs, id) == lines
    ensures Fair(job, id, fs, cs, n, AfterAll(NOBODY, es))
  {
    var script :| Complete(lines, script) && ScriptOf(job, id, script) && (lines == script <==> job.end.None?);
    var packet, some := job.dest.network == UDP, OfSession(fs[..n], id);
    if script != [] {
      JobTarget(parse, job, id, lines, script);
    }
    OfSessionPrefix(fs, n, id);
    var part := LinesPrefix(some, lines, script, id, packet);
    ConcernsFrames(es, id);
    SessionNeverForeign(NOBODY, es, id, part);
    if Spared(cs, fs, Min(n + 1, |fs|), id) && Handled(fs, n, id) {
      OpenExactly(es, id);
      OpenUnlessEnded(Concerns(es, id), lines, script, id);
      if job.writes != [] {
        SessionDelivers(NOBODY, es, id, script);
      }
    }
  }

  /** Every session is treated fairly, and there is no other output. */
  ghost predicate AllFair(jobs: seq<Job>, ids: seq<nat>, fs: seq<Frame>, cs: seq<Choice>, n: nat, s: Server)
    requires |jobs| == |ids| && n <= |cs| == |fs|
  {
    && (forall k :: 0 <= k < |jobs| ==> Fair(jobs[k], ids[k], fs, cs, n, s))
    && (forall id :: id in s.delivered ==> id in ids)
  }

  lemma {:induction false} NobodysOutput(es: seq<Event>, fs: seq<Frame>, id: nat)
    requires FramesIn(es) == fs && BrokenArePrefixes(es) && Handled(fs, 0, id)
    ensures id !in AfterAll(NOBODY, es).delivered
  {
    ConcernsFrames(es, id);
    OfNobody(fs, id);
    SessionNeverForeign(NOBODY, es, id, []);
  }

  lemma {:induction false} EveryoneIsFair(parse: IpParser, jobs: seq<Job>, ids: seq<nat>, lists: seq<seq<Frame>>,
                                          fs: seq<Frame>, cs: seq<Choice>, n: nat, es: seq<Event>)
    requires |jobs| == |ids| == |lists| && n <= |cs| == |fs| && AllSmooth(cs, fs, Min(n + 1, |fs|), n, es)
    requires FramesIn(es) == fs[..n] && BrokenArePrefixes(es) && Owned(parse, jobs, ids, fs)
    requires forall k :: 0 <= k < |jobs| ==> Lines(parse, jobs[k], ids[k], lists[k])
    requires forall k :: 0 <= k < |jobs| ==> OfSession(fs, ids[k]) == lists[k]
    ensures AllFair(jobs, ids, fs, cs, n, AfterAll(NOBODY, es))
  {
    var s := AfterAll(NOBODY, es);
    forall k | 0 <= k < |jobs| ensures Fair(jobs[k], ids[k], fs, cs, n, s) {
      JobIsFair(parse, jobs[k], ids[k], lists[k], fs, cs, n, es);
    }
    forall id | id in s.delivered ensures id in ids {
      if id !in ids {
        assert Handled(fs[..n], 0, id);
        NobodysOutput(es, fs[..n], id);
      }
    }
  }

  /** The jobs' frames, taking turns, are a link that the server can read. */
  lemma {:induction false} LinkOfJobs(parse: IpParser, reverse: bool, jobs: seq<Job>, ids: seq<nat>,
                                      lists: seq<seq<Frame>>, turns: seq<nat>)
    requires |jobs| == |ids| == |lists| && Distinct(ids) && FindsIps(parse)
    requires forall k :: 0 <= k < |jobs| ==> Lines(parse, jobs[k], ids[k], lists[k]) && jobs[k].inbound.Some? == reverse
    ensures var fs := Merged(lists, turns);
            && Owned(parse, jobs, ids, fs) && ValidLink(parse, reverse, fs)
            && forall k :: 0 <= k < |jobs| ==> OfSession(fs, ids[k]) == lists[k]
  {
    var fs := Merged(lists, turns);
    assert AllLines(parse, jobs, ids, lists);
    assert Numbered(lists, ids);
    forall k | 0 <= k < |jobs| ensures OfSession(fs, ids[k]) == lists[k] {
      MergedKeepsOrder(lists, ids, turns, k);
    }
    MergedOwned(parse, jobs, ids, lists, turns);
    OwnedIsValid(parse, reverse, jobs, ids, fs);
  }

  /** What the server makes of a link: serialised, cut into reads, served. */
  method Carry(parse: IpParser, reverse: bool, fs: seq<Frame>, sizes: seq<seq<nat>>, allowed: Network, cs: seq<Choice>)
    returns (n: nat, s: Server, ghost es: seq<Event>)
    requires ValidLink(parse, reverse, fs) && |cs| == |fs|
    ensures StopsAt(fs, allowed, cs, n)
    ensures s == AfterAll(NOBODY, es)
    ensures FramesIn(es) == fs[..n] && BrokenArePrefixes(es) && AllSmooth(cs, fs, Min(n + 1, |fs|), n, es)
  {
    var wire := SendAll(parse, reverse, fs);
    CutUpConserves(wire, sizes);
    var reader := new BufferedReader(CutUp(wire, sizes));
    var w := new ServerWorker(reader, reverse);
    n, es := Serve(w, parse, allowed, cs, fs);
    s := Server(w.sessions, w.outputs);
  }

  /** MUX. Any number of sessions up to the reuse limit, numbered by one manager, each writing
      streams or datagrams and closing or not; their frames interleaved on one link in any way,
      serialised, cut into reads in any way; a server that reads them while sessions close from
      their own side, outputs fail and XUDP flows are not established at will, up to the first
      New frame that it refuses. Every output holds a beginning of what its own writer was
      given, all of it if the session was spared by that: the bytes, and for a session of
      packets the datagrams one by one with their addresses. A spared session is open at the
      end exactly if its writer did not close it. All in the same run. */
  method Deliveries(parse: IpParser, reverse: bool, jobs: seq<Job>, limit: nat, turns: seq<nat>, sizes: seq<seq<nat>>,
                    allowed: Network, choosing: nat -> Choice)
    returns (ids: seq<nat>, lists: seq<seq<Frame>>, fs: seq<Frame>, n: nat, s: Server)
    requires FindsIps(parse) && |jobs| <= limit < 65536 && 0 < limit
    requires forall k :: 0 <= k < |jobs| ==> GoodJob(parse, jobs[k]) && jobs[k].inbound.Some? == reverse
    ensures |ids| == |jobs| && Distinct(ids)
    ensures |lists| == |jobs| && forall k :: 0 <= k < |jobs| ==> Lines(parse, jobs[k], ids[k], lists[k])
    ensures fs == Merged(lists, turns) && StopsAt(fs, allowed, seq(|fs|, choosing), n)
    ensures AllFair(jobs, ids, fs, seq(|fs|, choosing), n, s)
  {
    ids := Number(|jobs|, limit);
    lists := RunJobs(parse, jobs, ids);
    fs := Merged(lists, turns);
    LinkOfJobs(parse, reverse, jobs, ids, lists, turns);
    var cs := seq(|fs|, choosing);
    ghost var es;
    n, s, es := Carry(parse, reverse, fs, sizes, allowed, cs);
    EveryoneIsFair(parse, jobs, ids, lists, fs, cs, n, es);
  }
}
