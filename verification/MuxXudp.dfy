/** The life cycle of XUDP entries (common/mux/server.go, session.go), one event per lock region. */
module MuxXudp {
  import opened Bytes

  // One event is one region that the source runs under XUDPManager's lock or under a
  // session's parent lock, so a list of events is an interleaving of any number of
  // establishers, closers and ticks.

  type GlobalId = seq<byte>

  datatype Status = Initializing | Active | Expiring

  const GRACE := 60

  /** One XUDP object.  `mux` is an index into the sessions ever made. */
  datatype Entry = Entry(gid: GlobalId, status: Status, expire: int, mux: Option<nat>)

  /** How far Session.Close got: `Closing` has set the closed flag and holds the parent's lock. */
  datatype Phase = Open | Closing | Closed

  /** A session; the interim one that only carries a new link has neither entry nor parent. */
  datatype Session = Session(link: nat, parent: Option<nat>, entry: Option<nat>, phase: Phase)

  /** Where a call of xudpEstablish is. */
  datatype Pc =
    | Detaching(x: nat, prev: Option<nat>)
    | Forwarding(x: nat, prev: Option<nat>)
    | Dispatching(x: nat)
    | Finishing(x: nat)
    | Returned

  predicate Owns(p: Pc, x: nat) {
    !p.Returned? && p.x == x
  }

  /** Entries, sessions and calls are numbered in order of creation and never forgotten;
      `table` is XUDPManager.Map. `crashed` records a nil dereference. */
  datatype State = State(table: map<GlobalId, nat>, entries: seq<Entry>, sessions: seq<Session>,
                         threads: seq<Pc>, crashed: bool)

  const INITIAL := State(map[], [], [], [], false)

  datatype Event =
    | Begin(gid: GlobalId)
    | Detach(t: nat)
    | Forward(t: nat, written: bool)
    | DispatchFails(t: nat)
    | DispatchWorks(t: nat, link: nat)
    | Finish(t: nat, parent: nat)
    | CloseStarts(s: nat)
    | CloseEnds(s: nat, now: int)
    | Tick(now: int)

  // -------------------------------------------------------------------------- the steps

  /** The parent's lock is free: no session of that parent is in the middle of Close. */
  predicate LockFree(st: State, parent: nat) {
    forall i :: 0 <= i < |st.sessions| && st.sessions[i].parent == Some(parent) ==> !st.sessions[i].phase.Closing?
  }

  /** oldMux.Close has returned, because the session is closed. */
  predicate CanDetach(st: State, t: nat) {
    && t < |st.threads| && st.threads[t].Detaching?
    && (st.threads[t].prev.Some? && st.threads[t].prev.value < |st.sessions| ==>
          st.sessions[st.threads[t].prev.value].phase.Closed?)
  }

  predicate CanClose(st: State, s: nat) {
    && s < |st.sessions| && st.sessions[s].phase.Open? && st.sessions[s].entry.Some?
    && (st.sessions[s].parent.Some? ==> LockFree(st, st.sessions[s].parent.value))
  }

  predicate Enabled(st: State, e: Event) {
    match e
    case Begin(_) => true
    case Detach(t) => CanDetach(st, t)
    case Forward(t, _) => t < |st.threads| && st.threads[t].Forwarding?
    case DispatchFails(t) => t < |st.threads| && st.threads[t].Dispatching?
    case DispatchWorks(t, _) => t < |st.threads| && st.threads[t].Dispatching?
    case Finish(t, _) => t < |st.threads| && st.threads[t].Finishing?
    case CloseStarts(s) => CanClose(st, s)
    case CloseEnds(s, _) => s < |st.sessions| && st.sessions[s].phase.Closing?
    case Tick(_) => true
  }

  function Crash(st: State): State {
    st.(crashed := true)
  }

  /** The first lock region: find or create the entry, bail out on a conflict, else mark it. */
  function BeginStep(st: State, gid: GlobalId): State {
    if gid !in st.table then
      var x := |st.entries|;
      st.(table := st.table[gid := x], entries := st.entries + [Entry(gid, Initializing, 0, None)],
          threads := st.threads + [Detaching(x, None)])
    else
      var x := st.table[gid];
      if x >= |st.entries| then Crash(st)
      else if st.entries[x].status.Initializing? then st
      else
        st.(entries := st.entries[x := st.entries[x].(status := Initializing)],
            threads := st.threads + [Detaching(x, st.entries[x].mux)])
  }

  /** oldMux.Close has returned; a session without a parent cannot be locked. */
  function DetachStep(st: State, t: nat): State
    requires t < |st.threads| && st.threads[t].Detaching?
  {
    var p := st.threads[t];
    if p.prev.Some? && (p.prev.value >= |st.sessions| || st.sessions[p.prev.value].parent.None?) then Crash(st)
    else st.(threads := st.threads[t := Forwarding(p.x, p.prev)])
  }

  function ForwardStep(st: State, t: nat, written: bool): State
    requires t < |st.threads| && st.threads[t].Forwarding?
  {
    var p := st.threads[t];
    st.(threads := st.threads[t := if p.prev.Some? && written then Finishing(p.x) else Dispatching(p.x)])
  }

  /** Deletes by global id, whatever entry is under it. */
  function DispatchFailsStep(st: State, t: nat): State
    requires t < |st.threads| && st.threads[t].Dispatching?
  {
    var x := st.threads[t].x;
    if x >= |st.entries| then Crash(st)
    else st.(table := st.table - {st.entries[x].gid}, threads := st.threads[t := Returned])
  }

  function DispatchWorksStep(st: State, t: nat, link: nat): State
    requires t < |st.threads| && st.threads[t].Dispatching?
  {
    var x := st.threads[t].x;
    if x >= |st.entries| then Crash(st)
    else
      st.(sessions := st.sessions + [Session(link, None, None, Open)],
          entries := st.entries[x := st.entries[x].(mux := Some(|st.sessions|))],
          threads := st.threads[t := Finishing(x)])
  }

  /** The last lock region reads the input and output of the entry's current Mux. */
  function FinishStep(st: State, t: nat, parent: nat): State
    requires t < |st.threads| && st.threads[t].Finishing?
  {
    var x := st.threads[t].x;
    if x >= |st.entries| || st.entries[x].mux.None? || st.entries[x].mux.value >= |st.sessions| then Crash(st)
    else
      var link := st.sessions[st.entries[x].mux.value].link;
      st.(sessions := st.sessions + [Session(link, Some(parent), Some(x), Open)],
          entries := st.entries[x := st.entries[x].(mux := Some(|st.sessions|), status := Active)],
          threads := st.threads[t := Returned])
  }

  function CloseStartsStep(st: State, s: nat): State
    requires s < |st.sessions|
  {
    if st.sessions[s].parent.None? then Crash(st)
    else st.(sessions := st.sessions[s := st.sessions[s].(phase := Closing)])
  }

  /** Session.Close's XUDP region: looks at the entry's status, not at its Mux. */
  function CloseEndsStep(st: State, s: nat, now: int): State
    requires s < |st.sessions|
  {
    var closed := st.(sessions := st.sessions[s := st.sessions[s].(phase := Closed)]);
    if st.sessions[s].entry.None? then closed
    else if st.sessions[s].entry.value >= |st.entries| then Crash(st)
    else
      var x := st.sessions[s].entry.value;
      if !st.entries[x].status.Active? then closed
      else closed.(entries := st.entries[x := st.entries[x].(status := Expiring, expire := now + GRACE)])
  }

  predicate Due(st: State, now: int, g: GlobalId) {
    g in st.table && st.table[g] < |st.entries| &&
    st.entries[st.table[g]].status.Expiring? && now > st.entries[st.table[g]].expire
  }

  /** The ticker interrupts what it removes through its Mux. */
  function TickStep(st: State, now: int): State {
    if exists g :: g in st.table && Due(st, now, g) && st.entries[st.table[g]].mux.None? then Crash(st)
    else st.(table := map g | g in st.table && !Due(st, now, g) :: st.table[g])
  }

  /** One event; what is not possible now does not happen. */
  function Step(st: State, e: Event): State {
    if !Enabled(st, e) then st
    else
      match e
      case Begin(gid) => BeginStep(st, gid)
      case Detach(t) => DetachStep(st, t)
      case Forward(t, written) => ForwardStep(st, t, written)
      case DispatchFails(t) => DispatchFailsStep(st, t)
      case DispatchWorks(t, link) => DispatchWorksStep(st, t, link)
      case Finish(t, parent) => FinishStep(st, t, parent)
      case CloseStarts(s) => CloseStartsStep(st, s)
      case CloseEnds(s, now) => CloseEndsStep(st, s, now)
      case Tick(now) => TickStep(st, now)
  }

  /** The state after a list of events: as lists range over everything, after any interleaving. */
  function After(st: State, es: seq<Event>): State
    decreases |es|
  {
    if es == [] then st else After(Step(st, es[0]), es[1..])
  }

  // ---------------------------------------------------------------------- the invariant

  /** Every session made for entry `x` has been closed completely. */
  predicate AllClosed(st: State, x: nat) {
    forall i :: 0 <= i < |st.sessions| && st.sessions[i].entry == Some(x) ==> st.sessions[i].phase.Closed?
  }

  /** `m` is a session made for entry `x`, with a parent to lock. */
  predicate MuxOf(st: State, x: nat, m: Option<nat>) {
    m.Some? && m.value < |st.sessions| && st.sessions[m.value].entry == Some(x) && st.sessions[m.value].parent.Some?
  }

  /** Entry `x` is the one under its own global id. */
  predicate Listed(st: State, x: nat) {
    x < |st.entries| && st.entries[x].gid in st.table && st.table[st.entries[x].gid] == x
  }

  /** An Active entry is listed and its session is not closed yet; an Expiring entry's is. */
  predicate EntryOk(st: State, x: nat)
    requires x < |st.entries|
  {
    var e := st.entries[x];
    e.status.Initializing? ||
    (&& MuxOf(st, x, e.mux)
     && (e.status.Active? <==> !st.sessions[e.mux.value].phase.Closed?)
     && (e.status.Active? ==> Listed(st, x)))
  }

  /** A session that can still reach its entry is the entry's current Mux. */
  predicate SessionOk(st: State, s: nat)
    requires s < |st.sessions|
  {
    var n := st.sessions[s];
    && (n.entry.Some? ==> n.parent.Some? && n.entry.value < |st.entries|)
    && (n.entry.Some? && !n.phase.Closed? ==> st.entries[n.entry.value].mux == Some(s))
    && (n.entry.None? ==> n.phase.Open?)
  }

  predicate ThreadOk(st: State, t: nat)
    requires t < |st.threads|
  {
    var p := st.threads[t];
    p.Returned? ||
    (&& Listed(st, p.x)
     && st.entries[p.x].status.Initializing?
     && (p.Detaching? ==> st.entries[p.x].mux == p.prev && (p.prev.Some? ==> MuxOf(st, p.x, p.prev)))
     && (p.Forwarding? ==> st.entries[p.x].mux == p.prev && (p.prev.Some? ==> MuxOf(st, p.x, p.prev)))
     && (p.Forwarding? || p.Dispatching? || p.Finishing? ==> AllClosed(st, p.x))
     && (p.Finishing? ==> st.entries[p.x].mux.Some? && st.entries[p.x].mux.value < |st.sessions|))
  }

  /** An entry in the table under its own id, and being established only by someone. */
  predicate KeyOk(st: State, g: GlobalId)
    requires g in st.table
  {
    && st.table[g] < |st.entries|
    && st.entries[st.table[g]].gid == g
    && (st.entries[st.table[g]].status.Initializing? ==>
          exists t :: 0 <= t < |st.threads| && Owns(st.threads[t], st.table[g]))
  }

  predicate OneOwner(st: State) {
    forall t, u :: 0 <= t < u < |st.threads| && !st.threads[t].Returned? ==> !Owns(st.threads[u], st.threads[t].x)
  }

  predicate Inv(st: State) {
    && !st.crashed
    && (forall x :: 0 <= x < |st.entries| ==> EntryOk(st, x))
    && (forall s :: 0 <= s < |st.sessions| ==> SessionOk(st, s))
    && (forall t :: 0 <= t < |st.threads| ==> ThreadOk(st, t))
    && (forall g :: g in st.table ==> KeyOk(st, g))
    && OneOwner(st)
  }

  // -------------------------------------------------------------------- every step keeps it

  lemma {:induction false} BeginNewKeeps(st: State, gid: GlobalId)
    requires Inv(st) && gid !in st.table
    ensures Inv(BeginStep(st, gid))
  {
    var st' := BeginStep(st, gid);
    var n, x := |st.threads|, |st.entries|;
    forall t | 0 <= t < n ensures ThreadOk(st', t) && !Owns(st'.threads[t], x) {
      assert ThreadOk(st, t);
    }
    assert ThreadOk(st', n) && Owns(st'.threads[n], x);
    forall y | 0 <= y <= x ensures EntryOk(st', y) {
      assert y < x ==> EntryOk(st, y);
    }
    forall s | 0 <= s < |st.sessions| ensures SessionOk(st', s) {
      assert SessionOk(st, s);
    }
    forall g | g in st.table ensures KeyOk(st', g) {
      KeyKept(st, st', g);
    }
  }

  lemma {:induction false} BeginAgainKeeps(st: State, gid: GlobalId)
    requires Inv(st) && gid in st.table
    ensures Inv(BeginStep(st, gid))
  {
    var st' := BeginStep(st, gid);
    var n, x := |st.threads|, st.table[gid];
    assert KeyOk(st, gid) && EntryOk(st, x);
    if !st.entries[x].status.Initializing? {
      forall t | 0 <= t < n ensures ThreadOk(st', t) && !Owns(st'.threads[t], x) {
        assert ThreadOk(st, t);
      }
      assert ThreadOk(st', n) && Owns(st'.threads[n], x);
      forall y | 0 <= y < |st.entries| ensures EntryOk(st', y) {
        assert EntryOk(st, y);
      }
      forall s | 0 <= s < |st.sessions| ensures SessionOk(st', s) {
        assert SessionOk(st, s);
      }
      forall g | g in st.table && g != gid ensures KeyOk(st', g) {
        assert KeyOk(st, g);
        KeyKept(st, st', g);
      }
    }
  }

  /** Calls of xudpEstablish that only move on. */
  lemma {:induction false} MoveKeeps(st: State, t: nat, p: Pc)
    requires Inv(st) && t < |st.threads| && !st.threads[t].Returned? && Owns(p, st.threads[t].x)
    requires ThreadOk(st.(threads := st.threads[t := p]), t)
    ensures Inv(st.(threads := st.threads[t := p]))
  {
    var st' := st.(threads := st.threads[t := p]);
    forall u | 0 <= u < |st.threads| ensures ThreadOk(st', u) {
      assert ThreadOk(st, u);
    }
    forall y | 0 <= y < |st.entries| ensures EntryOk(st', y) {
      assert EntryOk(st, y);
    }
    forall s | 0 <= s < |st.sessions| ensures SessionOk(st', s) {
      assert SessionOk(st, s);
    }
    forall g | g in st.table ensures KeyOk(st', g) {
      KeyKept(st, st', g);
    }
  }

  /** Once the previous Mux is closed, no session of the entry can reach it any more. */
  lemma {:induction false} DetachKeeps(st: State, t: nat)
    requires Inv(st) && CanDetach(st, t)
    ensures Inv(DetachStep(st, t))
  {
    var p := st.threads[t];
    assert ThreadOk(st, t);
    forall i | 0 <= i < |st.sessions| && st.sessions[i].entry == Some(p.x) ensures st.sessions[i].phase.Closed? {
      assert SessionOk(st, i);
    }
    MoveKeeps(st, t, Forwarding(p.x, p.prev));
  }

  lemma {:induction false} ForwardKeeps(st: State, t: nat, written: bool)
    requires Inv(st) && t < |st.threads| && st.threads[t].Forwarding?
    ensures Inv(ForwardStep(st, t, written))
  {
    var p := st.threads[t];
    assert ThreadOk(st, t);
    MoveKeeps(st, t, if p.prev.Some? && written then Finishing(p.x) else Dispatching(p.x));
  }

  lemma {:induction false} DispatchFailsKeeps(st: State, t: nat)
    requires Inv(st) && t < |st.threads| && st.threads[t].Dispatching?
    ensures Inv(DispatchFailsStep(st, t))
  {
    var st' := DispatchFailsStep(st, t);
    assert ThreadOk(st, t);
    forall u | 0 <= u < |st.threads| ensures ThreadOk(st', u) {
      assert ThreadOk(st, u);
    }
    forall y | 0 <= y < |st.entries| ensures EntryOk(st', y) {
      assert EntryOk(st, y);
    }
    forall s | 0 <= s < |st.sessions| ensures SessionOk(st', s) {
      assert SessionOk(st, s);
    }
    forall g | g in st'.table ensures KeyOk(st', g) {
      assert KeyOk(st, g);
      KeyKept(st, st', g);
    }
  }

  lemma {:induction false} DispatchWorksKeeps(st: State, t: nat, link: nat)
    requires Inv(st) && t < |st.threads| && st.threads[t].Dispatching?
    ensures Inv(DispatchWorksStep(st, t, link))
  {
    var st' := DispatchWorksStep(st, t, link);
    assert ThreadOk(st, t);
    forall u | 0 <= u < |st.threads| ensures ThreadOk(st', u) {
      assert ThreadOk(st, u);
    }
    forall y | 0 <= y < |st.entries| ensures EntryOk(st', y) {
      assert EntryOk(st, y);
    }
    forall s | 0 <= s < |st'.sessions| ensures SessionOk(st', s) {
      assert s < |st.sessions| ==> SessionOk(st, s);
    }
    forall g | g in st'.table ensures KeyOk(st', g) {
      assert KeyOk(st, g);
      KeyKept(st, st', g);
    }
  }

  lemma {:induction false} FinishKeeps(st: State, t: nat, parent: nat)
    requires Inv(st) && t < |st.threads| && st.threads[t].Finishing?
    ensures Inv(FinishStep(st, t, parent))
  {
    var st' := FinishStep(st, t, parent);
    assert ThreadOk(st, t);
    forall u | 0 <= u < |st.threads| ensures ThreadOk(st', u) {
      assert ThreadOk(st, u);
    }
    forall y | 0 <= y < |st.entries| ensures EntryOk(st', y) {
      assert EntryOk(st, y);
    }
    forall s | 0 <= s < |st'.sessions| ensures SessionOk(st', s) {
      assert s < |st.sessions| ==> SessionOk(st, s);
    }
    forall g | g in st'.table ensures KeyOk(st', g) {
      assert KeyOk(st, g);
      KeyKept(st, st', g);
    }
  }

  lemma {:induction false} CloseStartsKeeps(st: State, s: nat)
    requires Inv(st) && CanClose(st, s)
    ensures Inv(CloseStartsStep(st, s))
  {
    var st' := CloseStartsStep(st, s);
    assert SessionOk(st, s);
    forall u | 0 <= u < |st.threads| ensures ThreadOk(st', u) {
      assert ThreadOk(st, u);
    }
    forall y | 0 <= y < |st.entries| ensures EntryOk(st', y) {
      assert EntryOk(st, y);
    }
    forall i | 0 <= i < |st.sessions| ensures SessionOk(st', i) {
      assert SessionOk(st, i);
    }
    forall g | g in st.table ensures KeyOk(st', g) {
      KeyKept(st, st', g);
    }
  }

  lemma {:induction false} CloseEndsKeeps(st: State, s: nat, now: int)
    requires Inv(st) && s < |st.sessions| && st.sessions[s].phase.Closing?
    ensures Inv(CloseEndsStep(st, s, now))
  {
    var st' := CloseEndsStep(st, s, now);
    assert SessionOk(st, s);
    forall u | 0 <= u < |st.threads| ensures ThreadOk(st', u) {
      assert ThreadOk(st, u);
    }
    forall y | 0 <= y < |st.entries| ensures EntryOk(st', y) {
      assert EntryOk(st, y);
    }
    forall i | 0 <= i < |st.sessions| ensures SessionOk(st', i) {
      assert SessionOk(st, i);
    }
    forall g | g in st.table ensures KeyOk(st', g) {
      assert KeyOk(st, g);
      KeyKept(st, st', g);
    }
  }

  lemma {:induction false} TickKeeps(st: State, now: int)
    requires Inv(st)
    ensures Inv(TickStep(st, now))
  {
    forall g | g in st.table ensures Due(st, now, g) ==> st.entries[st.table[g]].mux.Some? {
      assert KeyOk(st, g) && EntryOk(st, st.table[g]);
    }
    var st' := TickStep(st, now);
    forall u | 0 <= u < |st.threads| ensures ThreadOk(st', u) {
      assert ThreadOk(st, u);
    }
    forall y | 0 <= y < |st.entries| ensures EntryOk(st', y) {
      assert EntryOk(st, y);
    }
    forall s | 0 <= s < |st.sessions| ensures SessionOk(st', s) {
      assert SessionOk(st, s);
    }
    forall g | g in st'.table ensures KeyOk(st', g) {
      KeyKept(st, st', g);
    }
  }

  lemma {:induction false} StepKeeps(st: State, e: Event)
    requires Inv(st)
    ensures Inv(Step(st, e))
  {
    if !Enabled(st, e) {
      return;
    }
    match e
    case Begin(gid) => if gid in st.table { BeginAgainKeeps(st, gid); } else { BeginNewKeeps(st, gid); }
    case Detach(t) => DetachKeeps(st, t);
    case Forward(t, written) => ForwardKeeps(st, t, written);
    case DispatchFails(t) => DispatchFailsKeeps(st, t);
    case DispatchWorks(t, link) => DispatchWorksKeeps(st, t, link);
    case Finish(t, parent) => FinishKeeps(st, t, parent);
    case CloseStarts(s) => CloseStartsKeeps(st, s);
    case CloseEnds(s, now) => CloseEndsKeeps(st, s, now);
    case Tick(now) => TickKeeps(st, now);
  }

  lemma {:induction false} RunKeeps(st: State, es: seq<Event>)
    requires Inv(st)
    ensures Inv(After(st, es))
    decreases |es|
  {
    if es != [] {
      StepKeeps(st, es[0]);
      RunKeeps(Step(st, es[0]), es[1..]);
    }
  }

  /** A key keeps its owner when no thread lets go of the entry. */
  lemma {:induction false} KeyKept(st: State, st': State, g: GlobalId)
    requires g in st.table && KeyOk(st, g) && g in st'.table && st'.table[g] == st.table[g]
    requires |st.entries| <= |st'.entries| && |st.threads| <= |st'.threads|
    requires st'.entries[st.table[g]].gid == st.entries[st.table[g]].gid
    requires st'.entries[st.table[g]].status.Initializing? ==>
      st.entries[st.table[g]].status.Initializing? &&
      forall t :: 0 <= t < |st.threads| && Owns(st.threads[t], st.table[g]) ==> Owns(st'.threads[t], st.table[g])
    ensures KeyOk(st', g)
  {
    if st'.entries[st.table[g]].status.Initializing? {
      var t :| 0 <= t < |st.threads| && Owns(st.threads[t], st.table[g]);
      assert Owns(st'.threads[t], st.table[g]);
    }
  }

  // ------------------------------------------------------------------------ what follows

  /** EXCLUSION. In every interleaving nothing nil is dereferenced, an entry under a global id
      is Initializing exactly while one call of xudpEstablish is at work on it, that call is
      alone, and an Active or Expiring entry has a Mux that is its own. */
  lemma {:induction false} Exclusion(es: seq<Event>, g: GlobalId)
    ensures var st := After(INITIAL, es);
      && !st.crashed
      && (g in st.table ==>
            var x := st.table[g];
            && x < |st.entries| && st.entries[x].gid == g
            && (st.entries[x].status.Initializing? <==> exists t :: 0 <= t < |st.threads| && Owns(st.threads[t], x))
            && (forall t, u :: 0 <= t < u < |st.threads| && Owns(st.threads[t], x) ==> !Owns(st.threads[u], x))
            && (!st.entries[x].status.Initializing? ==> MuxOf(st, x, st.entries[x].mux)))
  {
    RunKeeps(INITIAL, es);
    var st := After(INITIAL, es);
    if g in st.table {
      var x := st.table[g];
      assert KeyOk(st, g) && EntryOk(st, x);
      forall t | 0 <= t < |st.threads| && Owns(st.threads[t], x) ensures st.entries[x].status.Initializing? {
        assert ThreadOk(st, t);
      }
    }
  }

  /** EVERY CALL STARTS. In every interleaving a call of xudpEstablish finds another one at work on
      its entry and does nothing, or is at work itself: on the entry under its global id, with
      that entry's Mux to detach from, or on a new entry without one. */
  lemma {:induction false} CallStarts(es: seq<Event>, g: GlobalId)
    ensures var st := After(INITIAL, es); var st' := Step(st, Begin(g));
      if exists t :: 0 <= t < |st.threads| && !st.threads[t].Returned? && Serves(st, t, g) then st' == st
      else
        && g in st'.table && st'.table[g] < |st'.entries| && st'.sessions == st.sessions
        && var x := st'.table[g];
           && st'.entries[x].status.Initializing?
           && (if g in st.table then x == st.table[g] && st'.threads == st.threads + [Detaching(x, st.entries[x].mux)]
               else x == |st.entries| && st'.threads == st.threads + [Detaching(x, None)])
  {
    RunKeeps(INITIAL, es);
    var st := After(INITIAL, es);
    if g in st.table {
      assert KeyOk(st, g);
      if st.entries[st.table[g]].status.Initializing? {
        var t :| 0 <= t < |st.threads| && Owns(st.threads[t], st.table[g]);
        assert Serves(st, t, g);
      }
    }
    forall t | 0 <= t < |st.threads| && !st.threads[t].Returned? && Serves(st, t, g)
      ensures g in st.table && st.entries[st.table[g]].status.Initializing?
    {
      assert ThreadOk(st, t);
    }
  }

  /** Call `t` is at work for global id `g`. */
  predicate Serves(st: State, t: nat, g: GlobalId)
    requires t < |st.threads|
  {
    !st.threads[t].Returned? && st.threads[t].x < |st.entries| && st.entries[st.threads[t].x].gid == g
  }

  lemma {:induction false} ActiveStep(st: State, e: Event, x: nat)
    requires Inv(st) && x < |st.entries| && st.entries[x].status.Active?
    ensures var st' := Step(st, e);
      && x < |st'.entries|
      && (st'.entries[x].status.Expiring? <==> Enabled(st, e) && e.CloseEnds? && st.entries[x].mux == Some(e.s))
      && (st'.entries[x].status.Expiring? ==> st'.entries[x].expire == e.now + 60)
  {
    assert EntryOk(st, x);
    forall t | 0 <= t < |st.threads| ensures !Owns(st.threads[t], x) {
      assert ThreadOk(st, t);
    }
    if e.CloseEnds? && Enabled(st, e) {
      assert SessionOk(st, e.s);
    } else if e.Begin? && e.gid in st.table {
      assert KeyOk(st, e.gid);
    }
  }

  /** Only the end of Close of the entry's current Mux turns Active into Expiring, and it
      always does, although the source looks at the status alone. */
  lemma {:induction false} OnlyCurrentMuxExpires(es: seq<Event>, e: Event, x: nat)
    ensures var st := After(INITIAL, es); var st' := Step(st, e);
      x < |st.entries| && st.entries[x].status.Active? ==>
        && x < |st'.entries|
        && (st'.entries[x].status.Expiring? <==> Enabled(st, e) && e.CloseEnds? && st.entries[x].mux == Some(e.s))
        && (st'.entries[x].status.Expiring? ==> st'.entries[x].expire == e.now + 60)
  {
    RunKeeps(INITIAL, es);
    var st := After(INITIAL, es);
    if x < |st.entries| && st.entries[x].status.Active? {
      ActiveStep(st, e, x);
    }
  }

  lemma {:induction false} ExpiringIsClosed(st: State, x: nat)
    requires Inv(st) && x < |st.entries| && st.entries[x].status.Expiring?
    ensures AllClosed(st, x) && forall t :: 0 <= t < |st.threads| ==> !Owns(st.threads[t], x)
  {
    assert EntryOk(st, x);
    forall t | 0 <= t < |st.threads| ensures !Owns(st.threads[t], x) {
      assert ThreadOk(st, t);
    }
    forall i | 0 <= i < |st.sessions| && st.sessions[i].entry == Some(x) ensures st.sessions[i].phase.Closed? {
      assert SessionOk(st, i);
    }
  }

  /** The ticker removes exactly the expired entries, each with its sessions closed, and never
      one that is being established. */
  lemma {:induction false} TickerSpares(es: seq<Event>, now: int, g: GlobalId)
    ensures var st := After(INITIAL, es); var st' := TickStep(st, now);
      && (g in st'.table ==> g in st.table && st'.table[g] == st.table[g])
      && (g in st.table ==>
            var x := st.table[g];
            && x < |st.entries|
            && (g !in st'.table <==> st.entries[x].status.Expiring? && now > st.entries[x].expire)
            && (g !in st'.table ==> AllClosed(st, x) && forall t :: 0 <= t < |st.threads| ==> !Owns(st.threads[t], x)))
  {
    RunKeeps(INITIAL, es);
    var st := After(INITIAL, es);
    TickKeeps(st, now);
    if g in st.table {
      var x := st.table[g];
      assert KeyOk(st, g);
      if st.entries[x].status.Expiring? {
        ExpiringIsClosed(st, x);
      }
    }
  }

  /** A failed dispatch deletes by global id; that always removes the caller's own entry. */
  lemma {:induction false} FailureRemovesOwnEntry(es: seq<Event>, t: nat)
    ensures var st := After(INITIAL, es);
      t < |st.threads| && st.threads[t].Dispatching? ==>
        Listed(st, st.threads[t].x) && Step(st, DispatchFails(t)).table == st.table - {st.entries[st.threads[t].x].gid}
  {
    RunKeeps(INITIAL, es);
    var st := After(INITIAL, es);
    if t < |st.threads| && st.threads[t].Dispatching? {
      assert ThreadOk(st, t);
    }
  }

  // ----------------------------------------------------------- every call can go on

  /** A region of call `t` itself. */
  predicate OwnRegion(e: Event, t: nat) {
    match e
    case Detach(u) => u == t
    case Forward(u, _) => u == t
    case DispatchFails(u) => u == t
    case DispatchWorks(u, _) => u == t
    case Finish(u, _) => u == t
    case _ => false
  }

  /** What call `t` waits for: its own next region, the Close of the Mux it replaces, or a
      Close that holds the lock of that Mux's parent. */
  predicate Helps(st: State, t: nat, e: Event)
    requires t < |st.threads|
  {
    var p := st.threads[t];
    || OwnRegion(e, t)
    || (p.Detaching? && p.prev.Some? && p.prev.value < |st.sessions| &&
        match e
        case CloseStarts(s) => s == p.prev.value
        case CloseEnds(s, _) =>
          s < |st.sessions| && (s == p.prev.value || st.sessions[s].parent == st.sessions[p.prev.value].parent)
        case _ => false)
  }

  /** Two sessions of one parent are never in the middle of Close together. */
  predicate OneCloser(st: State) {
    forall i, j :: 0 <= i < j < |st.sessions| && st.sessions[i].parent.Some? &&
                   st.sessions[i].parent == st.sessions[j].parent && st.sessions[i].phase.Closing? ==>
      !st.sessions[j].phase.Closing?
  }

  lemma {:induction false} StepOneCloser(st: State, e: Event)
    requires OneCloser(st)
    ensures OneCloser(Step(st, e))
  {
  }

  lemma {:induction false} RunOneCloser(st: State, es: seq<Event>)
    requires OneCloser(st)
    ensures OneCloser(After(st, es))
    decreases |es|
  {
    if es != [] {
      StepOneCloser(st, es[0]);
      RunOneCloser(Step(st, es[0]), es[1..]);
    }
  }

  /** How many regions are at most to come before session `s` is closed and call `t`, which
      waits for it, returns. */
  function CloseRank(st: State, s: nat): nat
    requires s < |st.sessions|
  {
    match st.sessions[s].phase
    case Closed => 3
    case Closing => 4
    case Open => if st.sessions[s].parent.Some? && !LockFree(st, st.sessions[s].parent.value) then 6 else 5
  }

  function Rank(st: State, t: nat): (n: nat)
    requires t < |st.threads|
    ensures n <= 6 && (n == 0 <==> st.threads[t].Returned?)
  {
    match st.threads[t]
    case Returned => 0
    case Dispatching(_) => 1
    case Finishing(_) => 1
    case Forwarding(_, _) => 2
    case Detaching(_, prev) =>
      if prev.None? || |st.sessions| <= prev.value then 3 else CloseRank(st, prev.value)
  }

  /** The lock of the previous Mux's parent is held by the Close of another session. */
  lemma {:induction false} FreeLock(st: State, s: nat) returns (i: nat)
    requires Inv(st) && OneCloser(st) && s < |st.sessions| && st.sessions[s].phase.Open?
    requires st.sessions[s].parent.Some? && !LockFree(st, st.sessions[s].parent.value)
    ensures i < |st.sessions| && st.sessions[i].phase.Closing? && st.sessions[i].parent == st.sessions[s].parent
    ensures var st' := Step(st, CloseEnds(i, 0));
            st'.threads == st.threads && |st'.sessions| == |st.sessions| && CloseRank(st', s) == 5
  {
    i :| 0 <= i < |st.sessions| && st.sessions[i].parent == st.sessions[s].parent && st.sessions[i].phase.Closing?;
    assert SessionOk(st, i);
    var st' := Step(st, CloseEnds(i, 0));
    assert st'.sessions == st.sessions[i := st.sessions[i].(phase := Closed)];
  }

  lemma {:induction false} NextRegion(st: State, t: nat) returns (e: Event)
    requires Inv(st) && OneCloser(st) && t < |st.threads| && !st.threads[t].Returned?
    ensures Helps(st, t, e) && Enabled(st, e)
    ensures t < |Step(st, e).threads| && Rank(Step(st, e), t) < Rank(st, t)
  {
    var p := st.threads[t];
    assert ThreadOk(st, t);
    if p.Forwarding? {
      e := Forward(t, true);
    } else if p.Dispatching? {
      e := DispatchFails(t);
    } else if p.Finishing? {
      e := Finish(t, 0);
    } else if p.prev.None? || st.sessions[p.prev.value].phase.Closed? {
      e := Detach(t);
    } else if st.sessions[p.prev.value].phase.Closing? {
      e := CloseEnds(p.prev.value, 0);
      assert SessionOk(st, p.prev.value);
    } else if LockFree(st, st.sessions[p.prev.value].parent.value) {
      e := CloseStarts(p.prev.value);
    } else {
      var i := FreeLock(st, p.prev.value);
      e := CloseEnds(i, 0);
    }
  }

  /** NO DEADLOCK. In every reachable state, for every call of xudpEstablish that has not
      returned, a region of that very call, or of a Close it waits for, can run, and it brings
      the call nearer to its return. */
  lemma {:induction false} NoDeadlock(es: seq<Event>, t: nat)
    ensures var st := After(INITIAL, es);
      t < |st.threads| && !st.threads[t].Returned? ==>
        exists e :: Helps(st, t, e) && Enabled(st, e)
                    && t < |Step(st, e).threads| && Rank(Step(st, e), t) < Rank(st, t)
  {
    RunKeeps(INITIAL, es);
    RunOneCloser(INITIAL, es);
    var st := After(INITIAL, es);
    if t < |st.threads| && !st.threads[t].Returned? {
      var e := NextRegion(st, t);
    }
  }

  /** Every event of `es` can run when its turn comes, and helps call `t`. */
  predicate HelpsAll(st: State, t: nat, es: seq<Event>)
    decreases |es|
  {
    es == [] ||
    (t < |st.threads| && Helps(st, t, es[0]) && Enabled(st, es[0]) && HelpsAll(Step(st, es[0]), t, es[1..]))
  }

  lemma {:induction false} CompleteCall(st: State, t: nat) returns (es: seq<Event>)
    requires Inv(st) && OneCloser(st) && t < |st.threads|
    ensures HelpsAll(st, t, es) && |es| <= Rank(st, t)
    ensures t < |After(st, es).threads| && After(st, es).threads[t].Returned?
    decreases Rank(st, t)
  {
    if st.threads[t].Returned? {
      es := [];
    } else {
      var e := NextRegion(st, t);
      StepKeeps(st, e);
      StepOneCloser(st, e);
      var rest := CompleteCall(Step(st, e), t);
      es := [e] + rest;
      assert es[0] == e && es[1..] == rest;
    }
  }

  /** From every reachable state every call returns after at most six of those regions, with
      nobody else's help. */
  lemma {:induction false} EveryCallCanReturn(es: seq<Event>, t: nat)
    ensures var st := After(INITIAL, es);
      t < |st.threads| ==>
        exists more :: HelpsAll(st, t, more) && |more| <= 6
                       && t < |After(st, more).threads| && After(st, more).threads[t].Returned?
  {
    RunKeeps(INITIAL, es);
    RunOneCloser(INITIAL, es);
    if t < |After(INITIAL, es).threads| {
      var more := CompleteCall(After(INITIAL, es), t);
    }
  }

  /** Nobody comes back for `g`, and no tick is later than `deadline`. */
  predicate Quiet(es: seq<Event>, g: GlobalId, deadline: int) {
    forall i :: 0 <= i < |es| ==> (es[i].Begin? ==> es[i].gid != g) && (es[i].Tick? ==> es[i].now <= deadline)
  }

  /** Entry `x` waits, in the table, for its client until `deadline`. */
  predicate Waits(st: State, x: nat, deadline: int) {
    Listed(st, x) && st.entries[x].status.Expiring? && st.entries[x].expire == deadline
  }

  lemma {:induction false} GraceStep(st: State, e: Event, x: nat, deadline: int)
    requires Inv(st) && Waits(st, x, deadline)
    requires e.Begin? ==> e.gid != st.entries[x].gid
    requires e.Tick? ==> e.now <= deadline
    ensures var st' := Step(st, e); Waits(st', x, deadline) && st'.entries[x] == st.entries[x]
  {
    StepKeeps(st, e);
    ExpiringIsClosed(st, x);
    forall t | 0 <= t < |st.threads| && !st.threads[t].Returned?
      ensures Listed(st, st.threads[t].x) && st.entries[st.threads[t].x].gid != st.entries[x].gid
    {
      assert ThreadOk(st, t);
    }
    if e.CloseEnds? && Enabled(st, e) {
      assert SessionOk(st, e.s);
    } else if e.Begin? && e.gid in st.table {
      assert KeyOk(st, e.gid);
    }
  }

  lemma {:induction false} GraceKept(st: State, es: seq<Event>, x: nat, deadline: int)
    requires Inv(st) && Waits(st, x, deadline) && Quiet(es, st.entries[x].gid, deadline)
    ensures Waits(After(st, es), x, deadline) && After(st, es).entries[x] == st.entries[x]
    decreases |es|
  {
    if es != [] {
      GraceStep(st, es[0], x, deadline);
      StepKeeps(st, es[0]);
      assert forall i :: 0 <= i < |es[1..]| ==> es[1..][i] == es[i + 1];
      GraceKept(Step(st, es[0]), es[1..], x, deadline);
    }
  }

  /** A client that returns within a minute of its session's close gets that very session to
      take over from, whatever else happened in between. */
  lemma {:induction false} ReturnWithinGrace(es: seq<Event>, s: nat, now: int, es': seq<Event>, x: nat)
    ensures var st := After(INITIAL, es);
      (&& s < |st.sessions| && st.sessions[s].phase.Closing? && st.sessions[s].entry == Some(x)
       && x < |st.entries| && st.entries[x].status.Active? && Quiet(es', st.entries[x].gid, now + 60)) ==>
        var back := After(Step(st, CloseEnds(s, now)), es');
        Step(back, Begin(st.entries[x].gid)).threads == back.threads + [Detaching(x, Some(s))]
  {
    RunKeeps(INITIAL, es);
    var st := After(INITIAL, es);
    if && s < |st.sessions| && st.sessions[s].phase.Closing? && st.sessions[s].entry == Some(x)
       && x < |st.entries| && st.entries[x].status.Active? && Quiet(es', st.entries[x].gid, now + GRACE)
    {
      ActiveStep(st, CloseEnds(s, now), x);
      assert SessionOk(st, s) && EntryOk(st, x);
      CloseEndsKeeps(st, s, now);
      GraceKept(Step(st, CloseEnds(s, now)), es', x, now + GRACE);
    }
  }
}
