/** Which link an XUDP session ends up with (common/mux/server.go). */
module MuxXudpLinks {
  import opened Bytes
  import opened MuxXudp

  /** None of the events is a region of call `t`. */
  predicate Avoids(es: seq<Event>, t: nat) {
    forall i :: 0 <= i < |es| ==> !OwnRegion(es[i], t)
  }

  /** Whatever happens, links stay with their sessions. */
  predicate SameLinks(st: State, st': State) {
    && |st.sessions| <= |st'.sessions|
    && forall i :: 0 <= i < |st.sessions| ==> st'.sessions[i].link == st.sessions[i].link
  }

  lemma {:induction false} StepLinks(st: State, e: Event)
    ensures SameLinks(st, Step(st, e))
  {
  }

  /** Nobody but the call itself touches it, or the Mux of the entry it is establishing. */
  predicate Kept(st: State, st': State, t: nat)
    requires t < |st.threads|
  {
    && |st.threads| <= |st'.threads| && st'.threads[t] == st.threads[t] && SameLinks(st, st')
    && (!st.threads[t].Returned? && st.threads[t].x < |st.entries| ==>
          && |st.entries| <= |st'.entries|
          && st'.entries[st.threads[t].x].mux == st.entries[st.threads[t].x].mux)
  }

  lemma {:induction false} OthersKeep(st: State, e: Event, t: nat)
    requires Inv(st) && t < |st.threads| && !OwnRegion(e, t)
    ensures Kept(st, Step(st, e), t)
  {
    assert ThreadOk(st, t);
    StepLinks(st, e);
    if !st.threads[t].Returned? {
      assert forall u :: 0 <= u < |st.threads| && u != t ==> !Owns(st.threads[u], st.threads[t].x);
    }
  }

  lemma {:induction false} OthersKeepAll(st: State, es: seq<Event>, t: nat)
    requires Inv(st) && t < |st.threads| && Avoids(es, t)
    ensures Inv(After(st, es)) && Kept(st, After(st, es), t)
    decreases |es|
  {
    if es != [] {
      OthersKeep(st, es[0], t);
      StepKeeps(st, es[0]);
      assert ThreadOk(st, t);
      assert forall i :: 0 <= i < |es[1..]| ==> es[1..][i] == es[i + 1];
      OthersKeepAll(Step(st, es[0]), es[1..], t);
    }
  }

  /** Call `t` has returned with a new session for entry `x`, Active and with this link. */
  predicate Installed(st: State, st': State, t: nat, x: nat, parent: nat, link: nat) {
    && t < |st'.threads| && st'.threads[t].Returned? && x < |st'.entries|
    && st'.sessions == st.sessions + [Session(link, Some(parent), Some(x), Open)]
    && st'.entries[x].mux == Some(|st.sessions|) && st'.entries[x].status.Active?
  }

  /** What Finish installs, if the entry's Mux has stayed `m` since the call came to `Finishing`. */
  lemma {:induction false} FinishInstalls(st: State, es: seq<Event>, t: nat, parent: nat)
    requires Inv(st) && t < |st.threads| && st.threads[t].Finishing? && Avoids(es, t)
    ensures ThreadOk(st, t)
    ensures var x, mid := st.threads[t].x, After(st, es);
            && Inv(mid) && t < |mid.threads| && mid.threads[t] == Finishing(x)
            && Installed(mid, Step(mid, Finish(t, parent)), t, x, parent, st.sessions[st.entries[x].mux.value].link)
  {
    assert ThreadOk(st, t);
    OthersKeepAll(st, es, t);
  }

  /** The datagram was written to the previous link. */
  lemma {:induction false} WrittenKeeps(st: State, t: nat, es: seq<Event>, parent: nat)
    requires Inv(st) && t < |st.threads| && st.threads[t].Forwarding? && st.threads[t].prev.Some? && Avoids(es, t)
    ensures ThreadOk(st, t)
    ensures var x, m, mid := st.threads[t].x, st.threads[t].prev.value, After(Step(st, Forward(t, true)), es);
            && t < |mid.threads| && mid.threads[t] == Finishing(x)
            && Installed(mid, Step(mid, Finish(t, parent)), t, x, parent, st.sessions[m].link)
  {
    assert ThreadOk(st, t);
    StepKeeps(st, Forward(t, true));
    FinishInstalls(Step(st, Forward(t, true)), es, t, parent);
  }

  /** It was not, or there is no previous link. */
  lemma {:induction false} OthersDispatch(st: State, t: nat, written: bool, a: seq<Event>, link: nat, b: seq<Event>,
                                          parent: nat)
    requires Inv(st) && t < |st.threads| && st.threads[t].Forwarding? && Avoids(a, t) && Avoids(b, t)
    requires !written || st.threads[t].prev.None?
    ensures var x, mid := st.threads[t].x, After(Step(st, Forward(t, written)), a);
            && t < |mid.threads| && mid.threads[t] == Dispatching(x)
            && Step(mid, DispatchFails(t)).sessions == mid.sessions
            && var fin := After(Step(mid, DispatchWorks(t, link)), b);
               Installed(fin, Step(fin, Finish(t, parent)), t, x, parent, link)
  {
    assert ThreadOk(st, t);
    StepKeeps(st, Forward(t, written));
    OthersKeepAll(Step(st, Forward(t, written)), a, t);
    var mid := After(Step(st, Forward(t, written)), a);
    assert ThreadOk(mid, t);
    StepKeeps(mid, DispatchWorks(t, link));
    FinishInstalls(Step(mid, DispatchWorks(t, link)), b, t, parent);
  }

  /** THE LINK. In every run, with anything in between: a call whose datagram was written to the
      previous Mux's link does not dispatch, and the Mux it installs has that link; any other call
      dispatches, and the Mux it installs has the link of its own dispatch. */
  lemma {:induction false} LinkOfCall(es: seq<Event>, t: nat, written: bool, a: seq<Event>, link: nat, b: seq<Event>,
                                      parent: nat)
    requires Avoids(a, t) && Avoids(b, t)
    ensures var st := After(INITIAL, es);
            t < |st.threads| && st.threads[t].Forwarding? ==>
              var x, prev, mid := st.threads[t].x, st.threads[t].prev, After(Step(st, Forward(t, written)), a);
              if written && prev.Some? then
                && prev.value < |st.sessions| && t < |mid.threads| && !mid.threads[t].Dispatching?
                && Installed(mid, Step(mid, Finish(t, parent)), t, x, parent, st.sessions[prev.value].link)
              else
                var fin := After(Step(mid, DispatchWorks(t, link)), b);
                && t < |mid.threads| && mid.threads[t] == Dispatching(x)
                && Installed(fin, Step(fin, Finish(t, parent)), t, x, parent, link)
  {
    RunKeeps(INITIAL, es);
    var st := After(INITIAL, es);
    if t < |st.threads| && st.threads[t].Forwarding? {
      if written && st.threads[t].prev.Some? {
        WrittenKeeps(st, t, a, parent);
      } else {
        OthersDispatch(st, t, written, a, link, b, parent);
      }
    }
  }

  // ----------------------------------------------------------- never afterwards, either

  predicate PastDispatch(p: Pc, x: nat) {
    p == Finishing(x) || p.Returned?
  }

  lemma {:induction false} StaysPast(st: State, es: seq<Event>, t: nat, x: nat)
    requires t < |st.threads| && PastDispatch(st.threads[t], x)
    ensures t < |After(st, es).threads| && PastDispatch(After(st, es).threads[t], x)
    decreases |es|
  {
    if es != [] {
      StaysPast(Step(st, es[0]), es[1..], t, x);
    }
  }

  /** A call whose datagram was written never comes to dispatch, whatever follows. */
  lemma {:induction false} WrittenNeverDispatches(es: seq<Event>, t: nat, more: seq<Event>)
    ensures var st := After(INITIAL, es);
            t < |st.threads| && st.threads[t].Forwarding? && st.threads[t].prev.Some? ==>
              var end := After(Step(st, Forward(t, true)), more);
              t < |end.threads| && !end.threads[t].Dispatching?
  {
    var st := After(INITIAL, es);
    if t < |st.threads| && st.threads[t].Forwarding? && st.threads[t].prev.Some? {
      StaysPast(Step(st, Forward(t, true)), more, t, st.threads[t].x);
    }
  }

  // ------------------------------------------------------------------ the returning client

  /** From a call that has found session `s` to take over from, to the Mux it installs. */
  lemma {:induction false} TakeOver(st: State, t: nat, x: nat, s: nat, a: seq<Event>, b: seq<Event>, c: seq<Event>,
                                    parent: nat)
    requires Inv(st) && t < |st.threads| && st.threads[t] == Detaching(x, Some(s)) && s < |st.sessions|
    requires Avoids(a, t) && Avoids(b, t) && Avoids(c, t) && Enabled(After(st, a), Detach(t))
    ensures var f := After(Step(After(st, a), Detach(t)), b);
            var mid := After(Step(f, Forward(t, true)), c);
            Installed(mid, Step(mid, Finish(t, parent)), t, x, parent, st.sessions[s].link)
  {
    OthersKeepAll(st, a, t);
    var d := After(st, a);
    assert ThreadOk(d, t);
    StepKeeps(d, Detach(t));
    OthersKeepAll(Step(d, Detach(t)), b, t);
    WrittenKeeps(After(Step(d, Detach(t)), b), t, c, parent);
  }

  lemma {:induction false} RunLinks(st: State, es: seq<Event>)
    ensures SameLinks(st, After(st, es))
    decreases |es|
  {
    if es != [] {
      StepLinks(st, es[0]);
      RunLinks(Step(st, es[0]), es[1..]);
    }
  }

  lemma {:induction false} BackAgain(st: State, s: nat, now: int, away: seq<Event>, gid: GlobalId)
    requires Inv(st) && s < |st.sessions|
    ensures var begun := Step(After(Step(st, CloseEnds(s, now)), away), Begin(gid)); Inv(begun) && SameLinks(st, begun)
  {
    var closed := Step(st, CloseEnds(s, now));
    var back := After(closed, away);
    StepKeeps(st, CloseEnds(s, now));
    RunKeeps(closed, away);
    StepKeeps(back, Begin(gid));
    StepLinks(st, CloseEnds(s, now));
    RunLinks(closed, away);
    StepLinks(back, Begin(gid));
  }

  /** THE LINK SURVIVES. A client that is back within a minute of its session's close, and whose
      datagram can be written, gets a session with the very link of the old one, whatever else
      happens before it is back and between the regions of its call. */
  lemma {:induction false} ReturnKeepsLink(es: seq<Event>, s: nat, now: int, away: seq<Event>, x: nat,
                                           a: seq<Event>, b: seq<Event>, c: seq<Event>, parent: nat)
    ensures var st := After(INITIAL, es);
      (&& s < |st.sessions| && st.sessions[s].phase.Closing? && st.sessions[s].entry == Some(x)
       && x < |st.entries| && st.entries[x].status.Active? && Quiet(away, st.entries[x].gid, now + 60)) ==>
        var back := After(Step(st, CloseEnds(s, now)), away);
        var begun, t := Step(back, Begin(st.entries[x].gid)), |back.threads|;
        Avoids(a, t) && Avoids(b, t) && Avoids(c, t) && Enabled(After(begun, a), Detach(t)) ==>
          var f := After(Step(After(begun, a), Detach(t)), b);
          var mid := After(Step(f, Forward(t, true)), c);
          Installed(mid, Step(mid, Finish(t, parent)), t, x, parent, st.sessions[s].link)
  {
    RunKeeps(INITIAL, es);
    ReturnWithinGrace(es, s, now, away, x);
    var st := After(INITIAL, es);
    if && s < |st.sessions| && st.sessions[s].phase.Closing? && st.sessions[s].entry == Some(x)
       && x < |st.entries| && st.entries[x].status.Active? && Quiet(away, st.entries[x].gid, now + 60)
    {
      var back := After(Step(st, CloseEnds(s, now)), away);
      var begun, t := Step(back, Begin(st.entries[x].gid)), |back.threads|;
      BackAgain(st, s, now, away, st.entries[x].gid);
      if Avoids(a, t) && Avoids(b, t) && Avoids(c, t) && Enabled(After(begun, a), Detach(t)) {
        TakeOver(begun, t, x, s, a, b, c, parent);
      }
    }
  }
}
