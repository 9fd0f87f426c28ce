/** Asking several name servers (app/dns/dns.go): in policy groups that race, or one by one. */
module DnsQuery {
  import opened Bytes
  import opened DnsLookup

  /** What one client's QueryIP gave. */
  datatype Response = Response(ips: seq<seq<byte>>, ttl: nat, err: Option<Error>)

  /** A group of adjacent clients, both ends included. */
  datatype Group = Group(start: nat, end: nat)

  datatype QueryError = Empty | Nothing(base: Error)

  // ----------------------------------------------------------------------------- groups

  /** The number of policy changes up to client `k`: the group it belongs to. */
  function GroupIndex(pids: seq<nat>, k: nat): nat
    requires k < |pids|
  {
    if k == 0 then 0 else GroupIndex(pids, k - 1) + if pids[k - 1] == pids[k] then 0 else 1
  }

  lemma {:induction false} GroupsGrow(pids: seq<nat>, i: nat, j: nat)
    requires i <= j < |pids|
    ensures GroupIndex(pids, i) <= GroupIndex(pids, j)
    decreases j
  {
    if i < j {
      GroupsGrow(pids, i, j - 1);
    }
  }

  /** The groups lie side by side from the first of `n` clients on. */
  predicate Adjacent(groups: seq<Group>, n: nat) {
    && (forall g :: 0 <= g < |groups| ==> groups[g].start <= groups[g].end < n)
    && (|groups| > 0 ==> groups[0].start == 0)
    && (forall g :: 0 < g < |groups| ==> groups[g].start == groups[g - 1].end + 1)
  }

  function StartOf(groups: seq<Group>, g: nat, n: nat): nat {
    if g < |groups| then groups[g].start else n
  }

  /** The first `n` clients divided into groups that number them by their policy changes. */
  predicate Grouping(pids: seq<nat>, groups: seq<Group>, n: nat)
    requires n <= |pids|
  {
    && Adjacent(groups, n)
    && (n == 0 <==> groups == [])
    && (groups != [] ==> groups[|groups| - 1].end == n - 1)
    && (forall g, k :: 0 <= g < |groups| && groups[g].start <= k <= groups[g].end ==> GroupIndex(pids, k) == g)
  }

  /** Clients `s` to `e`, all with the same number of policy changes, make the next group. */
  predicate Next(pids: seq<nat>, groups: seq<Group>, s: nat, e: nat) {
    s <= e < |pids| && Grouping(pids, groups, s) && forall k :: s <= k <= e ==> GroupIndex(pids, k) == |groups|
  }

  predicate Numbers(pids: seq<nat>, groupOf: seq<nat>, n: nat)
    requires n <= |pids|
  {
    |groupOf| == n && forall k :: 0 <= k < n ==> groupOf[k] == GroupIndex(pids, k)
  }

  /** Everything before `s` is grouped and numbered, `s` to `e` is the group in the making. */
  predicate Grouped(pids: seq<nat>, groups: seq<Group>, groupOf: seq<nat>, s: nat, e: nat) {
    Next(pids, groups, s, e) && Numbers(pids, groupOf, s)
  }

  function Numbered(groupOf: seq<nat>, count: nat, g: nat): seq<nat> {
    groupOf + seq(count, _ => g)
  }

  lemma {:induction false} AddNumbers(pids: seq<nat>, groups: seq<Group>, groupOf: seq<nat>, s: nat, e: nat)
    requires Grouped(pids, groups, groupOf, s, e)
    ensures Numbers(pids, Numbered(groupOf, e + 1 - s, |groups|), e + 1)
    ensures Grouping(pids, groups + [Group(s, e)], e + 1)
  {
    var all := groups + [Group(s, e)];
    assert forall g :: 0 <= g < |groups| ==> all[g] == groups[g];
  }

  /** The next client joins the group or starts another. */
  lemma {:induction false} NextClient(pids: seq<nat>, groups: seq<Group>, groupOf: seq<nat>, s: nat, e: nat)
    requires Grouped(pids, groups, groupOf, s, e) && e + 1 < |pids|
    ensures if pids[e] == pids[e + 1] then Grouped(pids, groups, groupOf, s, e + 1)
            else Grouped(pids, groups + [Group(s, e)], Numbered(groupOf, e + 1 - s, |groups|), e + 1, e + 1)
  {
    assert GroupIndex(pids, e) == |groups|;
    AddNumbers(pids, groups, groupOf, s, e);
  }

  /** groups and groupOf after the group from `s` to `e` is closed. */
  method CloseGroup(pids: seq<nat>, groups: seq<Group>, groupOf: seq<nat>, s: nat, e: nat)
    returns (groups': seq<Group>, groupOf': seq<nat>)
    requires Grouped(pids, groups, groupOf, s, e)
    ensures Grouping(pids, groups', e + 1) && Numbers(pids, groupOf', e + 1)
    ensures e + 1 < |pids| && pids[e] != pids[e + 1] ==> Grouped(pids, groups', groupOf', e + 1, e + 1)
  {
    AddNumbers(pids, groups, groupOf, s, e);
    if e + 1 < |pids| {
      NextClient(pids, groups, groupOf, s, e);
    }
    groupOf' := Numbered(groupOf, e + 1 - s, |groups|);
    groups' := groups + [Group(s, e)];
  }

  method MakeGroups(pids: seq<nat>) returns (groups: seq<Group>, groupOf: seq<nat>)
    ensures Grouping(pids, groups, |pids|) && Numbers(pids, groupOf, |pids|)
  {
    groups, groupOf := [], [];
    var n := |pids|;
    if n == 0 {
      return;
    }
    var s, e := 0, 0;
    for i := 1 to n
      invariant e == i - 1 && Grouped(pids, groups, groupOf, s, e)
    {
      if pids[i - 1] == pids[i] {
        NextClient(pids, groups, groupOf, s, e);
        e := i;
      } else {
        groups, groupOf := CloseGroup(pids, groups, groupOf, s, e);
        s, e := i, i;
      }
    }
    groups, groupOf := CloseGroup(pids, groups, groupOf, s, e);
  }

  lemma {:induction false} InSomeGroup(pids: seq<nat>, groups: seq<Group>, n: nat, k: nat)
    requires n <= |pids| && Grouping(pids, groups, n) && k < n
    ensures var g := GroupIndex(pids, k); g < |groups| && groups[g].start <= k <= groups[g].end
  {
    var g := |groups| - 1;
    while k < groups[g].start
      invariant 0 <= g < |groups| && k <= groups[g].end
    {
      g := g - 1;
    }
  }

  // ----------------------------------------------------------------------------- errors

  function ErrorOf(r: Response): Error {
    if r.err.Some? then r.err.value else EmptyResponse
  }

  function ErrorsOf(rs: seq<Response>): (es: seq<Error>)
    ensures |es| == |rs| && forall i :: 0 <= i < |rs| ==> es[i] == ErrorOf(rs[i])
  {
    seq(|rs|, i requires 0 <= i < |rs| => ErrorOf(rs[i]))
  }

  /** The errors that say something: all but "record not found". */
  function Kinds(errs: seq<Error>): set<Error> {
    set e | e in errs && e != RecordNotFound
  }

  /** `e` is what every error that says something is; a combined error only if it is alone. */
  predicate Common(errs: seq<Error>, e: Error) {
    Kinds(errs) == {e} && (e.Multi? ==> multiset(errs)[e] == 1)
  }

  /** The common error if there is one, all of them otherwise. */
  ghost function MergedError(errs: seq<Error>): QueryError {
    if errs == [] || Kinds(errs) == {EmptyResponse} then Empty
    else if Kinds(errs) == {} then Nothing(RecordNotFound)
    else if e :| e in errs && Common(errs, e) then Nothing(e)
    else Nothing(Multi(errs))
  }

  /** The first error that says something, after the errors `done`. */
  ghost predicate Remembers(done: seq<Error>, noRnf: Option<Error>) {
    if noRnf.None? then Kinds(done) == {} else Common(done, noRnf.value)
  }

  lemma {:induction false} RememberNext(done: seq<Error>, noRnf: Option<Error>, err: Error)
    requires Remembers(done, noRnf)
    ensures err == RecordNotFound ==> Remembers(done + [err], noRnf)
    ensures err != RecordNotFound && noRnf.None? ==> Remembers(done + [err], Some(err))
    ensures err != RecordNotFound && noRnf.Some? && Is(err, noRnf.value) ==> Remembers(done + [err], noRnf)
    ensures err != RecordNotFound && noRnf.Some? && !Is(err, noRnf.value) ==> forall e :: !Common(done + [err], e)
  {
    var next := done + [err];
    assert Kinds(next) == Kinds(done) + if err == RecordNotFound then {} else {err};
    assert multiset(next) == multiset(done) + multiset{err};
    if err != RecordNotFound && noRnf.None? {
      assert err !in Kinds(done);
      assert err !in done;
    }
    if err != RecordNotFound && noRnf.Some? && !Is(err, noRnf.value) {
      assert noRnf.value in Kinds(done) && err in Kinds(next);
    }
  }

  lemma {:induction false} CommonOfPrefix(a: seq<Error>, b: seq<Error>, e: Error)
    requires Kinds(a) != {} && Common(a + b, e)
    ensures Common(a, e)
  {
    assert Kinds(a + b) == Kinds(a) + Kinds(b);
    assert multiset(a + b) == multiset(a) + multiset(b);
    var x :| x in Kinds(a);
    assert Kinds(a) == {e};
    assert e in a;
  }

  method MergeQueryErrors(errs: seq<Error>) returns (r: QueryError)
    ensures r == MergedError(errs)
  {
    if |errs| == 0 {
      return Empty;
    }
    var noRnf: Option<Error> := None;
    for i := 0 to |errs|
      invariant Remembers(errs[..i], noRnf)
    {
      var err := errs[i];
      assert errs[..i + 1] == errs[..i] + [err] && errs == errs[..i + 1] + errs[i + 1..];
      RememberNext(errs[..i], noRnf, err);
      if err == RecordNotFound {
        continue;
      } else if noRnf.None? {
        noRnf := Some(err);
      } else if !Is(err, noRnf.value) {
        assert err in Kinds(errs[..i + 1]) && err in Kinds(errs);
        forall e | Common(errs, e) ensures Common(errs[..i + 1], e) {
          CommonOfPrefix(errs[..i + 1], errs[i + 1..], e);
        }
        assert !Common(errs, EmptyResponse);
        return Nothing(Multi(errs));
      }
    }
    assert errs[..|errs|] == errs;
    if noRnf == Some(EmptyResponse) {
      return Empty;
    }
    if noRnf.None? {
      return Nothing(RecordNotFound);
    }
    assert noRnf.value in Kinds(errs);
    r := Nothing(noRnf.value);
  }

  // --------------------------------------------------------------------- parallel query

  predicate Success(r: Response) {
    r.err.None? && r.ips != []
  }

  /** How many of the replies `lo` to `hi` have not arrived. */
  function Missing(results: seq<Option<Response>>, lo: nat, hi: nat): (m: nat)
    requires lo <= hi <= |results|
    ensures m == 0 <==> forall i :: lo <= i < hi ==> results[i].Some?
    decreases hi - lo
  {
    if lo == hi then 0 else (if results[lo].None? then 1 else 0) + Missing(results, lo + 1, hi)
  }

  lemma {:induction false} Arrival(results: seq<Option<Response>>, i: nat, r: Response, lo: nat, hi: nat)
    requires lo <= hi <= |results| && i < |results| && results[i].None?
    ensures Missing(results[i := Some(r)], lo, hi) == Missing(results, lo, hi) - if lo <= i < hi then 1 else 0
    decreases hi - lo
  {
    if lo < hi {
      Arrival(results, i, r, lo + 1, hi);
    }
  }

  lemma {:induction false} NoneArrived(results: seq<Option<Response>>, lo: nat, hi: nat)
    requires lo <= hi <= |results| && forall i :: lo <= i < hi ==> results[i].None?
    ensures Missing(results, lo, hi) == hi - lo
    decreases hi - lo
  {
    if lo < hi {
      NoneArrived(results, lo + 1, hi);
    }
  }

  /** The results so far are replies, each in its client's place. */
  predicate Partial(replies: seq<Response>, results: seq<Option<Response>>) {
    |results| == |replies| && forall i :: 0 <= i < |results| ==> results[i].None? || results[i] == Some(replies[i])
  }

  predicate Counts(groups: seq<Group>, results: seq<Option<Response>>, pending: seq<int>) {
    && Adjacent(groups, |results|) && |pending| == |groups|
    && forall g :: 0 <= g < |groups| ==> pending[g] == Missing(results, groups[g].start, groups[g].end + 1)
  }

  /** The first `next` groups have failed, and `errs` says how. */
  predicate Failed(replies: seq<Response>, groups: seq<Group>, next: nat, errs: seq<Error>) {
    && next <= |groups| && StartOf(groups, next, |replies|) <= |replies|
    && (forall i :: 0 <= i < StartOf(groups, next, |replies|) ==> !Success(replies[i]))
    && errs == ErrorsOf(replies[..StartOf(groups, next, |replies|)])
  }

  /** Nothing more to do before the next arrival. */
  predicate Stuck(groups: seq<Group>, results: seq<Option<Response>>, next: nat) {
    next < |groups| ==>
      && groups[next].end < |results|
      && (forall i :: groups[next].start <= i <= groups[next].end && results[i].Some? ==> !Success(results[i].value))
      && (exists i :: groups[next].start <= i <= groups[next].end && results[i].None?)
  }

  method Winner(results: seq<Option<Response>>, g: Group) returns (win: Option<nat>)
    requires g.start <= g.end < |results|
    ensures win.Some? ==> g.start <= win.value <= g.end && results[win.value].Some? && Success(results[win.value].value)
    ensures win.None? ==> forall i :: g.start <= i <= g.end && results[i].Some? ==> !Success(results[i].value)
  {
    var j := g.start;
    while j <= g.end
      invariant g.start <= j <= g.end + 1
      invariant forall i :: g.start <= i < j && results[i].Some? ==> !Success(results[i].value)
    {
      if results[j].Some? && Success(results[j].value) {
        return Some(j);
      }
      j := j + 1;
    }
    win := None;
  }

  /** The failures of a complete group, in the order of its clients. */
  method Collect(ghost replies: seq<Response>, results: seq<Option<Response>>, g: Group) returns (errs: seq<Error>)
    requires Partial(replies, results) && g.start <= g.end < |results|
    requires forall i :: g.start <= i <= g.end ==> results[i].Some?
    ensures errs == ErrorsOf(replies[g.start..g.end + 1])
  {
    errs := [];
    var j := g.start;
    while j <= g.end
      invariant g.start <= j <= g.end + 1 && errs == ErrorsOf(replies[g.start..j])
    {
      errs := errs + [ErrorOf(results[j].value)];
      assert replies[g.start..j + 1] == replies[g.start..j] + [replies[j]];
      j := j + 1;
    }
  }

  lemma {:induction false} ErrorsSplit(replies: seq<Response>, i: nat, j: nat)
    requires i <= j <= |replies|
    ensures ErrorsOf(replies[..j]) == ErrorsOf(replies[..i]) + ErrorsOf(replies[i..j])
  {
    var a, b := ErrorsOf(replies[..i]), ErrorsOf(replies[i..j]);
    forall k | 0 <= k < j ensures ErrorsOf(replies[..j])[k] == (a + b)[k] {
      assert k >= i ==> replies[i..j][k - i] == replies[k];
    }
  }

  lemma {:induction false} GroupFailed(replies: seq<Response>, groups: seq<Group>, next: nat, errs: seq<Error>)
    requires Adjacent(groups, |replies|) && next < |groups| && Failed(replies, groups, next, errs)
    requires groups[|groups| - 1].end == |replies| - 1
    requires forall i :: groups[next].start <= i <= groups[next].end ==> !Success(replies[i])
    ensures Failed(replies, groups, next + 1, errs + ErrorsOf(replies[groups[next].start..groups[next].end + 1]))
  {
    var g := groups[next];
    assert StartOf(groups, next + 1, |replies|) == g.end + 1;
    ErrorsSplit(replies, g.start, g.end + 1);
  }

  /** A group without a success so far, some of whose replies are missing. */
  lemma {:induction false} GroupStuck(groups: seq<Group>, results: seq<Option<Response>>, pending: seq<int>, next: nat)
    requires Counts(groups, results, pending) && next < |groups|
    requires forall i :: groups[next].start <= i <= groups[next].end && results[i].Some? ==> !Success(results[i].value)
    ensures pending[next] > 0 ==> Stuck(groups, results, next)
    ensures pending[next] <= 0 ==> forall i :: groups[next].start <= i <= groups[next].end ==> results[i].Some?
  {
    assert pending[next] == Missing(results, groups[next].start, groups[next].end + 1);
  }

  predicate Wins(groups: seq<Group>, results: seq<Option<Response>>, next: nat, win: nat) {
    && next < |groups| && groups[next].start <= win <= groups[next].end
    && win < |results| && results[win].Some? && Success(results[win].value)
  }

  /** One turn of parallelQuery's inner loop, at group `next`. */
  method TryGroup(ghost replies: seq<Response>, groups: seq<Group>, results: seq<Option<Response>>, pending: seq<int>,
                  next: nat, errs0: seq<Error>) returns (win: Option<nat>, moved: bool, errs: seq<Error>)
    requires Partial(replies, results) && Counts(groups, results, pending) && next < |groups|
    requires groups[|groups| - 1].end == |replies| - 1 && Failed(replies, groups, next, errs0)
    ensures win.Some? ==> !moved && Wins(groups, results, next, win.value)
    ensures !moved ==> errs == errs0 && (win.None? ==> Stuck(groups, results, next))
    ensures moved ==> Failed(replies, groups, next + 1, errs)
  {
    var g := groups[next];
    moved, errs := false, errs0;
    win := Winner(results, g);
    if win.Some? {
      return;
    }
    GroupStuck(groups, results, pending, next);
    if pending[next] > 0 {
      return;
    }
    var more := Collect(replies, results, g);
    GroupFailed(replies, groups, next, errs);
    moved, errs := true, errs + more;
  }

  /** parallelQuery's inner loop: walk over the groups as far as the replies allow. */
  method Advance(ghost replies: seq<Response>, groups: seq<Group>, results: seq<Option<Response>>, pending: seq<int>,
                 from: nat, errs0: seq<Error>) returns (win: Option<nat>, next: nat, errs: seq<Error>)
    requires Partial(replies, results) && Counts(groups, results, pending)
    requires groups != [] ==> groups[|groups| - 1].end == |replies| - 1
    requires Failed(replies, groups, from, errs0)
    ensures Failed(replies, groups, next, errs)
    ensures win.None? ==> Stuck(groups, results, next)
    ensures win.Some? ==> Wins(groups, results, next, win.value)
  {
    next, errs, win := from, errs0, None;
    while next < |groups|
      invariant win.None? && Failed(replies, groups, next, errs)
      decreases |groups| - next
    {
      var moved;
      win, moved, errs := TryGroup(replies, groups, results, pending, next, errs);
      if !moved {
        return;
      }
      next := next + 1;
    }
  }

  predicate Permutation(arrival: seq<nat>, n: nat) {
    && |arrival| == n
    && (forall k :: 0 <= k < n ==> arrival[k] < n)
    && (forall j, k :: 0 <= j < k < n ==> arrival[j] != arrival[k])
  }

  /** Exactly the first `k` arrivals are in. */
  predicate InSoFar(arrival: seq<nat>, k: nat, results: seq<Option<Response>>)
    requires k <= |arrival|
  {
    forall i :: 0 <= i < |results| ==> (results[i].Some? <==> i in arrival[..k])
  }

  /** `j` succeeded, and nobody in an earlier group did. */
  predicate Best(pids: seq<nat>, replies: seq<Response>, j: nat)
    requires |pids| == |replies|
  {
    && j < |replies| && Success(replies[j])
    && forall i :: 0 <= i < |replies| && Success(replies[i]) ==> GroupIndex(pids, j) <= GroupIndex(pids, i)
  }

  /** State of parallelQuery between two replies. */
  predicate Between(pids: seq<nat>, replies: seq<Response>, arrival: seq<nat>, groups: seq<Group>, groupOf: seq<nat>,
                    k: nat, results: seq<Option<Response>>, pending: seq<int>, next: nat, errs: seq<Error>)
  {
    && |pids| == |replies| && Grouping(pids, groups, |pids|) && Numbers(pids, groupOf, |pids|)
    && Permutation(arrival, |replies|) && k <= |arrival|
    && Partial(replies, results) && InSoFar(arrival, k, results) && Missing(results, 0, |results|) == |arrival| - k
    && Counts(groups, results, pending) && Failed(replies, groups, next, errs)
  }

  lemma {:induction false} CountsDown(pids: seq<nat>, groups: seq<Group>, groupOf: seq<nat>,
                                      results: seq<Option<Response>>, pending: seq<int>, i: nat, r: Response)
    requires Grouping(pids, groups, |pids|) && Numbers(pids, groupOf, |pids|) && |results| == |pids|
    requires Counts(groups, results, pending) && i < |results| && results[i].None?
    ensures groupOf[i] < |pending|
    ensures Counts(groups, results[i := Some(r)], pending[groupOf[i] := pending[groupOf[i]] - 1])
  {
    InSomeGroup(pids, groups, |pids|, i);
    var results', pending' := results[i := Some(r)], pending[groupOf[i] := pending[groupOf[i]] - 1];
    forall g | 0 <= g < |groups| ensures pending'[g] == Missing(results', groups[g].start, groups[g].end + 1) {
      Arrival(results, i, r, groups[g].start, groups[g].end + 1);
      if groups[g].start <= i <= groups[g].end {
        assert GroupIndex(pids, i) == g;
      }
    }
  }

  /** The next reply finds its place empty and its group counting on it. */
  lemma {:induction false} Receive(pids: seq<nat>, replies: seq<Response>, arrival: seq<nat>, groups: seq<Group>,
                                   groupOf: seq<nat>, k: nat, results: seq<Option<Response>>,
                                   pending: seq<int>, next: nat, errs: seq<Error>)
    requires Between(pids, replies, arrival, groups, groupOf, k, results, pending, next, errs) && k < |arrival|
    ensures arrival[k] < |results| && arrival[k] < |groupOf| && groupOf[arrival[k]] < |pending|
    ensures Between(pids, replies, arrival, groups, groupOf, k + 1, results[arrival[k] := Some(replies[arrival[k]])],
              pending[groupOf[arrival[k]] := pending[groupOf[arrival[k]]] - 1], next, errs)
  {
    var i := arrival[k];
    assert i !in arrival[..k];
    assert arrival[..k + 1] == arrival[..k] + [i];
    CountsDown(pids, groups, groupOf, results, pending, i, replies[i]);
    Arrival(results, i, replies[i], 0, |results|);
  }

  lemma {:induction false} Initially(pids: seq<nat>, replies: seq<Response>, arrival: seq<nat>, groups: seq<Group>,
                                     groupOf: seq<nat>, results: seq<Option<Response>>, pending: seq<int>)
    requires |pids| == |replies| && Grouping(pids, groups, |pids|) && Numbers(pids, groupOf, |pids|)
    requires Permutation(arrival, |replies|)
    requires |results| == |replies| && forall i :: 0 <= i < |results| ==> results[i].None?
    requires |pending| == |groups|
    requires forall g :: 0 <= g < |groups| ==> pending[g] == groups[g].end - groups[g].start + 1
    ensures Between(pids, replies, arrival, groups, groupOf, 0, results, pending, 0, [])
  {
    NoneArrived(results, 0, |results|);
    forall g | 0 <= g < |groups| ensures pending[g] == Missing(results, groups[g].start, groups[g].end + 1) {
      NoneArrived(results, groups[g].start, groups[g].end + 1);
    }
    assert replies[..0] == [];
  }

  /** With every reply in, the walk over the groups has come to the end of them. */
  lemma {:induction false} Exhausted(pids: seq<nat>, replies: seq<Response>, arrival: seq<nat>, groups: seq<Group>,
                                     groupOf: seq<nat>,
                                     results: seq<Option<Response>>, pending: seq<int>, next: nat, errs: seq<Error>)
    requires Between(pids, replies, arrival, groups, groupOf, |arrival|, results, pending, next, errs)
    requires |arrival| > 0 ==> Stuck(groups, results, next)
    ensures errs == ErrorsOf(replies) && forall i :: 0 <= i < |replies| ==> !Success(replies[i])
  {
    assert next == |groups|;
    assert replies[..|replies|] == replies;
  }

  /** The winner of the first group that has not failed is the best client. */
  lemma {:induction false} WinnerIsBest(pids: seq<nat>, replies: seq<Response>, groups: seq<Group>, next: nat,
                                        errs: seq<Error>, j: nat)
    requires |pids| == |replies| && Grouping(pids, groups, |pids|) && Failed(replies, groups, next, errs)
    requires next < |groups| && groups[next].start <= j <= groups[next].end && Success(replies[j])
    ensures Best(pids, replies, j)
  {
    assert GroupIndex(pids, j) == next;
    forall i | 0 <= i < |replies| && Success(replies[i]) ensures GroupIndex(pids, j) <= GroupIndex(pids, i) {
      assert groups[next].start <= i;
      assert GroupIndex(pids, groups[next].start) == next;
      GroupsGrow(pids, groups[next].start, i);
    }
  }

  /** One turn of parallelQuery's outer loop. */
  method Round(ghost pids: seq<nat>, replies: seq<Response>, arrival: seq<nat>, groups: seq<Group>, groupOf: seq<nat>,
               k: nat, results0: seq<Option<Response>>, pending0: seq<int>, next0: nat, errs0: seq<Error>)
    returns (win: Option<nat>, results: seq<Option<Response>>, pending: seq<int>, next: nat, errs: seq<Error>)
    requires Between(pids, replies, arrival, groups, groupOf, k, results0, pending0, next0, errs0) && k < |arrival|
    ensures win.Some? ==> Best(pids, replies, win.value)
    ensures win.None? ==>
      && Between(pids, replies, arrival, groups, groupOf, k + 1, results, pending, next, errs)
      && Stuck(groups, results, next)
  {
    var i := arrival[k];
    Receive(pids, replies, arrival, groups, groupOf, k, results0, pending0, next0, errs0);
    results := results0[i := Some(replies[i])];
    pending := pending0[groupOf[i] := pending0[groupOf[i]] - 1];
    win, next, errs := Advance(replies, groups, results, pending, next0, errs0);
    if win.Some? {
      WinnerIsBest(pids, replies, groups, next, errs, win.value);
    }
  }

  /** ARRIVAL ORDER DOES NOT MATTER. Whatever the order of the replies: there is an answer
      exactly when some client succeeds, it is the answer of a client in the first policy
      group with a success, and otherwise the errors are merged in the clients' order. */
  method ParallelQuery(pids: seq<nat>, replies: seq<Response>, arrival: seq<nat>)
    returns (ips: seq<seq<byte>>, ttl: nat, err: Option<QueryError>)
    requires |pids| == |replies| && Permutation(arrival, |replies|)
    ensures err.None? <==> exists i :: 0 <= i < |replies| && Success(replies[i])
    ensures err.None? ==>
      exists j :: 0 <= j < |replies| && Best(pids, replies, j) && ips == replies[j].ips && ttl == replies[j].ttl
    ensures err.Some? ==> ips == [] && ttl == 0 && err.value == MergedError(ErrorsOf(replies))
  {
    var groups, groupOf := MakeGroups(pids);
    var n := |replies|;
    var results: seq<Option<Response>> := seq(n, _ => None);
    var pending := seq(|groups|, g requires 0 <= g < |groups| => groups[g].end - groups[g].start + 1);
    Initially(pids, replies, arrival, groups, groupOf, results, pending);
    var next, errs, k := 0, [], 0;
    while k < n
      invariant 0 <= k <= n && Between(pids, replies, arrival, groups, groupOf, k, results, pending, next, errs)
      invariant k > 0 ==> Stuck(groups, results, next)
    {
      var win;
      win, results, pending, next, errs :=
        Round(pids, replies, arrival, groups, groupOf, k, results, pending, next, errs);
      if win.Some? {
        return replies[win.value].ips, replies[win.value].ttl, None;
      }
      k := k + 1;
    }
    Exhausted(pids, replies, arrival, groups, groupOf, results, pending, next, errs);
    var e := MergeQueryErrors(errs);
    return [], 0, Some(e);
  }

  // ----------------------------------------------------------------------- serial query

  /** asyncQueryAll: what arrives for a client that is not asked (FakeDNS when fake addresses
      are not wanted) is an empty response. */
  function Replies(skip: seq<bool>, answers: seq<Response>): (rs: seq<Response>)
    requires |skip| == |answers|
    ensures |rs| == |answers|
  {
    seq(|answers|, i requires 0 <= i < |answers| =>
      if skip[i] then Response([], 0, Some(EmptyResponse)) else answers[i])
  }

  /** The first client asked that gives addresses, with or without an error beside them. */
  predicate Chosen(skip: seq<bool>, answers: seq<Response>, j: nat)
    requires |skip| == |answers|
  {
    && j < |answers| && !skip[j] && answers[j].ips != []
    && forall i :: 0 <= i < j ==> skip[i] || answers[i].ips == []
  }

  /** The errors of the clients that are asked. */
  function SerialErrors(skip: seq<bool>, answers: seq<Response>): seq<Error>
    requires |skip| == |answers|
    decreases |answers|
  {
    if answers == [] then []
    else
      var n := |answers| - 1;
      SerialErrors(skip[..n], answers[..n]) + (if skip[n] then [] else [ErrorOf(answers[n])])
  }

  lemma {:induction false} SerialErrorsSnoc(skip: seq<bool>, answers: seq<Response>, i: nat)
    requires |skip| == |answers| && i < |answers|
    ensures SerialErrors(skip[..i + 1], answers[..i + 1]) ==
      SerialErrors(skip[..i], answers[..i]) + if skip[i] then [] else [ErrorOf(answers[i])]
  {
    assert skip[..i + 1][..i] == skip[..i] && answers[..i + 1][..i] == answers[..i];
  }

  /** The first `i` clients have been asked, without success. */
  ghost predicate Asked(skip: seq<bool>, answers: seq<Response>, i: nat, errs: seq<Error>)
    requires |skip| == |answers|
  {
    && i <= |answers| && (forall j :: 0 <= j < i ==> skip[j] || answers[j].ips == [])
    && errs == SerialErrors(skip[..i], answers[..i])
  }

  lemma {:induction false} AskedNext(skip: seq<bool>, answers: seq<Response>, i: nat, errs: seq<Error>)
    requires |skip| == |answers| && i < |answers| && Asked(skip, answers, i, errs)
    ensures skip[i] ==> Asked(skip, answers, i + 1, errs)
    ensures !skip[i] && answers[i].ips == [] ==> Asked(skip, answers, i + 1, errs + [ErrorOf(answers[i])])
    ensures !skip[i] && answers[i].ips != [] ==> Chosen(skip, answers, i)
  {
    SerialErrorsSnoc(skip, answers, i);
  }

  lemma {:induction false} AskedAll(skip: seq<bool>, answers: seq<Response>, errs: seq<Error>)
    requires |skip| == |answers| && Asked(skip, answers, |answers|, errs)
    ensures errs == SerialErrors(skip, answers) && forall j :: 0 <= j < |answers| ==> !Chosen(skip, answers, j)
  {
    assert skip[..|answers|] == skip && answers[..|answers|] == answers;
  }

  method SerialQuery(skip: seq<bool>, answers: seq<Response>)
    returns (ips: seq<seq<byte>>, ttl: nat, err: Option<QueryError>)
    requires |skip| == |answers|
    ensures err.None? <==> exists j :: 0 <= j < |answers| && Chosen(skip, answers, j)
    ensures err.None? ==>
      exists j :: 0 <= j < |answers| && Chosen(skip, answers, j) && ips == answers[j].ips && ttl == answers[j].ttl
    ensures err.Some? ==> ips == [] && ttl == 0 && err.value == MergedError(SerialErrors(skip, answers))
  {
    var errs: seq<Error> := [];
    for i := 0 to |answers|
      invariant Asked(skip, answers, i, errs)
    {
      AskedNext(skip, answers, i, errs);
      if !skip[i] {
        if |answers[i].ips| > 0 {
          return answers[i].ips, answers[i].ttl, None;
        }
        errs := errs + [ErrorOf(answers[i])];
      }
    }
    AskedAll(skip, answers, errs);
    var e := MergeQueryErrors(errs);
    return [], 0, Some(e);
  }

  // ------------------------------------------------------------------ the two compared

  /** Every client has a policy of its own. */
  predicate Singletons(pids: seq<nat>) {
    forall k :: 0 < k < |pids| ==> pids[k - 1] != pids[k]
  }

  lemma {:induction false} SingletonIndex(pids: seq<nat>, k: nat)
    requires Singletons(pids) && k < |pids|
    ensures GroupIndex(pids, k) == k
  {
    if k > 0 {
      SingletonIndex(pids, k - 1);
    }
  }

  lemma {:induction false} FirstWithAddresses(skip: seq<bool>, answers: seq<Response>, k: nat) returns (j: nat)
    requires |skip| == |answers| && k < |answers| && !skip[k] && answers[k].ips != []
    ensures j <= k && Chosen(skip, answers, j)
  {
    j := 0;
    while skip[j] || answers[j].ips == []
      invariant j <= k && forall i :: 0 <= i < j ==> skip[i] || answers[i].ips == []
      decreases k - j
    {
      j := j + 1;
    }
  }

  lemma {:induction false} BestIsFirst(pids: seq<nat>, skip: seq<bool>, answers: seq<Response>, j: nat)
    requires |pids| == |skip| == |answers| && Singletons(pids) && Chosen(skip, answers, j) && answers[j].err.None?
    ensures forall k :: 0 <= k < |pids| ==> (Best(pids, Replies(skip, answers), k) <==> k == j)
  {
    var rs := Replies(skip, answers);
    forall k | 0 <= k < |pids| ensures GroupIndex(pids, k) == k {
      SingletonIndex(pids, k);
    }
    assert Success(rs[j]);
    forall k | 0 <= k < j ensures !Success(rs[k]) {
    }
    assert Best(pids, rs, j);
  }

  /** SAME CHOICE. When every client is a group of its own, the parallel query chooses the
      client that the serial one does, exactly if that client gives its addresses without an
      error: the serial query takes addresses that come with an error, the parallel does not. */
  lemma {:induction false} ParallelEqualsSerial(pids: seq<nat>, skip: seq<bool>, answers: seq<Response>)
    requires |pids| == |skip| == |answers| && Singletons(pids)
    ensures (forall j :: 0 <= j < |pids| ==> (Best(pids, Replies(skip, answers), j) <==> Chosen(skip, answers, j)))
      <==> (forall j :: 0 <= j < |pids| && Chosen(skip, answers, j) ==> answers[j].err.None?)
  {
    var rs := Replies(skip, answers);
    if j :| 0 <= j < |pids| && Chosen(skip, answers, j) {
      if answers[j].err.None? {
        BestIsFirst(pids, skip, answers, j);
      } else {
        assert !Success(rs[j]);
      }
    } else {
      forall k | 0 <= k < |pids| ensures !Best(pids, rs, k) {
        if Success(rs[k]) {
          var j := FirstWithAddresses(skip, answers, k);
        }
      }
    }
  }

  predicate NoneSkipped(skip: seq<bool>) {
    forall i :: 0 <= i < |skip| ==> !skip[i]
  }

  lemma {:induction false} KindsSnoc(errs: seq<Error>, x: Error)
    ensures Kinds(errs + [x]) == Kinds(errs) + if x == RecordNotFound then {} else {x}
  {
  }

  lemma {:induction false} RepliesSnoc(skip: seq<bool>, answers: seq<Response>)
    requires |skip| == |answers| > 0
    ensures var n := |answers| - 1;
      ErrorsOf(Replies(skip, answers)) ==
        ErrorsOf(Replies(skip[..n], answers[..n])) + [if skip[n] then EmptyResponse else ErrorOf(answers[n])]
  {
    var n := |answers| - 1;
    assert Replies(skip, answers)[..n] == Replies(skip[..n], answers[..n]);
  }

  lemma {:induction false} NoneSkippedSnoc(skip: seq<bool>)
    requires skip != []
    ensures NoneSkipped(skip) <==> NoneSkipped(skip[..|skip| - 1]) && !skip[|skip| - 1]
  {
  }

  /** The errors of all clients and of those asked, when nobody was skipped and otherwise. */
  predicate Compared(all: seq<Error>, asked: seq<Error>, none: bool) {
    && (none ==> all == asked)
    && (!none ==> |all| > |asked| && Kinds(all) == Kinds(asked) + {EmptyResponse})
  }

  lemma {:induction false} ComparedNext(all: seq<Error>, asked: seq<Error>, none: bool, x: Error, skipped: bool)
    requires Compared(all, asked, none) && (skipped ==> x == EmptyResponse)
    ensures Compared(all + [x], if skipped then asked else asked + [x], none && !skipped)
  {
    KindsSnoc(all, x);
    KindsSnoc(asked, x);
  }

  lemma {:induction false} SkippedErrors(skip: seq<bool>, answers: seq<Response>)
    requires |skip| == |answers|
    ensures Compared(ErrorsOf(Replies(skip, answers)), SerialErrors(skip, answers), NoneSkipped(skip))
    decreases |answers|
  {
    if answers != [] {
      var n := |answers| - 1;
      var all, asked := ErrorsOf(Replies(skip[..n], answers[..n])), SerialErrors(skip[..n], answers[..n]);
      var x := if skip[n] then EmptyResponse else ErrorOf(answers[n]);
      SkippedErrors(skip[..n], answers[..n]);
      RepliesSnoc(skip, answers);
      ComparedNext(all, asked, NoneSkipped(skip[..n]), x, skip[n]);
      NoneSkippedSnoc(skip);
      assert asked + [] == asked;
    }
  }

  /** An empty answer more beside another kind of error: everything is reported, and that is
      not what the fewer errors come to. */
  lemma {:induction false} MoreErrors(p: seq<Error>, e: seq<Error>)
    requires |p| > |e| && Kinds(p) == Kinds(e) + {EmptyResponse} && Kinds(e) != {EmptyResponse} && Kinds(e) != {}
    ensures MergedError(p) == Nothing(Multi(p)) != MergedError(e)
  {
    assert EmptyResponse in Kinds(p);
    var x :| x in Kinds(e) && x != EmptyResponse;
    assert x in Kinds(p) && x in p;
    assert MergedError(p) == Nothing(Multi(p));
    assert x != Multi(p);
    assert forall y :: Common(e, y) ==> y == x;
  }

  /** SAME FAILURE. When both fail they report the same error exactly if no client was skipped
      or the serial query reports an empty response: to the parallel query a skipped client is
      one that answered with nothing. */
  lemma {:induction false} FailuresCompared(skip: seq<bool>, answers: seq<Response>)
    requires |skip| == |answers|
    ensures MergedError(ErrorsOf(Replies(skip, answers))) == MergedError(SerialErrors(skip, answers))
      <==> NoneSkipped(skip) || MergedError(SerialErrors(skip, answers)) == Empty
  {
    var p, e := ErrorsOf(Replies(skip, answers)), SerialErrors(skip, answers);
    SkippedErrors(skip, answers);
    if !NoneSkipped(skip) && e != [] && Kinds(e) != {EmptyResponse} && Kinds(e) != {} {
      MoreErrors(p, e);
    }
  }
}
