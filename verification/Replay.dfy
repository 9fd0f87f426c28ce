/** The two-pool replay filter (common/antireplay/mapfilter.go). */
module Replay {

  datatype Filter<T(==)> = Filter(poolA: set<T>, poolB: set<T>, interval: int, lastClean: int)

  /** One call of Check: when, and of what. */
  datatype Attempt<T> = Attempt(now: int, sum: T)

  function Rotate<T(==)>(f: Filter<T>, now: int): Filter<T> {
    if now - f.lastClean >= f.interval then Filter({}, f.poolA, f.interval, now) else f
  }

  predicate Accepts<T(==)>(f: Filter<T>, a: Attempt<T>) {
    var r := Rotate(f, a.now);
    a.sum !in r.poolA && a.sum !in r.poolB
  }

  function After<T(==)>(f: Filter<T>, a: Attempt<T>): Filter<T> {
    var r := Rotate(f, a.now);
    if Accepts(f, a) then r.(poolA := r.poolA + {a.sum}) else r
  }

  function AfterAll<T(==)>(f: Filter<T>, run: seq<Attempt<T>>): Filter<T>
    decreases |run|
  {
    if run == [] then f else AfterAll(After(f, run[0]), run[1..])
  }

  /** The answer of the k-th call of a run. */
  predicate AcceptedAt<T(==)>(f: Filter<T>, run: seq<Attempt<T>>, k: nat)
    requires k < |run|
  {
    Accepts(AfterAll(f, run[..k]), run[k])
  }

  class ReplayFilter<T(==)> {
    var poolA: set<T>
    var poolB: set<T>
    const interval: int
    var lastClean: int

    function Value(): Filter<T>
      reads this
    {
      Filter(poolA, poolB, interval, lastClean)
    }

    constructor (interval: int, now: int)
      ensures Value() == Filter({}, {}, interval, now)
    {
      poolA, poolB, this.interval, lastClean := {}, {}, interval, now;
    }

    method Check(sum: T, now: int) returns (fresh': bool)
      modifies this
      ensures fresh' == Accepts(old(Value()), Attempt(now, sum))
      ensures Value() == After(old(Value()), Attempt(now, sum))
    {
      if now - lastClean >= interval {
        poolB := poolA;
        poolA := {};
        lastClean := now;
      }
      var existsA := sum in poolA;
      var existsB := sum in poolB;
      if !existsA && !existsB {
        poolA := poolA + {sum};
      }
      fresh' := !(existsA || existsB);
    }
  }

  // ------------------------------------------------------------------------- the window

  predicate Ordered<T>(run: seq<Attempt<T>>) {
    forall i, j :: 0 <= i < j < |run| ==> run[i].now <= run[j].now
  }

  /** `sum`, accepted at time `t`, is still remembered; the second pool turned over after `t`. */
  predicate Remembers<T(==)>(f: Filter<T>, sum: T, t: int) {
    sum in f.poolA || (sum in f.poolB && f.lastClean >= t)
  }

  lemma {:induction false} RunRemembers<T>(f: Filter<T>, run: seq<Attempt<T>>, sum: T, t: int)
    requires Remembers(f, sum, t)
    requires forall i :: 0 <= i < |run| ==> t <= run[i].now < t + f.interval
    ensures Remembers(AfterAll(f, run), sum, t) && AfterAll(f, run).interval == f.interval
    decreases |run|
  {
    if run != [] {
      assert forall i :: 0 <= i < |run[1..]| ==> run[1..][i] == run[i + 1];
      assert Remembers(After(f, run[0]), sum, t);
      RunRemembers(After(f, run[0]), run[1..], sum, t);
    }
  }

  lemma {:induction false} AfterAppend<T>(f: Filter<T>, a: seq<Attempt<T>>, b: seq<Attempt<T>>)
    ensures AfterAll(f, a + b) == AfterAll(AfterAll(f, a), b)
    decreases |a|
  {
    if a == [] {
      assert a + b == b;
    } else {
      assert (a + b)[0] == a[0] && (a + b)[1..] == a[1..] + b;
      AfterAppend(After(f, a[0]), a[1..], b);
    }
  }

  lemma {:induction false} Facts<T>(f: Filter<T>, run: seq<Attempt<T>>, sum: T)
    ensures AfterAll(f, run).interval == f.interval
    ensures sum in AfterAll(f, run).poolA + AfterAll(f, run).poolB ==>
      sum in f.poolA + f.poolB || exists i :: 0 <= i < |run| && run[i].sum == sum && AcceptedAt(f, run, i)
    decreases |run|
  {
    if run != [] {
      var rest := run[1..];
      var g := After(f, run[0]);
      Facts(g, rest, sum);
      if sum in g.poolA + g.poolB && sum !in f.poolA + f.poolB {
        assert run[..0] == [];
        assert AcceptedAt(f, run, 0);
      } else if i :| 0 <= i < |rest| && rest[i].sum == sum && AcceptedAt(g, rest, i) {
        assert run[..i + 1][0] == run[0] && run[..i + 1][1..] == rest[..i];
        assert AcceptedAt(f, run, i + 1);
      }
    }
  }

  /** THE WINDOW. From any filter, along any run on a clock that does not go back: a value
      accepted at `t` is rejected at every later call before `t + interval`, however often
      the pools turned over in between. */
  lemma {:induction false} ReplayRejected<T>(f: Filter<T>, run: seq<Attempt<T>>, i: nat, j: nat)
    requires Ordered(run) && i < j < |run| && run[i].sum == run[j].sum
    requires AcceptedAt(f, run, i) && run[j].now < run[i].now + f.interval
    ensures !AcceptedAt(f, run, j)
  {
    var t, sum := run[i].now, run[i].sum;
    var before, between := run[..i], run[i + 1..j];
    Facts(f, before, sum);
    var at := AfterAll(f, before);
    assert run[..j] == before + ([run[i]] + between);
    AfterAppend(f, before, [run[i]] + between);
    assert ([run[i]] + between)[1..] == between;
    var g := After(at, run[i]);
    forall k | 0 <= k < |between| ensures t <= between[k].now < t + g.interval {
      assert between[k] == run[i + 1 + k];
    }
    RunRemembers(g, between, sum, t);
  }

  /** A new filter accepts every value that it has not accepted before, at any time. */
  lemma {:induction false} FreshAccepted<T>(run: seq<Attempt<T>>, interval: int, start: int, j: nat)
    requires j < |run|
    ensures !AcceptedAt(Filter({}, {}, interval, start), run, j) ==>
      exists i :: 0 <= i < j && run[i].sum == run[j].sum && AcceptedAt(Filter({}, {}, interval, start), run, i)
  {
    var f: Filter<T> := Filter({}, {}, interval, start);
    Facts(f, run[..j], run[j].sum);
    if i :| 0 <= i < j && run[..j][i].sum == run[j].sum && AcceptedAt(f, run[..j], i) {
      assert run[..j][..i] == run[..i];
      assert AcceptedAt(f, run, i);
    }
  }

  // ------------------------------------------------------------------ and forgotten again

  /** Where a value is that was accepted: in the first pool, in the second one since some time,
      or in neither. */
  datatype Place = First | Second(since: int) | Gone

  function Moved(p: Place, lastClean: int, interval: int, now: int): Place {
    match p
    case First => if now - lastClean >= interval then Second(now) else First
    case Second(since) => if now - since >= interval then Gone else p
    case Gone => Gone
  }

  /** The value's place after the calls at these times. */
  function PlaceAfter(lastClean: int, interval: int, times: seq<int>): Place {
    if times == [] then First
    else Moved(PlaceAfter(lastClean, interval, times[..|times| - 1]), lastClean, interval, times[|times| - 1])
  }

  predicate IsAt<T(==)>(f: Filter<T>, sum: T, p: Place, lastClean: int) {
    match p
    case First => sum in f.poolA && f.lastClean == lastClean
    case Second(since) => sum in f.poolB && sum !in f.poolA && f.lastClean == since
    case Gone => sum !in f.poolA && sum !in f.poolB
  }

  function Times<T>(run: seq<Attempt<T>>): (ts: seq<int>)
    ensures |ts| == |run| && forall i :: 0 <= i < |run| ==> ts[i] == run[i].now
  {
    seq(|run|, i requires 0 <= i < |run| => run[i].now)
  }

  /** One call, before it enters its own value. */
  lemma {:induction false} Turned<T>(f: Filter<T>, sum: T, p: Place, lastClean: int, a: Attempt<T>)
    requires IsAt(f, sum, p, lastClean)
    ensures IsAt(Rotate(f, a.now), sum, Moved(p, lastClean, f.interval, a.now), lastClean)
    ensures a.sum != sum || !Accepts(f, a) ==>
              IsAt(After(f, a), sum, Moved(p, lastClean, f.interval, a.now), lastClean)
  {
  }

  lemma {:induction false} AfterSnoc<T>(f: Filter<T>, run: seq<Attempt<T>>, a: Attempt<T>)
    ensures AfterAll(f, run + [a]) == After(AfterAll(f, run), a)
  {
    AfterAppend(f, run, [a]);
    assert [a][1..] == [];
  }

  /** While the value is not accepted again, its place follows from the times of the calls. */
  lemma {:induction false} PlaceKept<T>(f: Filter<T>, sum: T, run: seq<Attempt<T>>)
    requires sum in f.poolA
    requires forall k :: 0 <= k < |run| && run[k].sum == sum ==> !AcceptedAt(f, run, k)
    ensures IsAt(AfterAll(f, run), sum, PlaceAfter(f.lastClean, f.interval, Times(run)), f.lastClean)
    ensures AfterAll(f, run).interval == f.interval
    decreases |run|
  {
    Facts(f, run, sum);
    if run != [] {
      var n := |run| - 1;
      var before, a := run[..n], run[n];
      assert run == before + [a] && Times(run)[..n] == Times(before);
      forall k | 0 <= k < n && before[k].sum == sum ensures !AcceptedAt(f, before, k) {
        assert before[..k] == run[..k] && !AcceptedAt(f, run, k);
      }
      PlaceKept(f, sum, before);
      AfterSnoc(f, before, a);
      assert a.sum == sum ==> !AcceptedAt(f, run, n);
      Turned(AfterAll(f, before), sum, PlaceAfter(f.lastClean, f.interval, Times(before)), f.lastClean, a);
    }
  }

  predicate Sorted(ts: seq<int>) {
    forall i, j :: 0 <= i < j < |ts| ==> ts[i] <= ts[j]
  }

  /** Two calls that lie an interval after the last clean-up and an interval apart. */
  predicate TwoTurns(lastClean: int, interval: int, ts: seq<int>) {
    exists p, q :: 0 <= p < q < |ts| && TurnsAt(lastClean, interval, ts, p, q)
  }

  predicate TurnsAt(lastClean: int, interval: int, ts: seq<int>, p: nat, q: nat)
    requires p < q < |ts|
  {
    ts[p] - lastClean >= interval && ts[q] - ts[p] >= interval
  }

  /** The first call that lies an interval after the last clean-up. */
  predicate FirstTurn(lastClean: int, interval: int, ts: seq<int>, k: nat) {
    && k < |ts| && ts[k] - lastClean >= interval
    && forall j :: 0 <= j < k ==> ts[j] - lastClean < interval
  }

  /** All calls lie within an interval of the last clean-up. */
  predicate NoTurn(lastClean: int, interval: int, ts: seq<int>) {
    forall j :: 0 <= j < |ts| ==> ts[j] - lastClean < interval
  }

  /** What the calls say of the place; `k` is the first turn-over, if there is just one. */
  predicate Told(lastClean: int, interval: int, ts: seq<int>, p: Place, k: nat) {
    match p
    case First => NoTurn(lastClean, interval, ts) && !TwoTurns(lastClean, interval, ts)
    case Second(since) => FirstTurn(lastClean, interval, ts, k) && ts[k] == since && !TwoTurns(lastClean, interval, ts)
    case Gone => TwoTurns(lastClean, interval, ts)
  }

  lemma {:induction false} FromFirst(lastClean: int, interval: int, ts: seq<int>, t: int)
    requires NoTurn(lastClean, interval, ts)
    ensures Told(lastClean, interval, ts + [t], Moved(First, lastClean, interval, t), |ts|)
  {
    var all := ts + [t];
    forall p, q | 0 <= p < q < |all| ensures !TurnsAt(lastClean, interval, all, p, q) {
      assert all[p] == ts[p];
    }
    assert forall j :: 0 <= j < |ts| ==> all[j] == ts[j];
  }

  lemma {:induction false} FromSecond(lastClean: int, interval: int, ts: seq<int>, t: int, k: nat)
    requires Sorted(ts + [t]) && FirstTurn(lastClean, interval, ts, k)
    ensures Told(lastClean, interval, ts + [t], Moved(Second(ts[k]), lastClean, interval, t), k)
  {
    var all, n := ts + [t], |ts|;
    assert forall j :: 0 <= j < n ==> all[j] == ts[j];
    assert all[n] == t;
    if t - ts[k] >= interval {
      assert TurnsAt(lastClean, interval, all, k, n);
    } else {
      forall p, q | 0 <= p < q < |all| ensures !TurnsAt(lastClean, interval, all, p, q) {
        if k < p {
          assert all[k] <= all[p];
        }
        if q < n {
          assert all[q] <= all[n];
        }
      }
    }
  }

  lemma {:induction false} FromGone(lastClean: int, interval: int, ts: seq<int>, t: int)
    requires TwoTurns(lastClean, interval, ts)
    ensures TwoTurns(lastClean, interval, ts + [t])
  {
    var p, q :| 0 <= p < q < |ts| && TurnsAt(lastClean, interval, ts, p, q);
    assert TurnsAt(lastClean, interval, ts + [t], p, q);
  }

  lemma {:induction false} PlaceExactly(lastClean: int, interval: int, ts: seq<int>) returns (k: nat)
    requires Sorted(ts)
    ensures Told(lastClean, interval, ts, PlaceAfter(lastClean, interval, ts), k)
    decreases |ts|
  {
    k := 0;
    if ts != [] {
      var n := |ts| - 1;
      var before, t := ts[..n], ts[n];
      assert ts == before + [t];
      k := PlaceExactly(lastClean, interval, before);
      match PlaceAfter(lastClean, interval, before) {
        case First =>
          FromFirst(lastClean, interval, before, t);
          k := n;
        case Second(_) => FromSecond(lastClean, interval, before, t, k);
        case Gone => FromGone(lastClean, interval, before, t);
      }
    }
  }

  /** From a filter that has just accepted the value. */
  lemma {:induction false} AgainFrom<T>(g: Filter<T>, between: seq<Attempt<T>>, a: Attempt<T>)
    requires a.sum in g.poolA && Sorted(Times(between + [a]))
    requires forall k :: 0 <= k < |between| && between[k].sum == a.sum ==> !AcceptedAt(g, between, k)
    ensures Accepts(AfterAll(g, between), a) <==> TwoTurns(g.lastClean, g.interval, Times(between + [a]))
  {
    PlaceKept(g, a.sum, between);
    Turned(AfterAll(g, between), a.sum, PlaceAfter(g.lastClean, g.interval, Times(between)), g.lastClean, a);
    assert Times(between + [a])[..|between|] == Times(between);
    var k := PlaceExactly(g.lastClean, g.interval, Times(between + [a]));
  }

  lemma {:induction false} SuffixAccepts<T>(f: Filter<T>, run: seq<Attempt<T>>, i: nat, j: nat, k: nat)
    requires i <= j <= |run| && k < j - i
    ensures AcceptedAt(AfterAll(f, run[..i]), run[i..j], k) <==> AcceptedAt(f, run, i + k)
  {
    assert run[..i + k] == run[..i] + run[i..j][..k];
    AfterAppend(f, run[..i], run[i..j][..k]);
  }

  /** FORGOTTEN. Along any run on a clock that does not go back: a value that was accepted, and not
      again since, is accepted at a later call if and only if among the calls from then on, that
      one included, there are two that lie an interval apart, the first of them an interval after
      the pools were last turned over. */
  lemma {:induction false} AcceptedAgain<T>(f: Filter<T>, run: seq<Attempt<T>>, i: nat, j: nat)
    requires Ordered(run) && i < j < |run| && run[i].sum == run[j].sum && AcceptedAt(f, run, i)
    requires forall k :: i < k < j && run[k].sum == run[j].sum ==> !AcceptedAt(f, run, k)
    ensures AcceptedAt(f, run, j) <==>
            TwoTurns(AfterAll(f, run[..i + 1]).lastClean, f.interval, Times(run[i + 1..j + 1]))
  {
    var g, between := AfterAll(f, run[..i + 1]), run[i + 1..j];
    assert run[..i + 1] == run[..i] + [run[i]];
    AfterSnoc(f, run[..i], run[i]);
    Facts(f, run[..i + 1], run[j].sum);
    forall k | 0 <= k < |between| && between[k].sum == run[j].sum ensures !AcceptedAt(g, between, k) {
      SuffixAccepts(f, run, i + 1, j, k);
    }
    assert between + [run[j]] == run[i + 1..j + 1];
    AgainFrom(g, between, run[j]);
    assert run[..j] == run[..i + 1] + between;
    AfterAppend(f, run[..i + 1], between);
  }
}
