/** The two-map DNS cache and its background migration (app/dns/cache_controller.go). */
module DnsCache {
  import opened Bytes

  /** IPRecord. `expire` is in nanoseconds; a record with no address is a negative answer. */
  datatype Answer = Answer(ips: seq<seq<byte>>, expire: int, rcode: nat)

  /** record: what is cached for a domain, per address family. */
  datatype Pair = Pair(a: Option<Answer>, aaaa: Option<Answer>)

  datatype Family = V4 | V6

  type Table = map<string, Pair>

  const SECOND := 1_000_000_000
  const EMPTY_REBUILD := 512
  const SHRINK_BY := 10240
  const BATCH := 4096

  datatype Config = Config(serveStale: bool, serveExpiredTtl: int)

  /** getIPs' remaining time to live in whole seconds, rounded up. */
  function Ttl(r: Answer, now: int): int {
    -((now - r.expire) / SECOND)
  }

  function Half(p: Pair, f: Family): Option<Answer> {
    if f.V4? then p.a else p.aaaa
  }

  function HalfIn(t: Table, d: string, f: Family): Option<Answer> {
    if d in t then Half(t[d], f) else None
  }

  /** The background goroutine: not yet looking at the old map, or with keys left to copy. */
  datatype Job = Waiting | Copying(source: Table, todo: set<string>)

  datatype Cache = Cache(ips: Table, dirty: Option<Table>, mark: nat, jobs: seq<Job>)

  /** What is cached: the new map's half, else the old map's. */
  function View(c: Cache, d: string, f: Family): Option<Answer> {
    if HalfIn(c.ips, d, f).Some? then HalfIn(c.ips, d, f)
    else if c.dirty.Some? then HalfIn(c.dirty.value, d, f) else None
  }

  // ------------------------------------------------------------------------- the steps

  /** updateRecord's lock region. */
  function Updated(ips: Table, d: string, f: Family, r: Answer): Table {
    var other := HalfIn(ips, d, if f.V4? then V6 else V4);
    ips[d := if f.V4? then Pair(Some(r), other) else Pair(other, Some(r))]
  }

  /** Before this instant a record is expired beyond any use. */
  function Cutoff(cfg: Config, now: int): int {
    if cfg.serveStale && cfg.serveExpiredTtl != 0 then now + cfg.serveExpiredTtl * SECOND else now
  }

  predicate Expired(r: Option<Answer>, cutoff: int) {
    r.Some? && r.value.expire < cutoff
  }

  function Live(r: Option<Answer>, cutoff: int): Option<Answer> {
    if Expired(r, cutoff) then None else r
  }

  /** writeAndShrink's treatment of one key. */
  function CleanedKey(ips: Table, d: string, cutoff: int): Table {
    if d !in ips then ips
    else if Expired(ips[d].a, cutoff) && Expired(ips[d].aaaa, cutoff) then ips - {d}
    else ips[d := Pair(Live(ips[d].a, cutoff), Live(ips[d].aaaa, cutoff))]
  }

  function Cleaned(ips: Table, keys: seq<string>, cutoff: int): Table
    decreases |keys|
  {
    if keys == [] then ips else Cleaned(CleanedKey(ips, keys[0], cutoff), keys[1..], cutoff)
  }

  predicate Shrinks(mark: nat, size: nat) {
    mark - size > SHRINK_BY && (mark - size) as real > mark as real * 0.65
  }

  /** writeAndShrink. */
  function CleanupStep(c: Cache, keys: seq<string>, cutoff: int): Cache {
    if c.dirty.Some? then c
    else
      var mark := if |c.ips| > c.mark then |c.ips| else c.mark;
      var ips := Cleaned(c.ips, keys, cutoff);
      if |ips| == 0 then
        if mark >= EMPTY_REBUILD then c.(ips := map[], mark := 0) else c.(ips := ips, mark := mark)
      else if Shrinks(mark, |ips|) then Cache(map[], Some(ips), |ips|, c.jobs + [Waiting])
      else c.(ips := ips, mark := mark)
  }

  /** flush's treatment of one entry: a half already in the new map stays. */
  function MovedKey(ips: Table, d: string, from: Pair): Table {
    if d in ips then
      ips[d := Pair(if ips[d].a.None? then from.a else ips[d].a, if ips[d].aaaa.None? then from.aaaa else ips[d].aaaa)]
    else ips[d := from]
  }

  function Moved(ips: Table, source: Table, batch: seq<string>): Table
    requires forall d :: d in batch ==> d in source
    decreases |batch|
  {
    if batch == [] then ips else Moved(MovedKey(ips, batch[0], source[batch[0]]), source, batch[1..])
  }

  function Without<T>(s: seq<T>, i: nat): seq<T>
    requires i < |s|
  {
    s[..i] + s[i + 1..]
  }

  /** One event is one region under the cache's lock. */
  datatype Event =
    | Update(d: string, f: Family, r: Answer)
    | Cleanup(keys: seq<string>, cutoff: int)
    | Capture(j: nat)
    | Flush(j: nat, batch: seq<string>)
    | Finish(j: nat)
    | Clear

  predicate Enabled(c: Cache, e: Event) {
    match e
    case Update(_, _, _) => true
    case Cleanup(_, _) => true
    case Capture(j) => j < |c.jobs| && c.jobs[j].Waiting?
    case Flush(j, batch) =>
      && j < |c.jobs| && c.jobs[j].Copying? && 0 < |batch| <= BATCH
      && (forall d :: d in batch ==> d in c.jobs[j].todo && d in c.jobs[j].source)
    case Finish(j) => j < |c.jobs| && c.jobs[j].Copying? && c.jobs[j].todo == {}
    case Clear => true
  }

  function Step(c: Cache, e: Event): Cache
    requires Enabled(c, e)
  {
    match e
    case Update(d, f, r) => c.(ips := Updated(c.ips, d, f, r))
    case Cleanup(keys, cutoff) => CleanupStep(c, keys, cutoff)
    case Capture(j) =>
      if c.dirty.None? then c.(jobs := Without(c.jobs, j))
      else c.(jobs := c.jobs[j := Copying(c.dirty.value, c.dirty.value.Keys)])
    case Flush(j, batch) =>
      c.(ips := Moved(c.ips, c.jobs[j].source, batch),
         jobs := c.jobs[j := c.jobs[j].(todo := c.jobs[j].todo - set d | d in batch)])
    case Finish(j) => c.(dirty := None, jobs := Without(c.jobs, j))
    case Clear => Cache(map[], None, 0, c.jobs)
  }

  // ----------------------------------------------------------------- what each step does

  lemma {:induction false} CleanedExact(ips: Table, keys: seq<string>, cutoff: int, d: string, f: Family)
    ensures HalfIn(Cleaned(ips, keys, cutoff), d, f) ==
      if d in keys then Live(HalfIn(ips, d, f), cutoff) else HalfIn(ips, d, f)
    decreases |keys|
  {
    if keys != [] {
      CleanedExact(CleanedKey(ips, keys[0], cutoff), keys[1..], cutoff, d, f);
      assert d in keys <==> d == keys[0] || d in keys[1..];
    }
  }

  lemma {:induction false} MovedExact(ips: Table, source: Table, batch: seq<string>, d: string, f: Family)
    requires forall k :: k in batch ==> k in source
    ensures HalfIn(Moved(ips, source, batch), d, f) ==
      if HalfIn(ips, d, f).None? && d in batch then HalfIn(source, d, f) else HalfIn(ips, d, f)
    decreases |batch|
  {
    if batch != [] {
      MovedExact(MovedKey(ips, batch[0], source[batch[0]]), source, batch[1..], d, f);
      assert d in batch <==> d == batch[0] || d in batch[1..];
    }
  }

  // ---------------------------------------------------------------------- the invariant

  /** What has been copied out of the old map is no longer needed in it. */
  predicate Copied(c: Cache, job: Job)
    requires job.Copying?
  {
    forall d, f :: d in job.source && d !in job.todo && HalfIn(job.source, d, f).Some? ==> HalfIn(c.ips, d, f).Some?
  }

  /** One job while there is an old map, and none otherwise. */
  predicate Inv(c: Cache) {
    if c.dirty.None? then c.jobs == []
    else |c.jobs| == 1 && (c.jobs[0].Copying? ==> c.jobs[0].source == c.dirty.value && Copied(c, c.jobs[0]))
  }

  /** The cache is not cleared in the middle of a migration. */
  predicate Undisturbed(c: Cache, e: Event) {
    e.Clear? ==> c.dirty.None?
  }

  lemma {:induction false} StepKeeps(c: Cache, e: Event)
    requires Inv(c) && Enabled(c, e) && Undisturbed(c, e)
    ensures Inv(Step(c, e))
  {
    if e.Flush? {
      forall d, f | d in c.jobs[0].source && d !in Step(c, e).jobs[0].todo && HalfIn(c.jobs[0].source, d, f).Some?
        ensures HalfIn(Step(c, e).ips, d, f).Some?
      {
        MovedExact(c.ips, c.jobs[0].source, e.batch, d, f);
      }
    }
  }

  /** The one map that the two maps stand for, half by half: an update sets its own half, a
      cleanup outside a migration drops the expired halves of its keys, the rest changes nothing. */
  function Spec(v: Option<Answer>, e: Event, idle: bool, d: string, f: Family): Option<Answer> {
    match e
    case Update(d', f', r) => if d == d' && f == f' then Some(r) else v
    case Cleanup(keys, cutoff) => if idle && d in keys then Live(v, cutoff) else v
    case Clear => None
    case _ => v
  }

  lemma {:induction false} UpdateRefines(c: Cache, e: Event, d: string, f: Family)
    requires e.Update?
    ensures View(Step(c, e), d, f) == Spec(View(c, d, f), e, c.dirty.None?, d, f)
  {
    var ips := Updated(c.ips, e.d, e.f, e.r);
    assert HalfIn(ips, d, f) == if d == e.d && f == e.f then Some(e.r) else HalfIn(c.ips, d, f);
  }

  lemma {:induction false} CleanupRefines(c: Cache, e: Event, d: string, f: Family)
    requires e.Cleanup?
    ensures View(Step(c, e), d, f) == Spec(View(c, d, f), e, c.dirty.None?, d, f)
  {
    if c.dirty.None? {
      CleanedExact(c.ips, e.keys, e.cutoff, d, f);
      var ips := Cleaned(c.ips, e.keys, e.cutoff);
      assert |ips| == 0 ==> ips == map[];
    }
  }

  function DirtyHalf(c: Cache, d: string, f: Family): Option<Answer> {
    if c.dirty.Some? then HalfIn(c.dirty.value, d, f) else None
  }

  /** A batch brings in a half that the cache does not have, or the end of a migration drops an
      old map whose half has not been copied. */
  predicate Departs(c: Cache, e: Event, d: string, f: Family)
    requires Enabled(c, e)
  {
    match e
    case Flush(j, batch) =>
      && HalfIn(c.ips, d, f).None? && d in batch
      && HalfIn(c.jobs[j].source, d, f).Some? && HalfIn(c.jobs[j].source, d, f) != DirtyHalf(c, d, f)
    case Finish(_) => HalfIn(c.ips, d, f).None? && DirtyHalf(c, d, f).Some?
    case _ => false
  }

  /** ONE MAP, EXACTLY. In every state, with any number of migrations going on, a step changes
      the view as one map would if and only if it does not depart. */
  lemma {:induction false} StepExact(c: Cache, e: Event, d: string, f: Family)
    requires Enabled(c, e)
    ensures View(Step(c, e), d, f) == Spec(View(c, d, f), e, c.dirty.None?, d, f) <==> !Departs(c, e, d, f)
    ensures Departs(c, e, d, f) ==>
      View(Step(c, e), d, f) == if e.Flush? then HalfIn(c.jobs[e.j].source, d, f) else None
  {
    match e
    case Update(_, _, _) => UpdateRefines(c, e, d, f);
    case Cleanup(_, _) => CleanupRefines(c, e, d, f);
    case Flush(j, batch) => MovedExact(c.ips, c.jobs[j].source, batch, d, f);
    case Finish(_) =>
    case Capture(_) =>
    case Clear =>
  }

  /** ONE MAP. Where the cache has not been cleared in the middle of a migration, no step
      departs: every step changes the view as one map would. */
  lemma {:induction false} StepRefines(c: Cache, e: Event, d: string, f: Family)
    requires Inv(c) && Enabled(c, e)
    ensures !Departs(c, e, d, f)
    ensures View(Step(c, e), d, f) == Spec(View(c, d, f), e, c.dirty.None?, d, f)
  {
    if e.Finish? {
      assert Copied(c, c.jobs[0]) && (d in c.dirty.value ==> d !in c.jobs[0].todo);
    }
    StepExact(c, e, d, f);
  }

  predicate Runs(c: Cache, es: seq<Event>)
    decreases |es|
  {
    es == [] || (Enabled(c, es[0]) && Runs(Step(c, es[0]), es[1..]))
  }

  /** No step of the run clears the cache in the middle of a migration. */
  predicate Calm(c: Cache, es: seq<Event>)
    requires Runs(c, es)
    decreases |es|
  {
    es == [] || (Undisturbed(c, es[0]) && Calm(Step(c, es[0]), es[1..]))
  }

  /** No step of the run departs from one map at this half. */
  predicate Faithful(c: Cache, es: seq<Event>, d: string, f: Family)
    requires Runs(c, es)
    decreases |es|
  {
    es == [] || (!Departs(c, es[0], d, f) && Faithful(Step(c, es[0]), es[1..], d, f))
  }

  function After(c: Cache, es: seq<Event>): Cache
    requires Runs(c, es)
    decreases |es|
  {
    if es == [] then c else After(Step(c, es[0]), es[1..])
  }

  /** The same run on one map: `idle` says at which events no migration was going on. */
  function SpecAll(v: Option<Answer>, es: seq<Event>, idle: seq<bool>, d: string, f: Family): Option<Answer>
    requires |es| == |idle|
    decreases |es|
  {
    if es == [] then v else SpecAll(Spec(v, es[0], idle[0], d, f), es[1..], idle[1..], d, f)
  }

  function Idles(c: Cache, es: seq<Event>): (bs: seq<bool>)
    requires Runs(c, es)
    ensures |bs| == |es|
    decreases |es|
  {
    if es == [] then [] else [c.dirty.None?] + Idles(Step(c, es[0]), es[1..])
  }

  /** MIGRATION REFINES ONE MAP, over every run of updates, cleanups, batches, drops and
      clears, whatever they interrupt, as long as no step departs ... */
  lemma {:induction false} RunRefines(c: Cache, es: seq<Event>, d: string, f: Family)
    requires Runs(c, es) && Faithful(c, es, d, f)
    ensures View(After(c, es), d, f) == SpecAll(View(c, d, f), es, Idles(c, es), d, f)
    decreases |es|
  {
    if es != [] {
      StepExact(c, es[0], d, f);
      RunRefines(Step(c, es[0]), es[1..], d, f);
      assert Idles(c, es)[1..] == Idles(Step(c, es[0]), es[1..]);
    }
  }

  /** ... and none does where no clear interrupts a migration. */
  lemma {:induction false} CalmIsFaithful(c: Cache, es: seq<Event>, d: string, f: Family)
    requires Inv(c) && Runs(c, es) && Calm(c, es)
    ensures Inv(After(c, es)) && Faithful(c, es, d, f)
    decreases |es|
  {
    if es != [] {
      StepKeeps(c, es[0]);
      StepRefines(c, es[0], d, f);
      CalmIsFaithful(Step(c, es[0]), es[1..], d, f);
    }
  }

  // ------------------------------------------------------------------------- look-ups

  /** findRecords. */
  function Find(c: Cache, d: string): Option<Pair> {
    if d in c.ips then Some(c.ips[d])
    else if c.dirty.Some? && d in c.dirty.value then Some(c.dirty.value[d]) else None
  }

  function FoundHalf(c: Cache, d: string, f: Family): Option<Answer> {
    if Find(c, d).Some? then Half(Find(c, d).value, f) else None
  }

  /** A look-up gives each half as the one map has it, or nothing; nothing although there is
      something exactly when the half waits in the old map behind the domain's new record. */
  lemma {:induction false} FindAgrees(c: Cache, es: seq<Event>, d: string, f: Family)
    requires Runs(c, es) && Faithful(c, es, d, f)
    ensures var t := After(c, es); var v := SpecAll(View(c, d, f), es, Idles(c, es), d, f);
      && (FoundHalf(t, d, f) == v || FoundHalf(t, d, f) == None)
      && (FoundHalf(t, d, f) != v <==>
            d in t.ips && HalfIn(t.ips, d, f).None? && t.dirty.Some? && HalfIn(t.dirty.value, d, f).Some?)
  {
    RunRefines(c, es, d, f);
  }

  // --------------------------------------------------------------------------- cleanup

  /** collectExpiredKeys. */
  function ExpiredKeys(ips: Table, cutoff: int): set<string> {
    set d | d in ips && (Expired(ips[d].a, cutoff) || Expired(ips[d].aaaa, cutoff))
  }

  /** Cleanup is exact: with the keys collected from the same table it removes the expired
      halves and nothing else. */
  lemma {:induction false} CleanupExact(c: Cache, keys: seq<string>, cutoff: int, d: string, f: Family)
    requires Inv(c) && c.dirty.None?
    requires (set k | k in keys) == ExpiredKeys(c.ips, cutoff)
    ensures View(CleanupStep(c, keys, cutoff), d, f) == Live(View(c, d, f), cutoff)
  {
    StepRefines(c, Cleanup(keys, cutoff), d, f);
    if Expired(View(c, d, f), cutoff) {
      assert d in ExpiredKeys(c.ips, cutoff);
    }
  }

  /** A domain leaves the table exactly when both its halves exist and are expired ... */
  lemma {:induction false} DomainRemoved(ips: Table, keys: seq<string>, cutoff: int, d: string)
    requires d in ips
    ensures d !in Cleaned(ips, keys, cutoff) <==>
      d in keys && Expired(ips[d].a, cutoff) && Expired(ips[d].aaaa, cutoff)
    decreases |keys|
  {
    if keys != [] {
      var next := CleanedKey(ips, keys[0], cutoff);
      assert d in keys <==> d == keys[0] || d in keys[1..];
      if d in next {
        DomainRemoved(next, keys[1..], cutoff, d);
      } else {
        StaysOut(next, keys[1..], cutoff, d);
      }
    }
  }

  lemma {:induction false} StaysOut(ips: Table, keys: seq<string>, cutoff: int, d: string)
    requires d !in ips
    ensures d !in Cleaned(ips, keys, cutoff)
    decreases |keys|
  {
    if keys != [] {
      StaysOut(CleanedKey(ips, keys[0], cutoff), keys[1..], cutoff, d);
    }
  }

  /** ... so one that was only ever asked for one family leaves an empty record behind, which
      no cleanup removes. */
  lemma {:induction false} SingleFamilyNeverLeaves(ips: Table, keys: seq<string>, cutoff: int, d: string)
    requires d in ips && (ips[d].a.None? || ips[d].aaaa.None?)
    ensures d in Cleaned(ips, keys, cutoff)
    ensures d in keys && (forall f :: Half(ips[d], f).None? || Expired(Half(ips[d], f), cutoff)) ==>
      Cleaned(ips, keys, cutoff)[d] == Pair(None, None)
  {
    DomainRemoved(ips, keys, cutoff, d);
    CleanedExact(ips, keys, cutoff, d, V4);
    CleanedExact(ips, keys, cutoff, d, V6);
    assert Half(ips[d], V4) == ips[d].a && Half(ips[d], V6) == ips[d].aaaa;
  }

  /** A MIGRATION STARTS exactly at a cleanup, outside a migration, that leaves something in the
      table but more than 10240 and more than 65 percent less than its largest size so far; then
      what is left is the old map. */
  lemma {:induction false} ShrinksExactly(c: Cache, e: Event)
    requires Enabled(c, e) && c.dirty.None?
    ensures var n := Step(c, e);
      && (n.dirty.Some? <==>
            && e.Cleanup?
            && var left, most := |Cleaned(c.ips, e.keys, e.cutoff)|, if |c.ips| > c.mark then |c.ips| else c.mark;
               0 < left && most - left > 10240 && 100 * (most - left) > 65 * most)
      && (n.dirty.Some? ==> n.ips == map[] && n.dirty.value == Cleaned(c.ips, e.keys, e.cutoff)
                            && n.jobs == c.jobs + [Waiting])
  {
    if e.Cleanup? {
      var left, most := |Cleaned(c.ips, e.keys, e.cutoff)|, if |c.ips| > c.mark then |c.ips| else c.mark;
      assert 100.0 * (most - left) as real == (100 * (most - left)) as real;
      assert 65.0 * most as real == (65 * most) as real;
    }
  }

  // ------------------------------------------------------ clearing during a migration

  /** A cache that is cleared while its old map is being copied: the cleared answer returns. */
  lemma {:induction false} ClearDoesNotStopMigration()
    ensures var r := Answer([[1, 2, 3, 4]], 0, 0); var m: Table := map["a." := Pair(Some(r), None)];
      var c := Cache(map[], Some(m), 1, [Copying(m, {"a."})]);
      && Inv(c)
      && View(Step(c, Clear), "a.", V4) == None
      && Enabled(Step(c, Clear), Flush(0, ["a."]))
      && View(Step(Step(c, Clear), Flush(0, ["a."])), "a.", V4) == Some(r)
  {
    var r := Answer([[1, 2, 3, 4]], 0, 0);
    var m: Table := map["a." := Pair(Some(r), None)];
    var c := Cache(map[], Some(m), 1, [Copying(m, {"a."})]);
    var cleared := Step(c, Clear);
    assert "a." in ["a."];
    assert Enabled(cleared, Flush(0, ["a."]));
    MovedExact(cleared.ips, m, ["a."], "a.", V4);
  }

  /** Any migration that starts while the goroutine of a cleared one has yet to finish loses
      everything to it: the goroutine drops the old map, whichever it is. */
  lemma {:induction false} StaleFinishLosesAll(c: Cache, j: nat, keys: seq<string>, cutoff: int, d: string, f: Family)
    requires c.dirty.None? && Enabled(c, Finish(j)) && CleanupStep(c, keys, cutoff).dirty.Some?
    ensures var m := CleanupStep(c, keys, cutoff);
      && Enabled(m, Finish(j))
      && View(m, d, f) == (if d in keys then Live(View(c, d, f), cutoff) else View(c, d, f))
      && View(Step(m, Finish(j)), d, f) == None
      && (Departs(m, Finish(j), d, f) <==> View(m, d, f).Some?)
  {
    CleanupRefines(c, Cleanup(keys, cutoff), d, f);
  }

  /** One answer in the old map of the second migration, lost to the end of the first. */
  lemma {:induction false} StaleFinishLoses(r: Answer, m1: Table)
    ensures var m2: Table := map["b." := Pair(Some(r), None)];
      var c := Cache(map[], Some(m2), 1, [Copying(m1, {}), Waiting]);
      && Enabled(c, Finish(0)) && Departs(c, Finish(0), "b.", V4)
      && View(c, "b.", V4) == Some(r) && View(Step(c, Finish(0)), "b.", V4) == None
  {
    var m2: Table := map["b." := Pair(Some(r), None)];
    StepExact(Cache(map[], Some(m2), 1, [Copying(m1, {}), Waiting]), Finish(0), "b.", V4);
  }
}
