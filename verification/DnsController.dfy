/** CacheController itself: the fields and methods that take the steps of DnsCache. */
module DnsController {
  import opened Bytes
  import opened DnsCache

  class CacheController {
    const disableCache: bool
    const cfg: Config
    var ips: Table
    var dirty: Option<Table>
    var mark: nat
    var jobs: seq<Job>           // the migrations running in the background

    function Value(): Cache
      reads this
    {
      Cache(ips, dirty, mark, jobs)
    }

    constructor (disableCache: bool, serveStale: bool, serveExpiredTtl: nat)
      requires serveExpiredTtl < 0x1_0000_0000
      ensures Value() == Cache(map[], None, 0, []) && Inv(Value())
      ensures this.disableCache == disableCache
      ensures cfg == Config(serveStale, Int32(-Int32(serveExpiredTtl)))
    {
      this.disableCache := disableCache;
      cfg := Config(serveStale, Int32(-Int32(serveExpiredTtl)));
      ips, dirty, mark, jobs := map[], None, 0, [];
    }

    method ClearCache()
      modifies this
      ensures Value() == Step(old(Value()), Clear)
    {
      ips, dirty, mark := map[], None, 0;
    }

    method FindRecords(d: string) returns (rec: Option<Pair>)
      ensures rec == Find(Value(), d)
    {
      rec := if d in ips then Some(ips[d]) else None;
      if rec.None? && dirty.Some? {
        rec := if d in dirty.value then Some(dirty.value[d]) else None;
      }
    }

    /** Announces the answer, stores its half, announces the other half too if it is fresh, and
        starts the periodic cleanup unless stale answers are served without limit. */
    method UpdateRecord(d: string, f: Family, r: Answer, now: int)
      returns (published: seq<(Family, Answer)>, cleanup: bool)
      modifies this`ips
      ensures Value() == if disableCache then old(Value()) else Step(old(Value()), Update(d, f, r))
      ensures var g := if f.V4? then V6 else V4; var other := View(old(Value()), d, g);
        published == [(f, r)] +
          if !disableCache && other.Some? && Ttl(other.value, now) > 0 then [(g, other.value)] else []
      ensures cleanup <==> !disableCache && (!cfg.serveStale || cfg.serveExpiredTtl != 0)
    {
      published, cleanup := [(f, r)], false;
      if disableCache {
        return;
      }
      var oldRec := if d in ips then ips[d] else Pair(None, None);
      var dirtyRec := if dirty.Some? && d in dirty.value then dirty.value[d] else Pair(None, None);
      var newRec := Pair(None, None);
      var pub: Option<Answer> := None;
      match f {
        case V4 =>
          newRec := newRec.(a := Some(r));
          if oldRec.aaaa.Some? {
            newRec := newRec.(aaaa := oldRec.aaaa);
            pub := oldRec.aaaa;
          } else if dirtyRec.aaaa.Some? {
            pub := dirtyRec.aaaa;
          }
        case V6 =>
          newRec := newRec.(aaaa := Some(r));
          if oldRec.a.Some? {
            newRec := newRec.(a := oldRec.a);
            pub := oldRec.a;
          } else if dirtyRec.a.Some? {
            pub := dirtyRec.a;
          }
      }
      ips := ips[d := newRec];
      if pub.Some? && Ttl(pub.value, now) > 0 {
        published := published + [(if f.V4? then V6 else V4, pub.value)];
      }
      if !cfg.serveStale || cfg.serveExpiredTtl != 0 {
        cleanup := true;
      }
    }

    /** None when there is nothing to do at all, which stops the periodic task. */
    method CollectExpiredKeys(now: int) returns (keys: Option<seq<string>>)
      ensures keys.None? <==> |ips| == 0
      ensures keys.Some? ==>
        (set d | d in keys.value) == if dirty.Some? then {} else ExpiredKeys(ips, Cutoff(cfg, now))
    {
      if |ips| == 0 {
        return None;
      }
      if dirty.Some? {
        return Some([]);
      }
      var cutoff := Cutoff(cfg, now);
      var found, left: set<string> := [], ips.Keys;
      while left != {}
        invariant left <= ips.Keys
        invariant (set d | d in found) == ExpiredKeys(ips, cutoff) - left
        decreases |left|
      {
        var d :| d in left;
        ghost var before := found;
        if Expired(ips[d].a, cutoff) || Expired(ips[d].aaaa, cutoff) {
          found := found + [d];
          assert (set k | k in found) == (set k | k in before) + {d};
        }
        left := left - {d};
      }
      keys := Some(found);
    }

    method WriteAndShrink(keys: seq<string>, now: int)
      modifies this
      ensures Value() == Step(old(Value()), Cleanup(keys, Cutoff(cfg, now)))
    {
      if dirty.Some? {
        return;
      }
      if |ips| > mark {
        mark := |ips|;
      }
      var cutoff := Cutoff(cfg, now);
      CleanKeys(keys, cutoff);
      var size := |ips|;
      if size == 0 {
        if mark >= EMPTY_REBUILD {
          ips, mark := map[], 0;
        }
        return;
      }
      if Shrinks(mark, size) {
        dirty := Some(ips);
        ips := map[];
        mark := size;
        jobs := jobs + [Waiting];
      }
    }

    method CleanKeys(keys: seq<string>, cutoff: int)
      modifies this`ips
      ensures ips == Cleaned(old(ips), keys, cutoff)
    {
      var i := 0;
      while i < |keys|
        invariant 0 <= i <= |keys|
        invariant Cleaned(ips, keys[i..], cutoff) == Cleaned(old(ips), keys, cutoff)
      {
        var d := keys[i];
        assert keys[i..][1..] == keys[i + 1..];
        if d in ips {
          var rec := ips[d];
          var aExpired, aaaaExpired := Expired(rec.a, cutoff), Expired(rec.aaaa, cutoff);
          if aExpired && aaaaExpired {
            ips := ips - {d};
          } else if aExpired || aaaaExpired {
            var kept := Pair(None, None);
            if !aExpired {
              kept := kept.(a := rec.a);
            }
            if !aaaaExpired {
              kept := kept.(aaaa := rec.aaaa);
            }
            ips := ips[d := kept];
          } else {
            assert ips[d := rec] == ips;
          }
        }
        i := i + 1;
      }
    }

    // ------------------------------------------------------------------ the migration

    method Flush(j: nat, batch: seq<string>)
      requires Enabled(Value(), Event.Flush(j, batch))
      modifies this`ips, this`jobs
      ensures Value() == Step(old(Value()), Event.Flush(j, batch))
    {
      var source := jobs[j].source;
      var i := 0;
      while i < |batch|
        invariant 0 <= i <= |batch|
        invariant forall d :: d in batch[i..] ==> d in source
        invariant Moved(ips, source, batch[i..]) == Moved(old(ips), source, batch)
        invariant jobs == old(jobs)
      {
        var d := batch[i];
        assert batch[i..][1..] == batch[i + 1..];
        if d in ips {
          var cur := ips[d];
          var merged := Pair(None, None);
          if cur.a.None? {
            merged := merged.(a := source[d].a);
          } else {
            merged := merged.(a := cur.a);
          }
          if cur.aaaa.None? {
            merged := merged.(aaaa := source[d].aaaa);
          } else {
            merged := merged.(aaaa := cur.aaaa);
          }
          ips := ips[d := merged];
        } else {
          ips := ips[d := source[d]];
        }
        i := i + 1;
      }
      jobs := jobs[j := jobs[j].(todo := jobs[j].todo - set d | d in batch)];
    }

    method FlushBatch(batch: seq<string>, ghost start: Cache, ghost source: Table, ghost left: set<string>,
                      ghost es: seq<Event>)
      requires Underway(Value(), start, source, left, batch, es) && 0 < |batch| <= BATCH
      modifies this`ips, this`jobs
      ensures Underway(Value(), start, source, left, [], es)
    {
      BatchKeeps(Value(), start, source, left, batch, es);
      Flush(0, batch);
    }

    /** Answers that arrive while the goroutine does not hold the lock. */
    method Arrive(answers: seq<Event>, ghost start: Cache, ghost source: Table, ghost left: set<string>,
                  ghost es: seq<Event>)
      requires !disableCache && AllUpdates(answers) && Underway(Value(), start, source, left, [], es)
      modifies this`ips
      ensures Underway(Value(), start, source, left, [], es + answers)
    {
      assert es + [] == es;
      for i := 0 to |answers|
        invariant Underway(Value(), start, source, left, [], es + answers[..i])
      {
        assert answers[..i + 1] == answers[..i] + [answers[i]];
        Assoc(es, answers[..i], [answers[i]]);
        UpdateUnderway(Value(), start, source, left, es + answers[..i], answers[i]);
        var _, _ := UpdateRecord(answers[i].d, answers[i].f, answers[i].r, 0);
      }
      assert answers[..|answers|] == answers;
    }

    /** A full batch, and what comes in before the next one. */
    method FlushAndYield(batch: seq<string>, arrivals: seq<seq<Event>>, k0: nat, es0: seq<Event>,
                         ghost start: Cache, ghost source: Table, ghost left: set<string>)
      returns (k: nat, es: seq<Event>)
      requires !disableCache && Arrived(arrivals, k0, es0)
      requires Underway(Value(), start, source, left, batch, es0) && 0 < |batch| <= BATCH
      modifies this`ips, this`jobs
      ensures Underway(Value(), start, source, left, [], es) && Arrived(arrivals, k, es)
    {
      FlushBatch(batch, start, source, left, es0);
      k, es := k0, es0;
      if k < |arrivals| {
        Arrive(arrivals[k], start, source, left, es);
        assert arrivals[..k + 1][..k] == arrivals[..k];
        k, es := k + 1, es + arrivals[k];
      }
    }

    /** The loop over the old map. */
    method CopyAll(arrivals: seq<seq<Event>>, ghost start: Cache, source: Table) returns (k: nat, es: seq<Event>)
      requires !disableCache && Arrived(arrivals, 0, [])
      requires Underway(Value(), start, source, source.Keys, [], [])
      modifies this`ips, this`jobs
      ensures Underway(Value(), start, source, {}, [], es) && Arrived(arrivals, k, es)
    {
      var batch, left: set<string> := [], source.Keys;
      k, es := 0, [];
      while left != {}
        invariant |batch| < BATCH && Underway(Value(), start, source, left, batch, es) && Arrived(arrivals, k, es)
        decreases |left|
      {
        var d :| d in left;
        PickKeeps(Value(), start, source, left, batch, d, es);
        batch := batch + [d];
        left := left - {d};
        if |batch| >= BATCH {
          k, es := FlushAndYield(batch, arrivals, k, es, start, source, left);
          batch := [];
        }
      }
      if |batch| > 0 {
        FlushBatch(batch, start, source, left, es);
      }
    }

    /** The whole goroutine. `arrivals[i]` are the answers that come in between its batch `i`
        and the next one; `es` are those of the first `k`, which came before it was done. The
        view at the end is the view at its start with those answers put in, as if there had
        been one map. */
    method Migrate(arrivals: seq<seq<Event>>) returns (k: nat, es: seq<Event>)
      requires !disableCache && Inv(Value()) && dirty.Some? && jobs[0].Waiting?
      requires forall i :: 0 <= i < |arrivals| ==> AllUpdates(arrivals[i])
      modifies this`ips, this`dirty, this`jobs
      ensures Inv(Value()) && dirty.None? && Follows(old(Value()), Value(), es)
      ensures k <= |arrivals| && es == Flattened(arrivals[..k])
    {
      ghost var start := Value();
      var source := dirty.value;
      jobs := [Copying(source, source.Keys)];
      k, es := CopyAll(arrivals, start, source);
      DropKeeps(Value(), start, source, es);
      dirty := None;
      jobs := [];
    }
  }

  /** The answers of the first `k` lists have come in. */
  predicate Arrived(arrivals: seq<seq<Event>>, k: nat, es: seq<Event>) {
    && k <= |arrivals| && es == Flattened(arrivals[..k])
    && (forall i :: 0 <= i < |arrivals| ==> AllUpdates(arrivals[i]))
  }

  predicate AllUpdates(es: seq<Event>) {
    forall i :: 0 <= i < |es| ==> es[i].Update?
  }

  function Flattened(lists: seq<seq<Event>>): seq<Event> {
    if lists == [] then [] else Flattened(lists[..|lists| - 1]) + lists[|lists| - 1]
  }

  /** One map after the updates `es`, half by half. */
  function Latest(v: Option<Answer>, es: seq<Event>, d: string, f: Family): Option<Answer>
    decreases |es|
  {
    if es == [] then v else Spec(Latest(v, es[..|es| - 1], d, f), es[|es| - 1], false, d, f)
  }

  /** The view of `c` is that of `start` with the updates `es` put in. */
  ghost predicate Follows(start: Cache, c: Cache, es: seq<Event>) {
    forall d, f :: View(c, d, f) == Latest(View(start, d, f), es, d, f)
  }

  /** In the middle of a migration: `left` not yet looked at, `batch` not yet copied. */
  ghost predicate Underway(c: Cache, start: Cache, source: Table, left: set<string>, batch: seq<string>,
                           es: seq<Event>)
  {
    && c.dirty == Some(source) && Inv(c) && c.jobs[0].Copying?
    && left <= source.Keys && (forall d :: d in batch ==> d in source && d !in left)
    && c.jobs[0].todo == left + (set d | d in batch)
    && Follows(start, c, es)
  }

  lemma {:induction false} PickKeeps(c: Cache, start: Cache, source: Table, left: set<string>, batch: seq<string>,
                                     d: string, es: seq<Event>)
    requires Underway(c, start, source, left, batch, es) && d in left
    ensures Underway(c, start, source, left - {d}, batch + [d], es)
  {
    assert (set k | k in batch + [d]) == (set k | k in batch) + {d};
  }

  lemma {:induction false} BatchKeeps(c: Cache, start: Cache, source: Table, left: set<string>, batch: seq<string>,
                                      es: seq<Event>)
    requires Underway(c, start, source, left, batch, es) && 0 < |batch| <= BATCH
    ensures Enabled(c, Event.Flush(0, batch)) && Underway(Step(c, Event.Flush(0, batch)), start, source, left, [], es)
  {
    var e := Event.Flush(0, batch);
    StepKeeps(c, e);
    forall d, f ensures View(Step(c, e), d, f) == View(c, d, f) {
      StepRefines(c, e, d, f);
    }
  }

  lemma {:induction false} UpdateUnderway(c: Cache, start: Cache, source: Table, left: set<string>, es: seq<Event>,
                                          e: Event)
    requires Underway(c, start, source, left, [], es) && e.Update?
    ensures Underway(Step(c, e), start, source, left, [], es + [e])
  {
    StepKeeps(c, e);
    assert (es + [e])[..|es|] == es;
    forall d, f ensures View(Step(c, e), d, f) == Latest(View(start, d, f), es + [e], d, f) {
      UpdateRefines(c, e, d, f);
    }
  }

  lemma {:induction false} DropKeeps(c: Cache, start: Cache, source: Table, es: seq<Event>)
    requires Underway(c, start, source, {}, [], es)
    ensures Follows(start, c.(dirty := None, jobs := []), es)
  {
    assert Without(c.jobs, 0) == [];
    forall d, f ensures View(Step(c, Finish(0)), d, f) == View(c, d, f) {
      StepRefines(c, Finish(0), d, f);
    }
  }
}
