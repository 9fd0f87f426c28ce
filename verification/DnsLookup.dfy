/** What a look-up makes of a cached record (app/dns/nameserver_cached.go), against cleanup. */
module DnsLookup {
  import opened Bytes
  import opened DnsCache

  const DEFAULT_TTL := 300

  datatype Error = RecordNotFound | RCode(code: nat) | EmptyResponse | Transport(id: nat) | Multi(errs: seq<Error>)

  datatype Reply = Reply(ips: seq<seq<byte>>, ttl: int, err: Option<Error>)

  /** IPRecord.getIPs. */
  function GetIps(r: Option<Answer>, now: int): Reply {
    if r.None? then Reply([], 0, Some(RecordNotFound))
    else if r.value.rcode != 0 then Reply([], Ttl(r.value, now), Some(RCode(r.value.rcode)))
    else if r.value.ips == [] then Reply([], Ttl(r.value, now), Some(EmptyResponse))
    else Reply(r.value.ips, Ttl(r.value, now), None)
  }

  /** `errors.Is` on errors that wrap nothing. A combined error is a slice, which Go does not
      compare: it is not even the same as itself. */
  predicate Is(err: Error, target: Error) {
    err == target && !target.Multi?
  }

  /** Two errors as one: the first if they are the same. */
  function Combined(errs: seq<Error>): Error {
    if |errs| == 2 && Is(errs[0], errs[1]) then errs[0] else Multi(errs)
  }

  function Both(v4: bool, v6: bool, r4: Reply, r6: Reply): (Reply, seq<Error>) {
    var t4 := if v4 && r4.ips != [] then Min(DEFAULT_TTL, r4.ttl) else DEFAULT_TTL;
    var t6 := if v6 && r6.ips != [] then Min(t4, r6.ttl) else t4;
    var ips := (if v4 then r4.ips else []) + (if v6 then r6.ips else []);
    var e4 := if v4 && r4.err.Some? then [r4.err.value] else [];
    var e6 := if v6 && r6.err.Some? then [r6.err.value] else [];
    (Reply(ips, t6, None), e4 + e6)
  }

  function Merged(v4: bool, v6: bool, a: Option<Answer>, aaaa: Option<Answer>, errs: seq<Error>, now: int): Reply {
    var r4, r6 := GetIps(a, now), GetIps(aaaa, now);
    if v4 != v6 then if v4 then r4 else r6
    else
      var both := Both(v4, v6, r4, r6);
      if both.0.ips != [] then both.0
      else if both.1 != [] then Reply([], both.0.ttl, Some(Combined(both.1)))
      else if errs != [] then Reply([], both.0.ttl, Some(Combined(errs)))
      else both.0
  }

  /** merge, with its accumulators. */
  method Merge(v4: bool, v6: bool, a: Option<Answer>, aaaa: Option<Answer>, errs: seq<Error>, now: int)
    returns (ips: seq<seq<byte>>, ttl: int, err: Option<Error>)
    ensures Reply(ips, ttl, err) == Merged(v4, v6, a, aaaa, errs, now)
  {
    ips, ttl := [], DEFAULT_TTL;
    var recErrs: seq<Error> := [];
    if v4 {
      var r := GetIps(a, now);
      if !v6 {
        return r.ips, r.ttl, r.err;
      }
      if r.err.Some? {
        recErrs := recErrs + [r.err.value];
      }
      if |r.ips| > 0 {
        if r.ttl < ttl {
          ttl := r.ttl;
        }
        ips := ips + r.ips;
      }
    }
    if v6 {
      var r := GetIps(aaaa, now);
      if !v4 {
        return r.ips, r.ttl, r.err;
      }
      if r.err.Some? {
        recErrs := recErrs + [r.err.value];
      }
      if |r.ips| > 0 {
        if r.ttl < ttl {
          ttl := r.ttl;
        }
        ips := ips + r.ips;
      }
    }
    ghost var both := Both(v4, v6, GetIps(a, now), GetIps(aaaa, now));
    assert both.0.ips == ips && both.0.ttl == ttl && both.1 == recErrs;
    if |ips| > 0 {
      return ips, ttl, None;
    }
    err := if recErrs != [] then Some(Combined(recErrs)) else if errs != [] then Some(Combined(errs)) else None;
  }

  predicate AllowServeStale(cfg: Config, ttl: int) {
    cfg.serveStale && (cfg.serveExpiredTtl == 0 || cfg.serveExpiredTtl < ttl)
  }

  datatype Outcome =
    | Hit(ips: seq<seq<byte>>, ttl: int, err: Option<Error>)
    | Stale(ips: seq<seq<byte>>, err: Option<Error>)
    | Fetch

  /** queryIP's decision on the record it found. */
  function Decide(cfg: Config, v4: bool, v6: bool, p: Pair, now: int): Outcome {
    var m := Merged(v4, v6, p.a, p.aaaa, [], now);
    if m.err == Some(RecordNotFound) then Fetch
    else if m.ttl > 0 then Hit(m.ips, m.ttl, m.err)
    else if AllowServeStale(cfg, m.ttl) then Stale(m.ips, m.err)
    else Fetch
  }

  // --------------------------------------------------------------- one family at a time

  /** Stale answers are limited: serve-stale is off or has a grace period. */
  predicate Limited(cfg: Config) {
    cfg.serveExpiredTtl <= 0 && (cfg.serveStale ==> cfg.serveExpiredTtl != 0)
  }

  lemma {:induction false} TtlBound(r: Answer, now: int, n: int)
    ensures Ttl(r, now) > n <==> r.expire > now + n * SECOND
  {
    var x := now - r.expire;
    var q := x / SECOND;
    assert q * SECOND <= x < (q + 1) * SECOND;
    if q < -n {
      assert (q + 1) * SECOND <= -n * SECOND;
    } else {
      assert q * SECOND >= -n * SECOND;
    }
  }

  /** A record is used by itself exactly while cleanup's limit has not been reached: the
      rounding of the time to live and the two comparisons agree to the nanosecond. */
  lemma {:induction false} SingleFamilyServed(cfg: Config, p: Pair, f: Family, r: Answer, now: int)
    requires Limited(cfg) && Half(p, f) == Some(r)
    ensures Decide(cfg, f.V4?, f.V6?, p, now) != Fetch <==> r.expire > Cutoff(cfg, now)
  {
    TtlBound(r, now, 0);
    TtlBound(r, now, cfg.serveExpiredTtl);
    assert Merged(f.V4?, f.V6?, p.a, p.aaaa, [], now) == GetIps(Some(r), now);
  }

  /** A LOOK-UP IN ONE FAMILY: a hit while its half is fresh, stale while serve-stale tolerates it,
      fetched otherwise; with the half's own addresses, time to live and error. */
  lemma {:induction false} SingleOutcome(cfg: Config, p: Pair, f: Family, now: int)
    requires cfg.serveExpiredTtl <= 0
    ensures var o, r := Decide(cfg, f.V4?, f.V6?, p, now), Half(p, f);
            if r.None? then o == Fetch
            else
              var err := if HasIps(r) then None else Some(Wrong(r));
              if r.value.expire > now then o == Hit(Addresses(r), Ttl(r.value, now), err)
              else if (&& cfg.serveStale
                       && (cfg.serveExpiredTtl == 0 || r.value.expire > now + cfg.serveExpiredTtl * SECOND))
                then o == Stale(Addresses(r), err)
              else o == Fetch
  {
    SingleAnswer(f, p, [], now);
    if Half(p, f).Some? {
      TtlBound(Half(p, f).value, now, 0);
      TtlBound(Half(p, f).value, now, cfg.serveExpiredTtl);
    }
  }

  // --------------------------------------------------------------------- both families

  predicate HasIps(r: Option<Answer>) {
    r.Some? && r.value.rcode == 0 && r.value.ips != []
  }

  /** The addresses that count: those of an answer with response code 0. */
  function Addresses(r: Option<Answer>): seq<seq<byte>> {
    if r.Some? && r.value.rcode == 0 then r.value.ips else []
  }

  /** What is wrong with a half that has no addresses. */
  function Wrong(r: Option<Answer>): Error {
    if r.None? then RecordNotFound else if r.value.rcode != 0 then RCode(r.value.rcode) else EmptyResponse
  }

  /** No later than `ttl` seconds from now, `r` runs out, if it has addresses at all. */
  predicate Outlasts(r: Option<Answer>, now: int, ttl: int) {
    HasIps(r) ==> ttl <= Ttl(r.value, now)
  }

  /** ONE FAMILY. Its own addresses, its own time to live and its own error, whatever the other
      family's record and whatever the queries reported. */
  lemma {:induction false} SingleAnswer(f: Family, p: Pair, errs: seq<Error>, now: int)
    ensures var m, r := Merged(f.V4?, f.V6?, p.a, p.aaaa, errs, now), Half(p, f);
            && m.ips == Addresses(r) && m.ttl == (if r.None? then 0 else Ttl(r.value, now))
            && m.err == if HasIps(r) then None else Some(Wrong(r))
  {
  }

  /** DUAL STACK. The A addresses followed by the AAAA addresses; the least of 300 seconds and of
      the times left to the halves that have addresses; an error exactly if neither has any: the
      one of both halves, or both errors together. What the queries reported does not matter. */
  lemma {:induction false} DualAnswer(a: Option<Answer>, aaaa: Option<Answer>, errs: seq<Error>, now: int)
    ensures var m := Merged(true, true, a, aaaa, errs, now);
            && m.ips == Addresses(a) + Addresses(aaaa)
            && m.ttl <= 300 && Outlasts(a, now, m.ttl) && Outlasts(aaaa, now, m.ttl)
            && (|| m.ttl == 300 || (HasIps(a) && m.ttl == Ttl(a.value, now))
                || (HasIps(aaaa) && m.ttl == Ttl(aaaa.value, now)))
            && m.err == if HasIps(a) || HasIps(aaaa) then None
                        else if Wrong(a) == Wrong(aaaa) then Some(Wrong(a))
                        else Some(Multi([Wrong(a), Wrong(aaaa)]))
  {
    var r4, r6 := GetIps(a, now), GetIps(aaaa, now);
    assert r4.ips == Addresses(a) && r6.ips == Addresses(aaaa);
    var both := Both(true, true, r4, r6);
    assert both.0.ips == Addresses(a) + Addresses(aaaa);
    if !HasIps(a) && !HasIps(aaaa) {
      assert both.1 == [Wrong(a), Wrong(aaaa)];
    }
  }

  /** Asked for neither family, it is what the queries reported. */
  lemma {:induction false} NoFamilyAnswer(a: Option<Answer>, aaaa: Option<Answer>, errs: seq<Error>, now: int)
    ensures Merged(false, false, a, aaaa, errs, now) ==
      Reply([], 300, if errs == [] then None
                     else if |errs| == 2 && errs[0] == errs[1] && !errs[0].Multi? then Some(errs[0])
                     else Some(Multi(errs)))
  {
    assert Both(false, false, GetIps(a, now), GetIps(aaaa, now)).1 == [];
  }

  /** The answer is fresh: every half with addresses still has time left. */
  predicate Fresh(r: Option<Answer>, now: int) {
    HasIps(r) ==> r.value.expire > now
  }

  /** Stale, but within the grace period. */
  predicate Tolerable(cfg: Config, r: Option<Answer>, now: int) {
    HasIps(r) ==> r.value.expire > now + cfg.serveExpiredTtl * SECOND
  }

  /** A DUAL-STACK LOOK-UP of a record. Without addresses in either half it is a hit for five
      minutes, unless both halves are missing; with addresses it is a hit while both halves that
      have them are fresh, stale while serve-stale tolerates both, and fetched otherwise. */
  lemma {:induction false} DualOutcome(cfg: Config, p: Pair, now: int)
    requires cfg.serveExpiredTtl <= 0
    ensures var o, ips := Decide(cfg, true, true, p, now), Addresses(p.a) + Addresses(p.aaaa);
            if !HasIps(p.a) && !HasIps(p.aaaa) then
              o == if p.a.None? && p.aaaa.None? then Fetch
                   else Hit([], 300, Some(if Wrong(p.a) == Wrong(p.aaaa) then Wrong(p.a)
                                          else Multi([Wrong(p.a), Wrong(p.aaaa)])))
            else if Fresh(p.a, now) && Fresh(p.aaaa, now) then
              && o.Hit? && o.ips == ips && o.err == None
              && 0 < o.ttl <= 300 && Outlasts(p.a, now, o.ttl) && Outlasts(p.aaaa, now, o.ttl)
            else if (&& cfg.serveStale
                     && (cfg.serveExpiredTtl == 0 || (Tolerable(cfg, p.a, now) && Tolerable(cfg, p.aaaa, now))))
              then o == Stale(ips, None)
            else o == Fetch
  {
    DualAnswer(p.a, p.aaaa, [], now);
    if HasIps(p.a) {
      TtlBound(p.a.value, now, 0);
      TtlBound(p.a.value, now, cfg.serveExpiredTtl);
    }
    if HasIps(p.aaaa) {
      TtlBound(p.aaaa.value, now, 0);
      TtlBound(p.aaaa.value, now, cfg.serveExpiredTtl);
    }
    assert HasIps(p.a) || HasIps(p.aaaa) ==> Addresses(p.a) + Addresses(p.aaaa) != [];
  }

  function Drop(p: Pair, f: Family): Pair {
    if f.V4? then p.(a := None) else p.(aaaa := None)
  }

  function Other(f: Family): Family {
    if f.V4? then V6 else V4
  }

  /** A half with addresses that cleanup may remove spoils the whole dual-stack answer. */
  lemma {:induction false} ExpiredAddressesNotServed(cfg: Config, p: Pair, f: Family, now: int, t: int)
    requires Limited(cfg) && now <= t && HasIps(Half(p, f)) && Expired(Half(p, f), Cutoff(cfg, now))
    ensures Decide(cfg, true, true, p, t) == Fetch
  {
    var r := Half(p, f).value;
    TtlBound(r, t, 0);
    TtlBound(r, t, cfg.serveExpiredTtl);
    var m := Merged(true, true, p.a, p.aaaa, [], t);
    assert m.ips != [] && m.ttl <= Ttl(r, t);
  }

  lemma {:induction false} NegativeHalfInvisible(cfg: Config, p: Pair, f: Family, t: int)
    requires Half(p, f).Some? && !HasIps(Half(p, f)) && HasIps(Half(p, Other(f)))
    ensures Decide(cfg, true, true, p, t) == Decide(cfg, true, true, Drop(p, f), t)
  {
    var m, n := Merged(true, true, p.a, p.aaaa, [], t), Merged(true, true, Drop(p, f).a, Drop(p, f).aaaa, [], t);
    assert m.ips == n.ips == Half(p, Other(f)).value.ips;
  }

  /** Without addresses in either half the time to live is the default, however old they are. */
  lemma {:induction false} NegativeMerge(a: Option<Answer>, aaaa: Option<Answer>, t: int)
    requires !HasIps(a) && !HasIps(aaaa)
    ensures GetIps(a, t).err.Some? && GetIps(aaaa, t).err.Some?
    ensures Merged(true, true, a, aaaa, [], t) ==
      Reply([], DEFAULT_TTL, Some(Combined([GetIps(a, t).err.value, GetIps(aaaa, t).err.value])))
  {
    var r4, r6 := GetIps(a, t), GetIps(aaaa, t);
    assert Both(true, true, r4, r6).1 == [r4.err.value, r6.err.value];
  }

  lemma {:induction false} NegativeHalvesServed(cfg: Config, p: Pair, f: Family, t: int)
    requires Half(p, f).Some? && !HasIps(Half(p, f)) && !HasIps(Half(p, Other(f)))
    ensures Decide(cfg, true, true, p, t).Hit?
    ensures Decide(cfg, true, true, p, t) != Decide(cfg, true, true, Drop(p, f), t)
  {
    var q := Drop(p, f);
    NegativeMerge(p.a, p.aaaa, t);
    NegativeMerge(q.a, q.aaaa, t);
    var with := [GetIps(p.a, t).err.value, GetIps(p.aaaa, t).err.value];
    var without := [GetIps(q.a, t).err.value, GetIps(q.aaaa, t).err.value];
    assert if f.V4? then with[0] != without[0] else with[1] != without[1];
    assert Combined(with) != Combined(without);
  }

  /** CLEANUP AGAINST LOOK-UPS. Take a half that cleanup may remove at `now`, and any look-up
      then or later that asks for its family: removing it takes an answer away exactly when
      both families are asked for and neither half has an address. */
  lemma {:induction false} RemovalObserved(cfg: Config, v4: bool, v6: bool, p: Pair, f: Family, now: int, t: int)
    requires Limited(cfg) && now <= t && Expired(Half(p, f), Cutoff(cfg, now)) && (if f.V4? then v4 else v6)
    ensures Decide(cfg, v4, v6, p, t) != Fetch && Decide(cfg, v4, v6, p, t) != Decide(cfg, v4, v6, Drop(p, f), t)
      <==> v4 && v6 && !HasIps(Half(p, f)) && !HasIps(Half(p, Other(f)))
  {
    if v4 != v6 {
      SingleFamilyServed(cfg, p, f, Half(p, f).value, t);
    } else if HasIps(Half(p, f)) {
      ExpiredAddressesNotServed(cfg, p, f, now, t);
    } else if HasIps(Half(p, Other(f))) {
      NegativeHalfInvisible(cfg, p, f, t);
    } else {
      NegativeHalvesServed(cfg, p, f, t);
    }
  }

  /** The failing family is not empty: an empty answer, an hour past its time and with
      serve-stale off, is a cache hit for five minutes more. */
  lemma {:induction false} ExpiredNegativeIsHit()
    ensures var r := Answer([], 0, 0); var cfg := Config(false, 0);
      && Limited(cfg) && Expired(Some(r), Cutoff(cfg, 3600 * SECOND))
      && Decide(cfg, true, true, Pair(Some(r), Some(r)), 3600 * SECOND) == Hit([], DEFAULT_TTL, Some(EmptyResponse))
  {
    var r := Answer([], 0, 0);
    var m := GetIps(Some(r), 3600 * SECOND);
    assert Both(true, true, m, m).1 == [EmptyResponse, EmptyResponse];
  }

  // ------------------------------------------------------------- the cache as a whole

  /** queryIP up to the point where it asks the server. */
  function Consult(cfg: Config, v4: bool, v6: bool, found: Option<Pair>, now: int): Outcome {
    if found.None? then Fetch else Decide(cfg, v4, v6, found.value, now)
  }

  function Lookup(cfg: Config, v4: bool, v6: bool, c: Cache, d: string, now: int): Outcome {
    Consult(cfg, v4, v6, Find(c, d), now)
  }

  /** What cleanup makes of one record of its keys. */
  function Swept(found: Option<Pair>, cutoff: int): Option<Pair> {
    if found.None? then None
    else if Expired(found.value.a, cutoff) && Expired(found.value.aaaa, cutoff) then None
    else Some(Pair(Live(found.value.a, cutoff), Live(found.value.aaaa, cutoff)))
  }

  lemma {:induction false} SweptTable(ips: Table, keys: seq<string>, cutoff: int, d: string)
    ensures var before := if d in ips then Some(ips[d]) else None;
      var after := Cleaned(ips, keys, cutoff);
      (if d in after then Some(after[d]) else None) == if d in keys then Swept(before, cutoff) else before
  {
    var after := Cleaned(ips, keys, cutoff);
    if d in ips {
      DomainRemoved(ips, keys, cutoff, d);
      CleanedExact(ips, keys, cutoff, d, V4);
      CleanedExact(ips, keys, cutoff, d, V6);
      assert d in after ==> after[d] == Pair(HalfIn(after, d, V4), HalfIn(after, d, V6));
      assert ips[d] == Pair(HalfIn(ips, d, V4), HalfIn(ips, d, V6));
    } else {
      StaysOut(ips, keys, cutoff, d);
    }
  }

  /** A look-up after cleanup, which may have started a migration, finds what is left. */
  lemma {:induction false} FindAfterCleanup(c: Cache, keys: seq<string>, cutoff: int, d: string)
    ensures Find(CleanupStep(c, keys, cutoff), d) ==
      if c.dirty.None? && d in keys then Swept(Find(c, d), cutoff) else Find(c, d)
  {
    if c.dirty.None? {
      SweptTable(c.ips, keys, cutoff, d);
      var ips := Cleaned(c.ips, keys, cutoff);
      assert |ips| == 0 ==> ips == map[];
    }
  }

  /** Neither half of the record has addresses, and cleanup may remove one of them. */
  predicate SilentAndDue(p: Pair, cutoff: int) {
    !HasIps(p.a) && !HasIps(p.aaaa) && (Expired(p.a, cutoff) || Expired(p.aaaa, cutoff))
  }

  /** Sweeping a record asked for in one family. */
  lemma {:induction false} SingleSwept(cfg: Config, p: Pair, f: Family, now: int, t: int)
    requires Limited(cfg) && now <= t && Decide(cfg, f.V4?, f.V6?, p, t) != Fetch
    ensures Consult(cfg, f.V4?, f.V6?, Swept(Some(p), Cutoff(cfg, now)), t) == Decide(cfg, f.V4?, f.V6?, p, t)
  {
    var cutoff := Cutoff(cfg, now);
    assert Half(p, f).Some?;
    SingleFamilyServed(cfg, p, f, Half(p, f).value, t);
    assert !Expired(Half(p, f), cutoff);
    var q := Pair(Live(p.a, cutoff), Live(p.aaaa, cutoff));
    assert Half(q, f) == Half(p, f);
  }

  /** Sweeping a record with addresses asked for in both families. */
  lemma {:induction false} DualSwept(cfg: Config, p: Pair, f: Family, now: int, t: int)
    requires Limited(cfg) && now <= t && Decide(cfg, true, true, p, t) != Fetch && HasIps(Half(p, f))
    ensures Consult(cfg, true, true, Swept(Some(p), Cutoff(cfg, now)), t) == Decide(cfg, true, true, p, t)
  {
    var cutoff, g := Cutoff(cfg, now), Other(f);
    if Expired(Half(p, f), cutoff) {
      ExpiredAddressesNotServed(cfg, p, f, now, t);
    }
    if Expired(Half(p, g), cutoff) {
      if HasIps(Half(p, g)) {
        ExpiredAddressesNotServed(cfg, p, g, now, t);
      }
      NegativeHalfInvisible(cfg, p, g, t);
      assert Swept(Some(p), cutoff) == Some(Drop(p, g));
    } else {
      assert Swept(Some(p), cutoff) == Some(p);
    }
  }

  /** Sweeping a record without addresses asked for in both families. */
  lemma {:induction false} SilentSwept(cfg: Config, p: Pair, now: int, t: int)
    requires Limited(cfg) && now <= t && !HasIps(p.a) && !HasIps(p.aaaa)
    ensures Decide(cfg, true, true, p, t) != Fetch &&
      Consult(cfg, true, true, Swept(Some(p), Cutoff(cfg, now)), t) != Decide(cfg, true, true, p, t)
      <==> SilentAndDue(p, Cutoff(cfg, now))
  {
    var cutoff := Cutoff(cfg, now);
    assert Half(p, V4) == p.a && Half(p, V6) == p.aaaa;
    if Expired(p.a, cutoff) {
      NegativeHalvesServed(cfg, p, V4, t);
      assert !Expired(p.aaaa, cutoff) ==> Swept(Some(p), cutoff) == Some(Drop(p, V4));
    } else if Expired(p.aaaa, cutoff) {
      NegativeHalvesServed(cfg, p, V6, t);
      assert Swept(Some(p), cutoff) == Some(Drop(p, V6));
    } else {
      assert Swept(Some(p), cutoff) == Some(p);
    }
  }

  /** CLEANUP IS NOT NOTICED. Cleanup in any state, with keys collected at any earlier time:
      a look-up then or later that the cache would have answered gets the same answer from the
      cache after cleanup, if and only if it is not a dual-stack look-up of a swept record
      without addresses in either half. */
  lemma {:induction false} CleanupAgrees(cfg: Config, v4: bool, v6: bool, c: Cache, keys: seq<string>, d: string,
                                         now: int, t: int)
    requires Limited(cfg) && now <= t && (v4 || v6)
    ensures var before := Lookup(cfg, v4, v6, c, d, t);
      var after := Lookup(cfg, v4, v6, CleanupStep(c, keys, Cutoff(cfg, now)), d, t);
      before != Fetch && after != before <==>
        && c.dirty.None? && d in keys && d in c.ips
        && v4 && v6 && SilentAndDue(c.ips[d], Cutoff(cfg, now))
  {
    FindAfterCleanup(c, keys, Cutoff(cfg, now), d);
    if c.dirty.None? && d in keys && d in c.ips {
      var p := c.ips[d];
      assert Half(p, V4) == p.a && Half(p, V6) == p.aaaa;
      if v4 && v6 && !HasIps(p.a) && !HasIps(p.aaaa) {
        SilentSwept(cfg, p, now, t);
      } else if Decide(cfg, v4, v6, p, t) != Fetch {
        if v4 && v6 {
          DualSwept(cfg, p, if HasIps(p.a) then V4 else V6, now, t);
        } else {
          SingleSwept(cfg, p, if v4 then V4 else V6, now, t);
        }
      }
    }
  }
}
