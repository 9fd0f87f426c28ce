/** HeuristicMultiIPMatcher (common/geodata/ip_matcher.go): several sub-matchers over one list,
    sharing the work of bucketing it. Some take the list by buckets, others address by address;
    an address that one view has found need not be looked at in the other. */
module IpMultiMatcher {
  import opened Bytes
  import opened IpSets
  import opened IpMatcher

  /** Some sub-matcher accepts the address. */
  predicate AcceptedBy(ms: seq<Matcher>, ip: Ip) {
    exists t :: 0 <= t < |ms| && Accepts(ms[t], ip)
  }

  predicate AllWellFormed(ms: seq<Matcher>) {
    forall t :: 0 <= t < |ms| ==> WellFormed(ms[t].ipset)
  }

  /** 4 or 6; 0 for what is no address. */
  function Family(ip: Ip): nat {
    if PrefixKey(ip).None? then 0 else if To4(ip).Some? then 4 else 6
  }

  predicate Short(m: Matcher, family: nat) {
    if family == 4 then Heur4(m) else Heur6(m)
  }

  lemma {:induction false} SameKey(m: Matcher, x: Ip, y: Ip)
    requires WellFormed(m.ipset) && PrefixKey(x).Some? && PrefixKey(x) == PrefixKey(y) && Short(m, Family(x))
    ensures Accepts(m, x) == Accepts(m, y) && Family(x) == Family(y)
  {
    KeyOfAddress(x);
    KeyOfAddress(y);
    SameBucket(m, x, y);
  }

  // --------------------------------------------------------------------------- AnyMatch

  /** Every key in the skip set has an address that no sub-matcher accepts. */
  ghost predicate Skippable(ms: seq<Matcher>, seen: set<Ip>) {
    forall k :: k in seen ==> exists y :: PrefixKey(y) == Some(k) && !AcceptedBy(ms, y)
  }

  datatype Progress = NotInitialized | Fresh | Seen(family: nat)

  lemma {:induction false} SkipIsSound(ms: seq<Matcher>, seen: set<Ip>, ip: Ip, t: nat)
    requires AllWellFormed(ms) && Skippable(ms, seen) && t < |ms|
    requires PrefixKey(ip).Some? && PrefixKey(ip).value in seen && Short(ms[t], Family(ip))
    ensures !Accepts(ms[t], ip)
  {
    var y :| PrefixKey(y) == PrefixKey(ip) && !AcceptedBy(ms, y);
    SameKey(ms[t], ip, y);
  }

  /** One address against all sub-matchers, with the skip set they share. */
  method TryAll(ms: seq<Matcher>, ip: Ip, seen0: set<Ip>) returns (hit: bool, seen: set<Ip>)
    requires AllWellFormed(ms) && Skippable(ms, seen0)
    ensures hit <==> AcceptedBy(ms, ip)
    ensures seen == seen0 || (PrefixKey(ip).Some? && seen == seen0 + {PrefixKey(ip).value})
  {
    seen := seen0;
    var state := NotInitialized;
    KeyOfAddress(ip);
    var t := 0;
    while t < |ms|
      invariant 0 <= t <= |ms| && forall u :: 0 <= u < t ==> !Accepts(ms[u], ip)
      invariant !state.Fresh? ==> seen == seen0
      invariant state.Fresh? ==> PrefixKey(ip).Some? && seen == seen0 + {PrefixKey(ip).value}
      invariant state.Seen? ==> PrefixKey(ip).Some? && PrefixKey(ip).value in seen0 && state.family == Family(ip)
    {
      var m := ms[t];
      if state == NotInitialized && (Heur4(m) || Heur6(m)) {
        var key := PrefixKey(ip);
        if key.None? {
          return false, seen;
        }
        if key.value in seen {
          state := Seen(Family(ip));
        } else {
          seen := seen + {key.value};
          state := Fresh;
        }
      }
      if (Heur4(m) && state == Seen(4)) || (Heur6(m) && state == Seen(6)) {
        SkipIsSound(ms, seen0, ip, t);
      } else {
        if !Legal(ip) {
          return false, seen;
        }
        if Accepts(m, ip) {
          return true, seen;
        }
      }
      t := t + 1;
    }
    hit := false;
  }

  method AnyMatchOf(ms: seq<Matcher>, ips: seq<Ip>) returns (r: bool)
    requires AllWellFormed(ms)
    ensures r <==> exists i :: 0 <= i < |ips| && AcceptedBy(ms, ips[i])
  {
    var seen: set<Ip> := {};
    var i := 0;
    while i < |ips|
      invariant 0 <= i <= |ips| && Skippable(ms, seen)
      invariant forall j :: 0 <= j < i ==> !AcceptedBy(ms, ips[j])
    {
      var hit;
      hit, seen := TryAll(ms, ips[i], seen);
      if hit {
        return true;
      }
      i := i + 1;
    }
    r := false;
  }

  // ---------------------------------------------------------------------------- Matches

  /** ipViews for one family: one address per bucket, or every address. */
  datatype View = View(buckets: Option<map<Ip, Ip>>, precise: Option<seq<Ip>>)

  predicate RepsOk(ips: seq<Ip>, family: nat, reps: map<Ip, Ip>) {
    && (forall j :: 0 <= j < |ips| && Family(ips[j]) == family ==>
          PrefixKey(ips[j]).Some? && PrefixKey(ips[j]).value in reps)
    && (forall k :: k in reps ==> PrefixKey(reps[k]) == Some(k) && reps[k] in ips && Family(reps[k]) == family)
  }

  predicate ListOk(ips: seq<Ip>, family: nat, list: seq<Ip>) {
    && (forall j :: 0 <= j < |ips| && Family(ips[j]) == family ==> ips[j] in list)
    && (forall x :: x in list ==> x in ips && Family(x) == family)
  }

  predicate ViewOk(ips: seq<Ip>, family: nat, v: View) {
    && (v.buckets.Some? ==> RepsOk(ips, family, v.buckets.value))
    && (v.precise.Some? ==> ListOk(ips, family, v.precise.value))
  }

  method Representatives(ips: seq<Ip>, family: nat) returns (reps: map<Ip, Ip>)
    requires family == 4 || family == 6
    ensures RepsOk(ips, family, reps)
  {
    reps := map[];
    var i := 0;
    while i < |ips|
      invariant 0 <= i <= |ips| && RepsOk(ips[..i], family, reps)
    {
      var ip := ips[i];
      assert ips[..i + 1] == ips[..i] + [ip];
      if Family(ip) == family && PrefixKey(ip).value !in reps {
        reps := reps[PrefixKey(ip).value := ip];
      }
      i := i + 1;
    }
    assert ips[..i] == ips;
  }

  method OfFamily(ips: seq<Ip>, family: nat) returns (list: seq<Ip>)
    requires family == 4 || family == 6
    ensures ListOk(ips, family, list)
  {
    list := [];
    var i := 0;
    while i < |ips|
      invariant 0 <= i <= |ips| && ListOk(ips[..i], family, list)
    {
      var ip := ips[i];
      assert ips[..i + 1] == ips[..i] + [ip];
      if Family(ip) == family {
        list := list + [ip];
      }
      i := i + 1;
    }
    assert ips[..i] == ips;
  }

  /** ensureForMatcher, for one family. */
  method Ensure(m: Matcher, ips: seq<Ip>, family: nat, v0: View) returns (v: View)
    requires (family == 4 || family == 6) && ViewOk(ips, family, v0)
    ensures ViewOk(ips, family, v) && if Short(m, family) then v.buckets.Some? else v.precise.Some?
  {
    v := v0;
    if Short(m, family) && v.buckets.None? {
      var reps := Representatives(ips, family);
      v := v.(buckets := Some(reps));
    }
    if !Short(m, family) && v.precise.None? {
      var list := OfFamily(ips, family);
      v := v.(precise := Some(list));
    }
  }

  predicate AcceptsFamily(m: Matcher, ips: seq<Ip>, family: nat) {
    forall j :: 0 <= j < |ips| && Family(ips[j]) == family ==> Accepts(m, ips[j])
  }

  method AcceptsReps(m: Matcher, ips: seq<Ip>, family: nat, reps: map<Ip, Ip>) returns (r: bool)
    requires WellFormed(m.ipset) && (family == 4 || family == 6) && RepsOk(ips, family, reps) && Short(m, family)
    ensures r <==> AcceptsFamily(m, ips, family)
  {
    var left := reps.Keys;
    while left != {}
      invariant left <= reps.Keys && forall k :: k in reps && k !in left ==> Accepts(m, reps[k])
      decreases |left|
    {
      var k :| k in left;
      if !Accepts(m, reps[k]) {
        return false;
      }
      left := left - {k};
    }
    forall j | 0 <= j < |ips| && Family(ips[j]) == family ensures Accepts(m, ips[j]) {
      SameKey(m, ips[j], reps[PrefixKey(ips[j]).value]);
    }
    r := true;
  }

  method AcceptsView(m: Matcher, ips: seq<Ip>, family: nat, v: View) returns (r: bool)
    requires WellFormed(m.ipset) && (family == 4 || family == 6) && ViewOk(ips, family, v)
    requires if Short(m, family) then v.buckets.Some? else v.precise.Some?
    ensures r <==> AcceptsFamily(m, ips, family)
  {
    if Short(m, family) {
      r := AcceptsReps(m, ips, family, v.buckets.value);
    } else {
      var list := v.precise.value;
      r := AllOneByOne(m, list);
      if r {
        forall j | 0 <= j < |ips| && Family(ips[j]) == family ensures Accepts(m, ips[j]) {
          var i :| 0 <= i < |list| && list[i] == ips[j];
        }
      } else {
        var i :| 0 <= i < |list| && !Accepts(m, list[i]);
        assert list[i] in ips;
      }
    }
  }

  predicate AcceptsAll(m: Matcher, ips: seq<Ip>) {
    forall j :: 0 <= j < |ips| ==> Accepts(m, ips[j])
  }

  lemma {:induction false} BothFamilies(m: Matcher, ips: seq<Ip>)
    requires forall j :: 0 <= j < |ips| ==> Legal(ips[j])
    ensures AcceptsAll(m, ips) <==> AcceptsFamily(m, ips, 4) && AcceptsFamily(m, ips, 6)
  {
    forall j | 0 <= j < |ips| ensures Family(ips[j]) == 4 || Family(ips[j]) == 6 {
      KeyOfAddress(ips[j]);
    }
  }

  /** One sub-matcher accepts every address. */
  predicate OneAcceptsAll(ms: seq<Matcher>, ips: seq<Ip>) {
    exists t :: 0 <= t < |ms| && AcceptsAll(ms[t], ips)
  }

  method MatchesOf(ms: seq<Matcher>, ips: seq<Ip>) returns (r: bool)
    requires AllWellFormed(ms) && ips != []
    ensures r <==> OneAcceptsAll(ms, ips)
  {
    var v4, v6 := View(None, None), View(None, None);
    var t := 0;
    var legal := AllLegal(ips);
    while t < |ms|
      invariant 0 <= t <= |ms| && ViewOk(ips, 4, v4) && ViewOk(ips, 6, v6)
      invariant forall u :: 0 <= u < t ==> !AcceptsAll(ms[u], ips)
    {
      if !legal {
        return false;
      }
      var m := ms[t];
      v4 := Ensure(m, ips, 4, v4);
      v6 := Ensure(m, ips, 6, v6);
      BothFamilies(m, ips);
      var all4 := AcceptsView(m, ips, 4, v4);
      if all4 {
        var all6 := AcceptsView(m, ips, 6, v6);
        if all6 {
          return true;
        }
      }
      t := t + 1;
    }
    r := false;
  }

  method AllLegal(ips: seq<Ip>) returns (r: bool)
    ensures r <==> forall j :: 0 <= j < |ips| ==> Legal(ips[j])
  {
    var i := 0;
    while i < |ips|
      invariant 0 <= i <= |ips| && forall j :: 0 <= j < i ==> Legal(ips[j])
    {
      KeyOfAddress(ips[i]);
      if PrefixKey(ips[i]).None? {
        return false;
      }
      i := i + 1;
    }
    r := true;
  }
}
