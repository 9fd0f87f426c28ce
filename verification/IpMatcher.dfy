/** HeuristicIPMatcher (common/geodata/ip_matcher.go): lists of addresses are matched bucket by
    bucket where the prefixes are short enough, and must come out as if matched one by one:
    the list operations are methods, and counting says that no address is lost. */
module IpMatcher {
  import opened Bytes
  import opened IpSets

  /** The addresses seen with one key; the first one stands for all. */
  datatype Bucket = Bucket(rep: Ip, ips: seq<Ip>)

  /** The bucket key of an address the matcher may treat by bucket. */
  function BucketKey(m: Matcher, ip: Ip): (k: Option<Ip>)
  {
    KeyOfAddress(ip);
    var key := PrefixKey(ip);
    if key.Some? && Heuristic(m, key.value) then key else None
  }

  /** Addresses with one bucket key are accepted or refused together. */
  lemma {:induction false} OneBucket(m: Matcher, x: Ip, y: Ip)
    requires WellFormed(m.ipset) && BucketKey(m, x).Some? && BucketKey(m, x) == BucketKey(m, y)
    ensures Accepts(m, x) == Accepts(m, y)
  {
    KeyOfAddress(x);
    SameBucket(m, x, y);
  }

  /** How often `x` is in the list. */
  function Count(s: seq<Ip>, x: Ip): nat
    decreases |s|
  {
    if s == [] then 0 else Count(s[..|s| - 1], x) + if s[|s| - 1] == x then 1 else 0
  }

  lemma {:induction false} CountSnoc(s: seq<Ip>, y: Ip, x: Ip)
    ensures Count(s + [y], x) == Count(s, x) + if y == x then 1 else 0
  {
    assert (s + [y])[..|s|] == s;
  }

  lemma {:induction false} CountAppend(s: seq<Ip>, t: seq<Ip>, x: Ip)
    ensures Count(s + t, x) == Count(s, x) + Count(t, x)
    decreases |t|
  {
    if t == [] {
      assert s + t == s;
    } else {
      var n := |t| - 1;
      assert s + t == (s + t[..n]) + [t[n]];
      CountSnoc(s + t[..n], t[n], x);
      CountAppend(s, t[..n], x);
    }
  }

  lemma {:induction false} CountIsMultiplicity(s: seq<Ip>, x: Ip)
    ensures Count(s, x) == multiset(s)[x]
    decreases |s|
  {
    if s != [] {
      CountIsMultiplicity(s[..|s| - 1], x);
      assert s == s[..|s| - 1] + [s[|s| - 1]];
    }
  }

  /** How often `ip` belongs into a result that takes the addresses with answer `want`. */
  function Share(m: Matcher, ips: seq<Ip>, want: bool, ip: Ip): nat {
    if Legal(ip) && Accepts(m, ip) == want then Count(ips, ip) else 0
  }

  /** What FilterIPs promises: all legal addresses, each on its side, as often as it was given. */
  ghost predicate Partitioned(m: Matcher, ips: seq<Ip>, matched: seq<Ip>, unmatched: seq<Ip>) {
    && (forall ip :: Count(matched, ip) == Share(m, ips, true, ip))
    && (forall ip :: Count(unmatched, ip) == Share(m, ips, false, ip))
  }

  class HeuristicIPMatcher {
    const ipset: IpSet
    var reverse: bool

    constructor (ipset: IpSet, reverse: bool)
      ensures Value() == Matcher(ipset, reverse)
    {
      this.ipset, this.reverse := ipset, reverse;
    }

    function Value(): Matcher
      reads this
    {
      Matcher(ipset, reverse)
    }

    method ToggleReverse()
      modifies this
      ensures Value() == old(Value()).(reverse := !old(reverse))
    {
      reverse := !reverse;
    }

    method SetReverse(reverse: bool)
      modifies this
      ensures Value() == old(Value()).(reverse := reverse)
    {
      this.reverse := reverse;
    }

    method AnyMatch(ips: seq<Ip>) returns (r: bool)
      requires WellFormed(ipset)
      ensures r <==> exists i :: 0 <= i < |ips| && Accepts(Value(), ips[i])
    {
      var m := Value();
      if |ips| == 0 {
        return false;
      }
      if |ips| == 1 {
        return Accepts(m, ips[0]);
      }
      if !Heur4(m) && !Heur6(m) {
        r := AnyOneByOne(m, ips);
      } else {
        r := AnyByBucket(m, ips);
      }
    }

    method Matches(ips: seq<Ip>) returns (r: bool)
      requires WellFormed(ipset)
      ensures r <==> ips != [] && forall i :: 0 <= i < |ips| ==> Accepts(Value(), ips[i])
    {
      var m := Value();
      if |ips| == 0 {
        return false;
      }
      if |ips| == 1 {
        return Accepts(m, ips[0]);
      }
      if !Heur4(m) && !Heur6(m) {
        r := AllOneByOne(m, ips);
      } else {
        r := AllByBucket(m, ips);
      }
    }

    method FilterIPs(ips: seq<Ip>) returns (matched: seq<Ip>, unmatched: seq<Ip>)
      requires WellFormed(ipset)
      ensures Partitioned(Value(), ips, matched, unmatched)
    {
      var m := Value();
      if |ips| == 0 {
        return [], [];
      }
      if |ips| == 1 {
        if !Legal(ips[0]) {
          return [], [];
        }
        if Accepts(m, ips[0]) {
          return ips, [];
        }
        return [], ips;
      }
      if !Heur4(m) && !Heur6(m) {
        matched, unmatched := FilterOneByOne(m, ips);
      } else {
        matched, unmatched := FilterByBucket(m, ips);
      }
    }
  }

  // --------------------------------------------------------------------------- AnyMatch

  method AnyOneByOne(m: Matcher, ips: seq<Ip>) returns (r: bool)
    ensures r <==> exists i :: 0 <= i < |ips| && Accepts(m, ips[i])
  {
    var i := 0;
    while i < |ips|
      invariant 0 <= i <= |ips| && forall j :: 0 <= j < i ==> !Accepts(m, ips[j])
    {
      if Accepts(m, ips[i]) {
        return true;
      }
      i := i + 1;
    }
    r := false;
  }

  /** A key that has been seen belongs to an address that was refused. */
  predicate Refused(m: Matcher, ips: seq<Ip>, n: nat, seen: set<Ip>)
    requires n <= |ips|
  {
    && (forall j :: 0 <= j < n ==> !Accepts(m, ips[j]))
    && (forall k :: k in seen ==> exists j :: 0 <= j < n && BucketKey(m, ips[j]) == Some(k))
  }

  method AnyByBucket(m: Matcher, ips: seq<Ip>) returns (r: bool)
    requires WellFormed(m.ipset)
    ensures r <==> exists i :: 0 <= i < |ips| && Accepts(m, ips[i])
  {
    var seen: set<Ip> := {};
    var i := 0;
    while i < |ips|
      invariant 0 <= i <= |ips| && Refused(m, ips, i, seen)
    {
      var ip := ips[i];
      var key := BucketKey(m, ip);
      if key.Some? && key.value in seen {
        ghost var j :| 0 <= j < i && BucketKey(m, ips[j]) == key;
        OneBucket(m, ip, ips[j]);
      } else {
        if Accepts(m, ip) {
          return true;
        }
        if key.Some? {
          seen := seen + {key.value};
        }
      }
      i := i + 1;
    }
    r := false;
  }

  // ---------------------------------------------------------------------------- Matches

  method AllOneByOne(m: Matcher, ips: seq<Ip>) returns (r: bool)
    ensures r <==> forall i :: 0 <= i < |ips| ==> Accepts(m, ips[i])
  {
    var i := 0;
    while i < |ips|
      invariant 0 <= i <= |ips| && forall j :: 0 <= j < i ==> Accepts(m, ips[j])
    {
      if !Accepts(m, ips[i]) {
        return false;
      }
      i := i + 1;
    }
    r := true;
  }

  /** Every address is in `precise` or in a bucket with a representative of its key, and
      whatever is there comes from the list. */
  predicate Sorted(m: Matcher, ips: seq<Ip>, n: nat, reps: map<Ip, Ip>, precise: seq<Ip>)
    requires n <= |ips|
  {
    && (forall j :: 0 <= j < n ==> Legal(ips[j]))
    && (forall j :: 0 <= j < n ==>
          if BucketKey(m, ips[j]).Some? then BucketKey(m, ips[j]).value in reps else ips[j] in precise)
    && (forall k :: k in reps ==> BucketKey(m, reps[k]) == Some(k) && reps[k] in ips[..n])
    && (forall j :: 0 <= j < |precise| ==> precise[j] in ips[..n])
  }

  /** One more legal address: first of its bucket, another one of it, or in no bucket. */
  lemma {:induction false} SortedNext(m: Matcher, ips: seq<Ip>, n: nat, reps: map<Ip, Ip>, precise: seq<Ip>)
    requires n < |ips| && Sorted(m, ips, n, reps, precise) && Legal(ips[n])
    ensures var key := BucketKey(m, ips[n]);
      if key.None? then Sorted(m, ips, n + 1, reps, precise + [ips[n]])
      else Sorted(m, ips, n + 1, if key.value in reps then reps else reps[key.value := ips[n]], precise)
  {
    assert forall x :: x in ips[..n + 1] <==> x in ips[..n] || x == ips[n] by {
      assert ips[..n + 1] == ips[..n] + [ips[n]];
    }
  }

  /** Sorts into buckets; None at the first illegal address. */
  method Sort(m: Matcher, ips: seq<Ip>) returns (found: Option<(map<Ip, Ip>, seq<Ip>)>)
    ensures found.None? ==> exists i :: 0 <= i < |ips| && !Legal(ips[i])
    ensures found.Some? ==> Sorted(m, ips, |ips|, found.value.0, found.value.1)
  {
    var reps: map<Ip, Ip> := map[];
    var precise: seq<Ip> := [];
    for i := 0 to |ips|
      invariant Sorted(m, ips, i, reps, precise)
    {
      var ip := ips[i];
      KeyOfAddress(ip);
      if PrefixKey(ip).None? {
        return None;
      }
      SortedNext(m, ips, i, reps, precise);
      var key := BucketKey(m, ip);
      if key.Some? {
        if key.value !in reps {
          reps := reps[key.value := ip];
        }
      } else {
        precise := precise + [ip];
      }
    }
    found := Some((reps, precise));
  }

  lemma {:induction false} SortedDecides(m: Matcher, ips: seq<Ip>, reps: map<Ip, Ip>, precise: seq<Ip>)
    requires WellFormed(m.ipset) && Sorted(m, ips, |ips|, reps, precise)
    ensures (forall i :: 0 <= i < |ips| ==> Accepts(m, ips[i])) <==>
      (forall k :: k in reps ==> Accepts(m, reps[k])) && (forall j :: 0 <= j < |precise| ==> Accepts(m, precise[j]))
  {
    assert ips[..|ips|] == ips;
    forall i | 0 <= i < |ips| && BucketKey(m, ips[i]).Some?
      ensures Accepts(m, ips[i]) == Accepts(m, reps[BucketKey(m, ips[i]).value])
    {
      OneBucket(m, ips[i], reps[BucketKey(m, ips[i]).value]);
    }
  }

  method AllByBucket(m: Matcher, ips: seq<Ip>) returns (r: bool)
    requires WellFormed(m.ipset)
    ensures r <==> forall i :: 0 <= i < |ips| ==> Accepts(m, ips[i])
  {
    var found := Sort(m, ips);
    if found.None? {
      return false;
    }
    var (reps, precise) := found.value;
    SortedDecides(m, ips, reps, precise);
    var left := reps.Keys;
    while left != {}
      invariant left <= reps.Keys && forall k :: k in reps && k !in left ==> Accepts(m, reps[k])
      decreases |left|
    {
      var k :| k in left;
      if !Accepts(m, reps[k]) {
        return false;
      }
      left := left - {k};
    }
    r := AllOneByOne(m, precise);
  }

  // -------------------------------------------------------------------------- FilterIPs

  lemma {:induction false} PlaceOne(m: Matcher, ips: seq<Ip>, matched: seq<Ip>, unmatched: seq<Ip>, ip: Ip)
    requires Partitioned(m, ips, matched, unmatched)
    ensures !Legal(ip) ==> Partitioned(m, ips + [ip], matched, unmatched)
    ensures Legal(ip) && Accepts(m, ip) ==> Partitioned(m, ips + [ip], matched + [ip], unmatched)
    ensures Legal(ip) && !Accepts(m, ip) ==> Partitioned(m, ips + [ip], matched, unmatched + [ip])
  {
    forall x ensures Count(ips + [ip], x) == Count(ips, x) + if ip == x then 1 else 0
      ensures Count(matched + [ip], x) == Count(matched, x) + if ip == x then 1 else 0
      ensures Count(unmatched + [ip], x) == Count(unmatched, x) + if ip == x then 1 else 0
    {
      CountSnoc(ips, ip, x);
      CountSnoc(matched, ip, x);
      CountSnoc(unmatched, ip, x);
    }
  }

  method FilterOneByOne(m: Matcher, ips: seq<Ip>) returns (matched: seq<Ip>, unmatched: seq<Ip>)
    ensures Partitioned(m, ips, matched, unmatched)
  {
    matched, unmatched := [], [];
    var i := 0;
    while i < |ips|
      invariant 0 <= i <= |ips| && Partitioned(m, ips[..i], matched, unmatched)
    {
      var ip := ips[i];
      assert ips[..i + 1] == ips[..i] + [ip];
      PlaceOne(m, ips[..i], matched, unmatched, ip);
      if Legal(ip) {
        if Accepts(m, ip) {
          matched := matched + [ip];
        } else {
          unmatched := unmatched + [ip];
        }
      }
      i := i + 1;
    }
    assert ips[..i] == ips;
  }

  /** How often `ip` belongs into the bucket `k`. */
  function BucketShare(m: Matcher, ips: seq<Ip>, k: Ip, ip: Ip): nat {
    if BucketKey(m, ip) == Some(k) then Count(ips, ip) else 0
  }

  /** The bucket `k` holds exactly the addresses with that key. */
  ghost predicate BucketOk(m: Matcher, ips: seq<Ip>, k: Ip, b: Bucket) {
    BucketKey(m, b.rep) == Some(k) && forall ip :: Count(b.ips, ip) == BucketShare(m, ips, k, ip)
  }

  /** `precise` holds exactly the legal addresses without a bucket. */
  ghost predicate PreciseOk(m: Matcher, ips: seq<Ip>, precise: seq<Ip>) {
    forall ip :: Count(precise, ip) == if Legal(ip) && BucketKey(m, ip).None? then Count(ips, ip) else 0
  }

  ghost predicate Bucketed(m: Matcher, ips: seq<Ip>, buckets: map<Ip, Bucket>) {
    && (forall k :: k in buckets ==> BucketOk(m, ips, k, buckets[k]))
    && (forall ip :: Count(ips, ip) > 0 && BucketKey(m, ip).Some? ==> BucketKey(m, ip).value in buckets)
  }

  lemma {:induction false} BucketGrows(m: Matcher, ips: seq<Ip>, k: Ip, b: Bucket, ip: Ip)
    requires BucketOk(m, ips, k, b)
    ensures BucketOk(m, ips + [ip], k, if BucketKey(m, ip) == Some(k) then Bucket(b.rep, b.ips + [ip]) else b)
  {
    forall x ensures Count(ips + [ip], x) == Count(ips, x) + if ip == x then 1 else 0
      ensures Count(b.ips + [ip], x) == Count(b.ips, x) + if ip == x then 1 else 0
    {
      CountSnoc(ips, ip, x);
      CountSnoc(b.ips, ip, x);
    }
  }

  function BucketFor(buckets: map<Ip, Bucket>, k: Ip, ip: Ip): Bucket {
    if k in buckets then buckets[k] else Bucket(ip, [])
  }

  lemma {:induction false} AddToBucket(m: Matcher, ips: seq<Ip>, buckets: map<Ip, Bucket>, ip: Ip, k: Ip)
    requires Bucketed(m, ips, buckets) && BucketKey(m, ip) == Some(k)
    ensures var b := BucketFor(buckets, k, ip);
      Bucketed(m, ips + [ip], buckets[k := Bucket(b.rep, b.ips + [ip])])
  {
    var b := BucketFor(buckets, k, ip);
    assert BucketOk(m, ips, k, b);
    var buckets' := buckets[k := Bucket(b.rep, b.ips + [ip])];
    forall j | j in buckets' ensures BucketOk(m, ips + [ip], j, buckets'[j]) {
      BucketGrows(m, ips, j, if j == k then b else buckets[j], ip);
    }
    forall x | Count(ips + [ip], x) > 0 && BucketKey(m, x).Some? ensures BucketKey(m, x).value in buckets' {
      CountSnoc(ips, ip, x);
    }
  }

  lemma {:induction false} AddElsewhere(m: Matcher, ips: seq<Ip>, buckets: map<Ip, Bucket>, ip: Ip)
    requires Bucketed(m, ips, buckets) && BucketKey(m, ip).None?
    ensures Bucketed(m, ips + [ip], buckets)
  {
    forall j | j in buckets ensures BucketOk(m, ips + [ip], j, buckets[j]) {
      BucketGrows(m, ips, j, buckets[j], ip);
    }
    forall x | Count(ips + [ip], x) > 0 && BucketKey(m, x).Some? ensures BucketKey(m, x).value in buckets {
      CountSnoc(ips, ip, x);
    }
  }

  lemma {:induction false} AddToPrecise(m: Matcher, ips: seq<Ip>, precise: seq<Ip>, ip: Ip)
    requires PreciseOk(m, ips, precise)
    ensures PreciseOk(m, ips + [ip], if Legal(ip) && BucketKey(m, ip).None? then precise + [ip] else precise)
  {
    forall x ensures Count(ips + [ip], x) == Count(ips, x) + if ip == x then 1 else 0
      ensures Count(precise + [ip], x) == Count(precise, x) + if ip == x then 1 else 0
    {
      CountSnoc(ips, ip, x);
      CountSnoc(precise, ip, x);
    }
  }

  /** The address goes into its bucket, or to those matched one by one, or nowhere. */
  method PutAway(m: Matcher, ghost sofar: seq<Ip>, ip: Ip, buckets0: map<Ip, Bucket>, precise0: seq<Ip>)
    returns (buckets: map<Ip, Bucket>, precise: seq<Ip>)
    requires Bucketed(m, sofar, buckets0) && PreciseOk(m, sofar, precise0)
    ensures Bucketed(m, sofar + [ip], buckets) && PreciseOk(m, sofar + [ip], precise)
  {
    buckets, precise := buckets0, precise0;
    KeyOfAddress(ip);
    AddToPrecise(m, sofar, precise, ip);
    var key := BucketKey(m, ip);
    if key.None? {
      AddElsewhere(m, sofar, buckets, ip);
      if PrefixKey(ip).Some? {
        precise := precise + [ip];
      }
    } else {
      AddToBucket(m, sofar, buckets, ip, key.value);
      var b := BucketFor(buckets, key.value, ip);
      buckets := buckets[key.value := Bucket(b.rep, b.ips + [ip])];
    }
  }

  method Distribute(m: Matcher, ips: seq<Ip>) returns (buckets: map<Ip, Bucket>, precise: seq<Ip>)
    ensures Bucketed(m, ips, buckets) && PreciseOk(m, ips, precise)
  {
    buckets, precise := map[], [];
    for i := 0 to |ips|
      invariant Bucketed(m, ips[..i], buckets) && PreciseOk(m, ips[..i], precise)
    {
      buckets, precise := PutAway(m, ips[..i], ips[i], buckets, precise);
      assert ips[..i + 1] == ips[..i] + [ips[i]];
    }
    assert ips[..|ips|] == ips;
  }

  /** What has gone to one side when the buckets of `done` are placed. */
  function PlacedShare(m: Matcher, ips: seq<Ip>, done: set<Ip>, want: bool, ip: Ip): nat {
    if BucketKey(m, ip).Some? && BucketKey(m, ip).value in done then Share(m, ips, want, ip) else 0
  }

  ghost predicate Placed(m: Matcher, ips: seq<Ip>, done: set<Ip>, want: bool, side: seq<Ip>) {
    forall ip :: Count(side, ip) == PlacedShare(m, ips, done, want, ip)
  }

  /** A bucket goes to the side of its representative. */
  lemma {:induction false} PlaceBucket(m: Matcher, ips: seq<Ip>, k: Ip, b: Bucket, done: set<Ip>, want: bool,
                                       side: seq<Ip>)
    requires WellFormed(m.ipset) && BucketOk(m, ips, k, b) && k !in done && Placed(m, ips, done, want, side)
    ensures Placed(m, ips, done + {k}, want, if Accepts(m, b.rep) == want then side + b.ips else side)
  {
    forall ip ensures PlacedShare(m, ips, done + {k}, want, ip) ==
      PlacedShare(m, ips, done, want, ip) + if Accepts(m, b.rep) == want then BucketShare(m, ips, k, ip) else 0
    {
      KeyOfAddress(ip);
      if BucketKey(m, ip) == Some(k) {
        OneBucket(m, ip, b.rep);
      }
    }
    forall ip ensures Count(side + b.ips, ip) == Count(side, ip) + Count(b.ips, ip) {
      CountAppend(side, b.ips, ip);
    }
  }

  lemma {:induction false} AddPrecise(m: Matcher, ips: seq<Ip>, buckets: map<Ip, Bucket>, precise: seq<Ip>,
                                      want: bool, side: seq<Ip>, more: seq<Ip>)
    requires Bucketed(m, ips, buckets) && PreciseOk(m, ips, precise) && Placed(m, ips, buckets.Keys, want, side)
    requires forall ip :: Count(more, ip) == Share(m, precise, want, ip)
    ensures forall ip :: Count(side + more, ip) == Share(m, ips, want, ip)
  {
    forall ip ensures Count(side + more, ip) == Share(m, ips, want, ip) {
      CountAppend(side, more, ip);
      KeyOfAddress(ip);
      assert Count(side, ip) == PlacedShare(m, ips, buckets.Keys, want, ip);
    }
  }

  /** Both sides after the buckets of `done`. */
  ghost predicate Sides(m: Matcher, ips: seq<Ip>, done: set<Ip>, matched: seq<Ip>, unmatched: seq<Ip>) {
    Placed(m, ips, done, true, matched) && Placed(m, ips, done, false, unmatched)
  }

  lemma {:induction false} NoSides(m: Matcher, ips: seq<Ip>)
    ensures Sides(m, ips, {}, [], [])
  {
  }

  lemma {:induction false} PlaceOnSide(m: Matcher, ips: seq<Ip>, k: Ip, b: Bucket, done: set<Ip>, matched: seq<Ip>,
                                       unmatched: seq<Ip>)
    requires WellFormed(m.ipset) && BucketOk(m, ips, k, b) && k !in done && Sides(m, ips, done, matched, unmatched)
    ensures if Accepts(m, b.rep) then Sides(m, ips, done + {k}, matched + b.ips, unmatched)
            else Sides(m, ips, done + {k}, matched, unmatched + b.ips)
  {
    PlaceBucket(m, ips, k, b, done, true, matched);
    PlaceBucket(m, ips, k, b, done, false, unmatched);
  }

  method EmptyBucket(m: Matcher, ghost ips: seq<Ip>, ghost k: Ip, b: Bucket, ghost done: set<Ip>,
                     matched0: seq<Ip>, unmatched0: seq<Ip>) returns (matched: seq<Ip>, unmatched: seq<Ip>)
    requires WellFormed(m.ipset) && BucketOk(m, ips, k, b) && k !in done && Sides(m, ips, done, matched0, unmatched0)
    ensures Sides(m, ips, done + {k}, matched, unmatched)
  {
    matched, unmatched := matched0, unmatched0;
    PlaceOnSide(m, ips, k, b, done, matched, unmatched);
    if Accepts(m, b.rep) {
      matched := matched + b.ips;
    } else {
      unmatched := unmatched + b.ips;
    }
  }

  predicate Distinct(s: seq<Ip>) {
    forall i, j :: 0 <= i < j < |s| ==> s[i] != s[j]
  }

  function SetOf(s: seq<Ip>): set<Ip> {
    set k | k in s
  }

  lemma {:induction false} DistinctSnoc(s: seq<Ip>, k: Ip)
    requires Distinct(s) && k !in SetOf(s)
    ensures Distinct(s + [k]) && SetOf(s + [k]) == SetOf(s) + {k}
  {
    forall i | 0 <= i < |s| ensures s[i] != k {
      assert s[i] in SetOf(s);
    }
  }

  /** A map is visited in some order. */
  method SomeOrder(keys: set<Ip>) returns (order: seq<Ip>)
    ensures Distinct(order) && SetOf(order) == keys
  {
    order := [];
    var left := keys;
    while left != {}
      invariant Distinct(order) && left <= keys && SetOf(order) == keys - left
      decreases |left|
    {
      var k :| k in left;
      DistinctSnoc(order, k);
      order := order + [k];
      left := left - {k};
    }
  }

  lemma {:induction false} OrderNext(order: seq<Ip>, i: nat)
    requires Distinct(order) && i < |order|
    ensures order[i] !in SetOf(order[..i]) && order[i] in SetOf(order)
    ensures SetOf(order[..i + 1]) == SetOf(order[..i]) + {order[i]}
  {
    assert order[..i + 1] == order[..i] + [order[i]];
  }

  method PlaceAll(m: Matcher, ghost ips: seq<Ip>, buckets: map<Ip, Bucket>)
    returns (matched: seq<Ip>, unmatched: seq<Ip>)
    requires WellFormed(m.ipset) && forall k :: k in buckets ==> BucketOk(m, ips, k, buckets[k])
    ensures Sides(m, ips, buckets.Keys, matched, unmatched)
  {
    matched, unmatched := [], [];
    NoSides(m, ips);
    var order := SomeOrder(buckets.Keys);
    assert SetOf(order[..0]) == {};
    for i := 0 to |order|
      invariant Sides(m, ips, SetOf(order[..i]), matched, unmatched)
    {
      OrderNext(order, i);
      matched, unmatched :=
        EmptyBucket(m, ips, order[i], buckets[order[i]], SetOf(order[..i]), matched, unmatched);
    }
    assert order[..|order|] == order;
  }

  method FilterByBucket(m: Matcher, ips: seq<Ip>) returns (matched: seq<Ip>, unmatched: seq<Ip>)
    requires WellFormed(m.ipset)
    ensures Partitioned(m, ips, matched, unmatched)
  {
    var buckets, precise := Distribute(m, ips);
    matched, unmatched := PlaceAll(m, ips, buckets);
    var more, rest := FilterOneByOne(m, precise);
    AddPrecise(m, ips, buckets, precise, true, matched, more);
    AddPrecise(m, ips, buckets, precise, false, unmatched, rest);
    matched, unmatched := matched + more, unmatched + rest;
  }
}
