/** HeuristicMultiIPMatcher.FilterIPs (common/geodata/ip_matcher.go): what is matched is taken
    out of the views as the sub-matchers go over them; what is left in them is unmatched.

    A view is a shelf of buckets. The invariant says which addresses still stand on it. */
module IpMultiFilter {
  import opened Bytes
  import opened IpSets
  import opened IpMatcher
  import opened IpMultiMatcher

  /** A view of the addresses of one family: buckets by prefix key where prefixes are `short`,
      else single addresses (as buckets of one); None marks what has been matched. */
  type Shelf = map<Ip, Option<Bucket>>

  function Key(short: bool, ip: Ip): Option<Ip> {
    if short then PrefixKey(ip) else FromStdIp(ip)
  }

  /** The address is in the list, perhaps in its other form. */
  predicate Listed(list: seq<Ip>, ip: Ip) {
    exists i :: 0 <= i < |list| && FromStdIp(list[i]) == FromStdIp(ip)
  }

  lemma {:induction false} SameShelfKey(m: Matcher, family: nat, short: bool, x: Ip, y: Ip)
    requires WellFormed(m.ipset) && Family(x) == family && Short(m, family) == short
    requires Key(short, x).Some? && Key(short, x) == Key(short, y)
    ensures Accepts(m, x) == Accepts(m, y)
  {
    if short {
      SameKey(m, x, y);
    }
  }

  // ---------------------------------------------------------------------- making a shelf

  predicate BucketIn(ips: seq<Ip>, family: nat, short: bool, k: Ip, b: Bucket) {
    && Key(short, b.rep) == Some(k) && Family(b.rep) == family && b.rep in ips
    && (forall x :: x in b.ips ==> x in ips && Key(short, x) == Some(k) && Family(x) == family)
  }

  predicate OnShelf(shelf: Shelf, short: bool, ip: Ip) {
    && Key(short, ip).Some? && Key(short, ip).value in shelf
    && shelf[Key(short, ip).value].Some? && Listed(shelf[Key(short, ip).value].value.ips, ip)
  }

  /** The shelf before anything is matched. */
  predicate Full(ips: seq<Ip>, family: nat, short: bool, shelf: Shelf) {
    && (forall ip :: ip in ips && Family(ip) == family ==> OnShelf(shelf, short, ip))
    && (forall k :: k in shelf ==> shelf[k].Some? && BucketIn(ips, family, short, k, shelf[k].value))
  }

  /** A bucket takes every address in, a single place keeps the last one. */
  function Put(shelf: Shelf, short: bool, ip: Ip, k: Ip): Shelf {
    var b := if short && k in shelf && shelf[k].Some? then shelf[k].value else Bucket(ip, []);
    shelf[k := Some(Bucket(b.rep, b.ips + [ip]))]
  }

  lemma {:induction false} BucketInMore(ips: seq<Ip>, family: nat, short: bool, k: Ip, b: Bucket, ip: Ip)
    requires BucketIn(ips, family, short, k, b)
    ensures BucketIn(ips + [ip], family, short, k, b)
    ensures Key(short, ip) == Some(k) && Family(ip) == family ==>
      BucketIn(ips + [ip], family, short, k, Bucket(b.rep, b.ips + [ip]))
  {
  }

  lemma {:induction false} ListedMore(list: seq<Ip>, x: Ip, ip: Ip)
    ensures Listed(list, ip) ==> Listed(list + [x], ip)
    ensures FromStdIp(x) == FromStdIp(ip) ==> Listed(list + [x], ip)
  {
    if i :| 0 <= i < |list| && FromStdIp(list[i]) == FromStdIp(ip) {
      assert (list + [x])[i] == list[i];
    }
    assert (list + [x])[|list|] == x;
  }

  lemma {:induction false} PutKeepsOne(shelf: Shelf, short: bool, ip: Ip, k: Ip, x: Ip)
    requires Key(short, ip) == Some(k) && (OnShelf(shelf, short, x) || x == ip)
    ensures OnShelf(Put(shelf, short, ip, k), short, x)
  {
    var b := if short && k in shelf && shelf[k].Some? then shelf[k].value else Bucket(ip, []);
    ListedMore(b.ips, ip, x);
  }

  lemma {:induction false} PutKeeps(ips: seq<Ip>, family: nat, short: bool, shelf: Shelf, ip: Ip, k: Ip)
    requires Full(ips, family, short, shelf) && Family(ip) == family && Key(short, ip) == Some(k)
    ensures Full(ips + [ip], family, short, Put(shelf, short, ip, k))
  {
    var next := Put(shelf, short, ip, k);
    forall j | j in next ensures next[j].Some? && BucketIn(ips + [ip], family, short, j, next[j].value) {
      if j in shelf {
        BucketInMore(ips, family, short, j, shelf[j].value, ip);
      }
    }
    forall x | x in ips + [ip] && Family(x) == family ensures OnShelf(next, short, x) {
      PutKeepsOne(shelf, short, ip, k, x);
    }
  }

  lemma {:induction false} PassKeeps(ips: seq<Ip>, family: nat, short: bool, shelf: Shelf, ip: Ip)
    requires Full(ips, family, short, shelf) && Family(ip) != family
    ensures Full(ips + [ip], family, short, shelf)
  {
    forall k | k in shelf ensures shelf[k].Some? && BucketIn(ips + [ip], family, short, k, shelf[k].value) {
      BucketInMore(ips, family, short, k, shelf[k].value, ip);
    }
  }

  function Shelved(shelf: Shelf, family: nat, short: bool, ip: Ip): Shelf {
    if Family(ip) == family && Key(short, ip).Some? then Put(shelf, short, ip, Key(short, ip).value) else shelf
  }

  lemma {:induction false} ShelvedKeeps(ips: seq<Ip>, family: nat, short: bool, shelf: Shelf, ip: Ip)
    requires (family == 4 || family == 6) && Full(ips, family, short, shelf)
    ensures Full(ips + [ip], family, short, Shelved(shelf, family, short, ip))
  {
    KeyOfAddress(ip);
    if Family(ip) == family {
      PutKeeps(ips, family, short, shelf, ip, Key(short, ip).value);
    } else {
      PassKeeps(ips, family, short, shelf, ip);
    }
  }

  method MakeShelf(ips: seq<Ip>, family: nat, short: bool) returns (shelf: Shelf)
    requires family == 4 || family == 6
    ensures Full(ips, family, short, shelf)
  {
    shelf := map[];
    ghost var seen: seq<Ip> := [];
    for i := 0 to |ips|
      invariant seen == ips[..i] && Full(seen, family, short, shelf)
    {
      var ip := ips[i];
      ShelvedKeeps(seen, family, short, shelf, ip);
      shelf := Shelved(shelf, family, short, ip);
      seen := seen + [ip];
    }
  }

  // ------------------------------------------------------------------ one matcher's turn

  predicate Takes(m: Matcher, b: Option<Bucket>) {
    b.Some? && Accepts(m, b.value.rep)
  }

  /** The shelf after the matcher has been over the places in `done`. */
  function Left(m: Matcher, shelf: Shelf, done: set<Ip>): Shelf {
    map k | k in shelf :: if k in done && Takes(m, shelf[k]) then None else shelf[k]
  }

  ghost predicate Hits(m: Matcher, shelf: Shelf, done: set<Ip>, hits: seq<Ip>) {
    forall x :: x in hits <==> exists k :: k in shelf && k in done && Takes(m, shelf[k]) && x in shelf[k].value.ips
  }

  /** In the middle of a turn, with `left` still to look at. */
  ghost predicate Turning(m: Matcher, shelf: Shelf, left: set<Ip>, rest: Shelf, hits: seq<Ip>) {
    rest == Left(m, shelf, shelf.Keys - left) && Hits(m, shelf, shelf.Keys - left, hits)
  }

  lemma {:induction false} TakeOne(m: Matcher, shelf: Shelf, left: set<Ip>, k: Ip, rest: Shelf, hits: seq<Ip>)
    requires k in shelf && k in left && Turning(m, shelf, left, rest, hits)
    ensures if Takes(m, shelf[k]) then Turning(m, shelf, left - {k}, rest[k := None], hits + shelf[k].value.ips)
            else Turning(m, shelf, left - {k}, rest, hits)
  {
    var done := shelf.Keys - left;
    assert shelf.Keys - (left - {k}) == done + {k};
    assert Left(m, shelf, done + {k}) == if Takes(m, shelf[k]) then rest[k := None] else rest;
    assert Hits(m, shelf, done + {k}, if Takes(m, shelf[k]) then hits + shelf[k].value.ips else hits);
  }

  method Take(m: Matcher, shelf: Shelf) returns (rest: Shelf, hits: seq<Ip>)
    ensures Turning(m, shelf, {}, rest, hits)
  {
    rest, hits := shelf, [];
    var left := shelf.Keys;
    while left != {}
      invariant left <= shelf.Keys && Turning(m, shelf, left, rest, hits)
      decreases |left|
    {
      var k :| k in left;
      TakeOne(m, shelf, left, k, rest, hits);
      if Takes(m, shelf[k]) {
        rest := rest[k := None];
        hits := hits + shelf[k].value.ips;
      }
      left := left - {k};
    }
  }

  // ----------------------------------------------------------------------- all the turns

  /** Some of the first `t` sub-matchers that use this kind of view accepts the address. */
  predicate HitBy(ms: seq<Matcher>, t: nat, family: nat, short: bool, ip: Ip)
    requires t <= |ms|
  {
    exists u :: 0 <= u < t && Short(ms[u], family) == short && Accepts(ms[u], ip)
  }

  predicate Uses(ms: seq<Matcher>, t: nat, family: nat, short: bool)
    requires t <= |ms|
  {
    exists u :: 0 <= u < t && Short(ms[u], family) == short
  }

  /** Each address of the family is still there exactly if nobody has taken it. */
  predicate Standing(ms: seq<Matcher>, t: nat, ips: seq<Ip>, family: nat, short: bool, shelf: Shelf)
    requires t <= |ms|
  {
    && (forall ip :: ip in ips && Family(ip) == family ==> Stands(ms, t, family, short, shelf, ip))
    && (forall k :: k in shelf && shelf[k].Some? ==> BucketIn(ips, family, short, k, shelf[k].value))
  }

  predicate Stands(ms: seq<Matcher>, t: nat, family: nat, short: bool, shelf: Shelf, ip: Ip)
    requires t <= |ms|
  {
    && Key(short, ip).Some? && Key(short, ip).value in shelf
    && (if HitBy(ms, t, family, short, ip) then shelf[Key(short, ip).value].None? else OnShelf(shelf, short, ip))
  }

  lemma {:induction false} FullStands(ms: seq<Matcher>, t: nat, ips: seq<Ip>, family: nat, short: bool, shelf: Shelf)
    requires t <= |ms| && Full(ips, family, short, shelf) && !Uses(ms, t, family, short)
    ensures Standing(ms, t, ips, family, short, shelf)
  {
    forall ip | ip in ips && Family(ip) == family ensures Stands(ms, t, family, short, shelf, ip) {
      assert OnShelf(shelf, short, ip);
    }
  }

  lemma {:induction false} TurnStandsOne(ms: seq<Matcher>, t: nat, ips: seq<Ip>, family: nat, short: bool,
                                         shelf: Shelf, ip: Ip)
    requires t < |ms| && WellFormed(ms[t].ipset) && Short(ms[t], family) == short
    requires Standing(ms, t, ips, family, short, shelf) && ip in ips && Family(ip) == family
    ensures Stands(ms, t + 1, family, short, Left(ms[t], shelf, shelf.Keys), ip)
  {
    assert Stands(ms, t, family, short, shelf, ip);
    var k := Key(short, ip).value;
    if shelf[k].Some? {
      assert BucketIn(ips, family, short, k, shelf[k].value);
      SameShelfKey(ms[t], family, short, ip, shelf[k].value.rep);
    }
    assert HitBy(ms, t + 1, family, short, ip) <==> HitBy(ms, t, family, short, ip) || Accepts(ms[t], ip);
  }

  lemma {:induction false} TurnStands(ms: seq<Matcher>, t: nat, ips: seq<Ip>, family: nat, short: bool, shelf: Shelf)
    requires t < |ms| && WellFormed(ms[t].ipset) && Short(ms[t], family) == short
    requires Standing(ms, t, ips, family, short, shelf)
    ensures Standing(ms, t + 1, ips, family, short, Left(ms[t], shelf, shelf.Keys))
  {
    forall ip | ip in ips && Family(ip) == family
      ensures Stands(ms, t + 1, family, short, Left(ms[t], shelf, shelf.Keys), ip)
    {
      TurnStandsOne(ms, t, ips, family, short, shelf, ip);
    }
  }

  /** A matcher of the other kind leaves the shelf alone. */
  lemma {:induction false} OtherStands(ms: seq<Matcher>, t: nat, ips: seq<Ip>, family: nat, short: bool, shelf: Shelf)
    requires t < |ms| && Short(ms[t], family) != short && Standing(ms, t, ips, family, short, shelf)
    ensures Standing(ms, t + 1, ips, family, short, shelf)
  {
    forall ip | ip in ips && Family(ip) == family ensures Stands(ms, t + 1, family, short, shelf, ip) {
      assert Stands(ms, t, family, short, shelf, ip);
      assert HitBy(ms, t + 1, family, short, ip) <==> HitBy(ms, t, family, short, ip);
    }
  }

  /** ipBucketViews for one family. */
  datatype Views = Views(buckets: Option<Shelf>, precise: Option<Shelf>)

  function ShelfOf(v: Views, short: bool): Option<Shelf> {
    if short then v.buckets else v.precise
  }

  predicate ShelfOk(ms: seq<Matcher>, t: nat, ips: seq<Ip>, family: nat, short: bool, shelf: Option<Shelf>)
    requires t <= |ms|
  {
    (shelf.Some? <==> Uses(ms, t, family, short)) && (shelf.Some? ==> Standing(ms, t, ips, family, short, shelf.value))
  }

  predicate ViewsOk(ms: seq<Matcher>, t: nat, ips: seq<Ip>, family: nat, v: Views)
    requires t <= |ms|
  {
    ShelfOk(ms, t, ips, family, true, v.buckets) && ShelfOk(ms, t, ips, family, false, v.precise)
  }

  /** What one turn adds to the matched list. */
  predicate TurnHits(ms: seq<Matcher>, t: nat, ips: seq<Ip>, family: nat, hits: seq<Ip>)
    requires t < |ms|
  {
    && (forall x :: x in hits ==> x in ips && Accepts(ms[t], x))
    && (forall ip :: ip in ips && Family(ip) == family && Accepts(ms[t], ip) ==>
          HitBy(ms, t, family, Short(ms[t], family), ip) || Listed(hits, ip))
  }

  lemma {:induction false} ListedWithin(part: seq<Ip>, all: seq<Ip>, ip: Ip)
    requires Listed(part, ip) && forall x :: x in part ==> x in all
    ensures Listed(all, ip)
  {
    var i :| 0 <= i < |part| && FromStdIp(part[i]) == FromStdIp(ip);
    assert part[i] in all;
  }

  lemma {:induction false} TurnSound(ms: seq<Matcher>, t: nat, ips: seq<Ip>, family: nat, short: bool, shelf: Shelf,
                                     k: Ip, x: Ip)
    requires t < |ms| && WellFormed(ms[t].ipset) && Short(ms[t], family) == short
    requires Standing(ms, t, ips, family, short, shelf)
    requires k in shelf && Takes(ms[t], shelf[k]) && x in shelf[k].value.ips
    ensures x in ips && Accepts(ms[t], x)
  {
    assert BucketIn(ips, family, short, k, shelf[k].value);
    SameShelfKey(ms[t], family, short, shelf[k].value.rep, x);
  }

  lemma {:induction false} TurnComplete(ms: seq<Matcher>, t: nat, ips: seq<Ip>, family: nat, short: bool,
                                        shelf: Shelf, rest: Shelf, hits: seq<Ip>, ip: Ip)
    requires t < |ms| && WellFormed(ms[t].ipset) && Short(ms[t], family) == short
    requires Standing(ms, t, ips, family, short, shelf) && Turning(ms[t], shelf, {}, rest, hits)
    requires ip in ips && Family(ip) == family && Accepts(ms[t], ip) && !HitBy(ms, t, family, short, ip)
    ensures Listed(hits, ip)
  {
    assert Stands(ms, t, family, short, shelf, ip);
    var k := Key(short, ip).value;
    var b := shelf[k].value;
    assert BucketIn(ips, family, short, k, b);
    SameShelfKey(ms[t], family, short, ip, b.rep);
    assert Takes(ms[t], shelf[k]) && k in shelf.Keys - {};
    ListedWithin(b.ips, hits, ip);
  }

  lemma {:induction false} TurnCounts(ms: seq<Matcher>, t: nat, ips: seq<Ip>, family: nat, short: bool, shelf: Shelf,
                                      rest: Shelf, hits: seq<Ip>)
    requires t < |ms| && WellFormed(ms[t].ipset) && Short(ms[t], family) == short
    requires Standing(ms, t, ips, family, short, shelf) && Turning(ms[t], shelf, {}, rest, hits)
    ensures TurnHits(ms, t, ips, family, hits)
  {
    forall x | x in hits ensures x in ips && Accepts(ms[t], x) {
      var k :| k in shelf && k in shelf.Keys - {} && Takes(ms[t], shelf[k]) && x in shelf[k].value.ips;
      TurnSound(ms, t, ips, family, short, shelf, k, x);
    }
    forall ip | ip in ips && Family(ip) == family && Accepts(ms[t], ip) && !HitBy(ms, t, family, short, ip)
      ensures Listed(hits, ip)
    {
      TurnComplete(ms, t, ips, family, short, shelf, rest, hits, ip);
    }
  }

  /** ensureForMatcher, for the view that the matcher needs. */
  method EnsureShelf(ghost ms: seq<Matcher>, ghost t: nat, ips: seq<Ip>, family: nat, short: bool, have: Option<Shelf>)
    returns (shelf: Shelf)
    requires (family == 4 || family == 6) && t <= |ms| && ShelfOk(ms, t, ips, family, short, have)
    ensures Standing(ms, t, ips, family, short, shelf)
  {
    if have.Some? {
      return have.value;
    }
    shelf := MakeShelf(ips, family, short);
    FullStands(ms, t, ips, family, short, shelf);
  }

  lemma {:induction false} ShelfTurn(ms: seq<Matcher>, t: nat, ips: seq<Ip>, family: nat, short: bool, shelf: Shelf,
                                     rest: Shelf, hits: seq<Ip>)
    requires t < |ms| && WellFormed(ms[t].ipset) && Short(ms[t], family) == short
    requires Standing(ms, t, ips, family, short, shelf) && Turning(ms[t], shelf, {}, rest, hits)
    ensures ShelfOk(ms, t + 1, ips, family, short, Some(rest))
  {
    TurnStands(ms, t, ips, family, short, shelf);
    assert shelf.Keys - {} == shelf.Keys;
    assert Uses(ms, t + 1, family, short);
  }

  lemma {:induction false} ShelfRest(ms: seq<Matcher>, t: nat, ips: seq<Ip>, family: nat, short: bool,
                                     shelf: Option<Shelf>)
    requires t < |ms| && Short(ms[t], family) != short && ShelfOk(ms, t, ips, family, short, shelf)
    ensures ShelfOk(ms, t + 1, ips, family, short, shelf)
  {
    assert Uses(ms, t + 1, family, short) <==> Uses(ms, t, family, short);
    if shelf.Some? {
      OtherStands(ms, t, ips, family, short, shelf.value);
    }
  }

  /** One sub-matcher goes over one family. */
  method Turn(ms: seq<Matcher>, t: nat, ips: seq<Ip>, family: nat, v0: Views) returns (v: Views, hits: seq<Ip>)
    requires (family == 4 || family == 6) && t < |ms| && WellFormed(ms[t].ipset) && ViewsOk(ms, t, ips, family, v0)
    ensures ViewsOk(ms, t + 1, ips, family, v) && TurnHits(ms, t, ips, family, hits)
  {
    var m := ms[t];
    var short := Short(m, family);
    var shelf := EnsureShelf(ms, t, ips, family, short, ShelfOf(v0, short));
    var rest;
    rest, hits := Take(m, shelf);
    ShelfTurn(ms, t, ips, family, short, shelf, rest, hits);
    ShelfRest(ms, t, ips, family, !short, ShelfOf(v0, !short));
    TurnCounts(ms, t, ips, family, short, shelf, rest, hits);
    v := if short then v0.(buckets := Some(rest)) else v0.(precise := Some(rest));
  }

  // -------------------------------------------------------------------------- the results

  predicate AcceptedUpTo(ms: seq<Matcher>, t: nat, ip: Ip)
    requires t <= |ms|
  {
    exists u :: 0 <= u < t && Accepts(ms[u], ip)
  }

  predicate MatchedOk(ms: seq<Matcher>, t: nat, ips: seq<Ip>, matched: seq<Ip>)
    requires t <= |ms|
  {
    && (forall x :: x in matched ==> x in ips && AcceptedUpTo(ms, t, x))
    && (forall ip :: ip in ips && AcceptedUpTo(ms, t, ip) ==> Listed(matched, ip))
  }

  lemma {:induction false} MatchedMore(ms: seq<Matcher>, t: nat, ips: seq<Ip>, matched: seq<Ip>, hits4: seq<Ip>,
                                       hits6: seq<Ip>)
    requires t < |ms| && MatchedOk(ms, t, ips, matched)
    requires TurnHits(ms, t, ips, 4, hits4) && TurnHits(ms, t, ips, 6, hits6)
    ensures MatchedOk(ms, t + 1, ips, matched + hits4 + hits6)
  {
    var all := matched + hits4 + hits6;
    forall ip | ip in ips && AcceptedUpTo(ms, t + 1, ip) ensures Listed(all, ip) {
      KeyOfAddress(ip);
      if AcceptedUpTo(ms, t, ip) {
        ListedWithin(matched, all, ip);
      } else {
        assert Accepts(ms[t], ip);
        if Family(ip) == 4 {
          ListedWithin(hits4, all, ip);
        } else {
          ListedWithin(hits6, all, ip);
        }
      }
    }
    forall x | x in all ensures x in ips && AcceptedUpTo(ms, t + 1, x) {
      if x in matched {
        var u :| 0 <= u < t && Accepts(ms[u], x);
      } else {
        assert Accepts(ms[t], x);
      }
    }
  }

  /** What is left on a shelf. */
  method Remaining(shelf: Option<Shelf>) returns (list: seq<Ip>)
    ensures forall x :: x in list <==>
      shelf.Some? && exists k :: k in shelf.value && shelf.value[k].Some? && x in shelf.value[k].value.ips
  {
    list := [];
    if shelf.None? {
      return;
    }
    var s := shelf.value;
    var left := s.Keys;
    while left != {}
      invariant left <= s.Keys
      invariant forall x :: x in list <==> exists k :: k in s && k !in left && s[k].Some? && x in s[k].value.ips
      decreases |left|
    {
      var k :| k in left;
      if s[k].Some? {
        list := list + s[k].value.ips;
      }
      left := left - {k};
    }
  }

  /** There are sub-matchers with this kind of view of the address, and none accepts it. */
  predicate Leftover(ms: seq<Matcher>, ip: Ip, short: bool) {
    Uses(ms, |ms|, Family(ip), short) && !HitBy(ms, |ms|, Family(ip), short, ip)
  }

  predicate RemainingOk(ms: seq<Matcher>, ips: seq<Ip>, family: nat, short: bool, list: seq<Ip>) {
    && (forall x :: x in list ==> x in ips && Family(x) == family)
    && (forall ip :: ip in ips && Family(ip) == family ==> (Listed(list, ip) <==> Leftover(ms, ip, short)))
  }

  lemma {:induction false} SameAddress(x: Ip, y: Ip)
    requires FromStdIp(x).Some? && FromStdIp(x) == FromStdIp(y)
    ensures PrefixKey(x) == PrefixKey(y) && Family(x) == Family(y)
  {
  }

  lemma {:induction false} RemainingOne(ms: seq<Matcher>, ips: seq<Ip>, family: nat, short: bool, shelf: Shelf,
                                        list: seq<Ip>, ip: Ip)
    requires Standing(ms, |ms|, ips, family, short, shelf)
    requires forall x :: x in list <==> exists k :: k in shelf && shelf[k].Some? && x in shelf[k].value.ips
    requires ip in ips && Family(ip) == family && (family == 4 || family == 6)
    ensures Listed(list, ip) <==> !HitBy(ms, |ms|, family, short, ip)
  {
    KeyOfAddress(ip);
    assert Stands(ms, |ms|, family, short, shelf, ip);
    if !HitBy(ms, |ms|, family, short, ip) {
      ListedWithin(shelf[Key(short, ip).value].value.ips, list, ip);
    } else if i :| 0 <= i < |list| && FromStdIp(list[i]) == FromStdIp(ip) {
      var x := list[i];
      assert x in list;
      var k :| k in shelf && shelf[k].Some? && x in shelf[k].value.ips;
      assert BucketIn(ips, family, short, k, shelf[k].value);
      SameAddress(x, ip);
    }
  }

  lemma {:induction false} RemainingHolds(ms: seq<Matcher>, ips: seq<Ip>, family: nat, short: bool,
                                          shelf: Option<Shelf>, list: seq<Ip>)
    requires (family == 4 || family == 6) && ShelfOk(ms, |ms|, ips, family, short, shelf)
    requires forall x :: x in list <==>
      shelf.Some? && exists k :: k in shelf.value && shelf.value[k].Some? && x in shelf.value[k].value.ips
    ensures RemainingOk(ms, ips, family, short, list)
  {
    if shelf.Some? {
      forall ip | ip in ips && Family(ip) == family ensures Listed(list, ip) <==> Leftover(ms, ip, short) {
        RemainingOne(ms, ips, family, short, shelf.value, list, ip);
      }
      forall x | x in list ensures x in ips && Family(x) == family {
        var k :| k in shelf.value && shelf.value[k].Some? && x in shelf.value[k].value.ips;
        assert BucketIn(ips, family, short, k, shelf.value[k].value);
      }
    } else {
      assert forall i :: 0 <= i < |list| ==> list[i] in list;
    }
  }

  lemma {:induction false} UnmatchedHolds(ms: seq<Matcher>, ips: seq<Ip>, b4: seq<Ip>, p4: seq<Ip>, b6: seq<Ip>,
                                          p6: seq<Ip>)
    requires RemainingOk(ms, ips, 4, true, b4) && RemainingOk(ms, ips, 4, false, p4)
    requires RemainingOk(ms, ips, 6, true, b6) && RemainingOk(ms, ips, 6, false, p6)
    ensures UnmatchedOk(ms, ips, b4 + p4 + b6 + p6)
  {
    var all := b4 + p4 + b6 + p6;
    forall x | x in all ensures x in ips && Legal(x) {
      KeyOfAddress(x);
    }
    forall ip | ip in ips && Legal(ip) ensures Listed(all, ip) <==> Leftover(ms, ip, true) || Leftover(ms, ip, false) {
      KeyOfAddress(ip);
      if i :| 0 <= i < |all| && FromStdIp(all[i]) == FromStdIp(ip) {
        SameAddress(all[i], ip);
        assert all[i] in b4 || all[i] in p4 || all[i] in b6 || all[i] in p6;
      }
      forall part | part in [b4, p4, b6, p6] && Listed(part, ip) ensures Listed(all, ip) {
        ListedWithin(part, all, ip);
      }
      assert b4 in [b4, p4, b6, p6] && p4 in [b4, p4, b6, p6] && b6 in [b4, p4, b6, p6] && p6 in [b4, p4, b6, p6];
    }
  }

  /** Both results, by address. An address is unmatched exactly if the sub-matchers with one
      of the two kinds of view exist and all refuse it. */
  predicate UnmatchedOk(ms: seq<Matcher>, ips: seq<Ip>, unmatched: seq<Ip>) {
    && (forall x :: x in unmatched ==> x in ips && Legal(x))
    && (forall ip :: ip in ips && Legal(ip) ==>
          (Listed(unmatched, ip) <==> Leftover(ms, ip, true) || Leftover(ms, ip, false)))
  }

  method FilterOf(ms: seq<Matcher>, ips: seq<Ip>) returns (matched: seq<Ip>, unmatched: seq<Ip>)
    requires AllWellFormed(ms)
    ensures MatchedOk(ms, |ms|, ips, matched) && UnmatchedOk(ms, ips, unmatched)
  {
    var v4, v6 := Views(None, None), Views(None, None);
    matched := [];
    var t := 0;
    while t < |ms|
      invariant 0 <= t <= |ms| && MatchedOk(ms, t, ips, matched)
      invariant ViewsOk(ms, t, ips, 4, v4) && ViewsOk(ms, t, ips, 6, v6)
    {
      var hits4, hits6;
      v4, hits4 := Turn(ms, t, ips, 4, v4);
      v6, hits6 := Turn(ms, t, ips, 6, v6);
      MatchedMore(ms, t, ips, matched, hits4, hits6);
      matched := matched + hits4 + hits6;
      t := t + 1;
    }
    unmatched := Unmatched(ms, ips, v4, v6);
  }

  method Unmatched(ghost ms: seq<Matcher>, ghost ips: seq<Ip>, v4: Views, v6: Views) returns (unmatched: seq<Ip>)
    requires ViewsOk(ms, |ms|, ips, 4, v4) && ViewsOk(ms, |ms|, ips, 6, v6)
    ensures UnmatchedOk(ms, ips, unmatched)
  {
    var b4 := Remaining(v4.buckets);
    RemainingHolds(ms, ips, 4, true, v4.buckets, b4);
    var p4 := Remaining(v4.precise);
    RemainingHolds(ms, ips, 4, false, v4.precise, p4);
    var b6 := Remaining(v6.buckets);
    RemainingHolds(ms, ips, 6, true, v6.buckets, b6);
    var p6 := Remaining(v6.precise);
    RemainingHolds(ms, ips, 6, false, v6.precise, p6);
    UnmatchedHolds(ms, ips, b4, p4, b6, p6);
    unmatched := b4 + p4 + b6 + p6;
  }
}
