/** HeuristicMultiIPMatcher (common/geodata/ip_matcher.go) as an object over its sub-matchers,
    and what its answers mean. */
module IpMulti {
  import opened IpSets
  import opened IpMatcher
  import opened IpMultiMatcher
  import opened IpMultiFilter

  class HeuristicMultiIPMatcher {
    const matchers: seq<HeuristicIPMatcher>

    constructor (matchers: seq<HeuristicIPMatcher>)
      requires forall i, j :: 0 <= i < j < |matchers| ==> matchers[i] != matchers[j]
      ensures this.matchers == matchers && Distinct()
    {
      this.matchers := matchers;
    }

    /** The sub-matchers are built one by one, never shared within one matcher. */
    predicate Distinct() {
      forall i, j :: 0 <= i < j < |matchers| ==> matchers[i] != matchers[j]
    }

    function Values(): (ms: seq<Matcher>)
      reads matchers
      ensures |ms| == |matchers| && forall i :: 0 <= i < |ms| ==> ms[i] == matchers[i].Value()
    {
      seq(|matchers|, i requires 0 <= i < |matchers| reads matchers => matchers[i].Value())
    }

    /** Some address is accepted by some sub-matcher. */
    method AnyMatch(ips: seq<Ip>) returns (r: bool)
      requires AllWellFormed(Values())
      ensures r <==> exists i :: 0 <= i < |ips| && AcceptedBy(Values(), ips[i])
    {
      var ms := Values();
      if |ips| == 0 {
        return false;
      }
      if |ips| == 1 {
        return AcceptedBy(ms, ips[0]);
      }
      r := AnyMatchOf(ms, ips);
    }

    /** One sub-matcher accepts every address. */
    method Matches(ips: seq<Ip>) returns (r: bool)
      requires AllWellFormed(Values())
      ensures r <==> ips != [] && OneAcceptsAll(Values(), ips)
    {
      var ms := Values();
      if |ips| == 0 {
        return false;
      }
      if |ips| == 1 {
        r := AcceptedBy(ms, ips[0]);
        OneAddress(ms, ips);
        return;
      }
      r := MatchesOf(ms, ips);
    }

    method FilterIPs(ips: seq<Ip>) returns (matched: seq<Ip>, unmatched: seq<Ip>)
      requires AllWellFormed(Values())
      ensures MatchedOk(Values(), |Values()|, ips, matched)
      ensures |ips| > 1 ==> UnmatchedOk(Values(), ips, unmatched)
      ensures |ips| == 1 ==> unmatched == if Legal(ips[0]) && !AcceptedBy(Values(), ips[0]) then ips else []
      ensures |ips| == 0 ==> unmatched == []
    {
      var ms := Values();
      if |ips| == 0 {
        return [], [];
      }
      if |ips| == 1 {
        if !Legal(ips[0]) {
          return [], [];
        }
        if AcceptedBy(ms, ips[0]) {
          assert Listed(ips, ips[0]);
          return ips, [];
        }
        return [], ips;
      }
      matched, unmatched := FilterOf(ms, ips);
    }

    method SetReverse(reverse: bool)
      modifies matchers
      ensures Values() == seq(|matchers|, i requires 0 <= i < |matchers| => Matcher(matchers[i].ipset, reverse))
    {
      var i := 0;
      while i < |matchers|
        invariant 0 <= i <= |matchers| && forall j :: 0 <= j < i ==> matchers[j].reverse == reverse
      {
        matchers[i].SetReverse(reverse);
        i := i + 1;
      }
    }

    method ToggleReverse()
      requires Distinct()
      modifies matchers
      ensures forall i :: 0 <= i < |matchers| ==> matchers[i].reverse == !old(matchers[i].reverse)
    {
      var i := 0;
      while i < |matchers|
        invariant 0 <= i <= |matchers|
        invariant forall j :: 0 <= j < i ==> matchers[j].reverse == !old(matchers[j].reverse)
        invariant forall j :: i <= j < |matchers| ==> matchers[j].reverse == old(matchers[j].reverse)
      {
        matchers[i].ToggleReverse();
        i := i + 1;
      }
    }
  }

  // ------------------------------------------------------------------------ what it means

  /** Accepted through one kind of view and left over in the other. */
  predicate Split(ms: seq<Matcher>, ip: Ip, short: bool) {
    HitBy(ms, |ms|, Family(ip), short, ip) && Leftover(ms, ip, !short)
  }

  /** The unmatched addresses of a longer list are those that no sub-matcher accepts exactly
      if there is a sub-matcher and none of them takes the address in one view while all those
      with the other view refuse it. */
  lemma {:induction false} ComplementExactly(ms: seq<Matcher>, ip: Ip)
    requires Legal(ip)
    ensures (Leftover(ms, ip, true) || Leftover(ms, ip, false) <==> !AcceptedBy(ms, ip))
      <==> ms != [] && !Split(ms, ip, true) && !Split(ms, ip, false)
  {
    var f := Family(ip);
    assert AcceptedBy(ms, ip) <==> HitBy(ms, |ms|, f, true, ip) || HitBy(ms, |ms|, f, false, ip) by {
      if t :| 0 <= t < |ms| && Accepts(ms[t], ip) {
        assert HitBy(ms, |ms|, f, Short(ms[t], f), ip);
      }
    }
    if ms != [] {
      assert Uses(ms, |ms|, f, Short(ms[0], f));
      assert Uses(ms, |ms|, f, true) || Uses(ms, |ms|, f, false);
    }
  }

  /** So with one kind of view per family the two results are complementary. */
  lemma {:induction false} OneViewComplements(ms: seq<Matcher>, ip: Ip, short: bool)
    requires Legal(ip) && ms != [] && forall t :: 0 <= t < |ms| ==> Short(ms[t], Family(ip)) == short
    ensures Leftover(ms, ip, true) || Leftover(ms, ip, false) <==> !AcceptedBy(ms, ip)
  {
    ComplementExactly(ms, ip);
  }

  lemma {:induction false} OneAddress(ms: seq<Matcher>, ips: seq<Ip>)
    requires |ips| == 1
    ensures AcceptedBy(ms, ips[0]) <==> OneAcceptsAll(ms, ips)
  {
    if t :| 0 <= t < |ms| && Accepts(ms[t], ips[0]) {
      assert AcceptsAll(ms[t], ips);
    }
  }

  lemma {:induction false} OtherNetwork(p: Prefix, a: Ip)
    requires p.bits >= 8 && |p.addr| > 0 && |a| > 0 && a[0] != p.addr[0]
    ensures !Covers(p, a)
  {
  }

  function One4(p: Prefix): Matcher {
    Matcher(IpSet([p], [], p.bits, 0xff), false)
  }

  /** A /24 and a /32 rule: an address of the /24 is reported as matched and as unmatched. */
  lemma {:induction false} ReportedTwice()
    ensures var ms := [One4(Prefix([1, 2, 3, 0], 24)), One4(Prefix([9, 9, 9, 9], 32))]; var ip: Ip := [1, 2, 3, 4];
      AllWellFormed(ms) && AcceptedBy(ms, ip) && Leftover(ms, ip, false)
  {
    var ms := [One4(Prefix([1, 2, 3, 0], 24)), One4(Prefix([9, 9, 9, 9], 32))];
    var ip: Ip := [1, 2, 3, 4];
    assert Covers(ms[0].ipset.ipv4[0], ip);
    assert Accepts(ms[0], ip);
    OtherNetwork(ms[1].ipset.ipv4[0], ip);
    assert !Accepts(ms[1], ip) && !Short(ms[1], 4) && Short(ms[0], 4);
  }

  /** Two rules that cover two addresses between them: each address is accepted, Matches is
      false, because no single sub-matcher accepts both. */
  lemma {:induction false} MatchesNeedsOneMatcher()
    ensures var ms := [One4(Prefix([1, 2, 3, 0], 24)), One4(Prefix([9, 9, 9, 0], 24))];
      var ips: seq<Ip> := [[1, 2, 3, 4], [9, 9, 9, 9]];
      && AllWellFormed(ms) && AcceptedBy(ms, ips[0]) && AcceptedBy(ms, ips[1])
      && !OneAcceptsAll(ms, ips)
  {
    var ms := [One4(Prefix([1, 2, 3, 0], 24)), One4(Prefix([9, 9, 9, 0], 24))];
    var ips: seq<Ip> := [[1, 2, 3, 4], [9, 9, 9, 9]];
    assert Covers(ms[0].ipset.ipv4[0], ips[0]) && Covers(ms[1].ipset.ipv4[0], ips[1]);
    OtherNetwork(ms[0].ipset.ipv4[0], ips[1]);
    OtherNetwork(ms[1].ipset.ipv4[0], ips[0]);
    assert Accepts(ms[0], ips[0]) && Accepts(ms[1], ips[1]) && !Accepts(ms[0], ips[1]) && !Accepts(ms[1], ips[0]);
  }
}
