/** common/buf: the start/end arithmetic of a pooled buffer, and the list operations that
    split, merge and compact buffers in place.

    Each operation is first a function of the bytes each buffer holds, with its laws, and
    then a method on heap buffers that is proved to compute that function. */
module Buffers {
  import opened Bytes

  // ---------------------------------------------------------- compaction on values

  /** What other code can observe of a buffer: its bytes and the free space behind them. */
  datatype View = View(bytes: seq<byte>, available: nat)

  function Payload(vs: seq<View>): seq<seq<byte>> {
    seq(|vs|, i requires 0 <= i < |vs| => vs[i].bytes)
  }

  /** Greedy merging: a buffer joins the previous one whenever it fits behind it. */
  function CompactFrom(last: View, rest: seq<View>): seq<View>
    decreases |rest|
  {
    if rest == [] then [last]
    else if |rest[0].bytes| > last.available then [last] + CompactFrom(rest[0], rest[1..])
    else CompactFrom(View(last.bytes + rest[0].bytes, last.available - |rest[0].bytes|), rest[1..])
  }

  function Compacted(vs: seq<View>): seq<View> {
    if vs == [] then [] else CompactFrom(vs[0], vs[1..])
  }

  predicate AllWithin(vs: seq<View>, capacity: nat) {
    forall i :: 0 <= i < |vs| ==> |vs[i].bytes| + vs[i].available <= capacity
  }

  lemma {:induction false} PayloadCons(v: View, vs: seq<View>)
    ensures Payload([v] + vs) == [v.bytes] + Payload(vs)
    ensures Concat(Payload([v] + vs)) == v.bytes + Concat(Payload(vs))
  {
    assert Payload([v] + vs) == [v.bytes] + Payload(vs);
    assert ([v.bytes] + Payload(vs))[1..] == Payload(vs);
  }

  lemma {:induction false} WithinTail(v: View, vs: seq<View>, capacity: nat)
    requires AllWithin([v] + vs, capacity)
    ensures |v.bytes| + v.available <= capacity && AllWithin(vs, capacity)
    ensures vs != [] ==> [vs[0]] + vs[1..] == vs && AllWithin(vs[1..], capacity)
  {
    assert ([v] + vs)[0] == v;
    assert forall i :: 0 <= i < |vs| ==> ([v] + vs)[i + 1] == vs[i];
  }

  lemma {:induction false} CompactFromConserves(last: View, rest: seq<View>, capacity: nat)
    requires AllWithin([last] + rest, capacity)
    ensures Concat(Payload(CompactFrom(last, rest))) == last.bytes + Concat(Payload(rest))
    ensures AllWithin(CompactFrom(last, rest), capacity)
    ensures 1 <= |CompactFrom(last, rest)| <= 1 + |rest|
    decreases |rest|
  {
    WithinTail(last, rest, capacity);
    if rest == [] {
      assert Payload([]) == [];
      PayloadCons(last, []);
      assert [last] + [] == [last];
    } else {
      var b, tail := rest[0], rest[1..];
      assert rest == [b] + tail;
      PayloadCons(b, tail);
      if |b.bytes| > last.available {
        CompactFromConserves(b, tail, capacity);
        PayloadCons(last, CompactFrom(b, tail));
      } else {
        var m := View(last.bytes + b.bytes, last.available - |b.bytes|);
        assert AllWithin([m] + tail, capacity);
        CompactFromConserves(m, tail, capacity);
        assert last.bytes + (b.bytes + Concat(Payload(tail))) == m.bytes + Concat(Payload(tail));
      }
    }
  }

  /** No buffer after the first is empty. */
  predicate Compactable(vs: seq<View>) {
    forall i :: 0 < i < |vs| ==> vs[i].bytes != []
  }

  /** Compaction conserves the bytes and keeps every buffer within its capacity. */
  lemma {:induction false} CompactConserves(vs: seq<View>, capacity: nat)
    requires AllWithin(vs, capacity)
    ensures Concat(Payload(Compacted(vs))) == Concat(Payload(vs))
    ensures AllWithin(Compacted(vs), capacity) && |Compacted(vs)| <= |vs|
  {
    if vs == [] {
    } else {
      assert vs == [vs[0]] + vs[1..];
      PayloadCons(vs[0], vs[1..]);
      CompactFromConserves(vs[0], vs[1..], capacity);
    }
  }

  /** The second buffer does not fit into the first. */
  predicate Apart(a: View, b: View) {
    |b.bytes| > a.available
  }

  lemma {:induction false} CompactFromGreedy(last: View, rest: seq<View>)
    ensures var vs := CompactFrom(last, rest);
            && vs != [] && last.bytes <= vs[0].bytes
            && forall i :: 0 < i < |vs| ==> Apart(vs[i - 1], vs[i])
    decreases |rest|
  {
    if rest != [] {
      var b, tail := rest[0], rest[1..];
      if |b.bytes| > last.available {
        CompactFromGreedy(b, tail);
        var vs := CompactFrom(b, tail);
        var all := [last] + vs;
        forall i | 0 < i < |all| ensures Apart(all[i - 1], all[i]) {
          if i > 1 {
            assert Apart(vs[i - 2], vs[i - 1]);
          }
        }
      } else {
        CompactFromGreedy(View(last.bytes + b.bytes, last.available - |b.bytes|), tail);
      }
    }
  }

  /** Compaction leaves no two neighbours that would fit into one buffer. */
  lemma {:induction false} CompactGreedy(vs: seq<View>, i: nat)
    requires 0 < i < |Compacted(vs)|
    ensures Apart(Compacted(vs)[i - 1], Compacted(vs)[i])
  {
    CompactFromGreedy(vs[0], vs[1..]);
  }

  /** A prefix of the result holds a prefix of the buffers, whole. */
  predicate WholeUpTo(bytes: seq<byte>, vs: seq<View>) {
    exists k :: 0 <= k <= |vs| && bytes == Concat(Payload(vs[..k]))
  }

  lemma {:induction false} TakeOneMore(b: View, tail: seq<View>, k: nat)
    requires k <= |tail|
    ensures Concat(Payload(([b] + tail)[..k + 1])) == b.bytes + Concat(Payload(tail[..k]))
  {
    assert ([b] + tail)[..k + 1] == [b] + tail[..k];
    PayloadCons(b, tail[..k]);
  }

  lemma {:induction false} CompactFromWhole(last: View, rest: seq<View>, i: nat) returns (k: nat)
    requires 0 < i <= |CompactFrom(last, rest)|
    ensures k <= |rest| && Concat(Payload(CompactFrom(last, rest)[..i])) == last.bytes + Concat(Payload(rest[..k]))
    decreases |rest|
  {
    var none: seq<View> := [];
    k := 0;
    if rest == [] {
      assert CompactFrom(last, rest) == [last] + none && rest[..0] == none;
      TakeOneMore(last, none, 0);
    } else {
      var b, tail := rest[0], rest[1..];
      assert rest == [b] + tail;
      if |b.bytes| > last.available {
        TakeOneMore(last, CompactFrom(b, tail), i - 1);
        if i == 1 {
          assert rest[..0] == none && CompactFrom(b, tail)[..0] == none;
        } else {
          k := CompactFromWhole(b, tail, i - 1);
          TakeOneMore(b, tail, k);
          k := k + 1;
        }
      } else {
        k := CompactFromWhole(View(last.bytes + b.bytes, last.available - |b.bytes|), tail, i);
        TakeOneMore(b, tail, k);
        Assoc(last.bytes, b.bytes, Concat(Payload(tail[..k])));
        k := k + 1;
      }
    }
  }

  /** Compaction cuts no buffer: each boundary of the result is one of the given list. */
  lemma {:induction false} CompactWhole(vs: seq<View>, i: nat)
    requires i <= |Compacted(vs)|
    ensures WholeUpTo(Concat(Payload(Compacted(vs)[..i])), vs)
  {
    if i == 0 {
      assert vs[..0] == [] && Compacted(vs)[..0] == [];
    } else {
      var k := CompactFromWhole(vs[0], vs[1..], i);
      assert vs == [vs[0]] + vs[1..];
      TakeOneMore(vs[0], vs[1..], k);
    }
  }

  // ------------------------------------------------------------ splitting on values

  datatype Split = Split(rest: seq<seq<byte>>, taken: seq<seq<byte>>)

  /** Up to `n` bytes off the front, buffer by buffer. */
  function SplitBytesOf(cs: seq<seq<byte>>, n: nat): Split {
    if cs == [] then Split([], [])
    else if |cs[0]| <= n then
      var s := SplitBytesOf(cs[1..], n - |cs[0]|);
      Split(s.rest, [cs[0]] + s.taken)
    else Split([cs[0][n..]] + cs[1..], [cs[0][..n]])
  }

  /** Whole buffers off the front while they fit `size`. */
  function WholeBuffers(cs: seq<seq<byte>>, size: nat): Split {
    if cs == [] || |cs[0]| > size then Split(cs, [])
    else
      var s := WholeBuffers(cs[1..], size - |cs[0]|);
      Split(s.rest, [cs[0]] + s.taken)
  }

  /** As SplitSize: only a first buffer that is itself too large is cut. */
  function SplitSizeOf(cs: seq<seq<byte>>, size: nat): Split {
    if cs != [] && |cs[0]| > size then Split([cs[0][size..]] + cs[1..], [cs[0][..size]])
    else WholeBuffers(cs, size)
  }

  /** SplitBytes takes exactly min(wanted, available) bytes and leaves the rest. */
  lemma {:induction false} SplitBytesTakes(cs: seq<seq<byte>>, n: nat)
    ensures var s := SplitBytesOf(cs, n);
            && Concat(s.taken) == Take(Concat(cs), n)
            && Concat(s.taken) + Concat(s.rest) == Concat(cs)
            && (Concat(s.rest) == [] ==> s.rest == [])
    decreases |cs|
  {
    if cs != [] {
      var s := SplitBytesOf(cs, n);
      if |cs[0]| <= n {
        SplitBytesTakes(cs[1..], n - |cs[0]|);
        var t := SplitBytesOf(cs[1..], n - |cs[0]|);
        assert s.taken[1..] == t.taken;
        Assoc(cs[0], Concat(t.taken), Concat(t.rest));
      } else {
        assert s.taken[1..] == [] && s.rest[1..] == cs[1..];
        assert cs[0][..n] + (cs[0][n..] + Concat(cs[1..])) == Concat(cs);
        assert Concat(cs)[..n] == cs[0][..n];
      }
    }
  }

  lemma {:induction false} WholeBuffersTakes(cs: seq<seq<byte>>, size: nat)
    ensures var s := WholeBuffers(cs, size);
            && s.taken + s.rest == cs && |Concat(s.taken)| <= size
            && (s.rest != [] ==> |Concat(s.taken)| + |s.rest[0]| > size)
            && Concat(s.taken) + Concat(s.rest) == Concat(cs)
    decreases |cs|
  {
    if cs == [] || |cs[0]| > size {
    } else {
      WholeBuffersTakes(cs[1..], size - |cs[0]|);
      var s := WholeBuffers(cs[1..], size - |cs[0]|);
      assert ([cs[0]] + s.taken)[1..] == s.taken;
      Assoc(cs[0], Concat(s.taken), Concat(s.rest));
      assert [cs[0]] + (s.taken + s.rest) == cs;
    }
  }

  /** SplitSize conserves the bytes, never exceeds its size, stops only before a buffer that does
      not fit, and makes progress on a non-empty first buffer. */
  lemma {:induction false} SplitSizeTakes(cs: seq<seq<byte>>, size: nat)
    ensures var s := SplitSizeOf(cs, size);
            && |Concat(s.taken)| <= size
            && Concat(s.taken) + Concat(s.rest) == Concat(cs)
            && (s.rest != [] ==> |Concat(s.taken)| + |s.rest[0]| > size)
            && (cs != [] ==> Min(|cs[0]|, size) <= |Concat(s.taken)|)
            && (cs != [] && cs[0] != [] && 0 < size ==> Concat(s.taken) != [])
            && (cs != [] ==> |s.rest| < |cs| || (|s.rest| == |cs| && |cs[0]| > size))
  {
    var s := SplitSizeOf(cs, size);
    if cs != [] && |cs[0]| > size {
      assert s.taken[1..] == [] && s.rest[1..] == cs[1..];
      assert cs[0][..size] + (cs[0][size..] + Concat(cs[1..])) == Concat(cs);
    } else {
      WholeBuffersTakes(cs, size);
    }
  }

  // -------------------------------------------------------------- one pooled buffer

  /** A negative position counts from the end. */
  function Position(length: nat, i: int): int {
    if i < 0 then i + length else i
  }

  class Buffer {
    const v: array<byte>
    var start: nat
    var end: nat

    ghost predicate Valid()
      reads this
    {
      start <= end <= v.Length
    }

    ghost function Contents(): (s: seq<byte>)
      requires Valid()
      reads this, v
    {
      v[start..end]
    }

    ghost function AsView(): View
      requires Valid()
      reads this, v
    {
      View(Contents(), v.Length - end)
    }

    constructor (capacity: nat)
      ensures Valid() && fresh(v) && v.Length == capacity && Contents() == [] && start == end == 0
    {
      v := new byte[capacity];
      start, end := 0, 0;
    }

    /** Appends what fits and reports how much that was. */
    method Write(data: seq<byte>) returns (n: nat)
      requires Valid()
      modifies this`end, v
      ensures Valid()
      ensures n == Min(|data|, old(v.Length - end))
      ensures Contents() == old(Contents()) + data[..n]
      ensures end == old(end) + n
    {
      n := Min(|data|, v.Length - end);
      forall i | 0 <= i < n {
        v[end + i] := data[i];
      }
      end := end + n;
      assert v[start..end - n] == old(v[start..end]);
    }

    /** Grows the contents by `n` zero bytes; more than the free space is a panic. */
    method Extend(n: nat)
      requires Valid() && n <= v.Length - end
      modifies this`end, v
      ensures Valid()
      ensures Contents() == old(Contents()) + Zeros(n)
      ensures end == old(end) + n
    {
      forall i | end <= i < end + n {
        v[i] := 0;
      }
      end := end + n;
      assert v[start..end - n] == old(v[start..end]);
    }

    /** Takes up to `n` bytes from the front; an emptied buffer starts over at 0. */
    method Read(n: nat) returns (data: seq<byte>)
      requires Valid()
      modifies this`start, this`end
      ensures Valid()
      ensures data == Take(old(Contents()), n)
      ensures Contents() == old(Contents())[|data|..]
    {
      if end == start {
        return [];
      }
      var k := Min(n, end - start);
      data := v[start..start + k];
      if k == end - start {
        start, end := 0, 0;
      } else {
        start := start + k;
      }
    }

    /** Moves the front to a position, which counts from the end if negative; past the end
        there is nothing left. */
    method Advance(from: int)
      requires Valid()
      modifies this`start
      ensures Valid()
      ensures var n := |old(Contents())|; var p := Position(n, from);
        && start == (if old(start) + p < 0 then 0 else Min(old(start) + p, end))
        && (p >= 0 ==> Contents() == old(Contents())[Min(p, n)..])
    {
      var s: int := start + from;
      if from < 0 {
        s := s + (end - start);
      }
      if s < 0 {
        s := 0;
      }
      if s > end {
        s := end;
      }
      start := s;
    }

    /** Keeps the bytes of the storage between two positions, with zeros beyond the old end; a
        position before the storage is its beginning. Positions in the wrong order or beyond
        the storage are a panic. */
    method Resize(first: int, last: int)
      requires Valid() && Position(end - start, first) <= Position(end - start, last)
      requires start + Position(end - start, last) <= v.Length
      modifies this`start, this`end, v
      ensures Valid()
      ensures start == FromZero(old(start) + Position(old(end - start), first))
      ensures end == FromZero(old(start) + Position(old(end - start), last))
      ensures Contents() == (old(v[..end]) + Zeros(end))[start..end]
      ensures var n := |old(Contents())|; var from, to := Position(n, first), Position(n, last);
        0 <= from ==> Contents() == (old(Contents()) + Zeros(to))[from..to]
    {
      var from, to := Position(end - start, first), Position(end - start, last);
      var oldEnd := end;
      ghost var base, was := start, v[..];
      end := FromZero(start + to);
      start := FromZero(start + from);
      if end > oldEnd {
        forall i | oldEnd <= i < end {
          v[i] := 0;
        }
      }
      assert v[start..end] == v[..][start..end];
      assert was[..oldEnd] == old(v[..end]) && was[base..oldEnd] == old(Contents());
      ZeroesShow(was, v[..], oldEnd, start, end);
      if 0 <= from {
        WindowOfContents(was, base, oldEnd, from, to);
        assert start == base + from && end == base + to;
      }
    }
  }

  /** Check's lower bound. */
  function FromZero(i: int): nat {
    if i < 0 then 0 else i
  }

  /** Zeros behind `end` show through a window that reaches beyond it. */
  lemma {:induction false} ZeroesShow(was: seq<byte>, now: seq<byte>, end: nat, lo: nat, hi: nat)
    requires end <= |was| == |now| && lo <= hi <= |was|
    requires forall j :: 0 <= j < |was| ==> now[j] == if end <= j < hi then 0 else was[j]
    ensures now[lo..hi] == (was[..end] + Zeros(hi))[lo..hi]
  {
    var full := was[..end] + Zeros(hi);
    forall i | lo <= i < hi ensures now[i] == full[i] {
    }
  }

  /** The same window counted from the front of the contents. */
  lemma {:induction false} WindowOfContents(was: seq<byte>, start: nat, end: nat, from: nat, to: nat)
    requires start <= end <= |was| && from <= to
    ensures (was[..end] + Zeros(start + to))[start + from..start + to] == (was[start..end] + Zeros(to))[from..to]
  {
    var a, b := was[..end] + Zeros(start + to), was[start..end] + Zeros(to);
    forall i | from <= i < to ensures a[start + i] == b[i] {
    }
  }

  // ----------------------------------------------------------------- lists of buffers

  /** The buffers of a list are valid and share no storage. */
  ghost predicate Owned(mb: seq<Buffer>)
    reads mb
  {
    && (forall i :: 0 <= i < |mb| ==> mb[i].Valid())
    && (forall i, j :: 0 <= i < j < |mb| ==> mb[i] != mb[j] && mb[i].v != mb[j].v)
  }

  ghost function Arrays(mb: seq<Buffer>): set<array<byte>> {
    set i | 0 <= i < |mb| :: mb[i].v
  }

  ghost function Views(mb: seq<Buffer>): (vs: seq<View>)
    requires Owned(mb)
    reads mb, Arrays(mb)
  {
    seq(|mb|, i requires 0 <= i < |mb| reads mb, Arrays(mb) requires Owned(mb) => mb[i].AsView())
  }

  /** The elements of `s` at the given indices. */
  ghost function Select<T>(s: seq<T>, picks: seq<nat>): (r: seq<T>)
    requires forall k :: 0 <= k < |picks| ==> picks[k] < |s|
    ensures |r| == |picks| && forall k :: 0 <= k < |picks| ==> r[k] == s[picks[k]]
  {
    seq(|picks|, k requires 0 <= k < |picks| => s[picks[k]])
  }

  /** Appends all of `mb[j]` to `mb[i]`, leaving `mb[j]` empty and the rest alone. */
  method Absorb(mb: seq<Buffer>, i: nat, j: nat, ghost now: seq<View>)
    requires Owned(mb) && i < j < |mb| == |now|
    requires forall k :: 0 <= k < |mb| ==> mb[k].AsView() == now[k]
    requires |now[j].bytes| <= now[i].available
    modifies mb[i], mb[i].v, mb[j]
    ensures mb[i].Valid() && mb[j].Valid()
    ensures mb[i].AsView() == View(now[i].bytes + now[j].bytes, now[i].available - |now[j].bytes|)
    ensures forall k :: 0 <= k < |mb| && k != i && k != j ==> mb[k].Valid() && mb[k].AsView() == now[k]
  {
    assert forall k :: 0 <= k < |mb| && k != i && k != j ==>
             mb[k] != mb[i] && mb[k] != mb[j] && mb[k].v != mb[i].v;
    var data := mb[j].Read(mb[i].v.Length - mb[i].end);
    var n := mb[i].Write(data);
    assert data[..n] == data;
  }

  lemma {:induction false} CompactTurn(done: seq<View>, cur: View, rest: seq<View>, total: seq<View>)
    requires rest != [] && done + CompactFrom(cur, rest) == total
    ensures if |rest[0].bytes| > cur.available then done + [cur] + CompactFrom(rest[0], rest[1..]) == total
            else
              done + CompactFrom(View(cur.bytes + rest[0].bytes, cur.available - |rest[0].bytes|), rest[1..]) == total
  {
    Assoc(done, [cur], CompactFrom(rest[0], rest[1..]));
  }

  lemma {:induction false} SelectSnoc<T>(s: seq<T>, picks: seq<nat>, at: nat)
    requires at < |s| && forall k :: 0 <= k < |picks| ==> picks[k] < |s|
    ensures Select(s, picks + [at]) == Select(s, picks) + [s[at]]
  {
  }

  /** A selection of a list's buffers is again a list of separate buffers. */
  lemma {:induction false} OwnedSelection(mb: seq<Buffer>, now: seq<View>, picks: seq<nat>)
    requires Owned(mb) && |now| == |mb|
    requires forall k :: 0 <= k < |mb| ==> mb[k].AsView() == now[k]
    requires forall k :: 0 <= k < |picks| ==> picks[k] < |mb|
    requires forall j, k :: 0 <= j < k < |picks| ==> picks[j] < picks[k]
    ensures Owned(Select(mb, picks)) && Views(Select(mb, picks)) == Select(now, picks)
    ensures forall b :: b in Select(mb, picks) ==> b in mb
  {
  }

  /** How far compaction of `was` has come: the current view of every buffer and the indices
      of the buffers already passed on. */
  datatype Progress = Progress(was: seq<View>, now: seq<View>, picks: seq<nat>)

  /** Before index `i`: what is left is as it was, and no panic so far. */
  ghost predicate Untouched(p: Progress, i: nat) {
    |p.now| == |p.was| && i <= |p.was| && p.now[i..] == p.was[i..] && Compactable(p.was[..i])
  }

  lemma {:induction false} UntouchedNext(p: Progress, q: Progress, i: nat)
    requires Untouched(p, i) && i < |p.was| && q.was == p.was && |q.now| == |p.now| && q.now[i + 1..] == p.now[i + 1..]
    requires 0 < i
    ensures p.now[i] == p.was[i]
    ensures p.now[i].bytes != [] ==> Untouched(q, i + 1)
  {
    assert p.now[i] == p.now[i..][0] == p.was[i];
    assert q.now[i + 1..] == p.now[i..][1..] == p.was[i + 1..];
  }

  /** Before index `i`, with buffer `at` still open, `mb2` and what follows compact as all did. */
  ghost predicate Compacting(mb: seq<Buffer>, mb2: seq<Buffer>, at: nat, i: nat, p: Progress)
    reads mb, Arrays(mb)
  {
    && at < i <= |mb| && Owned(mb) && |p.now| == |mb| && Untouched(p, i)
    && (forall k :: 0 <= k < |mb| ==> mb[k].AsView() == p.now[k])
    && (forall k :: 0 <= k < |p.picks| ==> p.picks[k] < at)
    && (forall j, k :: 0 <= j < k < |p.picks| ==> p.picks[j] < p.picks[k])
    && mb2 == Select(mb, p.picks)
    && Select(p.now, p.picks) + CompactFrom(p.now[at], p.now[i..]) == Compacted(p.was)
  }

  /** The open buffer is passed on and the next one opened. */
  lemma {:induction false} PassOn(mb: seq<Buffer>, mb2: seq<Buffer>, at: nat, i: nat, p: Progress)
    requires Compacting(mb, mb2, at, i, p) && i < |mb|
    requires |p.now[i].bytes| > p.now[at].available
    ensures Compacting(mb, mb2 + [mb[at]], i, i + 1, p.(picks := p.picks + [at]))
  {
    var rest := p.now[i..];
    CompactTurn(Select(p.now, p.picks), p.now[at], rest, Compacted(p.was));
    assert rest[0] == p.now[i] && rest[1..] == p.now[i + 1..];
    SelectSnoc(mb, p.picks, at);
    SelectSnoc(p.now, p.picks, at);
    UntouchedNext(p, p.(picks := p.picks + [at]), i);
  }

  /** The next buffer is appended to the open one. */
  method Merge(mb: seq<Buffer>, ghost mb2: seq<Buffer>, at: nat, i: nat, ghost p: Progress)
    returns (ghost q: Progress)
    requires Compacting(mb, mb2, at, i, p) && i < |mb|
    requires 0 < |p.now[i].bytes| <= p.now[at].available
    modifies mb[at], mb[at].v, mb[i]
    ensures Compacting(mb, mb2, at, i + 1, q) && q.was == p.was
  {
    ghost var done, cur, rest := Select(p.now, p.picks), p.now[at], p.now[i..];
    CompactTurn(done, cur, rest, Compacted(p.was));
    assert rest[0] == p.now[i] && rest[1..] == p.now[i + 1..];
    Absorb(mb, at, i, p.now);
    q := p.(now := p.now[at := mb[at].AsView()][i := mb[i].AsView()]);
    assert Select(q.now, p.picks) == done;
    assert rest[1..] == q.now[i + 1..];
    UntouchedNext(p, q, i);
  }

  lemma {:induction false} Begin(mb: seq<Buffer>)
    requires Owned(mb) && |mb| > 0
    ensures Compacting(mb, [], 0, 1, Progress(Views(mb), Views(mb), []))
  {
  }

  lemma {:induction false} Finish(mb: seq<Buffer>, mb2: seq<Buffer>, at: nat, p: Progress)
    requires Compacting(mb, mb2, at, |mb|, p)
    ensures Owned(mb2 + [mb[at]]) && Views(mb2 + [mb[at]]) == Compacted(p.was) && Compactable(p.was)
    ensures forall b :: b in mb2 + [mb[at]] ==> b in mb
  {
    SelectSnoc(mb, p.picks, at);
    SelectSnoc(p.now, p.picks, at);
    OwnedSelection(mb, p.now, p.picks + [at]);
    assert p.now[|mb|..] == [] && p.was[..|mb|] == p.was;
  }

  /** One turn of compaction; an empty buffer always fits, and reading from it reports end of
      file, which is a panic. */
  method CompactNext(mb: seq<Buffer>, mb2: seq<Buffer>, at: nat, i: nat, ghost p: Progress)
    returns (ok: bool, mb2': seq<Buffer>, at': nat, ghost q: Progress)
    requires Compacting(mb, mb2, at, i, p) && i < |mb|
    modifies mb[at], mb[at].v, mb[i]
    ensures ok <==> p.was[i].bytes != []
    ensures ok ==> Compacting(mb, mb2', at', i + 1, q) && q.was == p.was
  {
    UntouchedNext(p, p, i);
    ok, mb2', at', q := true, mb2, at, p;
    if mb[i].end - mb[i].start > mb[at].v.Length - mb[at].end {
      PassOn(mb, mb2, at, i, p);
      mb2', at', q := mb2 + [mb[at]], i, p.(picks := p.picks + [at]);
    } else if mb[i].end == mb[i].start {
      ok := false;
    } else {
      q := Merge(mb, mb2, at, i, p);
    }
  }

  /** Merges neighbours in place. There is no result, but a panic, if and only if some buffer
      after the first is empty. */
  method Compact(mb: seq<Buffer>) returns (r: Option<seq<Buffer>>)
    requires Owned(mb)
    modifies mb, Arrays(mb)
    ensures r.Some? <==> old(Compactable(Views(mb)))
    ensures r.Some? ==> Owned(r.value) && Views(r.value) == Compacted(old(Views(mb)))
    ensures r.Some? ==> forall b :: b in r.value ==> b in mb
  {
    if |mb| == 0 {
      return Some(mb);
    }
    var mb2: seq<Buffer>, at: nat := [], 0;
    ghost var was := Views(mb);
    ghost var p := Progress(was, was, []);
    Begin(mb);
    for i := 1 to |mb|
      invariant Compacting(mb, mb2, at, i, p) && p.was == was
    {
      var ok;
      ok, mb2, at, p := CompactNext(mb, mb2, at, i, p);
      if !ok {
        return None;
      }
    }
    Finish(mb, mb2, at, p);
    r := Some(mb2 + [mb[at]]);
  }

  ghost function Data(mb: seq<Buffer>): (cs: seq<seq<byte>>)
    requires Owned(mb)
    reads mb, Arrays(mb)
    ensures |cs| == |mb| && forall i :: 0 <= i < |mb| ==> cs[i] == mb[i].Contents()
  {
    Payload(Views(mb))
  }

  /** With `out` already taken and `left` still to go, the split will come to `want`. */
  ghost predicate Pending(want: Split, out: seq<byte>, left: seq<seq<byte>>, n: nat) {
    && |out| <= n
    && want.rest == SplitBytesOf(left, n - |out|).rest
    && Concat(want.taken) == out + Concat(SplitBytesOf(left, n - |out|).taken)
  }

  lemma {:induction false} PendingTurn(want: Split, out: seq<byte>, left: seq<seq<byte>>, n: nat)
    requires Pending(want, out, left, n) && left != []
    ensures var d := Take(left[0], n - |out|);
            if d == left[0] then Pending(want, out + d, left[1..], n)
            else want.rest == [left[0][|d|..]] + left[1..] && Concat(want.taken) == out + d
  {
    var m := n - |out|;
    var s := SplitBytesOf(left, m);
    if |left[0]| <= m {
      var t := SplitBytesOf(left[1..], m - |left[0]|);
      assert n - |out + left[0]| == m - |left[0]|;
      assert s.taken[1..] == t.taken;
      Assoc(out, left[0], Concat(t.taken));
    } else {
      var none: seq<seq<byte>> := [];
      assert s.taken[1..] == none;
      assert left[0][..m] + Concat(none) == left[0][..m];
    }
  }

  /** The buffers from `i` on hold `left`. */
  ghost predicate HoldFrom(mb: seq<Buffer>, i: nat, left: seq<seq<byte>>)
    requires Owned(mb)
    reads mb, Arrays(mb)
  {
    i + |left| == |mb| && forall k :: 0 <= k < |left| ==> mb[i + k].Contents() == left[k]
  }

  lemma {:induction false} Suffix(mb: seq<Buffer>, i: nat, left: seq<seq<byte>>)
    requires Owned(mb) && i <= |mb| && HoldFrom(mb, i, left)
    ensures Owned(mb[i..]) && Data(mb[i..]) == left
  {
  }

  /** Reading buffer `i` leaves the others alone. */
  method TakeFrom(mb: seq<Buffer>, i: nat, n: nat, ghost left: seq<seq<byte>>) returns (data: seq<byte>)
    requires Owned(mb) && i < |mb| && HoldFrom(mb, i, left)
    modifies mb[i]
    ensures Owned(mb) && data == Take(left[0], n) && HoldFrom(mb, i, [left[0][|data|..]] + left[1..])
  {
    assert forall k :: i < k < |mb| ==> mb[k] != mb[i];
    assert mb[i + 0].Contents() == left[0];
    data := mb[i].Read(n);
  }

  lemma {:induction false} HoldNext(mb: seq<Buffer>, i: nat, left: seq<seq<byte>>)
    requires Owned(mb) && i < |mb| && HoldFrom(mb, i, left)
    ensures HoldFrom(mb, i + 1, left[1..])
  {
    assert forall k :: 0 <= k < |left[1..]| ==> left[1..][k] == left[k + 1] && mb[i + 1 + k] == mb[i + (k + 1)];
  }

  /** SplitBytes before buffer `i`: `out` taken, `left` still in the list. */
  ghost predicate Splitting(mb: seq<Buffer>, i: nat, n: nat, out: seq<byte>, want: Split, left: seq<seq<byte>>)
    reads mb, Arrays(mb)
  {
    i <= |mb| && Owned(mb) && HoldFrom(mb, i, left) && Pending(want, out, left, n)
  }

  /** SplitBytes is done: the list goes on with buffer `i`. */
  ghost predicate SplitDone(mb: seq<Buffer>, i: nat, out: seq<byte>, want: Split)
    reads mb, Arrays(mb)
  {
    i <= |mb| && Owned(mb) && HoldFrom(mb, i, want.rest) && out == Concat(want.taken)
  }

  /** One turn of SplitBytes: the list is split, or the buffer is empty and the next one's turn. */
  method SplitTurn(mb: seq<Buffer>, i: nat, n: nat, out: seq<byte>, ghost want: Split, ghost left: seq<seq<byte>>)
    returns (out': seq<byte>, emptied: bool)
    requires i < |mb| && Splitting(mb, i, n, out, want, left)
    modifies mb[i]
    ensures if emptied then Splitting(mb, i + 1, n, out', want, left[1..]) else SplitDone(mb, i, out', want)
  {
    PendingTurn(want, out, left, n);
    var data := TakeFrom(mb, i, n - |out|, left);
    out' := out + data;
    emptied := mb[i].end == mb[i].start;
    ghost var now := [left[0][|data|..]] + left[1..];
    assert mb[i + 0].Contents() == now[0];
    if emptied {
      HoldNext(mb, i, now);
      assert now[1..] == left[1..] && data == left[0];
    }
  }

  lemma {:induction false} SplitAll(mb: seq<Buffer>, n: nat, out: seq<byte>, want: Split, left: seq<seq<byte>>)
    requires Splitting(mb, |mb|, n, out, want, left)
    ensures SplitDone(mb, |mb|, out, want)
  {
    assert left == [] && out + [] == out;
  }

  lemma {:induction false} SplitBegins(mb: seq<Buffer>, n: nat)
    requires Owned(mb)
    ensures Splitting(mb, 0, n, [], SplitBytesOf(Data(mb), n), Data(mb))
  {
    var want := SplitBytesOf(Data(mb), n);
    assert [] + Concat(want.taken) == Concat(want.taken);
  }

  method SplitLoop(mb: seq<Buffer>, n: nat, ghost want: Split, ghost cs: seq<seq<byte>>)
    returns (i: nat, out: seq<byte>)
    requires Splitting(mb, 0, n, [], want, cs)
    modifies mb
    ensures SplitDone(mb, i, out, want)
  {
    ghost var left := cs;
    out, i := [], 0;
    while i < |mb|
      invariant Splitting(mb, i, n, out, want, left)
    {
      var emptied;
      out, emptied := SplitTurn(mb, i, n, out, want, left);
      if !emptied {
        return;
      }
      i, left := i + 1, left[1..];
    }
    SplitAll(mb, n, out, want, left);
  }

  /** Moves up to `n` bytes out of the list; emptied buffers are released. */
  method SplitBytes(mb: seq<Buffer>, n: nat) returns (rest: seq<Buffer>, out: seq<byte>)
    requires Owned(mb)
    modifies mb
    ensures Owned(rest)
    ensures Data(rest) == SplitBytesOf(old(Data(mb)), n).rest
    ensures out == Concat(SplitBytesOf(old(Data(mb)), n).taken)
  {
    ghost var cs := Data(mb);
    ghost var want := SplitBytesOf(cs, n);
    SplitBegins(mb, n);
    var i;
    i, out := SplitLoop(mb, n, want, cs);
    Suffix(mb, i, want.rest);
    rest := mb[i..];
  }

  /** With `taken` already moved and `room` bytes still allowed. */
  ghost predicate Moving(want: Split, taken: seq<seq<byte>>, left: seq<seq<byte>>, room: nat) {
    var s := WholeBuffers(left, room);
    want.rest == s.rest && want.taken == taken + s.taken
  }

  lemma {:induction false} MovingTurn(want: Split, taken: seq<seq<byte>>, left: seq<seq<byte>>, room: nat)
    requires Moving(want, taken, left, room) && left != []
    ensures if |left[0]| > room then want == Split(left, taken)
            else Moving(want, taken + [left[0]], left[1..], room - |left[0]|)
  {
    if |left[0]| <= room {
      var t := WholeBuffers(left[1..], room - |left[0]|).taken;
      Assoc(taken, [left[0]], t);
    }
  }

  lemma {:induction false} Halves(mb: seq<Buffer>, i: nat)
    requires Owned(mb) && i <= |mb|
    ensures Owned(mb[..i]) && Owned(mb[i..])
    ensures Data(mb[..i]) == Data(mb)[..i] && Data(mb[i..]) == Data(mb)[i..]
  {
  }

  /** The loop of SplitSize: whole buffers off the front while they fit. */
  method CountWhole(mb: seq<Buffer>, size: nat, ghost cs: seq<seq<byte>>, ghost want: Split) returns (k: nat)
    requires |cs| == |mb| && forall i :: 0 <= i < |mb| ==> mb[i].Valid() && |cs[i]| == mb[i].end - mb[i].start
    requires Moving(want, [], cs, size)
    ensures k <= |mb| && want == Split(cs[k..], cs[..k])
  {
    var totalBytes := 0;
    assert cs[0..] == cs && cs[..0] == [];
    k := 0;
    while k < |mb|
      invariant 0 <= k <= |mb| && 0 <= totalBytes <= size && Moving(want, cs[..k], cs[k..], size - totalBytes)
    {
      ghost var left := cs[k..];
      assert left[0] == cs[k] && left[1..] == cs[k + 1..] && cs[..k] + [cs[k]] == cs[..k + 1];
      MovingTurn(want, cs[..k], left, size - totalBytes);
      if totalBytes + (mb[k].end - mb[k].start) > size {
        return;
      }
      totalBytes := totalBytes + (mb[k].end - mb[k].start);
      k := k + 1;
    }
    var none: seq<seq<byte>> := [];
    assert cs[k..] == none && cs[..k] + none == cs[..k];
  }

  method MoveWhole(mb: seq<Buffer>, size: nat) returns (k: nat)
    requires Owned(mb)
    ensures k <= |mb| && Owned(mb[k..]) && Owned(mb[..k])
    ensures Data(mb[k..]) == WholeBuffers(Data(mb), size).rest
    ensures Data(mb[..k]) == WholeBuffers(Data(mb), size).taken
  {
    ghost var cs := Data(mb);
    ghost var want := WholeBuffers(cs, size);
    assert [] + want.taken == want.taken;
    k := CountWhole(mb, size, cs, want);
    assert Data(mb) == cs;
    Halves(mb, k);
  }

  /** A new buffer of the given capacity, filled from `data`. */
  method NewFrom(capacity: nat, data: seq<byte>) returns (b: Buffer, k: nat)
    ensures fresh(b) && fresh(b.v) && b.Valid() && k == Min(|data|, capacity) && b.Contents() == data[..k]
    ensures b.v.Length == capacity && b.end == k
  {
    b := new Buffer(capacity);
    k := b.Write(data);
  }

  /** The slice-out branch of SplitSize: a new buffer of exactly `size` bytes. */
  method CutFirst(mb: seq<Buffer>, size: nat) returns (b: Buffer)
    requires Owned(mb) && |mb| > 0 && mb[0].end - mb[0].start > size
    modifies mb[0]
    ensures Owned(mb) && b.Valid()
    ensures b.Contents() == old(mb[0].Contents())[..size]
    ensures Data(mb) == [old(mb[0].Contents())[size..]] + old(Data(mb))[1..]
  {
    ghost var cs := Data(mb);
    var head := mb[0].v[mb[0].start..mb[0].start + size];
    assert head == cs[0][..size] && head[..size] == head && cs[0] == mb[0].Contents();
    var n;
    b, n := NewFrom(size, head);
    assert Data(mb) == cs && b.Contents() == head;
    DropFirst(mb, size, cs);
    assert b.Contents() == head;
  }

  method DropFirst(mb: seq<Buffer>, size: nat, ghost cs: seq<seq<byte>>)
    requires Owned(mb) && |mb| > 0 && mb[0].end - mb[0].start > size && Data(mb) == cs
    modifies mb[0]
    ensures Owned(mb) && Data(mb) == [cs[0][size..]] + cs[1..]
  {
    assert forall k :: 0 < k < |mb| ==> mb[k] != mb[0];
    assert forall k :: 0 <= k < |mb| ==> mb[k].Contents() == cs[k];
    mb[0].Advance(size);
    FirstChanged(mb, cs, cs[0][size..]);
  }

  lemma {:induction false} FirstChanged(mb: seq<Buffer>, cs: seq<seq<byte>>, c: seq<byte>)
    requires Owned(mb) && 0 < |mb| == |cs| && mb[0].Contents() == c
    requires forall k :: 0 < k < |mb| ==> mb[k].Contents() == cs[k]
    ensures Data(mb) == [c] + cs[1..]
  {
  }

  /** Moves at most `size` bytes off the front. */
  method SplitSize(mb: seq<Buffer>, size: nat) returns (rest: seq<Buffer>, taken: seq<Buffer>)
    requires Owned(mb)
    modifies mb
    ensures Owned(rest) && Owned(taken)
    ensures Data(rest) == SplitSizeOf(old(Data(mb)), size).rest
    ensures Data(taken) == SplitSizeOf(old(Data(mb)), size).taken
  {
    ghost var cs := Data(mb);
    if |mb| > 0 && mb[0].end - mb[0].start > size {
      assert cs[0] == mb[0].Contents();
      var b := CutFirst(mb, size);
      rest, taken := mb, [b];
      assert Data(taken) == SplitSizeOf(cs, size).taken && Data(rest) == SplitSizeOf(cs, size).rest;
    } else {
      var k := MoveWhole(mb, size);
      assert Data(mb) == cs;
      rest, taken := mb[k..], mb[..k];
    }
  }

  /** Fills the free space of the last buffer. */
  method FillLast(dest: seq<Buffer>, src: seq<byte>) returns (k: nat)
    requires Owned(dest) && |dest| > 0
    modifies dest[|dest| - 1], dest[|dest| - 1].v
    ensures Owned(dest) && k <= |src|
    ensures Concat(Data(dest)) == old(Concat(Data(dest))) + src[..k]
    ensures Data(dest)[..|dest| - 1] == old(Data(dest))[..|dest| - 1] && (k < |src| ==> Full(dest[|dest| - 1]))
  {
    ghost var cs := Data(dest);
    k := WriteLast(dest, src, cs);
    GrowLast(cs, src[..k]);
  }

  ghost predicate Full(b: Buffer)
    reads b
  {
    b.end == b.v.Length
  }

  method WriteLast(dest: seq<Buffer>, src: seq<byte>, ghost cs: seq<seq<byte>>) returns (k: nat)
    requires Owned(dest) && |dest| > 0 && Data(dest) == cs
    modifies dest[|dest| - 1], dest[|dest| - 1].v
    ensures Owned(dest) && k <= |src| && Data(dest) == cs[..|cs| - 1] + [cs[|cs| - 1] + src[..k]]
    ensures k < |src| ==> Full(dest[|dest| - 1])
  {
    var n := |dest| - 1;
    assert forall j :: 0 <= j < n ==> dest[j] != dest[n] && dest[j].v != dest[n].v;
    assert forall j :: 0 <= j < n ==> dest[j].Contents() == cs[j];
    assert dest[n].Contents() == cs[n];
    k := dest[n].Write(src);
  }

  lemma {:induction false} GrowLast(cs: seq<seq<byte>>, more: seq<byte>)
    requires cs != []
    ensures var n := |cs| - 1; Concat(cs[..n] + [cs[n] + more]) == Concat(cs) + more
  {
    var n := |cs| - 1;
    assert cs == cs[..n] + [cs[n]];
    ConcatSnoc(cs[..n], cs[n]);
    ConcatSnoc(cs[..n], cs[n] + more);
    Assoc(Concat(cs[..n]), cs[n], more);
  }

  lemma {:induction false} OwnedSnoc(mb: seq<Buffer>, b: Buffer)
    requires Owned(mb) && b.Valid()
    requires forall i :: 0 <= i < |mb| ==> mb[i] != b && mb[i].v != b.v
    ensures Owned(mb + [b]) && Data(mb + [b]) == Data(mb) + [b.Contents()]
  {
  }

  /** The buffers of `mb` behind `dest` are pooled ones, and full but for the last, which is
      full too if there is more to come. */
  ghost predicate Packed(dest: seq<Buffer>, mb: seq<Buffer>, more: bool)
    reads mb
  {
    && dest <= mb
    && (forall i :: |dest| <= i < |mb| ==> mb[i].v.Length == BUF_SIZE)
    && (forall i :: |dest| <= i < |mb| && (i < |mb| - 1 || more) ==> Full(mb[i]))
  }

  /** `rest` is still to be put behind the buffers `mb`, the first of which hold `cs`. */
  ghost predicate Filling(cs: seq<seq<byte>>, want: seq<byte>, mb: seq<Buffer>, rest: seq<byte>)
    reads mb, Arrays(mb)
  {
    Owned(mb) && cs <= Data(mb) && Concat(Data(mb)) + rest == want
  }

  lemma {:induction false} FillingSnoc(cs: seq<seq<byte>>, want: seq<byte>, ds: seq<seq<byte>>, rest: seq<byte>, k: nat)
    requires cs <= ds && Concat(ds) + rest == want && k <= |rest|
    ensures cs <= ds + [rest[..k]] && Concat(ds + [rest[..k]]) + rest[k..] == want
  {
    ConcatSnoc(ds, rest[..k]);
    assert rest == rest[..k] + rest[k..];
    Assoc(Concat(ds), rest[..k], rest[k..]);
  }

  /** One more pooled buffer at the end of the list. */
  method AppendNew(ghost cs: seq<seq<byte>>, ghost want: seq<byte>, mb: seq<Buffer>, rest: seq<byte>)
    returns (b: Buffer, k: nat)
    requires Filling(cs, want, mb, rest) && rest != []
    ensures fresh(b) && fresh(b.v) && 0 < k <= |rest| && Filling(cs, want, mb + [b], rest[k..])
    ensures b.v.Length == BUF_SIZE && (k < |rest| ==> Full(b))
  {
    ghost var ds := Data(mb);
    b, k := NewFrom(BUF_SIZE, rest);
    assert Data(mb) == ds;
    OwnedSnoc(mb, b);
    FillingSnoc(cs, want, ds, rest, k);
  }

  lemma {:induction false} PackedSnoc(dest: seq<Buffer>, mb: seq<Buffer>, b: Buffer, more: bool)
    requires Packed(dest, mb, true) && b.v.Length == BUF_SIZE && (more ==> Full(b))
    ensures Packed(dest, mb + [b], more)
  {
  }

  /** The loop of MergeBytes: new pooled buffers until nothing is left. */
  method AppendAll(dest: seq<Buffer>, src: seq<byte>) returns (mb: seq<Buffer>)
    requires Owned(dest)
    ensures Packed(dest, mb, false) && (mb == dest <==> src == [])
    ensures Filling(old(Data(dest)), old(Concat(Data(dest))) + src, mb, [])
    ensures forall i :: |dest| <= i < |mb| ==> fresh(mb[i])
  {
    mb := dest;
    var rest := src;
    ghost var cs, want := Data(dest), Concat(Data(dest)) + src;
    while |rest| > 0
      invariant Packed(dest, mb, |rest| > 0) && (mb == dest <==> rest == src) && Filling(cs, want, mb, rest)
      invariant forall i :: |dest| <= i < |mb| ==> fresh(mb[i])
      decreases |rest|
    {
      var b, k := AppendNew(cs, want, mb, rest);
      PackedSnoc(dest, mb, b, k < |rest|);
      mb := mb + [b];
      rest := rest[k..];
    }
    assert rest == [];
  }

  /** The list before, with its last buffer grown by `src[..k]`, and with new buffers behind it. */
  lemma {:induction false} MergedData(cs: seq<seq<byte>>, ds: seq<seq<byte>>, es: seq<seq<byte>>, src: seq<byte>,
                                      k: nat)
    requires k <= |src| && |ds| == |cs| && (cs != [] ==> ds[..|cs| - 1] == cs[..|cs| - 1]) && ds <= es
    requires Concat(ds) == Concat(cs) + src[..k] && Concat(es) + [] == Concat(ds) + src[k..]
    ensures Concat(es) == Concat(cs) + src
    ensures forall i :: 0 <= i < |cs| - 1 ==> es[i] == cs[i]
  {
    assert src == src[..k] + src[k..];
    Assoc(Concat(cs), src[..k], src[k..]);
    forall i | 0 <= i < |cs| - 1 ensures es[i] == cs[i] {
      assert es[i] == ds[i] == ds[..|cs| - 1][i] == cs[..|cs| - 1][i];
    }
  }

  /** Appends bytes: they go behind the last buffer's, and only when that is full into new
      pooled buffers, each filled before the next. */
  method MergeBytes(dest: seq<Buffer>, src: seq<byte>) returns (mb: seq<Buffer>)
    requires Owned(dest)
    modifies dest, Arrays(dest)
    ensures Owned(mb) && Packed(dest, mb, false)
    ensures Concat(Data(mb)) == old(Concat(Data(dest))) + src
    ensures forall i :: 0 <= i < |dest| - 1 ==> Data(mb)[i] == old(Data(dest))[i]
    ensures |mb| > |dest| > 0 ==> Full(dest[|dest| - 1])
    ensures forall i :: |dest| <= i < |mb| ==> fresh(mb[i])
  {
    ghost var cs := Data(dest);
    var k := 0;
    assert Concat(cs) + src[..0] == Concat(cs);
    if |dest| > 0 && dest[|dest| - 1].end != dest[|dest| - 1].v.Length {
      k := FillLast(dest, src);
    }
    ghost var ds := Data(dest);
    mb := AppendAll(dest, src[k..]);
    MergedData(cs, ds, Data(mb), src, k);
  }
}
