/** GenerateIncreasingNonce and GenerateAEADNonceWithSize (common/crypto/auth.go): a
    little-endian counter incremented in place before each use. */
module Nonces {
  import opened Bytes

  function Power256(n: nat): (p: nat)
    ensures p > 0
  {
    if n == 0 then 1 else 256 * Power256(n - 1)
  }

  /** The number whose little-endian encoding is `s`. */
  function Value(s: seq<byte>): (v: nat)
    ensures v < Power256(|s|)
  {
    if s == [] then 0
    else
      assert Value(s[1..]) + 1 <= Power256(|s| - 1);
      s[0] as int + 256 * Value(s[1..])
  }

  /** One increment with carry, wrapping at the top. */
  function Increment(s: seq<byte>): (r: seq<byte>)
    ensures |r| == |s|
  {
    if s == [] then []
    else if s[0] == 255 then [0] + Increment(s[1..])
    else [s[0] + 1] + s[1..]
  }

  lemma {:induction false} IncrementValue(s: seq<byte>)
    ensures Value(Increment(s)) == if Value(s) + 1 == Power256(|s|) then 0 else Value(s) + 1
  {
    if s != [] {
      IncrementValue(s[1..]);
      var r := Increment(s);
      assert r[1..] == if s[0] == 255 then Increment(s[1..]) else s[1..];
    }
  }

  /** Little-endian encodings of equal length are unique. */
  lemma {:induction false} ValueInjective(s: seq<byte>, t: seq<byte>)
    requires |s| == |t| && Value(s) == Value(t)
    ensures s == t
  {
    if s != [] {
      assert s[0] == t[0] && Value(s[1..]) == Value(t[1..]);
      ValueInjective(s[1..], t[1..]);
      assert s == [s[0]] + s[1..] && t == [t[0]] + t[1..];
    }
  }

  /** The `k`-th value produced after starting from `s`. */
  function Nth(s: seq<byte>, k: nat): (r: seq<byte>)
    ensures |r| == |s|
  {
    if k == 0 then s else Increment(Nth(s, k - 1))
  }

  lemma {:induction false} WrapNext(v: nat, m: nat)
    requires m > 0
    ensures (v + 1) % m == if v % m + 1 == m then 0 else v % m + 1
  {
    var q := v / m;
    assert v == q * m + v % m;
    if v % m + 1 == m {
      assert v + 1 == (q + 1) * m;
      WrapUnique(v + 1, q + 1, 0, m);
    } else {
      WrapUnique(v + 1, q, v % m + 1, m);
    }
  }

  lemma {:induction false} WrapUnique(v: int, q: int, r: int, m: nat)
    requires m > 0 && v == q * m + r && 0 <= r < m
    ensures v % m == r && v / m == q
  {
    var d := v / m - q;
    assert v == (v / m) * m + v % m;
    assert d * m == (v / m) * m - q * m;
    MulBound(d, m);
  }

  lemma {:induction false} MulBound(d: int, m: int)
    requires 0 <= m
    ensures d >= 1 ==> d * m >= m
    ensures d <= -1 ==> d * m <= -m
  {
    if d >= 1 {
      assert d * m == m + (d - 1) * m;
    } else if d <= -1 {
      assert d * m == -m + (d + 1) * m;
    }
  }

  /** Shifting by up to `m` changes the remainder unless by exactly `m`. */
  lemma {:induction false} ShiftMod(a: nat, d: nat, m: nat)
    requires 0 < d <= m
    ensures (a + d) % m == a % m <==> d == m
  {
    var q, r := a / m, a % m;
    assert a == q * m + r;
    if r + d < m {
      WrapUnique(a + d, q, r + d, m);
    } else {
      assert (q + 1) * m == q * m + m;
      WrapUnique(a + d, q + 1, r + d - m, m);
    }
  }

  /** NONCE COUNTER. The `k`-th nonce encodes (initial + k) mod 256^n. */
  lemma {:induction false} NthValue(s: seq<byte>, k: nat)
    ensures Value(Nth(s, k)) == (Value(s) + k) % Power256(|s|)
  {
    if k == 0 {
      WrapUnique(Value(s), 0, Value(s), Power256(|s|));
    } else {
      NthValue(s, k - 1);
      IncrementValue(Nth(s, k - 1));
      WrapNext(Value(s) + k - 1, Power256(|s|));
    }
  }

  /** Any 256^n consecutive nonces are pairwise distinct (section 3.1 of RFC 5116), and
      the one after them repeats the first. */
  lemma {:induction false} NoncesDistinct(s: seq<byte>, i: nat, j: nat)
    requires i < j <= i + Power256(|s|)
    ensures Nth(s, i) == Nth(s, j) <==> j == i + Power256(|s|)
  {
    NthValue(s, i);
    NthValue(s, j);
    ShiftMod(Value(s) + i, j - i, Power256(|s|));
    if j == i + Power256(|s|) {
      ValueInjective(Nth(s, i), Nth(s, j));
    }
  }

  function Ones(n: nat): (s: seq<byte>)
    ensures |s| == n
    ensures Value(s) + 1 == Power256(n)
  {
    if n == 0 then []
    else
      var t := Ones(n - 1);
      assert ([255] + t)[1..] == t;
      [255] + t
  }

  /** A fresh AEAD nonce generator counts from zero. */
  lemma {:induction false} AeadNoncesStartAtZero(n: nat, k: nat)
    requires k < Power256(n)
    ensures Value(Nth(Ones(n), k + 1)) == k
  {
    NthValue(Ones(n), k + 1);
    WrapUnique(Value(Ones(n)) + k + 1, 1, k, Power256(n));
  }

  /** The carry has passed the first `i` bytes. */
  ghost predicate Carrying(s: seq<byte>, t: seq<byte>, i: nat) {
    i <= |s| == |t| && t[i..] == s[i..] && Increment(s) == t[..i] + Increment(s[i..])
  }

  lemma {:induction false} CarryTurn(s: seq<byte>, t: seq<byte>, i: nat)
    requires Carrying(s, t, i) && i < |s|
    ensures t[i] == s[i]
    ensures if s[i] == 255 then Carrying(s, t[i := 0], i + 1) else Increment(s) == t[i := s[i] + 1]
  {
    assert s[i] == s[i..][0] == t[i..][0] && s[i..][1..] == s[i + 1..] == t[i..][1..];
    if s[i] == 255 {
      assert t[..i] + ([0] + Increment(s[i + 1..])) == t[i := 0][..i + 1] + Increment(s[i + 1..]);
    } else {
      assert t[..i] + ([s[i] + 1] + s[i + 1..]) == t[i := s[i] + 1];
    }
  }

  class NonceGenerator {
    const c: array<byte>

    constructor Increasing(nonce: seq<byte>)
      ensures c[..] == nonce && fresh(c)
    {
      c := new byte[|nonce|](i requires 0 <= i < |nonce| => nonce[i]);
    }

    constructor Aead(nonceSize: nat)
      ensures c[..] == Ones(nonceSize) && fresh(c)
    {
      var ones := Ones(nonceSize);
      c := new byte[nonceSize](i requires 0 <= i < |ones| => ones[i]);
    }

    /** Increments in place, stopping at the first byte that does not wrap. */
    method Next() returns (nonce: seq<byte>)
      modifies c
      ensures nonce == c[..] == Increment(old(c[..]))
    {
      ghost var s := c[..];
      var i := 0;
      while i < c.Length
        invariant Carrying(s, c[..], i)
      {
        ghost var t := c[..];
        CarryTurn(s, t, i);
        c[i] := if c[i] == 255 then 0 else c[i] + 1;
        assert c[..] == t[i := c[i]];
        if c[i] != 0 {
          return c[..];
        }
        i := i + 1;
      }
      assert c[..i] == c[..] && s[i..] == [];
      nonce := c[..];
    }
  }
}
