/** Bytes, big-endian 16-bit fields and concatenation of buffers: the vocabulary
    every wire format of the repository shares.

    A list of buffers is a sequence of byte sequences; what matters to a protocol is
    its concatenation. Associativity is stated here once because the byte-level proofs
    use it everywhere. */
module Bytes {

  type byte = x: int | 0 <= x < 256

  /** Capacity of a pooled buffer (`buf.Size`). */
  const BUF_SIZE := 8192

  datatype Option<+T> = None | Some(value: T)

  function Min(a: int, b: int): int {
    if a < b then a else b
  }

  type uint32 = x: int | 0 <= x < 0x1_0000_0000

  /** `n` cut to 32 bits and read as a signed number. */
  function Int32(n: int): int {
    var m := n % 0x1_0000_0000;
    if m < 0x8000_0000 then m else m - 0x1_0000_0000
  }

  /** The 16-bit big-endian value at offset `i`. */
  function U16(s: seq<byte>, i: nat): (n: int)
    requires i + 2 <= |s|
    ensures 0 <= n < 65536
  {
    var hi: int := s[i];
    hi * 256 + s[i + 1]
  }

  /** The two big-endian bytes of `uint16(n)`. */
  function Be16(n: int): (s: seq<byte>)
    ensures |s| == 2
    ensures 0 <= n < 65536 ==> U16(s, 0) == n
  {
    [(n / 256) % 256, n % 256]
  }

  function Zeros(n: nat): (s: seq<byte>)
    ensures |s| == n
  {
    seq(n, i => 0)
  }

  /** An IPv6 address that stands for an IPv4 address, in its last four bytes. */
  predicate MappedV4(ip: seq<byte>) {
    |ip| == 16 && (forall i :: 0 <= i < 10 ==> ip[i] == 0) && ip[10] == 0xff && ip[11] == 0xff
  }

  /** All bytes of a list of buffers, in order. */
  function Concat(mb: seq<seq<byte>>): seq<byte> {
    if mb == [] then [] else mb[0] + Concat(mb[1..])
  }

  lemma {:induction false} Assoc<T>(a: seq<T>, b: seq<T>, c: seq<T>)
    ensures a + (b + c) == a + b + c
  {
  }

  lemma {:induction false} ConcatAppend(a: seq<seq<byte>>, b: seq<seq<byte>>)
    ensures Concat(a + b) == Concat(a) + Concat(b)
  {
    if a == [] {
      assert a + b == b;
    } else {
      ConcatAppend(a[1..], b);
      assert (a + b)[1..] == a[1..] + b;
      Assoc(a[0], Concat(a[1..]), Concat(b));
    }
  }

  lemma {:induction false} ConcatOne(x: seq<byte>)
    ensures Concat([x]) == x
  {
    assert Concat([x]) == x + Concat([]);
  }

  lemma {:induction false} ConcatSnoc(a: seq<seq<byte>>, x: seq<byte>)
    ensures Concat(a + [x]) == Concat(a) + x
  {
    ConcatAppend(a, [x]);
    ConcatOne(x);
  }

  /** The first `n` bytes, or everything when there are fewer: what survives when
      a sequence of writes hits the end of a buffer of capacity `n`. */
  function Take<T>(s: seq<T>, n: nat): seq<T> {
    if |s| <= n then s else s[..n]
  }

  lemma {:induction false} TakeMore<T>(a: seq<T>, b: seq<T>, n: nat)
    ensures Take(Take(a, n) + b, n) == Take(a + b, n)
  {
    if |a| > n {
      assert (a[..n] + b)[..n] == a[..n] == (a + b)[..n];
    }
  }
}
