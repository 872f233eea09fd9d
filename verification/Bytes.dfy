/** Bytes, machine integers and the number that a byte string spells. */
module Bytes {
  import opened Gf2

  const TWO_32: nat := 0x1_0000_0000
  const TWO_64: nat := 0x1_0000_0000_0000_0000

  type u8 = x: nat | x < 256
  type u32 = x: nat | x < TWO_32
  type u64 = x: nat | x < TWO_64

  /** What a 32-bit counter holds. */
  function Low32(n: nat): u32 {
    n % TWO_32
  }

  lemma AddLow(n: nat, k: nat)
    ensures Low32(Low32(n) + k) == Low32(n + k)
  {
  }

  lemma LowBits(n: nat)
    ensures Low32(n) <= n && (Low32(n) == n <==> n < TWO_32)
  {
  }

  /** The bytes read as one big-endian number. */
  function Value(s: seq<u8>): nat {
    if s == [] then 0 else Value(s[..|s| - 1]) * 256 + s[|s| - 1]
  }

  lemma ValueAppend(s: seq<u8>, m: u8)
    ensures Value(s + [m]) == Value(s) * 256 + m
  {
    assert (s + [m])[..|s|] == s;
  }

  /** The number 8, with the value of Pow2(8) but without its unfolding. */
  lemma Eight() returns (e: nat)
    ensures e == 8 && Pow2(e) == 256
  {
    e := 8;
    assert Pow2(8) == 256;
  }

  lemma BytePlace(a: nat, k: nat)
    ensures a * Pow2(8 * (k + 1)) == a * Pow2(8 * k) * 256
  {
    var e := Eight();
    Pow2Adds(8 * k, e);
    assert a * (Pow2(8 * k) * 256) == a * Pow2(8 * k) * 256;
  }

  lemma {:induction false} ValueBound(s: seq<u8>)
    ensures Value(s) < Pow2(8 * |s|)
  {
    if s != [] {
      ValueBound(s[..|s| - 1]);
      BytePlace(1, |s| - 1);
    }
  }

  lemma {:induction false} ValuePrepend(b: u8, s: seq<u8>)
    ensures Value([b] + s) == b * Pow2(8 * |s|) + Value(s)
  {
    if s == [] {
      ValueAppend([], b);
      assert [b] + s == [] + [b];
    } else {
      var t, m := s[..|s| - 1], s[|s| - 1];
      ValuePrepend(b, t);
      ValueAppend([b] + t, m);
      assert [b] + s == [b] + t + [m];
      BytePlace(b, |t|);
    }
  }

  /** Leading zero bytes do not change the number. */
  lemma {:induction false} ValueLeadingZeros(n: nat, s: seq<u8>)
    ensures Value(seq(n, _ => 0 as u8) + s) == Value(s)
  {
    var z: seq<u8> := seq(n, _ => 0);
    if n == 0 {
      assert z + s == s;
    } else {
      var y: seq<u8> := seq(n - 1, _ => 0);
      ValueLeadingZeros(n - 1, s);
      ValuePrepend(0, y + s);
      assert z + s == [0] + (y + s);
    }
  }

  // ---------- memcmp ----------

  /** The C library's byte-wise comparison of two buffers of equal length. */
  function Memcmp(a: seq<u8>, b: seq<u8>): int
    requires |a| == |b|
  {
    if a == [] then 0
    else if a[0] != b[0] then a[0] - b[0]
    else Memcmp(a[1..], b[1..])
  }

  lemma Dominates(x: nat, y: nat, r: nat, s: nat, p: nat)
    requires x < y && r < p
    ensures x * p + r < y * p + s
  {
    assert y * p == (y - 1 - x) * p + x * p + p;
    assert (y - 1 - x) * p >= 0;
  }

  /** memcmp orders equal-length buffers as the numbers they spell; hence it is a total order. */
  lemma {:induction false} MemcmpOrdersByValue(a: seq<u8>, b: seq<u8>)
    requires |a| == |b|
    ensures Memcmp(a, b) < 0 <==> Value(a) < Value(b)
    ensures Memcmp(a, b) == 0 <==> Value(a) == Value(b)
    ensures Memcmp(a, b) == 0 <==> a == b
  {
    if a != [] {
      var x, y := a[1..], b[1..];
      assert a == [a[0]] + x && b == [b[0]] + y;
      ValuePrepend(a[0], x);
      ValuePrepend(b[0], y);
      ValueBound(x);
      ValueBound(y);
      var p := Pow2(8 * |x|);
      if a[0] < b[0] {
        Dominates(a[0], b[0], Value(x), Value(y), p);
      } else if b[0] < a[0] {
        Dominates(b[0], a[0], Value(y), Value(x), p);
      } else {
        MemcmpOrdersByValue(x, y);
      }
    }
  }
}
