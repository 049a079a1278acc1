/** Unsigned 32-bit counters that wrap around. */
module Counters {
  const WRAP := 0x1_0000_0000

  /** A counter moved on by n. */
  function Plus(c: nat, n: nat): (r: nat)
    ensures r < WRAP
  {
    (c + n) % WRAP
  }

  /** A counter moved back by one. */
  function Minus1(c: nat): (r: nat)
    ensures r < WRAP
  {
    (c + WRAP - 1) % WRAP
  }

  /** How far one counter is past another. */
  function Distance(from: nat, to: nat): (n: nat)
    requires from < WRAP
  {
    (to + WRAP - from) % WRAP
  }

  lemma PlusZero(c: nat)
    requires c < WRAP
    ensures Plus(c, 0) == c
  {
  }

  lemma PlusPlus(c: nat, m: nat, n: nat)
    ensures Plus(Plus(c, m), n) == Plus(c, m + n)
  {
  }

  lemma DistanceIs(c: nat, n: nat)
    requires c < WRAP && n < WRAP
    ensures Distance(c, Plus(c, n)) == n
  {
  }

  /** Counters fewer than 2^32 steps apart are equal only if they are the same. */
  lemma PlusInjective(c: nat, m: nat, n: nat)
    requires c < WRAP && m < WRAP && n < WRAP
    ensures Plus(c, m) == Plus(c, n) <==> m == n
  {
    DistanceIs(c, m);
    DistanceIs(c, n);
  }

  lemma PlusBack(c: nat, n: nat)
    requires n > 0
    ensures Minus1(Plus(c, n)) == Plus(c, n - 1)
  {
  }

  /** Moving on and wrapping around takes off whole multiples of 2^32. */
  lemma PlusIs(c: nat, n: nat) returns (q: nat)
    ensures c + n == Plus(c, n) + WRAP * q
  {
    q := (c + n) / WRAP;
  }

  /** The remainder of a division by a constant that divides 2^32 does not see the wrap. */
  lemma Remainder512(y: nat, z: nat, q: nat)
    requires y == z + WRAP * q
    ensures y % 512 == z % 512
  {
    var a, r := z / 512, z % 512;
    assert y == 512 * (a + 8388608 * q) + r;
  }

  lemma Remainder128(y: nat, z: nat, q: nat)
    requires y == z + WRAP * q
    ensures y % 128 == z % 128
  {
    var a, r := z / 128, z % 128;
    assert y == 128 * (a + 33554432 * q) + r;
  }
}
