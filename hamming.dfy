/**
 * Hamming distance between 64-bit hashes: the number of 1 bits of their
 * exclusive or, which caching.py computes as `bin(a ^ b).count("1")`.
 */
module Hamming {

  function Pow2(n: nat): (p: nat)
    ensures p >= 1
  {
    if n == 0 then 1 else 2 * Pow2(n - 1)
  }

  lemma {:induction false} Pow2Sum(a: nat, b: nat)
    ensures Pow2(a + b) == Pow2(a) * Pow2(b)
  {
    if a > 0 {
      Pow2Sum(a - 1, b);
    }
  }

  /** 2^64, the number of distinct 64-bit hashes. */
  lemma Pow2Of64()
    ensures Pow2(64) == 0x1_0000_0000_0000_0000
  {
    assert Pow2(1) == 2;
    Pow2Sum(1, 1);
    assert Pow2(2) == 4;
    Pow2Sum(2, 2);
    assert Pow2(4) == 16;
    Pow2Sum(4, 4);
    assert Pow2(8) == 256;
    Pow2Sum(8, 8);
    assert Pow2(16) == 0x1_0000;
    Pow2Sum(16, 16);
    assert Pow2(32) == 0x1_0000_0000;
    Pow2Sum(32, 32);
  }

  /** Number of 1 digits in the binary representation of `v`. */
  function Ones(v: nat): nat
  {
    if v == 0 then 0 else v % 2 + Ones(v / 2)
  }

  /** A number below 2^n has at most n binary 1 digits, and has none only if it is 0. */
  lemma {:induction false} OnesBounds(v: nat, n: nat)
    requires v < Pow2(n)
    ensures Ones(v) <= n
    ensures Ones(v) == 0 <==> v == 0
  {
    if v != 0 {
      assert n > 0;
      OnesBounds(v / 2, n - 1);
    }
  }

  function PopCount(x: bv64): (c: nat)
    ensures c <= 64
    ensures c == 0 <==> x == 0
  {
    Pow2Of64();
    OnesBounds(x as nat, 64);
    Ones(x as nat)
  }

  function Distance(a: bv64, b: bv64): (d: nat)
    ensures d <= 64
    ensures d == 0 <==> a == b
  {
    PopCount(a ^ b)
  }
}
