/**
  Where the constants of SHA-256 come from (sections 4.2.2 and 5.3.3 of FIPS 180-4): the first 32 bits
  of the fractional parts of the cube roots of the first 64 primes, and of the square roots of the first 8.
 */
module Sha256Constants {
  import opened Sha256Spec

  /** The first 64 primes, four to a row. */
  const PRIMES: seq<seq<nat>> := [
    [2, 3, 5, 7],
    [11, 13, 17, 19],
    [23, 29, 31, 37],
    [41, 43, 47, 53],
    [59, 61, 67, 71],
    [73, 79, 83, 89],
    [97, 101, 103, 107],
    [109, 113, 127, 131],
    [137, 139, 149, 151],
    [157, 163, 167, 173],
    [179, 181, 191, 193],
    [197, 199, 211, 223],
    [227, 229, 233, 239],
    [241, 251, 257, 263],
    [269, 271, 277, 281],
    [283, 293, 307, 311]
  ]

  function PrimeAt(t: nat): nat
    requires t < 64
  {
    PRIMES[t / 4][t % 4]
  }

  /** x is the cube root of p in units of 2^-32, rounded down. */
  predicate IsCubeRoot(p: nat, x: nat) {
    x * x * x <= p * 0x1_0000_0000_0000_0000_0000_0000 < (x + 1) * (x + 1) * (x + 1)
  }

  /** x is the square root of p in units of 2^-32, rounded down. */
  predicate IsSquareRoot(p: nat, x: nat) {
    x * x <= p * 0x1_0000_0000_0000_0000 < (x + 1) * (x + 1)
  }

  /** The first 32 fractional bits of the cube root of p, whose integer part is whole. */
  predicate CubeFraction(p: nat, whole: nat, k: bv32) {
    IsCubeRoot(p, whole * 0x1_0000_0000 + (k as nat))
  }

  predicate SquareFraction(p: nat, whole: nat, k: bv32) {
    IsSquareRoot(p, whole * 0x1_0000_0000 + (k as nat))
  }

  /** Round constant t comes from prime t. */
  ghost predicate FromPrime(t: nat)
    requires t < 64
  {
    exists whole :: CubeFraction(PrimeAt(t), whole, KAt(t))
  }

  lemma Comes(t: nat, p: nat, whole: nat, k: bv32)
    requires t < 64 && PrimeAt(t) == p && KAt(t) == k && CubeFraction(p, whole, k)
    ensures FromPrime(t)
  {}

  lemma Row0()
    ensures forall t :: 0 <= t < 4 ==> FromPrime(t)
  {
    hide FromPrime;
    Comes(0, 2, 1, 0x428a2f98); Comes(1, 3, 1, 0x71374491);
    Comes(2, 5, 1, 0xb5c0fbcf); Comes(3, 7, 1, 0xe9b5dba5);
  }

  lemma Row1()
    ensures forall t :: 4 <= t < 8 ==> FromPrime(t)
  {
    hide FromPrime;
    Comes(4, 11, 2, 0x3956c25b); Comes(5, 13, 2, 0x59f111f1);
    Comes(6, 17, 2, 0x923f82a4); Comes(7, 19, 2, 0xab1c5ed5);
  }

  lemma Row2()
    ensures forall t :: 8 <= t < 12 ==> FromPrime(t)
  {
    hide FromPrime;
    Comes(8, 23, 2, 0xd807aa98); Comes(9, 29, 3, 0x12835b01);
    Comes(10, 31, 3, 0x243185be); Comes(11, 37, 3, 0x550c7dc3);
  }

  lemma Row3()
    ensures forall t :: 12 <= t < 16 ==> FromPrime(t)
  {
    hide FromPrime;
    Comes(12, 41, 3, 0x72be5d74); Comes(13, 43, 3, 0x80deb1fe);
    Comes(14, 47, 3, 0x9bdc06a7); Comes(15, 53, 3, 0xc19bf174);
  }

  lemma Row4()
    ensures forall t :: 16 <= t < 20 ==> FromPrime(t)
  {
    hide FromPrime;
    Comes(16, 59, 3, 0xe49b69c1); Comes(17, 61, 3, 0xefbe4786);
    Comes(18, 67, 4, 0x0fc19dc6); Comes(19, 71, 4, 0x240ca1cc);
  }

  lemma Row5()
    ensures forall t :: 20 <= t < 24 ==> FromPrime(t)
  {
    hide FromPrime;
    Comes(20, 73, 4, 0x2de92c6f); Comes(21, 79, 4, 0x4a7484aa);
    Comes(22, 83, 4, 0x5cb0a9dc); Comes(23, 89, 4, 0x76f988da);
  }

  lemma Row6()
    ensures forall t :: 24 <= t < 28 ==> FromPrime(t)
  {
    hide FromPrime;
    Comes(24, 97, 4, 0x983e5152); Comes(25, 101, 4, 0xa831c66d);
    Comes(26, 103, 4, 0xb00327c8); Comes(27, 107, 4, 0xbf597fc7);
  }

  lemma Row7()
    ensures forall t :: 28 <= t < 32 ==> FromPrime(t)
  {
    hide FromPrime;
    Comes(28, 109, 4, 0xc6e00bf3); Comes(29, 113, 4, 0xd5a79147);
    Comes(30, 127, 5, 0x06ca6351); Comes(31, 131, 5, 0x14292967);
  }

  lemma Row8()
    ensures forall t :: 32 <= t < 36 ==> FromPrime(t)
  {
    hide FromPrime;
    Comes(32, 137, 5, 0x27b70a85); Comes(33, 139, 5, 0x2e1b2138);
    Comes(34, 149, 5, 0x4d2c6dfc); Comes(35, 151, 5, 0x53380d13);
  }

  lemma Row9()
    ensures forall t :: 36 <= t < 40 ==> FromPrime(t)
  {
    hide FromPrime;
    Comes(36, 157, 5, 0x650a7354); Comes(37, 163, 5, 0x766a0abb);
    Comes(38, 167, 5, 0x81c2c92e); Comes(39, 173, 5, 0x92722c85);
  }

  lemma Row10()
    ensures forall t :: 40 <= t < 44 ==> FromPrime(t)
  {
    hide FromPrime;
    Comes(40, 179, 5, 0xa2bfe8a1); Comes(41, 181, 5, 0xa81a664b);
    Comes(42, 191, 5, 0xc24b8b70); Comes(43, 193, 5, 0xc76c51a3);
  }

  lemma Row11()
    ensures forall t :: 44 <= t < 48 ==> FromPrime(t)
  {
    hide FromPrime;
    Comes(44, 197, 5, 0xd192e819); Comes(45, 199, 5, 0xd6990624);
    Comes(46, 211, 5, 0xf40e3585); Comes(47, 223, 6, 0x106aa070);
  }

  lemma Row12()
    ensures forall t :: 48 <= t < 52 ==> FromPrime(t)
  {
    hide FromPrime;
    Comes(48, 227, 6, 0x19a4c116); Comes(49, 229, 6, 0x1e376c08);
    Comes(50, 233, 6, 0x2748774c); Comes(51, 239, 6, 0x34b0bcb5);
  }

  lemma Row13()
    ensures forall t :: 52 <= t < 56 ==> FromPrime(t)
  {
    hide FromPrime;
    Comes(52, 241, 6, 0x391c0cb3); Comes(53, 251, 6, 0x4ed8aa4a);
    Comes(54, 257, 6, 0x5b9cca4f); Comes(55, 263, 6, 0x682e6ff3);
  }

  lemma Row14()
    ensures forall t :: 56 <= t < 60 ==> FromPrime(t)
  {
    hide FromPrime;
    Comes(56, 269, 6, 0x748f82ee); Comes(57, 271, 6, 0x78a5636f);
    Comes(58, 277, 6, 0x84c87814); Comes(59, 281, 6, 0x8cc70208);
  }

  lemma Row15()
    ensures forall t :: 60 <= t < 64 ==> FromPrime(t)
  {
    hide FromPrime;
    Comes(60, 283, 6, 0x90befffa); Comes(61, 293, 6, 0xa4506ceb);
    Comes(62, 307, 6, 0xbef9a3f7); Comes(63, 311, 6, 0xc67178f2);
  }

  /** Every round constant comes from its prime. */
  lemma RoundConstants(t: nat)
    requires t < 64
    ensures exists whole :: CubeFraction(PrimeAt(t), whole, KAt(t))
  {
    hide CubeFraction, PrimeAt, KAt;
    Row0(); Row1(); Row2(); Row3(); Row4(); Row5(); Row6(); Row7();
    Row8(); Row9(); Row10(); Row11(); Row12(); Row13(); Row14(); Row15();
    assert FromPrime(t);
  }

  /** The initial hash is the fractional parts of the square roots of the first eight primes. */
  lemma InitialHash()
    ensures SquareFraction(2, 1, INITIAL_HASH.a)
    ensures SquareFraction(3, 1, INITIAL_HASH.b)
    ensures SquareFraction(5, 2, INITIAL_HASH.c)
    ensures SquareFraction(7, 2, INITIAL_HASH.d)
    ensures SquareFraction(11, 3, INITIAL_HASH.e)
    ensures SquareFraction(13, 3, INITIAL_HASH.f)
    ensures SquareFraction(17, 4, INITIAL_HASH.g)
    ensures SquareFraction(19, 4, INITIAL_HASH.h)
  {}
}
