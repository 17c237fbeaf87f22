/**
 * Where the constants of SHA-256 come from (FIPS 180-4, sections 4.2.2 and 5.3.3): the first 32 bits of the
 * fractions of the cube roots of the first 64 primes and of the square roots of the first eight.
 */
module Sha256Constants {
  import opened Sha256

  // ------------------------------------------------------------------------------------------
  // The table, word by word
  // ------------------------------------------------------------------------------------------

  lemma Constants0()
    ensures RoundConstant(0) == 0x428a2f98 && RoundConstant(1) == 0x71374491
    ensures RoundConstant(2) == 0xb5c0fbcf && RoundConstant(3) == 0xe9b5dba5
    ensures RoundConstant(4) == 0x3956c25b && RoundConstant(5) == 0x59f111f1
    ensures RoundConstant(6) == 0x923f82a4 && RoundConstant(7) == 0xab1c5ed5
  {
  }

  lemma Constants1()
    ensures RoundConstant(8) == 0xd807aa98 && RoundConstant(9) == 0x12835b01
    ensures RoundConstant(10) == 0x243185be && RoundConstant(11) == 0x550c7dc3
    ensures RoundConstant(12) == 0x72be5d74 && RoundConstant(13) == 0x80deb1fe
    ensures RoundConstant(14) == 0x9bdc06a7 && RoundConstant(15) == 0xc19bf174
  {
  }

  lemma Constants2()
    ensures RoundConstant(16) == 0xe49b69c1 && RoundConstant(17) == 0xefbe4786
    ensures RoundConstant(18) == 0x0fc19dc6 && RoundConstant(19) == 0x240ca1cc
    ensures RoundConstant(20) == 0x2de92c6f && RoundConstant(21) == 0x4a7484aa
    ensures RoundConstant(22) == 0x5cb0a9dc && RoundConstant(23) == 0x76f988da
  {
  }

  lemma Constants3()
    ensures RoundConstant(24) == 0x983e5152 && RoundConstant(25) == 0xa831c66d
    ensures RoundConstant(26) == 0xb00327c8 && RoundConstant(27) == 0xbf597fc7
    ensures RoundConstant(28) == 0xc6e00bf3 && RoundConstant(29) == 0xd5a79147
    ensures RoundConstant(30) == 0x06ca6351 && RoundConstant(31) == 0x14292967
  {
  }

  lemma Constants4()
    ensures RoundConstant(32) == 0x27b70a85 && RoundConstant(33) == 0x2e1b2138
    ensures RoundConstant(34) == 0x4d2c6dfc && RoundConstant(35) == 0x53380d13
    ensures RoundConstant(36) == 0x650a7354 && RoundConstant(37) == 0x766a0abb
    ensures RoundConstant(38) == 0x81c2c92e && RoundConstant(39) == 0x92722c85
  {
  }

  lemma Constants5()
    ensures RoundConstant(40) == 0xa2bfe8a1 && RoundConstant(41) == 0xa81a664b
    ensures RoundConstant(42) == 0xc24b8b70 && RoundConstant(43) == 0xc76c51a3
    ensures RoundConstant(44) == 0xd192e819 && RoundConstant(45) == 0xd6990624
    ensures RoundConstant(46) == 0xf40e3585 && RoundConstant(47) == 0x106aa070
  {
  }

  lemma Constants6()
    ensures RoundConstant(48) == 0x19a4c116 && RoundConstant(49) == 0x1e376c08
    ensures RoundConstant(50) == 0x2748774c && RoundConstant(51) == 0x34b0bcb5
    ensures RoundConstant(52) == 0x391c0cb3 && RoundConstant(53) == 0x4ed8aa4a
    ensures RoundConstant(54) == 0x5b9cca4f && RoundConstant(55) == 0x682e6ff3
  {
  }

  lemma Constants7()
    ensures RoundConstant(56) == 0x748f82ee && RoundConstant(57) == 0x78a5636f
    ensures RoundConstant(58) == 0x84c87814 && RoundConstant(59) == 0x8cc70208
    ensures RoundConstant(60) == 0x90befffa && RoundConstant(61) == 0xa4506ceb
    ensures RoundConstant(62) == 0xbef9a3f7 && RoundConstant(63) == 0xc67178f2
  {
  }

  // ------------------------------------------------------------------------------------------
  // Roots of primes
  // ------------------------------------------------------------------------------------------

  const P0: seq<nat> := [2, 3, 5, 7, 11, 13, 17, 19, 23, 29, 31, 37, 41, 43, 47, 53]

  const P1: seq<nat> := [59, 61, 67, 71, 73, 79, 83, 89, 97, 101, 103, 107, 109, 113, 127, 131]

  const P2: seq<nat> := [137, 139, 149, 151, 157, 163, 167, 173, 179, 181, 191, 193, 197, 199, 211, 223]

  const P3: seq<nat> := [227, 229, 233, 239, 241, 251, 257, 263, 269, 271, 277, 281, 283, 293, 307, 311]

  /** The first 64 primes. */
  function Prime(i: nat): nat
    requires i < 64
  {
    if i < 16 then P0[i] else if i < 32 then P1[i - 16] else if i < 48 then P2[i - 32] else P3[i - 48]
  }

  function Cube(n: nat): nat { n * n * n }

  /** `n` is the cube root of `p` times 2^32, rounded down. */
  predicate CubeRoot(p: nat, n: nat) {
    Cube(n) <= 0x1_0000_0000_0000_0000_0000_0000 * p < Cube(n + 1)
  }

  /** `n` is the square root of `p` times 2^32, rounded down. */
  predicate SquareRoot(p: nat, n: nat) {
    n * n <= 0x1_0000_0000_0000_0000 * p < (n + 1) * (n + 1)
  }

  /** `k` holds the first 32 bits of the fraction of the cube root of `p`. */
  ghost predicate CubeRootFraction(p: nat, k: bv32) {
    exists whole: nat :: CubeRoot(p, 0x1_0000_0000 * whole + k as nat)
  }

  ghost predicate SquareRootFraction(p: nat, k: bv32) {
    exists whole: nat :: SquareRoot(p, 0x1_0000_0000 * whole + k as nat)
  }

  lemma CubeFraction(p: nat, whole: nat, n: nat, k: bv32)
    requires k as nat == n && CubeRoot(p, 0x1_0000_0000 * whole + n)
    ensures CubeRootFraction(p, k)
  {
  }

  lemma SquareFraction(p: nat, whole: nat, n: nat, k: bv32)
    requires k as nat == n && SquareRoot(p, 0x1_0000_0000 * whole + n)
    ensures SquareRootFraction(p, k)
  {
  }

  lemma CubeRoots0(i: nat)
    requires 0 <= i < 16
    ensures CubeRootFraction(Prime(i), RoundConstant(i))
  {
    hide RoundConstant, CubeRootFraction;
    Constants0();
    Constants1();
    CubeFraction(2, 1, 0x428a2f98, 0x428a2f98);
    CubeFraction(3, 1, 0x71374491, 0x71374491);
    CubeFraction(5, 1, 0xb5c0fbcf, 0xb5c0fbcf);
    CubeFraction(7, 1, 0xe9b5dba5, 0xe9b5dba5);
    CubeFraction(11, 2, 0x3956c25b, 0x3956c25b);
    CubeFraction(13, 2, 0x59f111f1, 0x59f111f1);
    CubeFraction(17, 2, 0x923f82a4, 0x923f82a4);
    CubeFraction(19, 2, 0xab1c5ed5, 0xab1c5ed5);
    CubeFraction(23, 2, 0xd807aa98, 0xd807aa98);
    CubeFraction(29, 3, 0x12835b01, 0x12835b01);
    CubeFraction(31, 3, 0x243185be, 0x243185be);
    CubeFraction(37, 3, 0x550c7dc3, 0x550c7dc3);
    CubeFraction(41, 3, 0x72be5d74, 0x72be5d74);
    CubeFraction(43, 3, 0x80deb1fe, 0x80deb1fe);
    CubeFraction(47, 3, 0x9bdc06a7, 0x9bdc06a7);
    CubeFraction(53, 3, 0xc19bf174, 0xc19bf174);
  }

  lemma CubeRoots1(i: nat)
    requires 16 <= i < 32
    ensures CubeRootFraction(Prime(i), RoundConstant(i))
  {
    hide RoundConstant, CubeRootFraction;
    Constants2();
    Constants3();
    CubeFraction(59, 3, 0xe49b69c1, 0xe49b69c1);
    CubeFraction(61, 3, 0xefbe4786, 0xefbe4786);
    CubeFraction(67, 4, 0x0fc19dc6, 0x0fc19dc6);
    CubeFraction(71, 4, 0x240ca1cc, 0x240ca1cc);
    CubeFraction(73, 4, 0x2de92c6f, 0x2de92c6f);
    CubeFraction(79, 4, 0x4a7484aa, 0x4a7484aa);
    CubeFraction(83, 4, 0x5cb0a9dc, 0x5cb0a9dc);
    CubeFraction(89, 4, 0x76f988da, 0x76f988da);
    CubeFraction(97, 4, 0x983e5152, 0x983e5152);
    CubeFraction(101, 4, 0xa831c66d, 0xa831c66d);
    CubeFraction(103, 4, 0xb00327c8, 0xb00327c8);
    CubeFraction(107, 4, 0xbf597fc7, 0xbf597fc7);
    CubeFraction(109, 4, 0xc6e00bf3, 0xc6e00bf3);
    CubeFraction(113, 4, 0xd5a79147, 0xd5a79147);
    CubeFraction(127, 5, 0x06ca6351, 0x06ca6351);
    CubeFraction(131, 5, 0x14292967, 0x14292967);
  }

  lemma CubeRoots2(i: nat)
    requires 32 <= i < 48
    ensures CubeRootFraction(Prime(i), RoundConstant(i))
  {
    hide RoundConstant, CubeRootFraction;
    Constants4();
    Constants5();
    CubeFraction(137, 5, 0x27b70a85, 0x27b70a85);
    CubeFraction(139, 5, 0x2e1b2138, 0x2e1b2138);
    CubeFraction(149, 5, 0x4d2c6dfc, 0x4d2c6dfc);
    CubeFraction(151, 5, 0x53380d13, 0x53380d13);
    CubeFraction(157, 5, 0x650a7354, 0x650a7354);
    CubeFraction(163, 5, 0x766a0abb, 0x766a0abb);
    CubeFraction(167, 5, 0x81c2c92e, 0x81c2c92e);
    CubeFraction(173, 5, 0x92722c85, 0x92722c85);
    CubeFraction(179, 5, 0xa2bfe8a1, 0xa2bfe8a1);
    CubeFraction(181, 5, 0xa81a664b, 0xa81a664b);
    CubeFraction(191, 5, 0xc24b8b70, 0xc24b8b70);
    CubeFraction(193, 5, 0xc76c51a3, 0xc76c51a3);
    CubeFraction(197, 5, 0xd192e819, 0xd192e819);
    CubeFraction(199, 5, 0xd6990624, 0xd6990624);
    CubeFraction(211, 5, 0xf40e3585, 0xf40e3585);
    CubeFraction(223, 6, 0x106aa070, 0x106aa070);
  }

  lemma CubeRoots3(i: nat)
    requires 48 <= i < 64
    ensures CubeRootFraction(Prime(i), RoundConstant(i))
  {
    hide RoundConstant, CubeRootFraction;
    Constants6();
    Constants7();
    CubeFraction(227, 6, 0x19a4c116, 0x19a4c116);
    CubeFraction(229, 6, 0x1e376c08, 0x1e376c08);
    CubeFraction(233, 6, 0x2748774c, 0x2748774c);
    CubeFraction(239, 6, 0x34b0bcb5, 0x34b0bcb5);
    CubeFraction(241, 6, 0x391c0cb3, 0x391c0cb3);
    CubeFraction(251, 6, 0x4ed8aa4a, 0x4ed8aa4a);
    CubeFraction(257, 6, 0x5b9cca4f, 0x5b9cca4f);
    CubeFraction(263, 6, 0x682e6ff3, 0x682e6ff3);
    CubeFraction(269, 6, 0x748f82ee, 0x748f82ee);
    CubeFraction(271, 6, 0x78a5636f, 0x78a5636f);
    CubeFraction(277, 6, 0x84c87814, 0x84c87814);
    CubeFraction(281, 6, 0x8cc70208, 0x8cc70208);
    CubeFraction(283, 6, 0x90befffa, 0x90befffa);
    CubeFraction(293, 6, 0xa4506ceb, 0xa4506ceb);
    CubeFraction(307, 6, 0xbef9a3f7, 0xbef9a3f7);
    CubeFraction(311, 6, 0xc67178f2, 0xc67178f2);
  }

  /** Every round constant comes from the cube root of its prime. */
  lemma RoundConstantsAreCubeRoots(i: nat)
    requires i < 64
    ensures CubeRootFraction(Prime(i), RoundConstant(i))
  {
    hide CubeRootFraction, RoundConstant;
    if i < 16 {
      CubeRoots0(i);
    } else if i < 32 {
      CubeRoots1(i);
    } else if i < 48 {
      CubeRoots2(i);
    } else {
      CubeRoots3(i);
    }
  }

  /** Every initial word comes from the square root of its prime. */
  lemma InitialWordsAreSquareRoots(i: nat)
    requires i < 8
    ensures SquareRootFraction(Prime(i), IV[i])
  {
    hide SquareRootFraction;
    SquareFraction(2, 1, 0x6a09e667, 0x6a09e667);
    SquareFraction(3, 1, 0xbb67ae85, 0xbb67ae85);
    SquareFraction(5, 2, 0x3c6ef372, 0x3c6ef372);
    SquareFraction(7, 2, 0xa54ff53a, 0xa54ff53a);
    SquareFraction(11, 3, 0x510e527f, 0x510e527f);
    SquareFraction(13, 3, 0x9b05688c, 0x9b05688c);
    SquareFraction(17, 4, 0x1f83d9ab, 0x1f83d9ab);
    SquareFraction(19, 4, 0x5be0cd19, 0x5be0cd19);
  }
}
