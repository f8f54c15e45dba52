/** The constants of modules 7499 and 7816, and where they come from. */
module Sha2Constants {
  import opened JsNumbers
  import opened Fips180
  import opened Primes
  import opened Sha512Pairs
  import Sha256
  import Sha512

  // Module 7816's table, in rows of eight 64-bit constants: high and low halves alternate.
  const ROW0: seq<int> := [
    0x428a2f98, 0xd728ae22, 0x71374491, 0x23ef65cd, 0xb5c0fbcf, 0xec4d3b2f, 0xe9b5dba5, 0x8189dbbc,
    0x3956c25b, 0xf348b538, 0x59f111f1, 0xb605d019, 0x923f82a4, 0xaf194f9b, 0xab1c5ed5, 0xda6d8118]
  const ROW1: seq<int> := [
    0xd807aa98, 0xa3030242, 0x12835b01, 0x45706fbe, 0x243185be, 0x4ee4b28c, 0x550c7dc3, 0xd5ffb4e2,
    0x72be5d74, 0xf27b896f, 0x80deb1fe, 0x3b1696b1, 0x9bdc06a7, 0x25c71235, 0xc19bf174, 0xcf692694]
  const ROW2: seq<int> := [
    0xe49b69c1, 0x9ef14ad2, 0xefbe4786, 0x384f25e3, 0x0fc19dc6, 0x8b8cd5b5, 0x240ca1cc, 0x77ac9c65,
    0x2de92c6f, 0x592b0275, 0x4a7484aa, 0x6ea6e483, 0x5cb0a9dc, 0xbd41fbd4, 0x76f988da, 0x831153b5]
  const ROW3: seq<int> := [
    0x983e5152, 0xee66dfab, 0xa831c66d, 0x2db43210, 0xb00327c8, 0x98fb213f, 0xbf597fc7, 0xbeef0ee4,
    0xc6e00bf3, 0x3da88fc2, 0xd5a79147, 0x930aa725, 0x06ca6351, 0xe003826f, 0x14292967, 0x0a0e6e70]
  const ROW4: seq<int> := [
    0x27b70a85, 0x46d22ffc, 0x2e1b2138, 0x5c26c926, 0x4d2c6dfc, 0x5ac42aed, 0x53380d13, 0x9d95b3df,
    0x650a7354, 0x8baf63de, 0x766a0abb, 0x3c77b2a8, 0x81c2c92e, 0x47edaee6, 0x92722c85, 0x1482353b]
  const ROW5: seq<int> := [
    0xa2bfe8a1, 0x4cf10364, 0xa81a664b, 0xbc423001, 0xc24b8b70, 0xd0f89791, 0xc76c51a3, 0x0654be30,
    0xd192e819, 0xd6ef5218, 0xd6990624, 0x5565a910, 0xf40e3585, 0x5771202a, 0x106aa070, 0x32bbd1b8]
  const ROW6: seq<int> := [
    0x19a4c116, 0xb8d2d0c8, 0x1e376c08, 0x5141ab53, 0x2748774c, 0xdf8eeb99, 0x34b0bcb5, 0xe19b48a8,
    0x391c0cb3, 0xc5c95a63, 0x4ed8aa4a, 0xe3418acb, 0x5b9cca4f, 0x7763e373, 0x682e6ff3, 0xd6b2b8a3]
  const ROW7: seq<int> := [
    0x748f82ee, 0x5defb2fc, 0x78a5636f, 0x43172f60, 0x84c87814, 0xa1f0ab72, 0x8cc70208, 0x1a6439ec,
    0x90befffa, 0x23631e28, 0xa4506ceb, 0xde82bde9, 0xbef9a3f7, 0xb2c67915, 0xc67178f2, 0xe372532b]
  const ROW8: seq<int> := [
    0xca273ece, 0xea26619c, 0xd186b8c7, 0x21c0c207, 0xeada7dd6, 0xcde0eb1e, 0xf57d4f7f, 0xee6ed178,
    0x06f067aa, 0x72176fba, 0x0a637dc5, 0xa2c898a6, 0x113f9804, 0xbef90dae, 0x1b710b35, 0x131c471b]
  const ROW9: seq<int> := [
    0x28db77f5, 0x23047d84, 0x32caab7b, 0x40c72493, 0x3c9ebe0a, 0x15c9bebc, 0x431d67c4, 0x9c100d4c,
    0x4cc5d4be, 0xcb3e42b6, 0x597f299c, 0xfc657e2a, 0x5fcb6fab, 0x3ad6faec, 0x6c44198c, 0x4a475817]

  const K512: seq<int> := ROW0 + ROW1 + ROW2 + ROW3 + ROW4 + ROW5 + ROW6 + ROW7 + ROW8 + ROW9

  // Module 7499's table, in rows of eight.
  const SHORT0: seq<int> := [
    0x428a2f98, 0x71374491, 0xb5c0fbcf, 0xe9b5dba5, 0x3956c25b, 0x59f111f1, 0x923f82a4, 0xab1c5ed5]
  const SHORT1: seq<int> := [
    0xd807aa98, 0x12835b01, 0x243185be, 0x550c7dc3, 0x72be5d74, 0x80deb1fe, 0x9bdc06a7, 0xc19bf174]
  const SHORT2: seq<int> := [
    0xe49b69c1, 0xefbe4786, 0x0fc19dc6, 0x240ca1cc, 0x2de92c6f, 0x4a7484aa, 0x5cb0a9dc, 0x76f988da]
  const SHORT3: seq<int> := [
    0x983e5152, 0xa831c66d, 0xb00327c8, 0xbf597fc7, 0xc6e00bf3, 0xd5a79147, 0x06ca6351, 0x14292967]
  const SHORT4: seq<int> := [
    0x27b70a85, 0x2e1b2138, 0x4d2c6dfc, 0x53380d13, 0x650a7354, 0x766a0abb, 0x81c2c92e, 0x92722c85]
  const SHORT5: seq<int> := [
    0xa2bfe8a1, 0xa81a664b, 0xc24b8b70, 0xc76c51a3, 0xd192e819, 0xd6990624, 0xf40e3585, 0x106aa070]
  const SHORT6: seq<int> := [
    0x19a4c116, 0x1e376c08, 0x2748774c, 0x34b0bcb5, 0x391c0cb3, 0x4ed8aa4a, 0x5b9cca4f, 0x682e6ff3]
  const SHORT7: seq<int> := [
    0x748f82ee, 0x78a5636f, 0x84c87814, 0x8cc70208, 0x90befffa, 0xa4506ceb, 0xbef9a3f7, 0xc67178f2]

  const K256: seq<int> := SHORT0 + SHORT1 + SHORT2 + SHORT3 + SHORT4 + SHORT5 + SHORT6 + SHORT7

  const TWO_192 := TWO_64 * TWO_64 * TWO_64

  /** c is the cube root of p, scaled by 2^64 and rounded down. */
  predicate IsScaledCubeRoot(p: nat, c: nat) {
    c * c * c <= p * TWO_192 < (c + 1) * (c + 1) * (c + 1)
  }

  /** k is the first sixty-four bits of the fractional part of the cube root of p. */
  ghost predicate IsCubeRootFraction(p: nat, k: nat) {
    exists c: nat :: IsScaledCubeRoot(p, c) && k == c % TWO_64
  }

  /** c is the square root of p, scaled by 2^64 and rounded down. */
  predicate IsScaledSquareRoot(p: nat, c: nat) {
    c * c <= p * TWO_64 * TWO_64 < (c + 1) * (c + 1)
  }

  /** k is the first sixty-four bits of the fractional part of the square root of p. */
  ghost predicate IsSquareRootFraction(p: nat, k: nat) {
    exists c: nat :: IsScaledSquareRoot(p, c) && k == c % TWO_64
  }

  lemma JoinIs(h: int, l: int)
    requires 0 <= h < TWO_32 && 0 <= l < TWO_32
    ensures Join(h, l) == h * TWO_32 + l
  {
  }

  lemma CubeRoot(p: nat, c: nat, h: int, l: int)
    requires 0 <= h < TWO_32 && 0 <= l < TWO_32
    requires IsScaledCubeRoot(p, c) && c % TWO_64 == h * TWO_32 + l
    ensures IsCubeRootFraction(p, Join(h, l))
  {
    hide IsScaledCubeRoot, Join;
    JoinIs(h, l);
  }

  /** A table of halves holds the fractions for a list of primes. */
  ghost predicate HoldsFractions(primes: seq<nat>, table: seq<int>) {
    && |table| == 2 * |primes|
    && (forall i :: 0 <= i < |table| ==> IsWord(table[i]))
    && (forall i :: 0 <= i < |primes| ==> IsCubeRootFraction(primes[i], Join(table[2 * i], table[2 * i + 1])))
  }

  lemma AppendFractions(p: seq<nat>, s: seq<int>, q: seq<nat>, t: seq<int>)
    requires HoldsFractions(p, s) && HoldsFractions(q, t)
    ensures HoldsFractions(p + q, s + t)
  {
    hide IsCubeRootFraction, Join;
    forall i | 0 <= i < |p + q|
      ensures IsCubeRootFraction((p + q)[i], Join((s + t)[2 * i], (s + t)[2 * i + 1]))
    {
      if i >= |p| {
        var j := i - |p|;
        assert (s + t)[2 * i] == t[2 * j] && (s + t)[2 * i + 1] == t[2 * j + 1];
      }
    }
  }

  /** A short table holds the high halves of a long one. */
  predicate HoldsHighHalves(short: seq<int>, long: seq<int>) {
    && |long| == 2 * |short|
    && (forall i :: 0 <= i < |short| ==> short[i] == long[2 * i] && IsWord(short[i]))
  }

  lemma AppendHighHalves(a: seq<int>, s: seq<int>, b: seq<int>, t: seq<int>)
    requires HoldsHighHalves(a, s) && HoldsHighHalves(b, t)
    ensures HoldsHighHalves(a + b, s + t)
  {
    forall i | 0 <= i < |a + b|
      ensures (a + b)[i] == (s + t)[2 * i]
    {
      if i >= |a| {
        assert (s + t)[2 * i] == t[2 * (i - |a|)];
      }
    }
  }

  lemma Fractions0()
    ensures HoldsFractions(PRIMES0, ROW0)
  {
    hide IsCubeRootFraction, Join;
    CubeRoot(2, 0x1428a2f98d728ae22, 0x428a2f98, 0xd728ae22);
    CubeRoot(3, 0x17137449123ef65cd, 0x71374491, 0x23ef65cd);
    CubeRoot(5, 0x1b5c0fbcfec4d3b2f, 0xb5c0fbcf, 0xec4d3b2f);
    CubeRoot(7, 0x1e9b5dba58189dbbc, 0xe9b5dba5, 0x8189dbbc);
    CubeRoot(11, 0x23956c25bf348b538, 0x3956c25b, 0xf348b538);
    CubeRoot(13, 0x259f111f1b605d019, 0x59f111f1, 0xb605d019);
    CubeRoot(17, 0x2923f82a4af194f9b, 0x923f82a4, 0xaf194f9b);
    CubeRoot(19, 0x2ab1c5ed5da6d8118, 0xab1c5ed5, 0xda6d8118);
  }

  lemma Fractions1()
    ensures HoldsFractions(PRIMES1, ROW1)
  {
    hide IsCubeRootFraction, Join;
    CubeRoot(23, 0x2d807aa98a3030242, 0xd807aa98, 0xa3030242);
    CubeRoot(29, 0x312835b0145706fbe, 0x12835b01, 0x45706fbe);
    CubeRoot(31, 0x3243185be4ee4b28c, 0x243185be, 0x4ee4b28c);
    CubeRoot(37, 0x3550c7dc3d5ffb4e2, 0x550c7dc3, 0xd5ffb4e2);
    CubeRoot(41, 0x372be5d74f27b896f, 0x72be5d74, 0xf27b896f);
    CubeRoot(43, 0x380deb1fe3b1696b1, 0x80deb1fe, 0x3b1696b1);
    CubeRoot(47, 0x39bdc06a725c71235, 0x9bdc06a7, 0x25c71235);
    CubeRoot(53, 0x3c19bf174cf692694, 0xc19bf174, 0xcf692694);
  }

  lemma Fractions2()
    ensures HoldsFractions(PRIMES2, ROW2)
  {
    hide IsCubeRootFraction, Join;
    CubeRoot(59, 0x3e49b69c19ef14ad2, 0xe49b69c1, 0x9ef14ad2);
    CubeRoot(61, 0x3efbe4786384f25e3, 0xefbe4786, 0x384f25e3);
    CubeRoot(67, 0x40fc19dc68b8cd5b5, 0x0fc19dc6, 0x8b8cd5b5);
    CubeRoot(71, 0x4240ca1cc77ac9c65, 0x240ca1cc, 0x77ac9c65);
    CubeRoot(73, 0x42de92c6f592b0275, 0x2de92c6f, 0x592b0275);
    CubeRoot(79, 0x44a7484aa6ea6e483, 0x4a7484aa, 0x6ea6e483);
    CubeRoot(83, 0x45cb0a9dcbd41fbd4, 0x5cb0a9dc, 0xbd41fbd4);
    CubeRoot(89, 0x476f988da831153b5, 0x76f988da, 0x831153b5);
  }

  lemma Fractions3()
    ensures HoldsFractions(PRIMES3, ROW3)
  {
    hide IsCubeRootFraction, Join;
    CubeRoot(97, 0x4983e5152ee66dfab, 0x983e5152, 0xee66dfab);
    CubeRoot(101, 0x4a831c66d2db43210, 0xa831c66d, 0x2db43210);
    CubeRoot(103, 0x4b00327c898fb213f, 0xb00327c8, 0x98fb213f);
    CubeRoot(107, 0x4bf597fc7beef0ee4, 0xbf597fc7, 0xbeef0ee4);
    CubeRoot(109, 0x4c6e00bf33da88fc2, 0xc6e00bf3, 0x3da88fc2);
    CubeRoot(113, 0x4d5a79147930aa725, 0xd5a79147, 0x930aa725);
    CubeRoot(127, 0x506ca6351e003826f, 0x06ca6351, 0xe003826f);
    CubeRoot(131, 0x5142929670a0e6e70, 0x14292967, 0x0a0e6e70);
  }

  lemma Fractions4()
    ensures HoldsFractions(PRIMES4, ROW4)
  {
    hide IsCubeRootFraction, Join;
    CubeRoot(137, 0x527b70a8546d22ffc, 0x27b70a85, 0x46d22ffc);
    CubeRoot(139, 0x52e1b21385c26c926, 0x2e1b2138, 0x5c26c926);
    CubeRoot(149, 0x54d2c6dfc5ac42aed, 0x4d2c6dfc, 0x5ac42aed);
    CubeRoot(151, 0x553380d139d95b3df, 0x53380d13, 0x9d95b3df);
    CubeRoot(157, 0x5650a73548baf63de, 0x650a7354, 0x8baf63de);
    CubeRoot(163, 0x5766a0abb3c77b2a8, 0x766a0abb, 0x3c77b2a8);
    CubeRoot(167, 0x581c2c92e47edaee6, 0x81c2c92e, 0x47edaee6);
    CubeRoot(173, 0x592722c851482353b, 0x92722c85, 0x1482353b);
  }

  lemma Fractions5()
    ensures HoldsFractions(PRIMES5, ROW5)
  {
    hide IsCubeRootFraction, Join;
    CubeRoot(179, 0x5a2bfe8a14cf10364, 0xa2bfe8a1, 0x4cf10364);
    CubeRoot(181, 0x5a81a664bbc423001, 0xa81a664b, 0xbc423001);
    CubeRoot(191, 0x5c24b8b70d0f89791, 0xc24b8b70, 0xd0f89791);
    CubeRoot(193, 0x5c76c51a30654be30, 0xc76c51a3, 0x0654be30);
    CubeRoot(197, 0x5d192e819d6ef5218, 0xd192e819, 0xd6ef5218);
    CubeRoot(199, 0x5d69906245565a910, 0xd6990624, 0x5565a910);
    CubeRoot(211, 0x5f40e35855771202a, 0xf40e3585, 0x5771202a);
    CubeRoot(223, 0x6106aa07032bbd1b8, 0x106aa070, 0x32bbd1b8);
  }

  lemma Fractions6()
    ensures HoldsFractions(PRIMES6, ROW6)
  {
    hide IsCubeRootFraction, Join;
    CubeRoot(227, 0x619a4c116b8d2d0c8, 0x19a4c116, 0xb8d2d0c8);
    CubeRoot(229, 0x61e376c085141ab53, 0x1e376c08, 0x5141ab53);
    CubeRoot(233, 0x62748774cdf8eeb99, 0x2748774c, 0xdf8eeb99);
    CubeRoot(239, 0x634b0bcb5e19b48a8, 0x34b0bcb5, 0xe19b48a8);
    CubeRoot(241, 0x6391c0cb3c5c95a63, 0x391c0cb3, 0xc5c95a63);
    CubeRoot(251, 0x64ed8aa4ae3418acb, 0x4ed8aa4a, 0xe3418acb);
    CubeRoot(257, 0x65b9cca4f7763e373, 0x5b9cca4f, 0x7763e373);
    CubeRoot(263, 0x6682e6ff3d6b2b8a3, 0x682e6ff3, 0xd6b2b8a3);
  }

  lemma Fractions7()
    ensures HoldsFractions(PRIMES7, ROW7)
  {
    hide IsCubeRootFraction, Join;
    CubeRoot(269, 0x6748f82ee5defb2fc, 0x748f82ee, 0x5defb2fc);
    CubeRoot(271, 0x678a5636f43172f60, 0x78a5636f, 0x43172f60);
    CubeRoot(277, 0x684c87814a1f0ab72, 0x84c87814, 0xa1f0ab72);
    CubeRoot(281, 0x68cc702081a6439ec, 0x8cc70208, 0x1a6439ec);
    CubeRoot(283, 0x690befffa23631e28, 0x90befffa, 0x23631e28);
    CubeRoot(293, 0x6a4506cebde82bde9, 0xa4506ceb, 0xde82bde9);
    CubeRoot(307, 0x6bef9a3f7b2c67915, 0xbef9a3f7, 0xb2c67915);
    CubeRoot(311, 0x6c67178f2e372532b, 0xc67178f2, 0xe372532b);
  }

  lemma Fractions8()
    ensures HoldsFractions(PRIMES8, ROW8)
  {
    hide IsCubeRootFraction, Join;
    CubeRoot(313, 0x6ca273eceea26619c, 0xca273ece, 0xea26619c);
    CubeRoot(317, 0x6d186b8c721c0c207, 0xd186b8c7, 0x21c0c207);
    CubeRoot(331, 0x6eada7dd6cde0eb1e, 0xeada7dd6, 0xcde0eb1e);
    CubeRoot(337, 0x6f57d4f7fee6ed178, 0xf57d4f7f, 0xee6ed178);
    CubeRoot(347, 0x706f067aa72176fba, 0x06f067aa, 0x72176fba);
    CubeRoot(349, 0x70a637dc5a2c898a6, 0x0a637dc5, 0xa2c898a6);
    CubeRoot(353, 0x7113f9804bef90dae, 0x113f9804, 0xbef90dae);
    CubeRoot(359, 0x71b710b35131c471b, 0x1b710b35, 0x131c471b);
  }

  lemma Fractions9()
    ensures HoldsFractions(PRIMES9, ROW9)
  {
    hide IsCubeRootFraction, Join;
    CubeRoot(367, 0x728db77f523047d84, 0x28db77f5, 0x23047d84);
    CubeRoot(373, 0x732caab7b40c72493, 0x32caab7b, 0x40c72493);
    CubeRoot(379, 0x73c9ebe0a15c9bebc, 0x3c9ebe0a, 0x15c9bebc);
    CubeRoot(383, 0x7431d67c49c100d4c, 0x431d67c4, 0x9c100d4c);
    CubeRoot(389, 0x74cc5d4becb3e42b6, 0x4cc5d4be, 0xcb3e42b6);
    CubeRoot(397, 0x7597f299cfc657e2a, 0x597f299c, 0xfc657e2a);
    CubeRoot(401, 0x75fcb6fab3ad6faec, 0x5fcb6fab, 0x3ad6faec);
    CubeRoot(409, 0x76c44198c4a475817, 0x6c44198c, 0x4a475817);
  }

  /** Section 4.2.3: the SHA-512 constants are the first sixty-four bits of the fractional parts of the
      cube roots of the first eighty primes. */
  lemma Constants512()
    ensures |K512| == 160 && |PRIMES| == 80 && HoldsFractions(PRIMES, K512)
  {
    hide HoldsFractions;
    Fractions0();
    Fractions1(); AppendFractions(PRIMES0, ROW0, PRIMES1, ROW1);
    var p1, t1 := PRIMES0 + PRIMES1, ROW0 + ROW1;
    Fractions2(); AppendFractions(p1, t1, PRIMES2, ROW2);
    var p2, t2 := p1 + PRIMES2, t1 + ROW2;
    Fractions3(); AppendFractions(p2, t2, PRIMES3, ROW3);
    var p3, t3 := p2 + PRIMES3, t2 + ROW3;
    Fractions4(); AppendFractions(p3, t3, PRIMES4, ROW4);
    var p4, t4 := p3 + PRIMES4, t3 + ROW4;
    Fractions5(); AppendFractions(p4, t4, PRIMES5, ROW5);
    var p5, t5 := p4 + PRIMES5, t4 + ROW5;
    Fractions6(); AppendFractions(p5, t5, PRIMES6, ROW6);
    var p6, t6 := p5 + PRIMES6, t5 + ROW6;
    Fractions7(); AppendFractions(p6, t6, PRIMES7, ROW7);
    var p7, t7 := p6 + PRIMES7, t6 + ROW7;
    Fractions8(); AppendFractions(p7, t7, PRIMES8, ROW8);
    var p8, t8 := p7 + PRIMES8, t7 + ROW8;
    Fractions9(); AppendFractions(p8, t8, PRIMES9, ROW9);
    var p9, t9 := p8 + PRIMES9, t8 + ROW9;
  }

  /** The SHA-256 constants are the high halves of the first sixty-four of the others. */
  lemma ShortConstants()
    ensures |K256| == 64 && |K512| == 160
    ensures HoldsHighHalves(K256, K512[..128])
  {
    hide HoldsHighHalves;
    ShortRows();
    AppendHighHalves(SHORT0, ROW0, SHORT1, ROW1);
    var a1, t1 := SHORT0 + SHORT1, ROW0 + ROW1;
    AppendHighHalves(a1, t1, SHORT2, ROW2);
    var a2, t2 := a1 + SHORT2, t1 + ROW2;
    AppendHighHalves(a2, t2, SHORT3, ROW3);
    var a3, t3 := a2 + SHORT3, t2 + ROW3;
    AppendHighHalves(a3, t3, SHORT4, ROW4);
    var a4, t4 := a3 + SHORT4, t3 + ROW4;
    AppendHighHalves(a4, t4, SHORT5, ROW5);
    var a5, t5 := a4 + SHORT5, t4 + ROW5;
    AppendHighHalves(a5, t5, SHORT6, ROW6);
    var a6, t6 := a5 + SHORT6, t5 + ROW6;
    AppendHighHalves(a6, t6, SHORT7, ROW7);
    var a7, t7 := a6 + SHORT7, t6 + ROW7;
    assert K512[..128] == t7;
  }

  const TWO_96 := TWO_32 * TWO_32 * TWO_32

  /** c is the cube root of p, scaled by 2^32 and rounded down. */
  predicate IsShortCubeRoot(p: nat, c: nat) {
    c * c * c <= p * TWO_96 < (c + 1) * (c + 1) * (c + 1)
  }

  /** k is the first thirty-two bits of the fractional part of the cube root of p. */
  ghost predicate IsShortFraction(p: nat, k: int) {
    exists c: nat :: IsShortCubeRoot(p, c) && k == c % TWO_32
  }

  function Cube(a: nat): (r: nat) {
    a * a * a
  }

  lemma SquareMonotone(a: nat, b: nat)
    requires a <= b
    ensures a * a <= b * b
  {
    MulMonotone(b, a, a);
    MulMonotone(b, a, b);
  }

  lemma CubeMonotone(a: nat, b: nat)
    requires a <= b
    ensures Cube(a) <= Cube(b)
  {
    SquareMonotone(a, b);
    var x, y := a * a, b * b;
    MulMonotone(y, x, a);
    MulMonotone(b, a, y);
    assert Cube(a) == x * a && Cube(b) == b * y;
  }

  lemma CubeScaled(a: nat)
    ensures Cube(a * TWO_32) == Cube(a) * TWO_96
  {
    var x := a * a;
    assert (a * TWO_32) * (a * TWO_32) == x * TWO_32 * TWO_32;
    assert (x * TWO_32 * TWO_32) * (a * TWO_32) == (x * a) * TWO_96;
  }

  /** Rounding down further keeps the scaled root. */
  lemma ShortRoot(p: nat, c: nat)
    requires IsScaledCubeRoot(p, c)
    ensures IsShortCubeRoot(p, c / TWO_32)
  {
    hide IsScaledCubeRoot, IsShortCubeRoot, Cube;
    var d := c / TWO_32;
    CubeMonotone(d * TWO_32, c);
    CubeMonotone(c + 1, (d + 1) * TWO_32);
    CubeScaled(d);
    CubeScaled(d + 1);
    ScaledBounds(p, c);
    ShortBounds(p, d);
  }

  lemma ScaledBounds(p: nat, c: nat)
    requires IsScaledCubeRoot(p, c)
    ensures Cube(c) <= p * TWO_96 * TWO_96 < Cube(c + 1)
  {
  }

  lemma ShortBounds(p: nat, d: nat)
    requires Cube(d) <= p * TWO_96 < Cube(d + 1)
    ensures IsShortCubeRoot(p, d)
  {
  }

  lemma ShortFraction(p: nat, h: int, l: int)
    requires IsCubeRootFraction(p, Join(h, l))
    ensures IsShortFraction(p, U32(h))
  {
    hide IsScaledCubeRoot, IsShortCubeRoot, U32;
    var c: nat :| IsScaledCubeRoot(p, c) && Join(h, l) == c % TWO_64;
    ShortRoot(p, c);
    HighBits(c, U32(h), U32(l));
  }

  lemma HighBits(c: nat, h: nat, l: nat)
    requires h < TWO_32 && l < TWO_32 && h * TWO_32 + l == c % TWO_64
    ensures c / TWO_32 % TWO_32 == h
  {
    var q := c / TWO_64;
    assert c == q * TWO_64 + (h * TWO_32 + l);
    DivMod(c, TWO_32, q * TWO_32 + h, l);
    DivMod(q * TWO_32 + h, TWO_32, q, h);
  }

  /** A short table, read as unsigned words, holds the first thirty-two bits of the fractions for a list of primes. */
  ghost predicate HoldsShortFractions(primes: seq<nat>, short: seq<int>) {
    |short| <= |primes| && forall i :: 0 <= i < |short| ==> IsWord(short[i]) && IsShortFraction(primes[i], U32(short[i]))
  }

  lemma ShortFractions(primes: seq<nat>, short: seq<int>, long: seq<int>)
    requires HoldsFractions(primes, long) && 2 * |short| <= |long| && HoldsHighHalves(short, long[..2 * |short|])
    ensures HoldsShortFractions(primes, short)
  {
    hide IsCubeRootFraction, IsShortFraction, Join, U32;
    forall i | 0 <= i < |short| ensures IsWord(short[i]) && IsShortFraction(primes[i], U32(short[i])) {
      assert long[..2 * |short|][2 * i] == long[2 * i];
      ShortFraction(primes[i], long[2 * i], long[2 * i + 1]);
    }
  }

  /** Section 4.2.2: the SHA-256 constants are the first thirty-two bits of the fractional parts of the cube roots of
      the first sixty-four primes. */
  lemma Constants256()
    ensures |K256| == 64 && HoldsShortFractions(PRIMES, K256)
  {
    hide HoldsFractions, HoldsHighHalves, HoldsShortFractions;
    Constants512();
    ShortConstants();
    ShortFractions(PRIMES, K256, K512);
  }

  lemma ShortRows()
    ensures HoldsHighHalves(SHORT0, ROW0)
    ensures HoldsHighHalves(SHORT1, ROW1)
    ensures HoldsHighHalves(SHORT2, ROW2)
    ensures HoldsHighHalves(SHORT3, ROW3)
    ensures HoldsHighHalves(SHORT4, ROW4)
    ensures HoldsHighHalves(SHORT5, ROW5)
    ensures HoldsHighHalves(SHORT6, ROW6)
    ensures HoldsHighHalves(SHORT7, ROW7)
  {
  }

  lemma TablesAreWords()
    ensures |K256| == 64 && forall i :: 0 <= i < 64 ==> IsWord(K256[i])
    ensures |K512| == 160 && forall i :: 0 <= i < 160 ==> IsWord(K512[i])
  {
    Constants512();
    ShortConstants();
  }

  lemma SquareRoot(p: nat, c: nat)
    requires IsScaledSquareRoot(p, c)
    ensures IsSquareRootFraction(p, c % TWO_64)
  {
    hide IsScaledSquareRoot;
  }

  /** Section 5.3.5: the initial SHA-512 value is the fractional parts of the square roots of the first
      eight primes; section 5.3.3: the initial SHA-256 value is their first thirty-two bits. */
  lemma InitialValues()
    ensures var s, i := Sha256.INITIAL, Sha512.INITIAL;
            && IsSquareRootFraction(2, i.a) && s.a == i.a / TWO_32
            && IsSquareRootFraction(3, i.b) && s.b == i.b / TWO_32
            && IsSquareRootFraction(5, i.c) && s.c == i.c / TWO_32
            && IsSquareRootFraction(7, i.d) && s.d == i.d / TWO_32
            && IsSquareRootFraction(11, i.e) && s.e == i.e / TWO_32
            && IsSquareRootFraction(13, i.f) && s.f == i.f / TWO_32
            && IsSquareRootFraction(17, i.g) && s.g == i.g / TWO_32
            && IsSquareRootFraction(19, i.h) && s.h == i.h / TWO_32
  {
    hide IsSquareRootFraction;
    SquareRoot(2, 0x16a09e667f3bcc908);
    SquareRoot(3, 0x1bb67ae8584caa73b);
    SquareRoot(5, 0x23c6ef372fe94f82b);
    SquareRoot(7, 0x2a54ff53a5f1d36f1);
    SquareRoot(11, 0x3510e527fade682d1);
    SquareRoot(13, 0x39b05688c2b3e6c1f);
    SquareRoot(17, 0x41f83d9abfb41bd6b);
    SquareRoot(19, 0x45be0cd19137e2179);
  }
}
