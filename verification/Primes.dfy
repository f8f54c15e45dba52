/** The first eighty prime numbers. */
module Primes {
  import opened JsNumbers

  const PRIMES0: seq<nat> := [2, 3, 5, 7, 11, 13, 17, 19]
  const PRIMES1: seq<nat> := [23, 29, 31, 37, 41, 43, 47, 53]
  const PRIMES2: seq<nat> := [59, 61, 67, 71, 73, 79, 83, 89]
  const PRIMES3: seq<nat> := [97, 101, 103, 107, 109, 113, 127, 131]
  const PRIMES4: seq<nat> := [137, 139, 149, 151, 157, 163, 167, 173]
  const PRIMES5: seq<nat> := [179, 181, 191, 193, 197, 199, 211, 223]
  const PRIMES6: seq<nat> := [227, 229, 233, 239, 241, 251, 257, 263]
  const PRIMES7: seq<nat> := [269, 271, 277, 281, 283, 293, 307, 311]
  const PRIMES8: seq<nat> := [313, 317, 331, 337, 347, 349, 353, 359]
  const PRIMES9: seq<nat> := [367, 373, 379, 383, 389, 397, 401, 409]

  const PRIMES: seq<nat> :=
    PRIMES0 + PRIMES1 + PRIMES2 + PRIMES3 + PRIMES4 + PRIMES5 + PRIMES6 + PRIMES7 + PRIMES8 + PRIMES9

  ghost predicate IsPrime(n: nat) {
    n >= 2 && forall d: nat :: 2 <= d < n ==> n % d != 0
  }

  /** No smaller prime below 21 divides n. */
  predicate Passes(n: nat) {
    && n >= 2
    && (n <= 2 || n % 2 != 0) && (n <= 3 || n % 3 != 0) && (n <= 5 || n % 5 != 0) && (n <= 7 || n % 7 != 0)
    && (n <= 11 || n % 11 != 0) && (n <= 13 || n % 13 != 0) && (n <= 17 || n % 17 != 0) && (n <= 19 || n % 19 != 0)
  }

  /** Every number from 2 to 20 has one of these primes as a factor. */
  lemma PrimeFactor(d: nat) returns (q: nat)
    requires 2 <= d < 21
    ensures q in [2, 3, 5, 7, 11, 13, 17, 19] && q <= d && d % q == 0
  {
    q := if d % 2 == 0 then 2 else if d % 3 == 0 then 3 else if d == 5 then 5 else if d == 7 then 7
         else if d == 11 then 11 else if d == 13 then 13 else if d == 17 then 17 else 19;
  }

  lemma FactorOfFactor(n: nat, d: nat, q: nat)
    requires d > 0 && q > 0 && n % d == 0 && d % q == 0
    ensures n % q == 0
  {
    var k, m := n / d, d / q;
    assert n == d * k && d == q * m;
    assert n == (m * k) * q by { assert (q * m) * k == (m * k) * q; }
    DivMod(n, q, m * k, 0);
  }

  lemma SmallDivisor(n: nat, d: nat)
    requires Passes(n) && 2 <= d < n && d < 21
    ensures n % d != 0
  {
    if n % d == 0 {
      var q := PrimeFactor(d);
      FactorOfFactor(n, d, q);
    }
  }

  /** The other factor of a large divisor is small. */
  lemma LargeDivisor(n: nat, d: nat)
    requires n < 441 && Passes(n) && 21 <= d < n
    ensures n % d != 0
  {
    hide Passes;
    if n % d == 0 {
      var e := n / d;
      assert n == e * d;
      SmallFactor(n, d, e);
      DivMod(n, e, d, 0);
      SmallDivisor(n, e);
    }
  }

  lemma SmallFactor(n: nat, d: nat, e: nat)
    requires n == e * d && 21 <= d < n < 441
    ensures 2 <= e < 21 && n == d * e && e < n
  {
    if e >= 21 {
      MulMonotone(e, 21, d);
    }
  }

  /** Below 441, where every composite number has a factor below 21, this is primality. */
  lemma PassesIsPrime(n: nat)
    requires n < 441
    ensures Passes(n) <==> IsPrime(n)
  {
    if Passes(n) {
      forall d: nat | 2 <= d < n ensures n % d != 0 {
        hide Passes;
        if d < 21 {
          SmallDivisor(n, d);
        } else {
          LargeDivisor(n, d);
        }
      }
    }
    if IsPrime(n) {
      PrimePasses(n);
    }
  }

  lemma PrimePasses(n: nat)
    requires IsPrime(n)
    ensures Passes(n)
  {
    assert n <= 2 || n % 2 != 0;
    assert n <= 3 || n % 3 != 0;
    assert n <= 5 || n % 5 != 0;
    assert n <= 7 || n % 7 != 0;
    assert n <= 11 || n % 11 != 0;
    assert n <= 13 || n % 13 != 0;
    assert n <= 17 || n % 17 != 0;
    assert n <= 19 || n % 19 != 0;
  }

  lemma Trials0()
    ensures !Passes(0) && !Passes(1) && Passes(2) && Passes(3) && !Passes(4) && Passes(5) && !Passes(6) && Passes(7)
            && !Passes(8) && !Passes(9) && !Passes(10) && Passes(11) && !Passes(12) && Passes(13) && !Passes(14)
            && !Passes(15) && !Passes(16) && Passes(17) && !Passes(18) && Passes(19)
  {
  }

  lemma Row0(n: nat)
    requires n <= 19
    ensures Passes(n) <==> n in PRIMES0
  {
    hide Passes;
    Trials0();
  }

  lemma Trials1()
    ensures !Passes(20) && !Passes(21) && !Passes(22) && Passes(23) && !Passes(24) && !Passes(25) && !Passes(26)
            && !Passes(27) && !Passes(28) && Passes(29) && !Passes(30) && Passes(31) && !Passes(32) && !Passes(33)
            && !Passes(34) && !Passes(35) && !Passes(36) && Passes(37) && !Passes(38) && !Passes(39) && !Passes(40)
            && Passes(41) && !Passes(42) && Passes(43) && !Passes(44) && !Passes(45) && !Passes(46) && Passes(47)
            && !Passes(48) && !Passes(49) && !Passes(50) && !Passes(51) && !Passes(52) && Passes(53)
  {
  }

  lemma Row1(n: nat)
    requires 19 < n <= 53
    ensures Passes(n) <==> n in PRIMES1
  {
    hide Passes;
    Trials1();
  }

  lemma Trials2()
    ensures !Passes(54) && !Passes(55) && !Passes(56) && !Passes(57) && !Passes(58) && Passes(59) && !Passes(60)
            && Passes(61) && !Passes(62) && !Passes(63) && !Passes(64) && !Passes(65) && !Passes(66) && Passes(67)
            && !Passes(68) && !Passes(69) && !Passes(70) && Passes(71) && !Passes(72) && Passes(73) && !Passes(74)
            && !Passes(75) && !Passes(76) && !Passes(77) && !Passes(78) && Passes(79) && !Passes(80) && !Passes(81)
            && !Passes(82) && Passes(83) && !Passes(84) && !Passes(85) && !Passes(86) && !Passes(87) && !Passes(88)
            && Passes(89)
  {
  }

  lemma Row2(n: nat)
    requires 53 < n <= 89
    ensures Passes(n) <==> n in PRIMES2
  {
    hide Passes;
    Trials2();
  }

  lemma Trials3()
    ensures !Passes(90) && !Passes(91) && !Passes(92) && !Passes(93) && !Passes(94) && !Passes(95) && !Passes(96)
            && Passes(97) && !Passes(98) && !Passes(99) && !Passes(100) && Passes(101) && !Passes(102) && Passes(103)
            && !Passes(104) && !Passes(105) && !Passes(106) && Passes(107) && !Passes(108) && Passes(109)
            && !Passes(110) && !Passes(111) && !Passes(112) && Passes(113) && !Passes(114) && !Passes(115)
            && !Passes(116) && !Passes(117) && !Passes(118) && !Passes(119) && !Passes(120) && !Passes(121)
            && !Passes(122) && !Passes(123) && !Passes(124) && !Passes(125) && !Passes(126) && Passes(127)
            && !Passes(128) && !Passes(129) && !Passes(130) && Passes(131)
  {
  }

  lemma Row3(n: nat)
    requires 89 < n <= 131
    ensures Passes(n) <==> n in PRIMES3
  {
    hide Passes;
    Trials3();
  }

  lemma Trials4()
    ensures !Passes(132) && !Passes(133) && !Passes(134) && !Passes(135) && !Passes(136) && Passes(137)
            && !Passes(138) && Passes(139) && !Passes(140) && !Passes(141) && !Passes(142) && !Passes(143)
            && !Passes(144) && !Passes(145) && !Passes(146) && !Passes(147) && !Passes(148) && Passes(149)
            && !Passes(150) && Passes(151) && !Passes(152) && !Passes(153) && !Passes(154) && !Passes(155)
            && !Passes(156) && Passes(157) && !Passes(158) && !Passes(159) && !Passes(160) && !Passes(161)
            && !Passes(162) && Passes(163) && !Passes(164) && !Passes(165) && !Passes(166) && Passes(167)
            && !Passes(168) && !Passes(169) && !Passes(170) && !Passes(171) && !Passes(172) && Passes(173)
  {
  }

  lemma Row4(n: nat)
    requires 131 < n <= 173
    ensures Passes(n) <==> n in PRIMES4
  {
    hide Passes;
    Trials4();
  }

  lemma Trials5()
    ensures !Passes(174) && !Passes(175) && !Passes(176) && !Passes(177) && !Passes(178) && Passes(179)
            && !Passes(180) && Passes(181) && !Passes(182) && !Passes(183) && !Passes(184) && !Passes(185)
            && !Passes(186) && !Passes(187) && !Passes(188) && !Passes(189) && !Passes(190) && Passes(191)
            && !Passes(192) && Passes(193) && !Passes(194) && !Passes(195) && !Passes(196) && Passes(197)
            && !Passes(198) && Passes(199) && !Passes(200) && !Passes(201) && !Passes(202) && !Passes(203)
            && !Passes(204) && !Passes(205) && !Passes(206) && !Passes(207) && !Passes(208) && !Passes(209)
            && !Passes(210) && Passes(211) && !Passes(212) && !Passes(213) && !Passes(214) && !Passes(215)
            && !Passes(216) && !Passes(217) && !Passes(218) && !Passes(219) && !Passes(220) && !Passes(221)
            && !Passes(222) && Passes(223)
  {
  }

  lemma Row5(n: nat)
    requires 173 < n <= 223
    ensures Passes(n) <==> n in PRIMES5
  {
    hide Passes;
    Trials5();
  }

  lemma Trials6()
    ensures !Passes(224) && !Passes(225) && !Passes(226) && Passes(227) && !Passes(228) && Passes(229)
            && !Passes(230) && !Passes(231) && !Passes(232) && Passes(233) && !Passes(234) && !Passes(235)
            && !Passes(236) && !Passes(237) && !Passes(238) && Passes(239) && !Passes(240) && Passes(241)
            && !Passes(242) && !Passes(243) && !Passes(244) && !Passes(245) && !Passes(246) && !Passes(247)
            && !Passes(248) && !Passes(249) && !Passes(250) && Passes(251) && !Passes(252) && !Passes(253)
            && !Passes(254) && !Passes(255) && !Passes(256) && Passes(257) && !Passes(258) && !Passes(259)
            && !Passes(260) && !Passes(261) && !Passes(262) && Passes(263)
  {
  }

  lemma Row6(n: nat)
    requires 223 < n <= 263
    ensures Passes(n) <==> n in PRIMES6
  {
    hide Passes;
    Trials6();
  }

  lemma Trials7()
    ensures !Passes(264) && !Passes(265) && !Passes(266) && !Passes(267) && !Passes(268) && Passes(269)
            && !Passes(270) && Passes(271) && !Passes(272) && !Passes(273) && !Passes(274) && !Passes(275)
            && !Passes(276) && Passes(277) && !Passes(278) && !Passes(279) && !Passes(280) && Passes(281)
            && !Passes(282) && Passes(283) && !Passes(284) && !Passes(285) && !Passes(286) && !Passes(287)
            && !Passes(288) && !Passes(289) && !Passes(290) && !Passes(291) && !Passes(292) && Passes(293)
            && !Passes(294) && !Passes(295) && !Passes(296) && !Passes(297) && !Passes(298) && !Passes(299)
            && !Passes(300) && !Passes(301) && !Passes(302) && !Passes(303) && !Passes(304) && !Passes(305)
            && !Passes(306) && Passes(307) && !Passes(308) && !Passes(309) && !Passes(310) && Passes(311)
  {
  }

  lemma Row7(n: nat)
    requires 263 < n <= 311
    ensures Passes(n) <==> n in PRIMES7
  {
    hide Passes;
    Trials7();
  }

  lemma Trials8()
    ensures !Passes(312) && Passes(313) && !Passes(314) && !Passes(315) && !Passes(316) && Passes(317)
            && !Passes(318) && !Passes(319) && !Passes(320) && !Passes(321) && !Passes(322) && !Passes(323)
            && !Passes(324) && !Passes(325) && !Passes(326) && !Passes(327) && !Passes(328) && !Passes(329)
            && !Passes(330) && Passes(331) && !Passes(332) && !Passes(333) && !Passes(334) && !Passes(335)
            && !Passes(336) && Passes(337) && !Passes(338) && !Passes(339) && !Passes(340) && !Passes(341)
            && !Passes(342) && !Passes(343) && !Passes(344) && !Passes(345) && !Passes(346) && Passes(347)
            && !Passes(348) && Passes(349) && !Passes(350) && !Passes(351) && !Passes(352) && Passes(353)
            && !Passes(354) && !Passes(355) && !Passes(356) && !Passes(357) && !Passes(358) && Passes(359)
  {
  }

  lemma Row8(n: nat)
    requires 311 < n <= 359
    ensures Passes(n) <==> n in PRIMES8
  {
    hide Passes;
    Trials8();
  }

  lemma Trials9()
    ensures !Passes(360) && !Passes(361) && !Passes(362) && !Passes(363) && !Passes(364) && !Passes(365)
            && !Passes(366) && Passes(367) && !Passes(368) && !Passes(369) && !Passes(370) && !Passes(371)
            && !Passes(372) && Passes(373) && !Passes(374) && !Passes(375) && !Passes(376) && !Passes(377)
            && !Passes(378) && Passes(379) && !Passes(380) && !Passes(381) && !Passes(382) && Passes(383)
            && !Passes(384) && !Passes(385) && !Passes(386) && !Passes(387) && !Passes(388) && Passes(389)
            && !Passes(390) && !Passes(391) && !Passes(392) && !Passes(393) && !Passes(394) && !Passes(395)
            && !Passes(396) && Passes(397) && !Passes(398) && !Passes(399) && !Passes(400) && Passes(401)
            && !Passes(402) && !Passes(403) && !Passes(404) && !Passes(405) && !Passes(406) && !Passes(407)
            && !Passes(408) && Passes(409)
  {
  }

  lemma Row9(n: nat)
    requires 359 < n <= 409
    ensures Passes(n) <==> n in PRIMES9
  {
    hide Passes;
    Trials9();
  }

  lemma InSomeRow(n: nat)
    ensures n in PRIMES <==>
              || n in PRIMES0 || n in PRIMES1 || n in PRIMES2 || n in PRIMES3 || n in PRIMES4
              || n in PRIMES5 || n in PRIMES6 || n in PRIMES7 || n in PRIMES8 || n in PRIMES9
  {
  }

  /** Every row has its own stretch of numbers. */
  lemma RowBounds(n: nat)
    ensures n in PRIMES0 ==> n <= 19
    ensures n in PRIMES1 ==> 19 < n <= 53
    ensures n in PRIMES2 ==> 53 < n <= 89
    ensures n in PRIMES3 ==> 89 < n <= 131
    ensures n in PRIMES4 ==> 131 < n <= 173
    ensures n in PRIMES5 ==> 173 < n <= 223
    ensures n in PRIMES6 ==> 223 < n <= 263
    ensures n in PRIMES7 ==> 263 < n <= 311
    ensures n in PRIMES8 ==> 311 < n <= 359
    ensures n in PRIMES9 ==> 359 < n <= 409
  {
  }

  /** The list is all the primes up to 409, in ascending order: the first eighty. */
  lemma AreTheFirstPrimes()
    ensures |PRIMES| == 80
    ensures forall i, j :: 0 <= i < j < 80 ==> PRIMES[i] < PRIMES[j]
    ensures forall n: nat :: n in PRIMES <==> IsPrime(n) && n <= 409
  {
    Ascending();
    forall n: nat ensures n in PRIMES <==> IsPrime(n) && n <= 409 {
      IsListed(n);
    }
  }

  lemma IsListed(n: nat)
    ensures n in PRIMES <==> IsPrime(n) && n <= 409
  {
    hide Passes, IsPrime;
    InSomeRow(n);
    RowBounds(n);
    if n <= 409 {
      PassesIsPrime(n);
    }
    if n <= 19 {
      Row0(n);
    } else if n <= 53 {
      Row1(n);
    } else if n <= 89 {
      Row2(n);
    } else if n <= 131 {
      Row3(n);
    } else if n <= 173 {
      Row4(n);
    } else if n <= 223 {
      Row5(n);
    } else if n <= 263 {
      Row6(n);
    } else if n <= 311 {
      Row7(n);
    } else if n <= 359 {
      Row8(n);
    } else if n <= 409 {
      Row9(n);
    }
  }

  ghost predicate Ascends(s: seq<nat>, from: nat, to: nat) {
    && (forall i :: 0 <= i < |s| ==> from <= s[i] <= to)
    && (forall i, j :: 0 <= i < j < |s| ==> s[i] < s[j])
  }

  lemma AscendsAppend(s: seq<nat>, t: seq<nat>, a: nat, b: nat, c: nat, d: nat)
    requires Ascends(s, a, b) && Ascends(t, c, d) && a <= b < c <= d
    ensures Ascends(s + t, a, d)
  {
  }

  lemma Ascending()
    ensures Ascends(PRIMES, 2, 409) && |PRIMES| == 80
  {
    hide Ascends;
    FirstRowsAscend();
    LastRowsAscend();
    var p1 := PRIMES0 + PRIMES1;
    AscendsAppend(PRIMES0, PRIMES1, 2, 19, 23, 53);
    AscendsAppend(p1, PRIMES2, 2, 53, 59, 89);
    AscendsAppend(p1 + PRIMES2, PRIMES3, 2, 89, 97, 131);
    AscendsAppend(p1 + PRIMES2 + PRIMES3, PRIMES4, 2, 131, 137, 173);
    var p4 := p1 + PRIMES2 + PRIMES3 + PRIMES4;
    AscendsAppend(p4, PRIMES5, 2, 173, 179, 223);
    AscendsAppend(p4 + PRIMES5, PRIMES6, 2, 223, 227, 263);
    AscendsAppend(p4 + PRIMES5 + PRIMES6, PRIMES7, 2, 263, 269, 311);
    var p8 := p4 + PRIMES5 + PRIMES6 + PRIMES7 + PRIMES8;
    AscendsAppend(p4 + PRIMES5 + PRIMES6 + PRIMES7, PRIMES8, 2, 311, 313, 359);
    AscendsAppend(p8, PRIMES9, 2, 359, 367, 409);
  }

  lemma FirstRowsAscend()
    ensures Ascends(PRIMES0, 2, 19)
    ensures Ascends(PRIMES1, 23, 53)
    ensures Ascends(PRIMES2, 59, 89)
    ensures Ascends(PRIMES3, 97, 131)
    ensures Ascends(PRIMES4, 137, 173)
  {
  }

  lemma LastRowsAscend()
    ensures Ascends(PRIMES5, 179, 223)
    ensures Ascends(PRIMES6, 227, 263)
    ensures Ascends(PRIMES7, 269, 311)
    ensures Ascends(PRIMES8, 313, 359)
    ensures Ascends(PRIMES9, 367, 409)
  {
  }
}
