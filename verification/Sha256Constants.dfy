/**
 * What the constants of SHA-256 are. FIPS 180-4 sections 4.2.2 and 5.3.3 take the first 32 bits of the
 * fractional parts of the cube roots of the first 64 primes, and of the square roots of the first eight.
 */
module Sha256Constants {
  import opened NumberTheory
  import opened Pocklington
  import opened Bytes
  import opened Sha256Spec

  const PRIMES_0: seq<nat> := [2, 3, 5, 7, 11, 13, 17, 19]
  const PRIMES_1: seq<nat> := [23, 29, 31, 37, 41, 43, 47, 53]
  const PRIMES_2: seq<nat> := [59, 61, 67, 71, 73, 79, 83, 89]
  const PRIMES_3: seq<nat> := [97, 101, 103, 107, 109, 113, 127, 131]
  const PRIMES_4: seq<nat> := [137, 139, 149, 151, 157, 163, 167, 173]
  const PRIMES_5: seq<nat> := [179, 181, 191, 193, 197, 199, 211, 223]
  const PRIMES_6: seq<nat> := [227, 229, 233, 239, 241, 251, 257, 263]
  const PRIMES_7: seq<nat> := [269, 271, 277, 281, 283, 293, 307, 311]

  const PRIMES: seq<nat> :=
    PRIMES_0 + PRIMES_1 + PRIMES_2 + PRIMES_3 + PRIMES_4 + PRIMES_5 + PRIMES_6 + PRIMES_7

  /** q is the least prime above p. */
  ghost predicate NextPrime(p: nat, q: nat) {
    IsPrime(q) && p < q && forall n :: p < n < q ==> !IsPrime(n)
  }

  lemma Composite(n: nat, d: nat)
    requires 1 < d < n && n % d == 0
    ensures !IsPrime(n)
  {
    assert Divides(d, n);
  }

  /** Below 324 a number without a divisor up to 17 is prime. */
  lemma SmallPrime(n: nat)
    requires 17 < n < 324
    requires n % 2 != 0 && n % 3 != 0 && n % 5 != 0 && n % 7 != 0 && n % 11 != 0 && n % 13 != 0 && n % 17 != 0
    ensures IsPrime(n)
  {
    forall d | 2 <= d <= 17
      ensures !Divides(d, n)
    {
      if Divides(d, n) {
        var k := DividesQuotient(d, n);
        SmallDivisor(n, d, k);
      }
    }
    TrialDivision(n, 17);
  }

  /** A number up to 17 has a prime divisor up to 17. */
  lemma SmallDivisor(n: int, d: int, k: int)
    requires 2 <= d <= 17 && n == k * d
    ensures n % 2 == 0 || n % 3 == 0 || n % 5 == 0 || n % 7 == 0 || n % 11 == 0 || n % 13 == 0 || n % 17 == 0
  {
    var p := if d % 2 == 0 then 2 else if d % 3 == 0 then 3 else if d % 5 == 0 then 5 else d;
    var m := d / p;
    assert d == m * p && p in [2, 3, 5, 7, 11, 13, 17];
    Regrouped(k, m, p);
    DividesMultiple(p, k * m);
  }

  lemma Regrouped(k: int, m: int, p: int)
    ensures k * (m * p) == k * m * p
  {
  }

  lemma FirstPrimes()
    ensures IsPrime(2) && IsPrime(3) && IsPrime(5) && IsPrime(7) && IsPrime(11) && IsPrime(13) && IsPrime(17)
  {
    TrialDivision(2, 1);
    TrialDivision(3, 1);
    assert !Divides(2, 5) && !Divides(2, 7);
    TrialDivision(5, 2);
    TrialDivision(7, 2);
    assert !Divides(2, 11) && !Divides(3, 11) && !Divides(2, 13) && !Divides(3, 13);
    TrialDivision(11, 3);
    TrialDivision(13, 3);
    assert !Divides(2, 17) && !Divides(3, 17) && !Divides(4, 17);
    TrialDivision(17, 4);
  }

  lemma PrimesRow0()
    ensures NextPrime(1, PRIMES_0[0])
    ensures forall j :: 0 <= j < 7 ==> NextPrime(PRIMES_0[j], PRIMES_0[j + 1])
  {
    hide IsPrime;
    FirstPrimes();
    Composite(4, 2);
    Composite(6, 2);
    Composite(8, 2); Composite(9, 3); Composite(10, 2);
    Composite(12, 2);
    Composite(14, 2); Composite(15, 3); Composite(16, 2);
    Composite(18, 2); SmallPrime(19);
    assert NextPrime(1, 2);
    assert NextPrime(2, 3);
    assert NextPrime(3, 5);
    assert NextPrime(5, 7);
    assert NextPrime(7, 11);
    assert NextPrime(11, 13);
    assert NextPrime(13, 17);
    assert NextPrime(17, 19);
  }

  lemma PrimesRow1()
    ensures NextPrime(PRIMES_0[7], PRIMES_1[0])
    ensures forall j :: 0 <= j < 7 ==> NextPrime(PRIMES_1[j], PRIMES_1[j + 1])
  {
    hide IsPrime;
    Composite(20, 2); Composite(21, 3); Composite(22, 2); SmallPrime(23);
    Composite(24, 2); Composite(25, 5); Composite(26, 2); Composite(27, 3); Composite(28, 2); SmallPrime(29);
    Composite(30, 2); SmallPrime(31);
    Composite(32, 2); Composite(33, 3); Composite(34, 2); Composite(35, 5); Composite(36, 2); SmallPrime(37);
    Composite(38, 2); Composite(39, 3); Composite(40, 2); SmallPrime(41);
    Composite(42, 2); SmallPrime(43);
    Composite(44, 2); Composite(45, 3); Composite(46, 2); SmallPrime(47);
    Composite(48, 2); Composite(49, 7); Composite(50, 2); Composite(51, 3); Composite(52, 2); SmallPrime(53);
    assert NextPrime(19, 23);
    assert NextPrime(23, 29);
    assert NextPrime(29, 31);
    assert NextPrime(31, 37);
    assert NextPrime(37, 41);
    assert NextPrime(41, 43);
    assert NextPrime(43, 47);
    assert NextPrime(47, 53);
  }

  lemma PrimesRow2()
    ensures NextPrime(PRIMES_1[7], PRIMES_2[0])
    ensures forall j :: 0 <= j < 7 ==> NextPrime(PRIMES_2[j], PRIMES_2[j + 1])
  {
    hide IsPrime;
    Composite(54, 2); Composite(55, 5); Composite(56, 2); Composite(57, 3); Composite(58, 2); SmallPrime(59);
    Composite(60, 2); SmallPrime(61);
    Composite(62, 2); Composite(63, 3); Composite(64, 2); Composite(65, 5); Composite(66, 2); SmallPrime(67);
    Composite(68, 2); Composite(69, 3); Composite(70, 2); SmallPrime(71);
    Composite(72, 2); SmallPrime(73);
    Composite(74, 2); Composite(75, 3); Composite(76, 2); Composite(77, 7); Composite(78, 2); SmallPrime(79);
    Composite(80, 2); Composite(81, 3); Composite(82, 2); SmallPrime(83);
    Composite(84, 2); Composite(85, 5); Composite(86, 2); Composite(87, 3); Composite(88, 2); SmallPrime(89);
    assert NextPrime(53, 59);
    assert NextPrime(59, 61);
    assert NextPrime(61, 67);
    assert NextPrime(67, 71);
    assert NextPrime(71, 73);
    assert NextPrime(73, 79);
    assert NextPrime(79, 83);
    assert NextPrime(83, 89);
  }

  lemma PrimesRow3()
    ensures NextPrime(PRIMES_2[7], PRIMES_3[0])
    ensures forall j :: 0 <= j < 7 ==> NextPrime(PRIMES_3[j], PRIMES_3[j + 1])
  {
    hide IsPrime;
    Composite(90, 2); Composite(91, 7); Composite(92, 2); Composite(93, 3); Composite(94, 2);
    Composite(95, 5); Composite(96, 2); SmallPrime(97);
    Composite(98, 2); Composite(99, 3); Composite(100, 2); SmallPrime(101);
    Composite(102, 2); SmallPrime(103);
    Composite(104, 2); Composite(105, 3); Composite(106, 2); SmallPrime(107);
    Composite(108, 2); SmallPrime(109);
    Composite(110, 2); Composite(111, 3); Composite(112, 2); SmallPrime(113);
    Composite(114, 2); Composite(115, 5); Composite(116, 2); Composite(117, 3); Composite(118, 2);
    Composite(119, 7); Composite(120, 2); Composite(121, 11); Composite(122, 2); Composite(123, 3);
    Composite(124, 2); Composite(125, 5); Composite(126, 2); SmallPrime(127);
    Composite(128, 2); Composite(129, 3); Composite(130, 2); SmallPrime(131);
    assert NextPrime(89, 97);
    assert NextPrime(97, 101);
    assert NextPrime(101, 103);
    assert NextPrime(103, 107);
    assert NextPrime(107, 109);
    assert NextPrime(109, 113);
    assert NextPrime(113, 127);
    assert NextPrime(127, 131);
  }

  lemma PrimesRow4()
    ensures NextPrime(PRIMES_3[7], PRIMES_4[0])
    ensures forall j :: 0 <= j < 7 ==> NextPrime(PRIMES_4[j], PRIMES_4[j + 1])
  {
    hide IsPrime;
    Composite(132, 2); Composite(133, 7); Composite(134, 2); Composite(135, 3); Composite(136, 2);
    SmallPrime(137);
    Composite(138, 2); SmallPrime(139);
    Composite(140, 2); Composite(141, 3); Composite(142, 2); Composite(143, 11); Composite(144, 2);
    Composite(145, 5); Composite(146, 2); Composite(147, 3); Composite(148, 2); SmallPrime(149);
    Composite(150, 2); SmallPrime(151);
    Composite(152, 2); Composite(153, 3); Composite(154, 2); Composite(155, 5); Composite(156, 2);
    SmallPrime(157);
    Composite(158, 2); Composite(159, 3); Composite(160, 2); Composite(161, 7); Composite(162, 2);
    SmallPrime(163);
    Composite(164, 2); Composite(165, 3); Composite(166, 2); SmallPrime(167);
    Composite(168, 2); Composite(169, 13); Composite(170, 2); Composite(171, 3); Composite(172, 2);
    SmallPrime(173);
    assert NextPrime(131, 137);
    assert NextPrime(137, 139);
    assert NextPrime(139, 149);
    assert NextPrime(149, 151);
    assert NextPrime(151, 157);
    assert NextPrime(157, 163);
    assert NextPrime(163, 167);
    assert NextPrime(167, 173);
  }

  lemma PrimesRow5()
    ensures NextPrime(PRIMES_4[7], PRIMES_5[0])
    ensures forall j :: 0 <= j < 7 ==> NextPrime(PRIMES_5[j], PRIMES_5[j + 1])
  {
    hide IsPrime;
    Composite(174, 2); Composite(175, 5); Composite(176, 2); Composite(177, 3); Composite(178, 2);
    SmallPrime(179);
    Composite(180, 2); SmallPrime(181);
    Composite(182, 2); Composite(183, 3); Composite(184, 2); Composite(185, 5); Composite(186, 2);
    Composite(187, 11); Composite(188, 2); Composite(189, 3); Composite(190, 2); SmallPrime(191);
    Composite(192, 2); SmallPrime(193);
    Composite(194, 2); Composite(195, 3); Composite(196, 2); SmallPrime(197);
    Composite(198, 2); SmallPrime(199);
    Composite(200, 2); Composite(201, 3); Composite(202, 2); Composite(203, 7); Composite(204, 2);
    Composite(205, 5); Composite(206, 2); Composite(207, 3); Composite(208, 2); Composite(209, 11);
    Composite(210, 2); SmallPrime(211);
    Composite(212, 2); Composite(213, 3); Composite(214, 2); Composite(215, 5); Composite(216, 2);
    Composite(217, 7); Composite(218, 2); Composite(219, 3); Composite(220, 2); Composite(221, 13);
    Composite(222, 2); SmallPrime(223);
    assert NextPrime(173, 179);
    assert NextPrime(179, 181);
    assert NextPrime(181, 191);
    assert NextPrime(191, 193);
    assert NextPrime(193, 197);
    assert NextPrime(197, 199);
    assert NextPrime(199, 211);
    assert NextPrime(211, 223);
  }

  lemma PrimesRow6()
    ensures NextPrime(PRIMES_5[7], PRIMES_6[0])
    ensures forall j :: 0 <= j < 7 ==> NextPrime(PRIMES_6[j], PRIMES_6[j + 1])
  {
    hide IsPrime;
    Composite(224, 2); Composite(225, 3); Composite(226, 2); SmallPrime(227);
    Composite(228, 2); SmallPrime(229);
    Composite(230, 2); Composite(231, 3); Composite(232, 2); SmallPrime(233);
    Composite(234, 2); Composite(235, 5); Composite(236, 2); Composite(237, 3); Composite(238, 2);
    SmallPrime(239);
    Composite(240, 2); SmallPrime(241);
    Composite(242, 2); Composite(243, 3); Composite(244, 2); Composite(245, 5); Composite(246, 2);
    Composite(247, 13); Composite(248, 2); Composite(249, 3); Composite(250, 2); SmallPrime(251);
    Composite(252, 2); Composite(253, 11); Composite(254, 2); Composite(255, 3); Composite(256, 2);
    SmallPrime(257);
    Composite(258, 2); Composite(259, 7); Composite(260, 2); Composite(261, 3); Composite(262, 2);
    SmallPrime(263);
    assert NextPrime(223, 227);
    assert NextPrime(227, 229);
    assert NextPrime(229, 233);
    assert NextPrime(233, 239);
    assert NextPrime(239, 241);
    assert NextPrime(241, 251);
    assert NextPrime(251, 257);
    assert NextPrime(257, 263);
  }

  lemma PrimesRow7()
    ensures NextPrime(PRIMES_6[7], PRIMES_7[0])
    ensures forall j :: 0 <= j < 7 ==> NextPrime(PRIMES_7[j], PRIMES_7[j + 1])
  {
    hide IsPrime;
    Composite(264, 2); Composite(265, 5); Composite(266, 2); Composite(267, 3); Composite(268, 2);
    SmallPrime(269);
    Composite(270, 2); SmallPrime(271);
    Composite(272, 2); Composite(273, 3); Composite(274, 2); Composite(275, 5); Composite(276, 2);
    SmallPrime(277);
    Composite(278, 2); Composite(279, 3); Composite(280, 2); SmallPrime(281);
    Composite(282, 2); SmallPrime(283);
    Composite(284, 2); Composite(285, 3); Composite(286, 2); Composite(287, 7); Composite(288, 2);
    Composite(289, 17); Composite(290, 2); Composite(291, 3); Composite(292, 2); SmallPrime(293);
    Composite(294, 2); Composite(295, 5); Composite(296, 2); Composite(297, 3); Composite(298, 2);
    Composite(299, 13); Composite(300, 2); Composite(301, 7); Composite(302, 2); Composite(303, 3);
    Composite(304, 2); Composite(305, 5); Composite(306, 2); SmallPrime(307);
    Composite(308, 2); Composite(309, 3); Composite(310, 2); SmallPrime(311);
    assert NextPrime(263, 269);
    assert NextPrime(269, 271);
    assert NextPrime(271, 277);
    assert NextPrime(277, 281);
    assert NextPrime(281, 283);
    assert NextPrime(283, 293);
    assert NextPrime(293, 307);
    assert NextPrime(307, 311);
  }

  /** Eight rows of eight, one after the other. */
  lemma RowsOf<T>(s: seq<T>, r0: seq<T>, r1: seq<T>, r2: seq<T>, r3: seq<T>,
                 r4: seq<T>, r5: seq<T>, r6: seq<T>, r7: seq<T>)
    requires |r0| == |r1| == |r2| == |r3| == |r4| == |r5| == |r6| == |r7| == 8
    requires s == r0 + r1 + r2 + r3 + r4 + r5 + r6 + r7
    ensures |s| == 64
    ensures s[..8] == r0 && s[8..16] == r1 && s[16..24] == r2 && s[24..32] == r3
    ensures s[32..40] == r4 && s[40..48] == r5 && s[48..56] == r6 && s[56..] == r7
  {
  }

  lemma WithinRow(s: seq<nat>, r: seq<nat>, t: nat)
    requires |r| == 8 && t + 8 <= |s| && s[t..t + 8] == r
    requires forall j :: 0 <= j < 7 ==> NextPrime(r[j], r[j + 1])
    ensures s[t] == r[0] && s[t + 7] == r[7]
    ensures forall i :: t <= i < t + 7 ==> NextPrime(s[i], s[i + 1])
  {
    hide NextPrime;
    forall i | t <= i < t + 7
      ensures NextPrime(s[i], s[i + 1])
    {
      assert s[i] == r[i - t] && s[i + 1] == r[i - t + 1];
    }
  }

  /** PRIMES lists the first 64 primes, in order and without gaps. */
  lemma PrimesAreFirst()
    ensures |PRIMES| == 64 && NextPrime(1, PRIMES[0])
    ensures forall t :: 0 <= t < 63 ==> NextPrime(PRIMES[t], PRIMES[t + 1])
  {
    hide NextPrime;
    var s := PRIMES;
    RowsOf(s, PRIMES_0, PRIMES_1, PRIMES_2, PRIMES_3, PRIMES_4, PRIMES_5, PRIMES_6, PRIMES_7);
    assert s[56..64] == s[56..];
    PrimesRow0();
    WithinRow(s, PRIMES_0, 0);
    PrimesRow1();
    WithinRow(s, PRIMES_1, 8);
    PrimesRow2();
    WithinRow(s, PRIMES_2, 16);
    PrimesRow3();
    WithinRow(s, PRIMES_3, 24);
    PrimesRow4();
    WithinRow(s, PRIMES_4, 32);
    PrimesRow5();
    WithinRow(s, PRIMES_5, 40);
    PrimesRow6();
    WithinRow(s, PRIMES_6, 48);
    PrimesRow7();
    WithinRow(s, PRIMES_7, 56);
  }

  /** The first 32 bits of the fractional part of the cube root of q. */
  ghost predicate CubeRootBits(q: nat, k: word) {
    exists c: nat :: c * c * c <= q * 0x1_0000_0000_0000_0000_0000_0000 < (c + 1) * (c + 1) * (c + 1)
      && k as int == c % 0x1_0000_0000
  }

  /** The first 32 bits of the fractional part of the square root of q. */
  ghost predicate SquareRootBits(q: nat, h: word) {
    exists c: nat :: c * c <= q * 0x1_0000_0000_0000_0000 < (c + 1) * (c + 1) && h as int == c % 0x1_0000_0000
  }

  lemma CubeRoot(q: nat, c: nat, k: word)
    requires c * c * c <= q * 0x1_0000_0000_0000_0000_0000_0000 < (c + 1) * (c + 1) * (c + 1)
    requires k as int == c % 0x1_0000_0000
    ensures CubeRootBits(q, k)
  {
  }

  lemma SquareRoot(q: nat, c: nat, h: word)
    requires c * c <= q * 0x1_0000_0000_0000_0000 < (c + 1) * (c + 1)
    requires h as int == c % 0x1_0000_0000
    ensures SquareRootBits(q, h)
  {
  }

  lemma CubeRootsRow0()
    ensures forall t :: 0 <= t < 8 ==> CubeRootBits(PRIMES_0[t], K_0[t])
  {
    hide CubeRootBits;
    CubeRoot(2, 0x1_428A2F98, 0x428a2f98);
    CubeRoot(3, 0x1_71374491, 0x71374491);
    CubeRoot(5, 0x1_B5C0FBCF, 0xb5c0fbcf);
    CubeRoot(7, 0x1_E9B5DBA5, 0xe9b5dba5);
    CubeRoot(11, 0x2_3956C25B, 0x3956c25b);
    CubeRoot(13, 0x2_59F111F1, 0x59f111f1);
    CubeRoot(17, 0x2_923F82A4, 0x923f82a4);
    CubeRoot(19, 0x2_AB1C5ED5, 0xab1c5ed5);
  }

  lemma CubeRootsRow1()
    ensures forall t :: 0 <= t < 8 ==> CubeRootBits(PRIMES_1[t], K_1[t])
  {
    hide CubeRootBits;
    CubeRoot(23, 0x2_D807AA98, 0xd807aa98);
    CubeRoot(29, 0x3_12835B01, 0x12835b01);
    CubeRoot(31, 0x3_243185BE, 0x243185be);
    CubeRoot(37, 0x3_550C7DC3, 0x550c7dc3);
    CubeRoot(41, 0x3_72BE5D74, 0x72be5d74);
    CubeRoot(43, 0x3_80DEB1FE, 0x80deb1fe);
    CubeRoot(47, 0x3_9BDC06A7, 0x9bdc06a7);
    CubeRoot(53, 0x3_C19BF174, 0xc19bf174);
  }

  lemma CubeRootsRow2()
    ensures forall t :: 0 <= t < 8 ==> CubeRootBits(PRIMES_2[t], K_2[t])
  {
    hide CubeRootBits;
    CubeRoot(59, 0x3_E49B69C1, 0xe49b69c1);
    CubeRoot(61, 0x3_EFBE4786, 0xefbe4786);
    CubeRoot(67, 0x4_0FC19DC6, 0x0fc19dc6);
    CubeRoot(71, 0x4_240CA1CC, 0x240ca1cc);
    CubeRoot(73, 0x4_2DE92C6F, 0x2de92c6f);
    CubeRoot(79, 0x4_4A7484AA, 0x4a7484aa);
    CubeRoot(83, 0x4_5CB0A9DC, 0x5cb0a9dc);
    CubeRoot(89, 0x4_76F988DA, 0x76f988da);
  }

  lemma CubeRootsRow3()
    ensures forall t :: 0 <= t < 8 ==> CubeRootBits(PRIMES_3[t], K_3[t])
  {
    hide CubeRootBits;
    CubeRoot(97, 0x4_983E5152, 0x983e5152);
    CubeRoot(101, 0x4_A831C66D, 0xa831c66d);
    CubeRoot(103, 0x4_B00327C8, 0xb00327c8);
    CubeRoot(107, 0x4_BF597FC7, 0xbf597fc7);
    CubeRoot(109, 0x4_C6E00BF3, 0xc6e00bf3);
    CubeRoot(113, 0x4_D5A79147, 0xd5a79147);
    CubeRoot(127, 0x5_06CA6351, 0x06ca6351);
    CubeRoot(131, 0x5_14292967, 0x14292967);
  }

  lemma CubeRootsRow4()
    ensures forall t :: 0 <= t < 8 ==> CubeRootBits(PRIMES_4[t], K_4[t])
  {
    hide CubeRootBits;
    CubeRoot(137, 0x5_27B70A85, 0x27b70a85);
    CubeRoot(139, 0x5_2E1B2138, 0x2e1b2138);
    CubeRoot(149, 0x5_4D2C6DFC, 0x4d2c6dfc);
    CubeRoot(151, 0x5_53380D13, 0x53380d13);
    CubeRoot(157, 0x5_650A7354, 0x650a7354);
    CubeRoot(163, 0x5_766A0ABB, 0x766a0abb);
    CubeRoot(167, 0x5_81C2C92E, 0x81c2c92e);
    CubeRoot(173, 0x5_92722C85, 0x92722c85);
  }

  lemma CubeRootsRow5()
    ensures forall t :: 0 <= t < 8 ==> CubeRootBits(PRIMES_5[t], K_5[t])
  {
    hide CubeRootBits;
    CubeRoot(179, 0x5_A2BFE8A1, 0xa2bfe8a1);
    CubeRoot(181, 0x5_A81A664B, 0xa81a664b);
    CubeRoot(191, 0x5_C24B8B70, 0xc24b8b70);
    CubeRoot(193, 0x5_C76C51A3, 0xc76c51a3);
    CubeRoot(197, 0x5_D192E819, 0xd192e819);
    CubeRoot(199, 0x5_D6990624, 0xd6990624);
    CubeRoot(211, 0x5_F40E3585, 0xf40e3585);
    CubeRoot(223, 0x6_106AA070, 0x106aa070);
  }

  lemma CubeRootsRow6()
    ensures forall t :: 0 <= t < 8 ==> CubeRootBits(PRIMES_6[t], K_6[t])
  {
    hide CubeRootBits;
    CubeRoot(227, 0x6_19A4C116, 0x19a4c116);
    CubeRoot(229, 0x6_1E376C08, 0x1e376c08);
    CubeRoot(233, 0x6_2748774C, 0x2748774c);
    CubeRoot(239, 0x6_34B0BCB5, 0x34b0bcb5);
    CubeRoot(241, 0x6_391C0CB3, 0x391c0cb3);
    CubeRoot(251, 0x6_4ED8AA4A, 0x4ed8aa4a);
    CubeRoot(257, 0x6_5B9CCA4F, 0x5b9cca4f);
    CubeRoot(263, 0x6_682E6FF3, 0x682e6ff3);
  }

  lemma CubeRootsRow7()
    ensures forall t :: 0 <= t < 8 ==> CubeRootBits(PRIMES_7[t], K_7[t])
  {
    hide CubeRootBits;
    CubeRoot(269, 0x6_748F82EE, 0x748f82ee);
    CubeRoot(271, 0x6_78A5636F, 0x78a5636f);
    CubeRoot(277, 0x6_84C87814, 0x84c87814);
    CubeRoot(281, 0x6_8CC70208, 0x8cc70208);
    CubeRoot(283, 0x6_90BEFFFA, 0x90befffa);
    CubeRoot(293, 0x6_A4506CEB, 0xa4506ceb);
    CubeRoot(307, 0x6_BEF9A3F7, 0xbef9a3f7);
    CubeRoot(311, 0x6_C67178F2, 0xc67178f2);
  }

  lemma CubeRootsOfRow(s: seq<nat>, r: seq<nat>, k: seq<word>, c: seq<word>, t: nat)
    requires |r| == |c| == 8 && t + 8 <= |s| == |k| && s[t..t + 8] == r && k[t..t + 8] == c
    requires forall j :: 0 <= j < 8 ==> CubeRootBits(r[j], c[j])
    ensures forall i :: t <= i < t + 8 ==> CubeRootBits(s[i], k[i])
  {
    hide CubeRootBits;
    forall i | t <= i < t + 8
      ensures CubeRootBits(s[i], k[i])
    {
      assert s[i] == r[i - t] && k[i] == c[i - t];
    }
  }

  /** K is made of the cube roots of the first 64 primes. */
  lemma KIsCubeRoots()
    ensures |PRIMES| == |K| == 64 && forall t :: 0 <= t < 64 ==> CubeRootBits(PRIMES[t], K[t])
  {
    hide CubeRootBits;
    var s, k := PRIMES, K;
    RowsOf(s, PRIMES_0, PRIMES_1, PRIMES_2, PRIMES_3, PRIMES_4, PRIMES_5, PRIMES_6, PRIMES_7);
    RowsOf(k, K_0, K_1, K_2, K_3, K_4, K_5, K_6, K_7);
    assert s[56..64] == s[56..] && k[56..64] == k[56..];
    CubeRootsRow0();
    CubeRootsOfRow(s, PRIMES_0, k, K_0, 0);
    CubeRootsRow1();
    CubeRootsOfRow(s, PRIMES_1, k, K_1, 8);
    CubeRootsRow2();
    CubeRootsOfRow(s, PRIMES_2, k, K_2, 16);
    CubeRootsRow3();
    CubeRootsOfRow(s, PRIMES_3, k, K_3, 24);
    CubeRootsRow4();
    CubeRootsOfRow(s, PRIMES_4, k, K_4, 32);
    CubeRootsRow5();
    CubeRootsOfRow(s, PRIMES_5, k, K_5, 40);
    CubeRootsRow6();
    CubeRootsOfRow(s, PRIMES_6, k, K_6, 48);
    CubeRootsRow7();
    CubeRootsOfRow(s, PRIMES_7, k, K_7, 56);
  }

  /** The initial chaining value is made of the square roots of the first eight primes. */
  lemma IvIsSquareRoots()
    ensures |PRIMES| == 64 && forall t :: 0 <= t < 8 ==> SquareRootBits(PRIMES[t], IV[t])
  {
    hide SquareRootBits;
    RowsOf(PRIMES, PRIMES_0, PRIMES_1, PRIMES_2, PRIMES_3, PRIMES_4, PRIMES_5, PRIMES_6, PRIMES_7);
    assert forall t :: 0 <= t < 8 ==> PRIMES[t] == PRIMES[..8][t];
    SquareRoot(2, 0x1_6A09E667, 0x6a09e667);
    SquareRoot(3, 0x1_BB67AE85, 0xbb67ae85);
    SquareRoot(5, 0x2_3C6EF372, 0x3c6ef372);
    SquareRoot(7, 0x2_A54FF53A, 0xa54ff53a);
    SquareRoot(11, 0x3_510E527F, 0x510e527f);
    SquareRoot(13, 0x3_9B05688C, 0x9b05688c);
    SquareRoot(17, 0x4_1F83D9AB, 0x1f83d9ab);
    SquareRoot(19, 0x4_5BE0CD19, 0x5be0cd19);
  }
}
