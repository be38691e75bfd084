/** Where the constants of SHA-256 come from: sections 4.2.2 and 5.3.3 of FIPS 180-4. */
module Sha256Constants {
  import opened Sha256Spec

  /** k is the first 32 bits of the fractional part of the cube root of p. */
  predicate CubeRoot(p: nat, whole: nat, k: nat)
  {
    Cube(whole * 0x1_0000_0000 + k) <= p * 0x1_0000_0000_0000_0000_0000_0000 < Cube(whole * 0x1_0000_0000 + k + 1)
  }

  function Cube(x: nat): nat { x * x * x }

  /** k is the first 32 bits of the fractional part of the square root of p. */
  predicate SquareRoot(p: nat, whole: nat, k: nat)
  {
    Square(whole * 0x1_0000_0000 + k) <= p * 0x1_0000_0000_0000_0000 < Square(whole * 0x1_0000_0000 + k + 1)
  }

  function Square(x: nat): nat { x * x }

  lemma Constants0()
    ensures CubeRoot(2, 1, RoundConstant(0))
    ensures CubeRoot(3, 1, RoundConstant(1))
    ensures CubeRoot(5, 1, RoundConstant(2))
    ensures CubeRoot(7, 1, RoundConstant(3))
    ensures CubeRoot(11, 2, RoundConstant(4))
    ensures CubeRoot(13, 2, RoundConstant(5))
    ensures CubeRoot(17, 2, RoundConstant(6))
    ensures CubeRoot(19, 2, RoundConstant(7))
  {
  }

  lemma Constants1()
    ensures CubeRoot(23, 2, RoundConstant(8))
    ensures CubeRoot(29, 3, RoundConstant(9))
    ensures CubeRoot(31, 3, RoundConstant(10))
    ensures CubeRoot(37, 3, RoundConstant(11))
    ensures CubeRoot(41, 3, RoundConstant(12))
    ensures CubeRoot(43, 3, RoundConstant(13))
    ensures CubeRoot(47, 3, RoundConstant(14))
    ensures CubeRoot(53, 3, RoundConstant(15))
  {
  }

  lemma Constants2()
    ensures CubeRoot(59, 3, RoundConstant(16))
    ensures CubeRoot(61, 3, RoundConstant(17))
    ensures CubeRoot(67, 4, RoundConstant(18))
    ensures CubeRoot(71, 4, RoundConstant(19))
    ensures CubeRoot(73, 4, RoundConstant(20))
    ensures CubeRoot(79, 4, RoundConstant(21))
    ensures CubeRoot(83, 4, RoundConstant(22))
    ensures CubeRoot(89, 4, RoundConstant(23))
  {
  }

  lemma Constants3()
    ensures CubeRoot(97, 4, RoundConstant(24))
    ensures CubeRoot(101, 4, RoundConstant(25))
    ensures CubeRoot(103, 4, RoundConstant(26))
    ensures CubeRoot(107, 4, RoundConstant(27))
    ensures CubeRoot(109, 4, RoundConstant(28))
    ensures CubeRoot(113, 4, RoundConstant(29))
    ensures CubeRoot(127, 5, RoundConstant(30))
    ensures CubeRoot(131, 5, RoundConstant(31))
  {
  }

  lemma Constants4()
    ensures CubeRoot(137, 5, RoundConstant(32))
    ensures CubeRoot(139, 5, RoundConstant(33))
    ensures CubeRoot(149, 5, RoundConstant(34))
    ensures CubeRoot(151, 5, RoundConstant(35))
    ensures CubeRoot(157, 5, RoundConstant(36))
    ensures CubeRoot(163, 5, RoundConstant(37))
    ensures CubeRoot(167, 5, RoundConstant(38))
    ensures CubeRoot(173, 5, RoundConstant(39))
  {
  }

  lemma Constants5()
    ensures CubeRoot(179, 5, RoundConstant(40))
    ensures CubeRoot(181, 5, RoundConstant(41))
    ensures CubeRoot(191, 5, RoundConstant(42))
    ensures CubeRoot(193, 5, RoundConstant(43))
    ensures CubeRoot(197, 5, RoundConstant(44))
    ensures CubeRoot(199, 5, RoundConstant(45))
    ensures CubeRoot(211, 5, RoundConstant(46))
    ensures CubeRoot(223, 6, RoundConstant(47))
  {
  }

  lemma Constants6()
    ensures CubeRoot(227, 6, RoundConstant(48))
    ensures CubeRoot(229, 6, RoundConstant(49))
    ensures CubeRoot(233, 6, RoundConstant(50))
    ensures CubeRoot(239, 6, RoundConstant(51))
    ensures CubeRoot(241, 6, RoundConstant(52))
    ensures CubeRoot(251, 6, RoundConstant(53))
    ensures CubeRoot(257, 6, RoundConstant(54))
    ensures CubeRoot(263, 6, RoundConstant(55))
  {
  }

  lemma Constants7()
    ensures CubeRoot(269, 6, RoundConstant(56))
    ensures CubeRoot(271, 6, RoundConstant(57))
    ensures CubeRoot(277, 6, RoundConstant(58))
    ensures CubeRoot(281, 6, RoundConstant(59))
    ensures CubeRoot(283, 6, RoundConstant(60))
    ensures CubeRoot(293, 6, RoundConstant(61))
    ensures CubeRoot(307, 6, RoundConstant(62))
    ensures CubeRoot(311, 6, RoundConstant(63))
  {
  }

  lemma Initial()
    ensures SquareRoot(2, 1, H0[0])
    ensures SquareRoot(3, 1, H0[1])
    ensures SquareRoot(5, 2, H0[2])
    ensures SquareRoot(7, 2, H0[3])
    ensures SquareRoot(11, 3, H0[4])
    ensures SquareRoot(13, 3, H0[5])
    ensures SquareRoot(17, 4, H0[6])
    ensures SquareRoot(19, 4, H0[7])
  {
  }
}
