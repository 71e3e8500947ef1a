// The constants of SHA-512 against sections 4.2.3 and 5.3.5 of FIPS 180-4: the first 64 bits of the
// fractional parts of the cube roots of the first eighty primes, and of the square roots of the first eight.
module Sha512Constants {
  import opened Words
  import opened Bytes
  import opened Numbers
  import opened Sha512Spec

  /** The first eighty primes, four to a row. */
  function PrimeRow(r: nat): Four
    requires r < 20
  {
    match r
    case 0 => Four(2, 3, 5, 7)
    case 1 => Four(11, 13, 17, 19)
    case 2 => Four(23, 29, 31, 37)
    case 3 => Four(41, 43, 47, 53)
    case 4 => Four(59, 61, 67, 71)
    case 5 => Four(73, 79, 83, 89)
    case 6 => Four(97, 101, 103, 107)
    case 7 => Four(109, 113, 127, 131)
    case 8 => Four(137, 139, 149, 151)
    case 9 => Four(157, 163, 167, 173)
    case 10 => Four(179, 181, 191, 193)
    case 11 => Four(197, 199, 211, 223)
    case 12 => Four(227, 229, 233, 239)
    case 13 => Four(241, 251, 257, 263)
    case 14 => Four(269, 271, 277, 281)
    case 15 => Four(283, 293, 307, 311)
    case 16 => Four(313, 317, 331, 337)
    case 17 => Four(347, 349, 353, 359)
    case 18 => Four(367, 373, 379, 383)
    case _ => Four(389, 397, 401, 409)
  }

  function Prime(t: nat): nat
    requires t < 80
  {
    PrimeRow(t / 4).At(t % 4)
  }

  /** The whole parts of their cube roots. */
  function WholeRow(r: nat): Four
    requires r < 20
  {
    match r
    case 0 => Four(1, 1, 1, 1)
    case 1 => Four(2, 2, 2, 2)
    case 2 => Four(2, 3, 3, 3)
    case 3 => Four(3, 3, 3, 3)
    case 4 => Four(3, 3, 4, 4)
    case 5 => Four(4, 4, 4, 4)
    case 6 => Four(4, 4, 4, 4)
    case 7 => Four(4, 4, 5, 5)
    case 8 => Four(5, 5, 5, 5)
    case 9 => Four(5, 5, 5, 5)
    case 10 => Four(5, 5, 5, 5)
    case 11 => Four(5, 5, 5, 6)
    case 12 => Four(6, 6, 6, 6)
    case 13 => Four(6, 6, 6, 6)
    case 14 => Four(6, 6, 6, 6)
    case 15 => Four(6, 6, 6, 6)
    case 16 => Four(6, 6, 6, 6)
    case 17 => Four(7, 7, 7, 7)
    case 18 => Four(7, 7, 7, 7)
    case _ => Four(7, 7, 7, 7)
  }

  /** The first 64 fractional bits of the cube root of p, whose whole part is w. */
  ghost predicate CubeRoot(p: nat, w: nat, k: nat) {
    var x := w * TWO64 + k;
    k < TWO64 && x * x * x <= p * TWO64 * TWO64 * TWO64 < (x + 1) * (x + 1) * (x + 1)
  }

  /** The first 64 fractional bits of the square root of p, whose whole part is w. */
  ghost predicate SquareRoot(p: nat, w: nat, k: nat) {
    var x := w * TWO64 + k;
    k < TWO64 && x * x <= p * TWO64 * TWO64 < (x + 1) * (x + 1)
  }

  ghost predicate RowRoots(p: Four, w: Four, k: Four) {
    CubeRoot(p.a, w.a, k.a) && CubeRoot(p.b, w.b, k.b) && CubeRoot(p.c, w.c, k.c) && CubeRoot(p.d, w.d, k.d)
  }

  lemma Row0() ensures RowRoots(PrimeRow(0), WholeRow(0), KRow(0)) {}
  lemma Row1() ensures RowRoots(PrimeRow(1), WholeRow(1), KRow(1)) {}
  lemma Row2() ensures RowRoots(PrimeRow(2), WholeRow(2), KRow(2)) {}
  lemma Row3() ensures RowRoots(PrimeRow(3), WholeRow(3), KRow(3)) {}
  lemma Row4() ensures RowRoots(PrimeRow(4), WholeRow(4), KRow(4)) {}
  lemma Row5() ensures RowRoots(PrimeRow(5), WholeRow(5), KRow(5)) {}
  lemma Row6() ensures RowRoots(PrimeRow(6), WholeRow(6), KRow(6)) {}
  lemma Row7() ensures RowRoots(PrimeRow(7), WholeRow(7), KRow(7)) {}
  lemma Row8() ensures RowRoots(PrimeRow(8), WholeRow(8), KRow(8)) {}
  lemma Row9() ensures RowRoots(PrimeRow(9), WholeRow(9), KRow(9)) {}
  lemma Row10() ensures RowRoots(PrimeRow(10), WholeRow(10), KRow(10)) {}
  lemma Row11() ensures RowRoots(PrimeRow(11), WholeRow(11), KRow(11)) {}
  lemma Row12() ensures RowRoots(PrimeRow(12), WholeRow(12), KRow(12)) {}
  lemma Row13() ensures RowRoots(PrimeRow(13), WholeRow(13), KRow(13)) {}
  lemma Row14() ensures RowRoots(PrimeRow(14), WholeRow(14), KRow(14)) {}
  lemma Row15() ensures RowRoots(PrimeRow(15), WholeRow(15), KRow(15)) {}
  lemma Row16() ensures RowRoots(PrimeRow(16), WholeRow(16), KRow(16)) {}
  lemma Row17() ensures RowRoots(PrimeRow(17), WholeRow(17), KRow(17)) {}
  lemma Row18() ensures RowRoots(PrimeRow(18), WholeRow(18), KRow(18)) {}
  lemma Row19() ensures RowRoots(PrimeRow(19), WholeRow(19), KRow(19)) {}

  lemma Rows(r: nat)
    requires r < 20
    ensures RowRoots(PrimeRow(r), WholeRow(r), KRow(r))
  {
    hide RowRoots, PrimeRow, WholeRow, KRow;
    match r {
      case 0 => Row0();
      case 1 => Row1();
      case 2 => Row2();
      case 3 => Row3();
      case 4 => Row4();
      case 5 => Row5();
      case 6 => Row6();
      case 7 => Row7();
      case 8 => Row8();
      case 9 => Row9();
      case 10 => Row10();
      case 11 => Row11();
      case 12 => Row12();
      case 13 => Row13();
      case 14 => Row14();
      case 15 => Row15();
      case 16 => Row16();
      case 17 => Row17();
      case 18 => Row18();
      case 19 => Row19();
    }
  }

  lemma RowAt(p: Four, w: Four, k: Four, i: nat)
    requires RowRoots(p, w, k) && i < 4
    ensures CubeRoot(p.At(i), w.At(i), k.At(i))
  {
    hide CubeRoot;
  }

  /** Every round constant is the one the standard derives. */
  lemma ConstantsAreCubeRoots(t: nat)
    requires t < 80
    ensures exists w: nat :: CubeRoot(Prime(t), w, Value(Constant(t)))
  {
    hide Value, FromNat, RowRoots, PrimeRow, WholeRow, KRow, CubeRoot, Four.At;
    Rows(t / 4);
    var w := WholeRow(t / 4).At(t % 4);
    RowAt(PrimeRow(t / 4), WholeRow(t / 4), KRow(t / 4), t % 4);
    FromNatValue(K(t));
    RootBelow(Prime(t), w, K(t));
    assert CubeRoot(Prime(t), w, Value(Constant(t)));
  }

  lemma RootBelow(p: nat, w: nat, k: nat)
    requires CubeRoot(p, w, k)
    ensures k % TWO64 == k
  {
  }

  lemma WordSquareRoot(p: nat, w: nat, k: nat)
    requires SquareRoot(p, w, k)
    ensures SquareRoot(p, w, Value(FromNat(k)))
  {
    hide Value, FromNat;
    FromNatValue(k);
  }

  /** And so is the start value. */
  lemma InitialIsSquareRoots()
    ensures var r := Initial();
      && SquareRoot(2, 1, Value(r.a)) && SquareRoot(3, 1, Value(r.b)) && SquareRoot(5, 2, Value(r.c)) && SquareRoot(7, 2, Value(r.d))
      && SquareRoot(11, 3, Value(r.e)) && SquareRoot(13, 3, Value(r.f)) && SquareRoot(17, 4, Value(r.g)) && SquareRoot(19, 4, Value(r.h))
  {
    hide Value, FromNat;
    WordSquareRoot(2, 1, 0x6a09e667f3bcc908);
    WordSquareRoot(3, 1, 0xbb67ae8584caa73b);
    WordSquareRoot(5, 2, 0x3c6ef372fe94f82b);
    WordSquareRoot(7, 2, 0xa54ff53a5f1d36f1);
    WordSquareRoot(11, 3, 0x510e527fade682d1);
    WordSquareRoot(13, 3, 0x9b05688c2b3e6c1f);
    WordSquareRoot(17, 4, 0x1f83d9abfb41bd6b);
    WordSquareRoot(19, 4, 0x5be0cd19137e2179);
    hide SquareRoot;
  }
}
