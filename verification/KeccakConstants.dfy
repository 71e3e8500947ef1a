// The rotation amounts and the round constants of Keccak-f[1600] against their generators in
// sections 3.2.2 and 3.2.5 of FIPS 202.
module KeccakConstants {
  import opened KeccakSpec
  import opened Words
  import opened Bytes
  import opened Numbers

  /** The walk (x, y) -> (y, 2x + 3y) from (1, 0), which visits the 24 lanes that rotate. */
  function Walk(t: nat): (p: (nat, nat))
    ensures p.0 < 5 && p.1 < 5
  {
    if t == 0 then (1, 0) else
      var p := Walk(t - 1);
      (p.1, (2 * p.0 + 3 * p.1) % 5)
  }

  function Triangle(t: nat): nat { (t + 1) * (t + 2) / 2 }

  ghost predicate Rotated(t: nat) {
    OFFSETS[5 * Walk(t).0 + Walk(t).1] == Triangle(t) % 64
  }

  /** One step of the walk between two known lanes. */
  lemma WalkStep(t: nat, x: nat, y: nat, x': nat, y': nat)
    requires Walk(t) == (x, y)
    requires x' == y && y' == (2 * x + 3 * y) % 5
    requires x' < 5 && y' < 5 && OFFSETS[5 * x' + y'] == Triangle(t + 1) % 64
    ensures Walk(t + 1) == (x', y') && Rotated(t + 1)
  {
    hide Triangle;
    assert Walk(t + 1) == (x', y');
  }

  lemma WalkStart()
    ensures Walk(0) == (1, 0) && Rotated(0)
  {
  }

  lemma Walk0()
    ensures forall t | 0 <= t < 4 :: Rotated(t)
    ensures Walk(3) == (1, 2)
  {
    WalkStart();
    hide Walk, Rotated;
    WalkStep(0, 1, 0, 0, 2);
    WalkStep(1, 0, 2, 2, 1);
    WalkStep(2, 2, 1, 1, 2);
  }

  lemma Walk4()
    ensures forall t | 4 <= t < 8 :: Rotated(t)
    ensures Walk(7) == (0, 1)
  {
    hide Walk, Rotated;
    Walk0();
    WalkStep(3, 1, 2, 2, 3);
    WalkStep(4, 2, 3, 3, 3);
    WalkStep(5, 3, 3, 3, 0);
    WalkStep(6, 3, 0, 0, 1);
  }

  lemma Walk8()
    ensures forall t | 8 <= t < 12 :: Rotated(t)
    ensures Walk(11) == (4, 4)
  {
    hide Walk, Rotated;
    Walk4();
    WalkStep(7, 0, 1, 1, 3);
    WalkStep(8, 1, 3, 3, 1);
    WalkStep(9, 3, 1, 1, 4);
    WalkStep(10, 1, 4, 4, 4);
  }

  lemma Walk12()
    ensures forall t | 12 <= t < 16 :: Rotated(t)
    ensures Walk(15) == (4, 3)
  {
    hide Walk, Rotated;
    Walk8();
    WalkStep(11, 4, 4, 4, 0);
    WalkStep(12, 4, 0, 0, 3);
    WalkStep(13, 0, 3, 3, 4);
    WalkStep(14, 3, 4, 4, 3);
  }

  lemma Walk16()
    ensures forall t | 16 <= t < 20 :: Rotated(t)
    ensures Walk(19) == (0, 4)
  {
    hide Walk, Rotated;
    Walk12();
    WalkStep(15, 4, 3, 3, 2);
    WalkStep(16, 3, 2, 2, 2);
    WalkStep(17, 2, 2, 2, 0);
    WalkStep(18, 2, 0, 0, 4);
  }

  lemma Walk20()
    ensures forall t | 20 <= t < 24 :: Rotated(t)
  {
    hide Walk, Rotated;
    Walk16();
    WalkStep(19, 0, 4, 4, 2);
    WalkStep(20, 4, 2, 2, 4);
    WalkStep(21, 2, 4, 4, 1);
    WalkStep(22, 4, 1, 1, 1);
  }

  /** Every lane but A[0, 0] rotates by the triangular number of its place on the walk. */
  lemma OffsetsAreTriangular(t: nat)
    requires t < 24
    ensures Offset(5 * Walk(t).0 + Walk(t).1) == Triangle(t) % 64
  {
    Walk0();
    Walk4();
    Walk8();
    Walk12();
    Walk16();
    Walk20();
    assert Rotated(t);
  }

  /** The one lane that the walk leaves out does not rotate. */
  lemma FirstOffset()
    ensures Offset(0) == 0
  {
  }

  // ---- round constants ----

  /** The shift register of the generator. */
  datatype Reg = Reg(b0: bool, b1: bool, b2: bool, b3: bool, b4: bool, b5: bool, b6: bool, b7: bool)

  /** One step: everything moves up, and the bit that falls out is added at four places. */
  function Step(g: Reg): Reg { Reg(g.b7, g.b0, g.b1, g.b2, g.b3 != g.b7, g.b4 != g.b7, g.b5 != g.b7, g.b6) }

  /** The register after t steps; its first bit is rc(t). */
  function Register(t: nat): Reg {
    if t == 0 then Reg(true, false, false, false, false, false, false, false) else Step(Register(t - 1))
  }

  /** The seven bits from step t on, at the places 2^j - 1 of a lane. */
  function Spelled(t: nat): nat {
    Digit(Register(t).b0) + 2 * Digit(Register(t + 1).b0) + 8 * Digit(Register(t + 2).b0) + 128 * Digit(Register(t + 3).b0)
    + 0x8000 * Digit(Register(t + 4).b0) + 0x8000_0000 * Digit(Register(t + 5).b0)
    + 0x8000_0000_0000_0000 * Digit(Register(t + 6).b0)
  }

  lemma SevenSteps(t: nat, g: Reg)
    requires Register(t) == g
    ensures Register(t + 7) == Step(Step(Step(Step(Step(Step(Step(g)))))))
    ensures Spelled(t)
         == Digit(g.b0) + 2 * Digit(g.b7) + 8 * Digit(Step(g).b7) + 128 * Digit(Step(Step(g)).b7)
            + 0x8000 * Digit(Step(Step(Step(g))).b7) + 0x8000_0000 * Digit(Step(Step(Step(Step(g)))).b7)
            + 0x8000_0000_0000_0000 * Digit(Step(Step(Step(Step(Step(g))))).b7)
  {
    var g1 := Register(t + 1);
    var g2 := Register(t + 2);
    var g3 := Register(t + 3);
    var g4 := Register(t + 4);
    var g5 := Register(t + 5);
    var g6 := Register(t + 6);
    assert g1 == Step(g) && g2 == Step(g1) && g3 == Step(g2) && g4 == Step(g3) && g5 == Step(g4) && g6 == Step(g5);
  }

  ghost predicate Generated(r: nat)
    requires r < ROUNDS
  {
    RC(r) == Spelled(7 * r)
  }

  lemma RegisterStart()
    ensures Register(0) == Reg(true, false, false, false, false, false, false, false)
  {
  }

  lemma Constants0()
    ensures forall r | 0 <= r < 6 :: Generated(r)
    ensures Register(42) == Reg(true, false, true, false, true, true, false, false)
  {
    RegisterStart();
    hide Register, Spelled;
    SevenSteps(0, Reg(true, false, false, false, false, false, false, false));
    SevenSteps(7, Reg(false, false, false, false, false, false, false, true));
    SevenSteps(14, Reg(false, false, false, true, true, false, true, true));
    SevenSteps(21, Reg(false, true, false, true, true, false, false, false));
    SevenSteps(28, Reg(true, true, true, true, true, false, true, true));
    SevenSteps(35, Reg(true, false, false, true, false, false, false, false));
  }

  lemma Constants6()
    ensures forall r | 6 <= r < 12 :: Generated(r)
    ensures Register(84) == Reg(true, false, true, false, true, false, true, true)
  {
    Constants0();
    hide Register, Spelled;
    SevenSteps(42, Reg(true, false, true, false, true, true, false, false));
    SevenSteps(49, Reg(true, true, true, true, false, false, true, false));
    SevenSteps(56, Reg(false, true, false, true, false, false, true, true));
    SevenSteps(63, Reg(false, false, false, false, true, true, true, false));
    SevenSteps(70, Reg(true, false, false, false, false, false, true, false));
    SevenSteps(77, Reg(false, false, true, true, false, true, true, true));
  }

  lemma Constants12()
    ensures forall r | 12 <= r < 18 :: Generated(r)
    ensures Register(126) == Reg(false, true, false, false, true, true, true, true)
  {
    Constants6();
    hide Register, Spelled;
    SevenSteps(84, Reg(true, false, true, false, true, false, true, true));
    SevenSteps(91, Reg(true, false, true, true, false, false, true, true));
    SevenSteps(98, Reg(true, true, false, false, false, true, true, false));
    SevenSteps(105, Reg(true, true, false, true, false, true, false, true));
    SevenSteps(112, Reg(false, true, false, true, false, true, false, true));
    SevenSteps(119, Reg(false, true, false, true, false, true, false, false));
  }

  lemma Constants18()
    ensures forall r | 18 <= r < 24 :: Generated(r)
    ensures Register(168) == Reg(false, true, true, true, false, false, false, true)
  {
    Constants12();
    hide Register, Spelled;
    SevenSteps(126, Reg(false, true, false, false, true, true, true, true));
    SevenSteps(133, Reg(false, false, false, true, false, true, true, true));
    SevenSteps(140, Reg(true, true, true, false, true, true, false, false));
    SevenSteps(147, Reg(false, true, true, true, true, true, false, false));
    SevenSteps(154, Reg(true, true, false, true, false, false, false, false));
    SevenSteps(161, Reg(false, false, true, false, false, false, true, false));
  }

  /** Every round constant is spelled by the register, and so is the lane made from it. */
  lemma ConstantsAreGenerated(r: nat)
    requires r < ROUNDS
    ensures Value(RoundConstant(r)) == Spelled(7 * r)
  {
    hide Generated, Value, FromNat, RC, Spelled;
    Constants0();
    Constants6();
    Constants12();
    Constants18();
    GeneratedLane(r);
  }

  lemma GeneratedLane(r: nat)
    requires r < ROUNDS && Generated(r)
    ensures Value(RoundConstant(r)) == Spelled(7 * r)
  {
    hide Value, FromNat, RC, Register;
    FromNatValue(RC(r));
    assert Spelled(7 * r) < TWO64;
  }
}
