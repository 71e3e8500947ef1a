// The words of the Keccak state and the algebra of complemented words.
module KeccakLanes {
  import opened Words

  type Lane = Word

  const ZERO: Lane := seq(64, _ => false)

  const ONES: Lane := seq(64, _ => true)

  /** The lane as it is stored when its complement flag is `on`. */
  function FlipLane(v: Lane, on: bool): Lane { if on then Not(v) else v }

  lemma FlipTwice(v: Lane, on: bool)
    ensures FlipLane(FlipLane(v, on), on) == v
  {
  }

  lemma FlipZero(on: bool)
    ensures FlipLane(ZERO, on) == if on then ONES else ZERO
  {
  }

  /** Complement flags add up under exclusive or. */
  lemma XorFlip(u: Lane, v: Lane, a: bool, b: bool)
    ensures Xor(FlipLane(u, a), FlipLane(v, b)) == FlipLane(Xor(u, v), a != b)
  {
  }

  lemma RolFlip(v: Lane, on: bool, n: nat)
    requires n < 64
    ensures Rol(FlipLane(v, on), n) == FlipLane(Rol(v, n), on)
  {
  }

  /** The order in which lanes are added does not matter. */
  lemma XorFive(a: Lane, b: Lane, c: Lane, d: Lane, e: Lane)
    ensures Xor(Xor(Xor(a, b), e), Xor(c, d)) == Xor(Xor(Xor(Xor(a, b), c), d), e)
  {
  }

  lemma XorSix(r: Lane, a: Lane, b: Lane, c: Lane, d: Lane, e: Lane)
    ensures Xor(Xor(r, e), Xor(Xor(a, b), Xor(c, d))) == Xor(Xor(Xor(Xor(Xor(a, b), c), d), e), r)
  {
  }
}
