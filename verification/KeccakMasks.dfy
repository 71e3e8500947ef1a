// The lane-complement optimisation: six lanes of the stored state are complemented so
// that the chi step needs few complements.  The step mappings carry the set of
// complemented lanes along, and one round brings it back to where it started.
module KeccakMasks {
  import opened Words
  import opened KeccakLanes
  import opened KeccakSpec

  /** Which of the 25 lanes are complemented. */
  type Mask = m: seq<bool> | |m| == 25 witness seq(25, _ => false)

  /** The state as stored under a mask. */
  function Flip(s: State, m: Mask): State {
    seq(25, i requires 0 <= i < 25 => FlipLane(s[i], m[i]))
  }

  lemma FlipInverse(s: State, m: Mask)
    ensures Flip(Flip(s, m), m) == s
  {
    forall i | 0 <= i < 25 ensures Flip(Flip(s, m), m)[i] == s[i] {
      FlipTwice(s[i], m[i]);
    }
  }

  function Odd(a: bool, b: bool, c: bool, d: bool, e: bool): bool {
    (((a != b) != c) != d) != e
  }

  function ColumnMask(m: Mask, x: nat): bool
    requires x < 5
  {
    Odd(m[5 * x], m[5 * x + 1], m[5 * x + 2], m[5 * x + 3], m[5 * x + 4])
  }

  function MixMask(m: Mask, x: nat): bool
    requires x < 5
  {
    ColumnMask(m, (x + 4) % 5) != ColumnMask(m, (x + 1) % 5)
  }

  function ThetaMask(m: Mask): Mask {
    seq(25, i requires 0 <= i < 25 => m[i] != MixMask(m, i / 5))
  }

  function PiMask(m: Mask): Mask {
    seq(25, i requires 0 <= i < 25 => m[PiSource(i)])
  }

  lemma FiveFlips(a: Lane, b: Lane, c: Lane, d: Lane, e: Lane, m: bool, n: bool, o: bool, p: bool, q: bool)
    ensures Xor(Xor(Xor(Xor(FlipLane(a, m), FlipLane(b, n)), FlipLane(c, o)), FlipLane(d, p)), FlipLane(e, q))
         == FlipLane(Xor(Xor(Xor(Xor(a, b), c), d), e), Odd(m, n, o, p, q))
  {
    XorFlip(a, b, m, n);
    XorFlip(Xor(a, b), c, m != n, o);
    XorFlip(Xor(Xor(a, b), c), d, (m != n) != o, p);
    XorFlip(Xor(Xor(Xor(a, b), c), d), e, ((m != n) != o) != p, q);
  }

  lemma ColumnFlip(s: State, m: Mask, x: nat)
    requires x < 5
    ensures Column(Flip(s, m), x) == FlipLane(Column(s, x), ColumnMask(m, x))
  {
    hide Xor, Not, FlipLane, Odd;
    FiveFlips(s[5 * x], s[5 * x + 1], s[5 * x + 2], s[5 * x + 3], s[5 * x + 4],
              m[5 * x], m[5 * x + 1], m[5 * x + 2], m[5 * x + 3], m[5 * x + 4]);
  }

  lemma MixFlip(s: State, m: Mask, x: nat)
    requires x < 5
    ensures Mix(Flip(s, m), x) == FlipLane(Mix(s, x), MixMask(m, x))
  {
    hide Xor, Not, FlipLane, Column, ColumnMask, Rol, Flip;
    ColumnFlip(s, m, (x + 4) % 5);
    ColumnFlip(s, m, (x + 1) % 5);
    RolFlip(Column(s, (x + 1) % 5), ColumnMask(m, (x + 1) % 5), 1);
    XorFlip(Column(s, (x + 4) % 5), Rol(Column(s, (x + 1) % 5), 1),
            ColumnMask(m, (x + 4) % 5), ColumnMask(m, (x + 1) % 5));
  }

  /** Theta carries a mask along as the parity of the columns it mixes in. */
  lemma ThetaFlip(s: State, m: Mask)
    ensures Theta(Flip(s, m)) == Flip(Theta(s), ThetaMask(m))
  {
    hide Xor, Not, FlipLane, Mix, MixMask;
    forall i | 0 <= i < 25 ensures Theta(Flip(s, m))[i] == Flip(Theta(s), ThetaMask(m))[i] {
      MixFlip(s, m, i / 5);
      XorFlip(s[i], Mix(s, i / 5), m[i], MixMask(m, i / 5));
    }
  }

  lemma RhoFlip(s: State, m: Mask)
    ensures Rho(Flip(s, m)) == Flip(Rho(s), m)
  {
    hide Not, FlipLane, Rol, Offset;
    forall i | 0 <= i < 25 ensures Rho(Flip(s, m))[i] == Flip(Rho(s), m)[i] {
      RolFlip(s[i], m[i], Offset(i));
    }
  }

  lemma PiFlip(s: State, m: Mask)
    ensures Pi(Flip(s, m)) == Flip(Pi(s), PiMask(m))
  {
    hide FlipLane, PiSource;
  }

  /** Whether the lane at index i is stored complemented between rounds. */
  predicate StoredLane(i: int) {
    i == 4 || i == 5 || i == 10 || i == 12 || i == 13 || i == 16
  }

  /** The lanes stored complemented: A[0,4], A[1,0], A[2,0], A[2,2], A[2,3] and A[3,1]. */
  function Stored(): Mask { seq(25, i => StoredLane(i)) }

  /** Whether the lane at index i is complemented on entry to the chi step. */
  predicate EnteringLane(i: int) {
    || i == 0 || i == 1 || i == 2 || i == 4 || i == 8 || i == 10 || i == 11 || i == 12
    || i == 15 || i == 18 || i == 19 || i == 23
  }

  function Entering(): Mask { seq(25, i => EnteringLane(i)) }

  lemma StoredColumns()
    ensures ColumnMask(Stored(), 0) && ColumnMask(Stored(), 1) && ColumnMask(Stored(), 2) && ColumnMask(Stored(), 3)
    ensures !ColumnMask(Stored(), 4)
  {
  }

  /** Theta turns over the lanes of columns 0 and 3. */
  lemma ThetaStored(i: nat)
    requires i < 25
    ensures ThetaMask(Stored())[i] == (StoredLane(i) != (i / 5 == 0 || i / 5 == 3))
  {
    hide ColumnMask, StoredLane;
    StoredColumns();
    assert forall x | 0 <= x < 5 :: MixMask(Stored(), x) == (x == 0 || x == 3);
  }

  lemma PiEntering(x: nat, y: nat)
    requires x < 5 && y < 5
    ensures (StoredLane(5 * ((x + 3 * y) % 5) + x) != ((x + 3 * y) % 5 == 0 || (x + 3 * y) % 5 == 3))
         == EnteringLane(5 * x + y)
  {
    if x == 0 {
    } else if x == 1 {
    } else if x == 2 {
    } else if x == 3 {
    } else {
      assert x == 4;
    }
  }

  /** Theta and pi take the stored mask to the one the chi step expects. */
  lemma MaskReturns()
    ensures PiMask(ThetaMask(Stored())) == Entering()
  {
    hide ThetaMask, StoredLane, EnteringLane;
    forall i | 0 <= i < 25 ensures PiMask(ThetaMask(Stored()))[i] == Entering()[i] {
      var x, y := i / 5, i % 5;
      PiEntering(x, y);
      assert PiSource(i) / 5 == (x + 3 * y) % 5;
      ThetaStored(PiSource(i));
    }
  }
}
