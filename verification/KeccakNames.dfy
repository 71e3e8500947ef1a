// The names of the 25 words in each of eight consecutive rounds.  The pi mapping is never
// carried out on the words: round r reads and writes them under the r-th list of names,
// and each list is the one before it followed by pi.
module KeccakNames {
  import opened KeccakSpec

  function Pick(y: nat, n0: nat, n1: nat, n2: nat, n3: nat, n4: nat): nat {
    if y == 0 then n0 else if y == 1 then n1 else if y == 2 then n2 else if y == 3 then n3 else n4
  }

  /** The word that stands for A[x, y], numbered 5x + y by its first name. */
  function P0(x: nat, y: nat): nat {
    if x == 0 then Pick(y,  0,  1,  2,  3,  4)
    else if x == 1 then Pick(y,  5,  6,  7,  8,  9)
    else if x == 2 then Pick(y, 10, 11, 12, 13, 14)
    else if x == 3 then Pick(y, 15, 16, 17, 18, 19)
    else Pick(y, 20, 21, 22, 23, 24)
  }

  function P1(x: nat, y: nat): nat {
    if x == 0 then Pick(y,  0, 15,  5, 20, 10)
    else if x == 1 then Pick(y,  6, 21, 11,  1, 16)
    else if x == 2 then Pick(y, 12,  2, 17,  7, 22)
    else if x == 3 then Pick(y, 18,  8, 23, 13,  3)
    else Pick(y, 24, 14,  4, 19,  9)
  }

  function P2(x: nat, y: nat): nat {
    if x == 0 then Pick(y,  0, 18,  6, 24, 12)
    else if x == 1 then Pick(y, 21, 14,  2, 15,  8)
    else if x == 2 then Pick(y, 17,  5, 23, 11,  4)
    else if x == 3 then Pick(y, 13,  1, 19,  7, 20)
    else Pick(y,  9, 22, 10,  3, 16)
  }

  function P3(x: nat, y: nat): nat {
    if x == 0 then Pick(y,  0, 13, 21,  9, 17)
    else if x == 1 then Pick(y, 14, 22,  5, 18,  1)
    else if x == 2 then Pick(y, 23,  6, 19,  2, 10)
    else if x == 3 then Pick(y,  7, 15,  3, 11, 24)
    else Pick(y, 16,  4, 12, 20,  8)
  }

  function P4(x: nat, y: nat): nat {
    if x == 0 then Pick(y,  0,  7, 14, 16, 23)
    else if x == 1 then Pick(y, 22,  4,  6, 13, 15)
    else if x == 2 then Pick(y, 19, 21,  3,  5, 12)
    else if x == 3 then Pick(y, 11, 18, 20,  2,  9)
    else Pick(y,  8, 10, 17, 24,  1)
  }

  function P5(x: nat, y: nat): nat {
    if x == 0 then Pick(y,  0, 11, 22,  8, 19)
    else if x == 1 then Pick(y,  4, 10, 21,  7, 18)
    else if x == 2 then Pick(y,  3, 14, 20,  6, 17)
    else if x == 3 then Pick(y,  2, 13, 24,  5, 16)
    else Pick(y,  1, 12, 23,  9, 15)
  }

  function P6(x: nat, y: nat): nat {
    if x == 0 then Pick(y,  0,  2,  4,  1,  3)
    else if x == 1 then Pick(y, 10, 12, 14, 11, 13)
    else if x == 2 then Pick(y, 20, 22, 24, 21, 23)
    else if x == 3 then Pick(y,  5,  7,  9,  6,  8)
    else Pick(y, 15, 17, 19, 16, 18)
  }

  function P7(x: nat, y: nat): nat {
    if x == 0 then Pick(y,  0,  5, 10, 15, 20)
    else if x == 1 then Pick(y, 12, 17, 22,  2,  7)
    else if x == 2 then Pick(y, 24,  4,  9, 14, 19)
    else if x == 3 then Pick(y,  6, 11, 16, 21,  1)
    else Pick(y, 18, 23,  3,  8, 13)
  }

  function P8(x: nat, y: nat): nat {
    if x == 0 then Pick(y,  0,  6, 12, 18, 24)
    else if x == 1 then Pick(y, 17, 23,  4,  5, 11)
    else if x == 2 then Pick(y,  9, 10, 16, 22,  3)
    else if x == 3 then Pick(y, 21,  2,  8, 14, 15)
    else Pick(y, 13, 19, 20,  1,  7)
  }

  function Name(r: nat, x: nat, y: nat): nat
    requires r <= 8
  {
    match r
    case 0 => P0(x, y)
    case 1 => P1(x, y)
    case 2 => P2(x, y)
    case 3 => P3(x, y)
    case 4 => P4(x, y)
    case 5 => P5(x, y)
    case 6 => P6(x, y)
    case 7 => P7(x, y)
    case 8 => P8(x, y)
  }

  /** Each list of names is the one before it followed by pi. */
  lemma Follows(r: nat, x: nat, y: nat)
    requires r < 8 && x < 5 && y < 5
    ensures Name(r + 1, x, y) == Name(r, (x + 3 * y) % 5, x)
  {
    var z := (x + 3 * y) % 5;
    match r
    case 0 => assert P1(x, y) == P0(z, x);
    case 1 => assert P2(x, y) == P1(z, x);
    case 2 => assert P3(x, y) == P2(z, x);
    case 3 => assert P4(x, y) == P3(z, x);
    case 4 => assert P5(x, y) == P4(z, x);
    case 5 => assert P6(x, y) == P5(z, x);
    case 6 => assert P7(x, y) == P6(z, x);
    case 7 => assert P8(x, y) == P7(z, x);
  }

  /** The r-th list of names: a rearrangement of the 25 words. */
  function Names(r: nat): seq<nat>
    requires r <= 8
  {
    seq(25, i requires 0 <= i < 25 => Name(r, i / 5, i % 5))
  }

  predicate Naming(p: seq<nat>) {
    && |p| == 25
    && (forall i | 0 <= i < 25 :: p[i] < 25)
    && (forall i, j | 0 <= i < j < 25 :: p[i] != p[j])
  }

  ghost predicate Next(p: seq<nat>, q: seq<nat>) {
    |p| == |q| == 25 && forall i | 0 <= i < 25 :: q[i] == p[PiSource(i)]
  }

  lemma NamesNext(r: nat)
    requires r < 8
    ensures Next(Names(r), Names(r + 1))
  {
    hide Name;
    forall i | 0 <= i < 25 ensures Names(r + 1)[i] == Names(r)[PiSource(i)] {
      Follows(r, i / 5, i % 5);
      PiParts(i);
    }
  }

  lemma PiRow(x: nat, y: nat, z: nat)
    requires x < 5 && y < 5 && z < 5 && (x + 3 * y) % 5 == (x + 3 * z) % 5
    ensures y == z
  {
    assert (3 * (y - z)) % 5 == 0;
  }

  lemma PiParts(i: nat)
    requires i < 25
    ensures PiSource(i) / 5 == (i / 5 + 3 * (i % 5)) % 5 && PiSource(i) % 5 == i / 5
  {
    var a, b := (i / 5 + 3 * (i % 5)) % 5, i / 5;
    assert (5 * a + b) / 5 == a && (5 * a + b) % 5 == b;
  }

  /** Two lanes are never moved to the same place. */
  lemma PiInjective(i: nat, j: nat)
    requires i < 25 && j < 25 && PiSource(i) == PiSource(j)
    ensures i == j
  {
    hide PiSource;
    PiParts(i);
    PiParts(j);
    PiRow(i / 5, i % 5, j % 5);
    assert i == 5 * (i / 5) + i % 5 && j == 5 * (j / 5) + j % 5;
  }

  lemma NextNaming(p: seq<nat>, q: seq<nat>)
    requires Naming(p) && Next(p, q)
    ensures Naming(q)
  {
    hide PiSource;
    forall i, j | 0 <= i < j < 25 ensures q[i] != q[j] {
      if PiSource(i) == PiSource(j) { PiInjective(i, j); }
      assert p[PiSource(i)] != p[PiSource(j)];
    }
  }

  lemma FirstNames()
    ensures Names(0) == seq(25, i => i)
  {
    forall i | 0 <= i < 25 ensures Names(0)[i] == i {
      assert P0(i / 5, i % 5) == 5 * (i / 5) + i % 5;
    }
  }

  lemma {:induction false} NamesNaming(r: nat)
    requires r <= 8
    ensures Naming(Names(r))
  {
    hide Name;
    if r == 0 {
      FirstNames();
    } else {
      NamesNaming(r - 1);
      NamesNext(r - 1);
      NextNaming(Names(r - 1), Names(r));
    }
  }
}
