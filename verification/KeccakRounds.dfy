// Keccak-f[1600] as it runs, in place on 25 words, against its definition.
module KeccakRounds {
  import opened Words
  import opened KeccakLanes
  import opened KeccakSpec
  import opened KeccakMasks
  import opened KeccakChi
  import opened KeccakNames

  /** The words under a list of names. */
  function View(m: State, p: seq<nat>): State
    requires Naming(p)
  {
    seq(25, i requires 0 <= i < 25 => m[p[i]])
  }

  /** Words w after assigning v[i] to the word named p[i], for every i. */
  ghost predicate Assigned(w: State, p: seq<nat>, v: State)
    requires Naming(p)
  {
    forall i | 0 <= i < 25 :: w[p[i]] == v[i]
  }

  lemma AssignedView(w: State, p: seq<nat>, v: State)
    requires Naming(p) && Assigned(w, p, v)
    ensures View(w, p) == v
  {
  }

  /** One column sum of theta, in the order the additions are made. */
  function ThetaElement(c0: Lane, c1: Lane, c2: Lane, c3: Lane, c4: Lane,
                        d0: Lane, d1: Lane, d2: Lane, d3: Lane, d4: Lane): Lane
  {
    var t := Rol(Xor(Xor(Xor(d0, d1), d4), Xor(d2, d3)), 1);
    Xor(Xor(t, c4), Xor(Xor(c0, c1), Xor(c2, c3)))
  }

  lemma ThetaElementIsMix(v: State, x: nat, l: nat, r: nat)
    requires x < 5 && l == (x + 4) % 5 && r == (x + 1) % 5
    ensures ThetaElement(v[5 * l], v[5 * l + 1], v[5 * l + 2], v[5 * l + 3], v[5 * l + 4],
                         v[5 * r], v[5 * r + 1], v[5 * r + 2], v[5 * r + 3], v[5 * r + 4])
         == Mix(v, x)
  {
    hide Xor, Rol;
    XorFive(v[5 * r], v[5 * r + 1], v[5 * r + 2], v[5 * r + 3], v[5 * r + 4]);
    XorSix(Rol(Column(v, r), 1), v[5 * l], v[5 * l + 1], v[5 * l + 2], v[5 * l + 3], v[5 * l + 4]);
  }

  lemma ThetaElements(v: State)
    ensures ThetaElement(v[20], v[21], v[22], v[23], v[24], v[5], v[6], v[7], v[8], v[9]) == Mix(v, 0)
    ensures ThetaElement(v[0], v[1], v[2], v[3], v[4], v[10], v[11], v[12], v[13], v[14]) == Mix(v, 1)
    ensures ThetaElement(v[5], v[6], v[7], v[8], v[9], v[15], v[16], v[17], v[18], v[19]) == Mix(v, 2)
    ensures ThetaElement(v[10], v[11], v[12], v[13], v[14], v[20], v[21], v[22], v[23], v[24]) == Mix(v, 3)
    ensures ThetaElement(v[15], v[16], v[17], v[18], v[19], v[0], v[1], v[2], v[3], v[4]) == Mix(v, 4)
  {
    hide ThetaElement, Mix;
    ThetaElementIsMix(v, 0, 4, 1);
    ThetaElementIsMix(v, 1, 0, 2);
    ThetaElementIsMix(v, 2, 1, 3);
    ThetaElementIsMix(v, 3, 2, 4);
    ThetaElementIsMix(v, 4, 3, 0);
  }

  lemma ViewAt(m: State, p: seq<nat>)
    requires Naming(p)
    ensures forall i | 0 <= i < 25 :: View(m, p)[i] == m[p[i]]
  {
  }

  method ThetaSums(a: array<Lane>, p: seq<nat>) returns (t: seq<Lane>)
    requires a.Length == 25 && Naming(p)
    ensures |t| == 5 && forall x | 0 <= x < 5 :: t[x] == Mix(View(a[..], p), x)
  {
    hide ThetaElement, Mix, Xor, View;
    ViewAt(a[..], p);
    ThetaElements(View(a[..], p));
    var t0 := ThetaElement(a[p[20]], a[p[21]], a[p[22]], a[p[23]], a[p[24]], a[p[5]], a[p[6]], a[p[7]], a[p[8]], a[p[9]]);
    var t1 := ThetaElement(a[p[0]], a[p[1]], a[p[2]], a[p[3]], a[p[4]], a[p[10]], a[p[11]], a[p[12]], a[p[13]], a[p[14]]);
    var t2 := ThetaElement(a[p[5]], a[p[6]], a[p[7]], a[p[8]], a[p[9]], a[p[15]], a[p[16]], a[p[17]], a[p[18]], a[p[19]]);
    var t3 := ThetaElement(a[p[10]], a[p[11]], a[p[12]], a[p[13]], a[p[14]], a[p[20]], a[p[21]], a[p[22]], a[p[23]], a[p[24]]);
    var t4 := ThetaElement(a[p[15]], a[p[16]], a[p[17]], a[p[18]], a[p[19]], a[p[0]], a[p[1]], a[p[2]], a[p[3]], a[p[4]]);
    t := [t0, t1, t2, t3, t4];
  }

  lemma ThetaAt(v: State, t: seq<Lane>)
    requires |t| == 5 && forall x | 0 <= x < 5 :: t[x] == Mix(v, x)
    ensures forall i | 0 <= i < 25 :: Theta(v)[i] == Xor(v[i], t[i / 5])
  {
    hide Mix, Xor;
  }

  method ThetaStep(a: array<Lane>, p: seq<nat>)
    requires a.Length == 25 && Naming(p)
    modifies a
    ensures View(a[..], p) == Theta(View(old(a[..]), p))
  {
    hide Theta, Mix, Xor, View;
    ghost var v := View(a[..], p);
    ViewAt(a[..], p);
    var t := ThetaSums(a, p);
    ThetaAt(v, t);
    forall i | 0 <= i < 25 {
      a[p[i]] := Xor(a[p[i]], t[i / 5]);
    }
    assert Assigned(a[..], p, Theta(v));
    AssignedView(a[..], p, Theta(v));
  }

  method RhoStep(a: array<Lane>, p: seq<nat>)
    requires a.Length == 25 && Naming(p)
    modifies a
    ensures View(a[..], p) == Rho(View(old(a[..]), p))
  {
    hide Rol, Offset;
    ghost var v := View(a[..], p);
    forall i | 0 <= i < 25 {
      a[p[i]] := Rol(a[p[i]], Offset(i));
    }
    assert Assigned(a[..], p, Rho(v));
    AssignedView(a[..], p, Rho(v));
  }

  /** The state v with row y replaced by its chi formulas. */
  function RowDone(v: State, y: nat): State
    requires y < 5
  {
    seq(25, i requires 0 <= i < 25 => if i % 5 == y then KhiRow(RowOf(v, y), y).At(i / 5) else v[i])
  }

  /** Each row is made from its own five lanes only, so the rows can be done one after the other. */
  lemma RowsApart(v: State)
    ensures RowDone(RowDone(RowDone(RowDone(RowDone(v, 0), 1), 2), 3), 4) == Khi(v)
  {
    hide KhiRow;
    var v1 := RowDone(v, 0);
    var v2 := RowDone(v1, 1);
    var v3 := RowDone(v2, 2);
    var v4 := RowDone(v3, 3);
    RowKept(v, 0, 1);
    RowKept(v, 0, 2);
    RowKept(v, 0, 3);
    RowKept(v, 0, 4);
    RowKept(v1, 1, 2);
    RowKept(v1, 1, 3);
    RowKept(v1, 1, 4);
    RowKept(v2, 2, 3);
    RowKept(v2, 2, 4);
    RowKept(v3, 3, 4);
    hide RowOf;
    forall i | 0 <= i < 25 ensures RowDone(v4, 4)[i] == Khi(v)[i] {}
  }

  lemma RowKept(v: State, y: nat, z: nat)
    requires y < 5 && z < 5 && y != z
    ensures RowOf(RowDone(v, y), z) == RowOf(v, z)
  {
    hide KhiRow;
  }

  /** One row in place: five lanes are read into temporaries, then written. */
  method KhiRowStep(a: array<Lane>, p: seq<nat>, y: nat)
    requires a.Length == 25 && Naming(p) && y < 5
    modifies a
    ensures View(a[..], p) == RowDone(View(old(a[..]), p), y)
  {
    hide KhiRow;
    ghost var v := View(a[..], p);
    var c := KhiRow(Row(a[p[y]], a[p[5 + y]], a[p[10 + y]], a[p[15 + y]], a[p[20 + y]]), y);
    assert c == KhiRow(RowOf(v, y), y);
    a[p[y]] := c.c0;
    a[p[5 + y]] := c.c1;
    a[p[10 + y]] := c.c2;
    a[p[15 + y]] := c.c3;
    a[p[20 + y]] := c.c4;
    RowAssigned(a[..], p, v, y);
  }

  lemma RowAssigned(w: State, p: seq<nat>, v: State, y: nat)
    requires Naming(p) && y < 5
    requires var c := KhiRow(RowOf(v, y), y);
      w[p[y]] == c.c0 && w[p[5 + y]] == c.c1 && w[p[10 + y]] == c.c2 && w[p[15 + y]] == c.c3 && w[p[20 + y]] == c.c4
    requires forall i | 0 <= i < 25 && i % 5 != y :: w[p[i]] == v[i]
    ensures View(w, p) == RowDone(v, y)
  {
    hide KhiRow, RowOf;
    forall i | 0 <= i < 25 ensures View(w, p)[i] == RowDone(v, y)[i] {
      if i % 5 == y { assert i == 5 * (i / 5) + y; }
    }
  }

  /** The complemented chi, row after row. */
  method KhiStep(a: array<Lane>, p: seq<nat>)
    requires a.Length == 25 && Naming(p)
    modifies a
    ensures View(a[..], p) == Khi(View(old(a[..]), p))
  {
    hide Khi, View, RowDone;
    RowsApart(View(a[..], p));
    KhiRowStep(a, p, 0);
    KhiRowStep(a, p, 1);
    KhiRowStep(a, p, 2);
    KhiRowStep(a, p, 3);
    KhiRowStep(a, p, 4);
  }

  lemma ViewNext(m: State, p: seq<nat>, q: seq<nat>)
    requires Naming(p) && Naming(q) && Next(p, q)
    ensures View(m, q) == Pi(View(m, p))
  {
    hide PiSource;
  }

  lemma IotaFlip(s: State, k: Lane)
    ensures Iota(Flip(s, Stored()), k) == Flip(Iota(s, k), Stored())
  {
    hide Xor, Not;
    assert !Stored()[0];
  }

  /** One round on the stored state is the round of the definition, stored again. */
  lemma StoredRound(s: State, k: Lane)
    ensures Iota(Khi(Pi(Rho(Theta(Flip(s, Stored()))))), k) == Flip(Round(s, k), Stored())
  {
    hide Theta, Rho, Pi, Chi, Khi, Iota, Flip, ThetaMask, PiMask;
    ThetaFlip(s, Stored());
    RhoFlip(Theta(s), ThetaMask(Stored()));
    PiFlip(Rho(Theta(s)), ThetaMask(Stored()));
    MaskReturns();
    KhiIsChi(Pi(Rho(Theta(s))));
    IotaFlip(Chi(Pi(Rho(Theta(s)))), k);
  }

  /** One round in place: theta and rho under the names p, chi under the next names q. */
  method RoundStep(a: array<Lane>, p: seq<nat>, q: seq<nat>, k: Lane, ghost s: State)
    requires a.Length == 25 && Naming(p) && Naming(q) && Next(p, q) && p[0] == 0
    requires View(a[..], p) == Flip(s, Stored())
    modifies a
    ensures View(a[..], q) == Flip(Round(s, k), Stored())
    ensures q[0] == 0
  {
    hide Theta, Rho, Pi, Chi, Khi, Flip, View, Xor, Round;
    ThetaStep(a, p);
    RhoStep(a, p);
    ViewNext(a[..], p, q);
    KhiStep(a, q);
    assert q[0] == p[PiSource(0)];
    ghost var m := a[..];
    a[0] := Xor(a[0], k);
    ViewIota(m, q, k);
    assert a[..] == Iota(m, k);
    StoredRound(s, k);
  }

  lemma ViewIota(m: State, q: seq<nat>, k: Lane)
    requires Naming(q) && q[0] == 0
    ensures View(Iota(m, k), q) == Iota(View(m, q), k)
  {
    hide Xor;
    forall i | 0 < i < 25 ensures q[i] != 0 {}
  }

  /** Three words move round by one place. */
  method Cycle(a: array<Lane>, i: nat, j: nat, k: nat)
    requires a.Length == 25 && i < 25 && j < 25 && k < 25 && i != j && j != k && i != k
    modifies a
    ensures a[i] == old(a[j]) && a[j] == old(a[k]) && a[k] == old(a[i])
    ensures forall n | 0 <= n < 25 && n != i && n != j && n != k :: a[n] == old(a[n])
  {
    var t := a[i];
    a[i] := a[j];
    a[j] := a[k];
    a[k] := t;
  }

  lemma FiveMoved<T>(m: seq<T>, w: seq<T>, b: nat, y: nat, a0: nat, a1: nat, a2: nat, a3: nat, a4: nat)
    requires |m| == |w| == 25 && b + 4 < 25 && y < 5 && a0 < 25 && a1 < 25 && a2 < 25 && a3 < 25 && a4 < 25
    requires w[b] == m[a0] && w[b + 1] == m[a1] && w[b + 2] == m[a2] && w[b + 3] == m[a3] && w[b + 4] == m[a4]
    ensures Pick(y, a0, a1, a2, a3, a4) < 25 && w[b + y] == m[Pick(y, a0, a1, a2, a3, a4)]
  {
  }

  lemma EighthName(i: nat)
    requires i < 25
    ensures Names(8)[i] == P8(i / 5, i % 5)
  {
    hide P8;
  }

  /** Eight cycles of three words, and A[0, 0] in place. */
  ghost predicate Cycled<T>(m: seq<T>, w: seq<T>) {
    && |m| == |w| == 25
    && w[0] == m[0]
    && w[1] == m[6] && w[6] == m[23] && w[23] == m[1]
    && w[2] == m[12] && w[12] == m[16] && w[16] == m[2]
    && w[3] == m[18] && w[18] == m[14] && w[14] == m[3]
    && w[4] == m[24] && w[24] == m[7] && w[7] == m[4]
    && w[5] == m[17] && w[17] == m[8] && w[8] == m[5]
    && w[9] == m[11] && w[11] == m[10] && w[10] == m[9]
    && w[13] == m[22] && w[22] == m[20] && w[20] == m[13]
    && w[15] == m[21] && w[21] == m[19] && w[19] == m[15]
  }

  lemma CycledAt<T>(m: seq<T>, w: seq<T>, x: nat, y: nat)
    requires Cycled(m, w) && x < 5 && y < 5
    ensures P8(x, y) < 25 && w[5 * x + y] == m[P8(x, y)]
  {
    hide Pick;
    if x == 0 { FiveMoved(m, w, 0, y, 0, 6, 12, 18, 24); }
    else if x == 1 { FiveMoved(m, w, 5, y, 17, 23, 4, 5, 11); }
    else if x == 2 { FiveMoved(m, w, 10, y, 9, 10, 16, 22, 3); }
    else if x == 3 { FiveMoved(m, w, 15, y, 21, 2, 8, 14, 15); }
    else { FiveMoved(m, w, 20, y, 13, 19, 20, 1, 7); }
  }

  /** They are the names after eight rounds. */
  lemma EightCycles(m: State, w: State)
    requires Cycled(m, w)
    ensures Naming(Names(8)) && w == View(m, Names(8))
  {
    NamesNaming(8);
    NamesBelow(Names(8));
    hide Naming, Names, P8, Cycled, View;
    forall i | 0 <= i < 25 ensures w[i] == m[Names(8)[i]] {
      EighthName(i);
      assert i == 5 * (i / 5) + i % 5;
      CycledAt(m, w, i / 5, i % 5);
    }
    ViewIs(m, w, Names(8));
  }

  lemma NamesBelow(p: seq<nat>)
    requires Naming(p)
    ensures |p| == 25 && forall i | 0 <= i < 25 :: p[i] < 25
  {
  }

  lemma ViewIs(m: State, w: State, p: seq<nat>)
    requires Naming(p) && forall i | 0 <= i < 25 :: w[i] == m[p[i]]
    ensures w == View(m, p)
  {
  }

  /** The words move from their names after eight rounds back to their first names. */
  method Restore(a: array<Lane>)
    requires a.Length == 25
    modifies a
    ensures Naming(Names(8)) && a[..] == View(old(a[..]), Names(8))
  {
    hide Naming, Names, View;
    ghost var m := a[..];
    Cycle(a, 1, 6, 23);
    Cycle(a, 2, 12, 16);
    Cycle(a, 3, 18, 14);
    Cycle(a, 4, 24, 7);
    Cycle(a, 5, 17, 8);
    Cycle(a, 9, 11, 10);
    Cycle(a, 13, 22, 20);
    Cycle(a, 15, 21, 19);
    EightCycles(m, a[..]);
  }

  /** The words hold the state s, complemented as stored, under the names p. */
  ghost predicate Holds(m: State, p: seq<nat>, s: State) {
    Naming(p) && p[0] == 0 && View(m, p) == Flip(s, Stored())
  }

  lemma HoldsFirst(m: State, s: State)
    ensures Holds(m, Names(0), s) <==> m == Flip(s, Stored())
  {
    FirstNames();
    hide Names, Flip;
    assert View(m, Names(0)) == m;
  }

  lemma RoundsStep(s: State, j: nat)
    requires j < ROUNDS
    ensures Rounds(s, 0) == s
    ensures Rounds(s, j + 1) == Round(Rounds(s, j), RoundConstant(j))
  {
    hide Round, RoundConstant;
  }

  /** Round j, in place r rounds after the names were last restored. */
  method Element(a: array<Lane>, r: nat, j: nat, ghost s: State)
    requires a.Length == 25 && r < 8 && j < ROUNDS
    requires Holds(a[..], Names(r), s)
    modifies a
    ensures Holds(a[..], Names(r + 1), Round(s, RoundConstant(j)))
  {
    NamesNaming(r + 1);
    NamesNext(r);
    hide Names, Naming, Next, View, Flip, Round, RoundConstant;
    RoundStep(a, Names(r), Names(r + 1), RoundConstant(j), s);
  }

  /** Eight rounds, after which the words are back under their first names. */
  method EightRounds(a: array<Lane>, j: nat, ghost s: State)
    requires a.Length == 25 && j + 8 <= ROUNDS
    requires a[..] == Flip(Rounds(s, j), Stored())
    modifies a
    ensures a[..] == Flip(Rounds(s, j + 8), Stored())
  {
    hide Flip, View, Rounds, Names, Naming, Round, RoundConstant;
    HoldsFirst(a[..], Rounds(s, j));
    Element(a, 0, j, Rounds(s, j));
    RoundsStep(s, j);
    Element(a, 1, j + 1, Rounds(s, j + 1));
    RoundsStep(s, j + 1);
    Element(a, 2, j + 2, Rounds(s, j + 2));
    RoundsStep(s, j + 2);
    Element(a, 3, j + 3, Rounds(s, j + 3));
    RoundsStep(s, j + 3);
    Element(a, 4, j + 4, Rounds(s, j + 4));
    RoundsStep(s, j + 4);
    Element(a, 5, j + 5, Rounds(s, j + 5));
    RoundsStep(s, j + 5);
    Element(a, 6, j + 6, Rounds(s, j + 6));
    RoundsStep(s, j + 6);
    Element(a, 7, j + 7, Rounds(s, j + 7));
    RoundsStep(s, j + 7);
    Restore(a);
  }

  /** The permutation: the stored state becomes the stored form of its 24 rounds. */
  method Permute(a: array<Lane>, ghost s: State)
    requires a.Length == 25
    requires a[..] == Flip(s, Stored())
    modifies a
    ensures a[..] == Flip(F1600(s), Stored())
  {
    hide Flip, Rounds, Round, RoundConstant, Stored;
    RoundsStep(s, 0);
    var j := 0;
    while j < ROUNDS
      invariant j <= ROUNDS && j % 8 == 0
      invariant a[..] == Flip(Rounds(s, j), Stored())
    {
      EightRounds(a, j, s);
      j := j + 8;
    }
  }
}
