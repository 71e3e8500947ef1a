// The CubeHash rounds: the definition with its four word swaps, and the in-place pair of
// rounds in which no word is moved.
module CubeHash {

  /** The word operations, left open, with their inverses. */
  datatype Ops<!W> = Ops(
    add: (W, W) -> W,
    sub: (W, W) -> W,
    rol: (W, nat) -> W,
    ror: (W, nat) -> W,
    xor: (W, W) -> W)

  /** The word at index i of the low or the high half, with one bit of the index turned over. */
  function Other(i: nat, d: nat): (k: nat)
    requires i < 16 && (d == 1 || d == 2 || d == 4 || d == 8)
    ensures k < 16
  {
    if i / d % 2 == 0 then i + d else i - d
  }

  predicate Bit(d: nat) { d == 1 || d == 2 || d == 4 || d == 8 }

  /** Add the low words into the high words. */
  function AddInto<W>(o: Ops<W>, s: seq<W>): (r: seq<W>)
    requires |s| == 32
    ensures |r| == 32
  {
    seq(32, i requires 0 <= i < 32 => if i < 16 then s[i] else o.add(s[i - 16], s[i]))
  }

  /** Rotate the low words. */
  function Rotate<W>(o: Ops<W>, s: seq<W>, n: nat): (r: seq<W>)
    requires |s| == 32
    ensures |r| == 32
  {
    seq(32, i requires 0 <= i < 32 => if i < 16 then o.rol(s[i], n) else s[i])
  }

  function SwapLow<W>(s: seq<W>, d: nat): (r: seq<W>)
    requires |s| == 32 && Bit(d)
    ensures |r| == 32
  {
    seq(32, i requires 0 <= i < 32 => if i < 16 then s[Other(i, d)] else s[i])
  }

  function SwapHigh<W>(s: seq<W>, d: nat): (r: seq<W>)
    requires |s| == 32 && Bit(d)
    ensures |r| == 32
  {
    seq(32, i requires 0 <= i < 32 => if i < 16 then s[i] else s[16 + Other(i - 16, d)])
  }

  /** Add the high words into the low words without carries. */
  function XorInto<W>(o: Ops<W>, s: seq<W>): (r: seq<W>)
    requires |s| == 32
    ensures |r| == 32
  {
    seq(32, i requires 0 <= i < 32 => if i < 16 then o.xor(s[i], s[i + 16]) else s[i])
  }

  /** Half a round: add, rotate by n, swap the low words over bit d, xor. */
  function Half<W>(o: Ops<W>, s: seq<W>, n: nat, d: nat): (r: seq<W>)
    requires |s| == 32 && Bit(d)
    ensures |r| == 32
  {
    XorInto(o, SwapLow(Rotate(o, AddInto(o, s), n), d))
  }

  /** The ten steps of a round. */
  function Round<W>(o: Ops<W>, s: seq<W>): (r: seq<W>)
    requires |s| == 32
    ensures |r| == 32
  {
    SwapHigh(Half(o, SwapHigh(Half(o, s, 7, 8), 2), 11, 4), 1)
  }

  function Rounds<W>(o: Ops<W>, s: seq<W>, n: nat): (r: seq<W>)
    requires |s| == 32
    ensures |r| == 32
  {
    if n == 0 then s else Round(o, Rounds(o, s, n - 1))
  }

  lemma OtherTwice(i: nat, d: nat)
    requires i < 16 && Bit(d)
    ensures Other(Other(i, d), d) == i
  {
    match d
    case 1 =>
    case 2 =>
    case 4 =>
    case 8 =>
  }

  /** The laws of 32-bit words that make a round invertible. */
  ghost predicate Lawful<W(!new)>(o: Ops<W>) {
    && (forall a, b :: o.sub(o.add(a, b), a) == b)
    && (forall a, b :: o.add(a, o.sub(b, a)) == b)
    && (forall a, b :: o.xor(o.xor(a, b), b) == a)
    && (forall a :: o.ror(o.rol(a, 7), 7) == a && o.ror(o.rol(a, 11), 11) == a)
    && (forall a :: o.rol(o.ror(a, 7), 7) == a && o.rol(o.ror(a, 11), 11) == a)
  }

  function SubFrom<W>(o: Ops<W>, s: seq<W>): (r: seq<W>)
    requires |s| == 32
    ensures |r| == 32
  {
    seq(32, i requires 0 <= i < 32 => if i < 16 then s[i] else o.sub(s[i], s[i - 16]))
  }

  function RotateBack<W>(o: Ops<W>, s: seq<W>, n: nat): (r: seq<W>)
    requires |s| == 32
    ensures |r| == 32
  {
    seq(32, i requires 0 <= i < 32 => if i < 16 then o.ror(s[i], n) else s[i])
  }

  function HalfBack<W>(o: Ops<W>, s: seq<W>, n: nat, d: nat): (r: seq<W>)
    requires |s| == 32 && Bit(d)
    ensures |r| == 32
  {
    SubFrom(o, RotateBack(o, SwapLow(XorInto(o, s), d), n))
  }

  function RoundBack<W>(o: Ops<W>, s: seq<W>): (r: seq<W>)
    requires |s| == 32
    ensures |r| == 32
  {
    HalfBack(o, SwapHigh(HalfBack(o, SwapHigh(s, 1), 11, 4), 2), 7, 8)
  }

  lemma SwapsBack<W>(s: seq<W>, d: nat)
    requires |s| == 32 && Bit(d)
    ensures SwapLow(SwapLow(s, d), d) == s
    ensures SwapHigh(SwapHigh(s, d), d) == s
  {
    hide Other;
    forall i | 0 <= i < 32
      ensures SwapLow(SwapLow(s, d), d)[i] == s[i]
      ensures SwapHigh(SwapHigh(s, d), d)[i] == s[i]
    {
      if i < 16 { OtherTwice(i, d); } else { OtherTwice(i - 16, d); }
    }
  }

  lemma WordsBack<W(!new)>(o: Ops<W>, s: seq<W>, n: nat)
    requires |s| == 32 && Lawful(o) && (n == 7 || n == 11)
    ensures SubFrom(o, AddInto(o, s)) == s && AddInto(o, SubFrom(o, s)) == s
    ensures RotateBack(o, Rotate(o, s, n), n) == s && Rotate(o, RotateBack(o, s, n), n) == s
    ensures XorInto(o, XorInto(o, s)) == s
  {
  }

  lemma HalfInverse<W(!new)>(o: Ops<W>, s: seq<W>, n: nat, d: nat)
    requires |s| == 32 && Bit(d) && Lawful(o) && (n == 7 || n == 11)
    ensures HalfBack(o, Half(o, s, n, d), n, d) == s
    ensures Half(o, HalfBack(o, s, n, d), n, d) == s
  {
    hide SubFrom, AddInto, RotateBack, Rotate, SwapLow, XorInto;
    WordsBack(o, SwapLow(Rotate(o, AddInto(o, s), n), d), n);
    SwapsBack(Rotate(o, AddInto(o, s), n), d);
    WordsBack(o, AddInto(o, s), n);
    WordsBack(o, s, n);
    var t := SwapLow(XorInto(o, s), d);
    WordsBack(o, RotateBack(o, t, n), n);
    WordsBack(o, t, n);
    SwapsBack(XorInto(o, s), d);
  }

  /** A round can be undone, and every state is the round of another. */
  lemma RoundInverse<W(!new)>(o: Ops<W>, s: seq<W>)
    requires |s| == 32 && Lawful(o)
    ensures RoundBack(o, Round(o, s)) == s
    ensures Round(o, RoundBack(o, s)) == s
  {
    hide Half, HalfBack, SwapHigh;
    var a := Half(o, s, 7, 8);
    HalfInverse(o, s, 7, 8);
    SwapsBack(a, 2);
    HalfInverse(o, SwapHigh(a, 2), 11, 4);
    SwapsBack(Half(o, SwapHigh(a, 2), 11, 4), 1);
    var b := HalfBack(o, SwapHigh(s, 1), 11, 4);
    SwapsBack(s, 1);
    HalfInverse(o, SwapHigh(s, 1), 11, 4);
    SwapsBack(b, 2);
    HalfInverse(o, SwapHigh(b, 2), 7, 8);
  }

  /** Sixteen different words out of 32. */
  ghost predicate Distinct(p: seq<nat>, q: seq<nat>) {
    && |p| == |q| == 16
    && (forall i | 0 <= i < 16 :: p[i] < 16 && 16 <= q[i] < 32)
    && (forall i, j | 0 <= i < j < 16 :: p[i] != p[j] && q[i] != q[j])
  }

  /** The words in the order of the definition, when its low and high words are named p and q. */
  function View<W>(x: seq<W>, p: seq<nat>, q: seq<nat>): (r: seq<W>)
    requires |x| == 32 && Distinct(p, q)
    ensures |r| == 32
  {
    seq(32, i requires 0 <= i < 32 => if i < 16 then x[p[i]] else x[q[i - 16]])
  }

  /** Names after a swap over bit d. */
  function Renamed(p: seq<nat>, d: nat): (r: seq<nat>)
    requires |p| == 16 && Bit(d)
    ensures |r| == 16
  {
    seq(16, i requires 0 <= i < 16 => p[Other(i, d)])
  }

  lemma RenamedDistinct(p: seq<nat>, q: seq<nat>, d: nat)
    requires Distinct(p, q) && Bit(d)
    ensures Distinct(Renamed(p, d), q) && Distinct(p, Renamed(q, d))
  {
    forall i, j | 0 <= i < j < 16 ensures Other(i, d) != Other(j, d) {
      OtherTwice(i, d);
      OtherTwice(j, d);
    }
    hide Other;
    forall i, j | 0 <= i < j < 16
      ensures Renamed(p, d)[i] != Renamed(p, d)[j] && Renamed(q, d)[i] != Renamed(q, d)[j]
    {
      var k, l := Other(i, d), Other(j, d);
      assert k != l && p[k] != p[l] && q[k] != q[l];
    }
  }

  lemma RenamedViews<W>(x: seq<W>, p: seq<nat>, q: seq<nat>, d: nat)
    requires |x| == 32 && Distinct(p, q) && Bit(d)
    requires Distinct(Renamed(p, d), q) && Distinct(p, Renamed(q, d))
    ensures View(x, Renamed(p, d), q) == SwapLow(View(x, p, q), d)
    ensures View(x, p, Renamed(q, d)) == SwapHigh(View(x, p, q), d)
  {
    hide Other;
  }

  /** The additions and rotations of half a round, under the names p and q. */
  method AddRotate<W>(o: Ops<W>, x: array<W>, p: seq<nat>, q: seq<nat>, n: nat)
    requires x.Length == 32 && Distinct(p, q)
    modifies x
    ensures View(x[..], p, q) == Rotate(o, AddInto(o, View(old(x[..]), p, q)), n)
  {
    ghost var v := x[..];
    forall i | 0 <= i < 16 {
      x[q[i]] := o.add(x[p[i]], x[q[i]]);
    }
    assert forall i | 0 <= i < 16 :: x[p[i]] == v[p[i]] && x[q[i]] == o.add(v[p[i]], v[q[i]]);
    ghost var w := x[..];
    forall i | 0 <= i < 16 {
      x[p[i]] := o.rol(x[p[i]], n);
    }
    assert forall i | 0 <= i < 16 :: x[p[i]] == o.rol(w[p[i]], n) && x[q[i]] == w[q[i]];
  }

  method XorWords<W>(o: Ops<W>, x: array<W>, p: seq<nat>, q: seq<nat>)
    requires x.Length == 32 && Distinct(p, q)
    modifies x
    ensures View(x[..], p, q) == XorInto(o, View(old(x[..]), p, q))
  {
    ghost var v := x[..];
    forall i | 0 <= i < 16 {
      x[p[i]] := o.xor(x[p[i]], x[q[i]]);
    }
    assert forall i | 0 <= i < 16 :: x[p[i]] == o.xor(v[p[i]], v[q[i]]) && x[q[i]] == v[q[i]];
  }

  /** Half a round: the swap is only a change of names, from p to p2. */
  method HalfInPlace<W>(o: Ops<W>, x: array<W>, p: seq<nat>, q: seq<nat>, n: nat, d: nat, p2: seq<nat>)
    requires x.Length == 32 && Bit(d) && Distinct(p, q) && p2 == Renamed(p, d)
    modifies x
    ensures Distinct(p2, q)
    ensures View(x[..], p2, q) == Half(o, View(old(x[..]), p, q), n, d)
  {
    hide Rotate, AddInto, SwapLow, XorInto, Renamed, View, Distinct;
    AddRotate(o, x, p, q, n);
    RenamedDistinct(p, q, d);
    RenamedViews(x[..], p, q, d);
    XorWords(o, x, p2, q);
  }

  function Four(k: nat, a: nat, b: nat, c: nat, d: nat): nat {
    if k == 0 then a else if k == 1 then b else if k == 2 then c else d
  }

  function Table(i: nat, r0: nat, r1: nat, r2: nat, r3: nat): nat {
    if i < 4 then r0 else if i < 8 then r1 else if i < 12 then r2 else r3
  }

  function L0(i: nat): nat {
    Table(i, Four(i % 4, 0, 1, 2, 3), Four(i % 4, 4, 5, 6, 7),
          Four(i % 4, 8, 9, 10, 11), Four(i % 4, 12, 13, 14, 15))
  }

  function L1(i: nat): nat {
    Table(i, Four(i % 4, 8, 9, 10, 11), Four(i % 4, 12, 13, 14, 15),
          Four(i % 4, 0, 1, 2, 3), Four(i % 4, 4, 5, 6, 7))
  }

  function L2(i: nat): nat {
    Table(i, Four(i % 4, 12, 13, 14, 15), Four(i % 4, 8, 9, 10, 11),
          Four(i % 4, 4, 5, 6, 7), Four(i % 4, 0, 1, 2, 3))
  }

  function L3(i: nat): nat {
    Table(i, Four(i % 4, 4, 5, 6, 7), Four(i % 4, 0, 1, 2, 3),
          Four(i % 4, 12, 13, 14, 15), Four(i % 4, 8, 9, 10, 11))
  }

  function H0(i: nat): nat {
    Table(i, Four(i % 4, 16, 17, 18, 19), Four(i % 4, 20, 21, 22, 23),
          Four(i % 4, 24, 25, 26, 27), Four(i % 4, 28, 29, 30, 31))
  }

  function H1(i: nat): nat {
    Table(i, Four(i % 4, 18, 19, 16, 17), Four(i % 4, 22, 23, 20, 21),
          Four(i % 4, 26, 27, 24, 25), Four(i % 4, 30, 31, 28, 29))
  }

  function H2(i: nat): nat {
    Table(i, Four(i % 4, 19, 18, 17, 16), Four(i % 4, 23, 22, 21, 20),
          Four(i % 4, 27, 26, 25, 24), Four(i % 4, 31, 30, 29, 28))
  }

  function H3(i: nat): nat {
    Table(i, Four(i % 4, 17, 16, 19, 18), Four(i % 4, 21, 20, 23, 22),
          Four(i % 4, 25, 24, 27, 26), Four(i % 4, 29, 28, 31, 30))
  }

  function Names(f: nat -> nat): (p: seq<nat>)
    ensures |p| == 16
  {
    seq(16, i requires 0 <= i < 16 => f(i))
  }

  /** In each half-round the low words bear the names of the one before, swapped. */
  lemma OtherRow(i: nat)
    requires i < 16
    ensures Other(i, 8) == if i < 8 then i + 8 else i - 8
    ensures Other(i, 4) == if i < 4 || 8 <= i < 12 then i + 4 else i - 4
    ensures Other(i, 8) % 4 == i % 4 == Other(i, 4) % 4
  {
  }

  lemma OtherColumn(i: nat)
    requires i < 16
    ensures Other(i, 2) / 4 == i / 4 == Other(i, 1) / 4
    ensures Other(i, 2) % 4 == Four(i % 4, 2, 3, 0, 1)
    ensures Other(i, 1) % 4 == Four(i % 4, 1, 0, 3, 2)
  {
  }

  lemma LowFollows(i: nat)
    requires i < 16
    ensures L1(i) == L0(Other(i, 8)) && L2(i) == L1(Other(i, 4))
    ensures L3(i) == L2(Other(i, 8)) && L0(i) == L3(Other(i, 4))
  {
    hide Other;
    OtherRow(i);
  }

  lemma HighFollows(i: nat)
    requires i < 16
    ensures H1(i) == H0(Other(i, 2)) && H2(i) == H1(Other(i, 1))
    ensures H3(i) == H2(Other(i, 2)) && H0(i) == H3(Other(i, 1))
  {
    hide Other;
    OtherColumn(i);
  }

  lemma NamesFollow()
    ensures Names(L1) == Renamed(Names(L0), 8) && Names(L2) == Renamed(Names(L1), 4)
    ensures Names(L3) == Renamed(Names(L2), 8) && Names(L0) == Renamed(Names(L3), 4)
    ensures Names(H1) == Renamed(Names(H0), 2) && Names(H2) == Renamed(Names(H1), 1)
    ensures Names(H3) == Renamed(Names(H2), 2) && Names(H0) == Renamed(Names(H3), 1)
  {
    hide L0, L1, L2, L3, H0, H1, H2, H3, Other;
    forall i | 0 <= i < 16
      ensures Names(L1)[i] == Renamed(Names(L0), 8)[i] && Names(L2)[i] == Renamed(Names(L1), 4)[i]
      ensures Names(L3)[i] == Renamed(Names(L2), 8)[i] && Names(L0)[i] == Renamed(Names(L3), 4)[i]
      ensures Names(H1)[i] == Renamed(Names(H0), 2)[i] && Names(H2)[i] == Renamed(Names(H1), 1)[i]
      ensures Names(H3)[i] == Renamed(Names(H2), 2)[i] && Names(H0)[i] == Renamed(Names(H3), 1)[i]
    {
      LowFollows(i);
      HighFollows(i);
    }
  }

  lemma FirstNames()
    ensures Distinct(Names(L0), Names(H0))
    ensures forall i | 0 <= i < 16 :: Names(L0)[i] == i && Names(H0)[i] == 16 + i
  {
    forall i | 0 <= i < 16 ensures L0(i) == i && H0(i) == 16 + i {
      match i { case 0 => case 1 => case 2 => case 3 => case 4 => case 5 => case 6 => case 7 => case 8 => case 9 => case 10 => case 11 => case 12 => case 13 => case 14 => case 15 => }
    }
  }

  /** The first round of a pair: it leaves the words under the third names. */
  method Even<W>(o: Ops<W>, x: array<W>)
    requires x.Length == 32 && Distinct(Names(L0), Names(H0))
    modifies x
    ensures Distinct(Names(L2), Names(H2))
    ensures View(x[..], Names(L2), Names(H2)) == Round(o, View(old(x[..]), Names(L0), Names(H0)))
  {
    NamesFollow();
    hide L0, L1, L2, H0, H1, H2, Names, Renamed, Distinct, View, Half, SwapHigh;
    HalfInPlace(o, x, Names(L0), Names(H0), 7, 8, Names(L1));
    RenamedDistinct(Names(L1), Names(H0), 2);
    RenamedDistinct(Names(L1), Names(H0), 1);
    RenameHigh(x[..], Names(L1), Names(H0), 2);
    HalfInPlace(o, x, Names(L1), Names(H1), 11, 4, Names(L2));
    RenameHigh(x[..], Names(L2), Names(H1), 1);
  }

  /** The second round of a pair: it brings every word back under its first name. */
  method Odd<W>(o: Ops<W>, x: array<W>)
    requires x.Length == 32 && Distinct(Names(L2), Names(H2))
    modifies x
    ensures Distinct(Names(L0), Names(H0))
    ensures View(x[..], Names(L0), Names(H0)) == Round(o, View(old(x[..]), Names(L2), Names(H2)))
  {
    NamesFollow();
    hide L0, L2, L3, H0, H2, H3, Names, Renamed, Distinct, View, Half, SwapHigh;
    HalfInPlace(o, x, Names(L2), Names(H2), 7, 8, Names(L3));
    RenameHigh(x[..], Names(L3), Names(H2), 2);
    HalfInPlace(o, x, Names(L3), Names(H3), 11, 4, Names(L0));
    RenameHigh(x[..], Names(L0), Names(H3), 1);
  }

  lemma RenameHigh<W>(x: seq<W>, p: seq<nat>, q: seq<nat>, d: nat)
    requires |x| == 32 && Distinct(p, q) && Bit(d)
    ensures Distinct(p, Renamed(q, d))
    ensures View(x, p, Renamed(q, d)) == SwapHigh(View(x, p, q), d)
  {
    hide Renamed, Distinct, View, SwapHigh;
    RenamedDistinct(p, q, d);
    RenamedViews(x, p, q, d);
  }

  /** A pair of rounds in place is two rounds of the definition. */
  method Pair<W>(o: Ops<W>, x: array<W>)
    requires x.Length == 32
    modifies x
    ensures x[..] == Round(o, Round(o, old(x[..])))
  {
    FirstNames();
    hide Round, L0, H0, L2, H2;
    assert View(x[..], Names(L0), Names(H0)) == x[..];
    Even(o, x);
    Odd(o, x);
    assert View(x[..], Names(L0), Names(H0)) == x[..];
  }

  /** Sixteen rounds, with any of the unroll settings of 1, 2, 4 or 8 pairs in the loop body. */
  method SixteenRounds<W>(o: Ops<W>, x: array<W>, pairs: nat)
    requires x.Length == 32 && Bit(pairs)
    modifies x
    ensures x[..] == Rounds(o, old(x[..]), 16)
  {
    hide Round;
    ghost var s := x[..];
    var done := 0;
    while done < 8
      invariant done <= 8 && done % pairs == 0
      invariant x[..] == Rounds(o, s, 2 * done)
    {
      var k := 0;
      while k < pairs
        invariant k <= pairs && x[..] == Rounds(o, s, 2 * (done + k))
      {
        Pair(o, x);
        assert Rounds(o, s, 2 * (done + k) + 2) == Round(o, Round(o, Rounds(o, s, 2 * (done + k))));
        k := k + 1;
      }
      assert pairs == 1 || pairs == 2 || pairs == 4 || pairs == 8;
      done := done + pairs;
    }
  }
}
