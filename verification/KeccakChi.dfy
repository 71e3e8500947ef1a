// The chi step on partly complemented lanes: five row formulas with one complement
// each, against the uniform definition of chi.
module KeccakChi {
  import opened Words
  import opened KeccakLanes
  import opened KeccakSpec
  import opened KeccakMasks

  /** Five lanes of one row, A[0, y] to A[4, y]. */
  datatype Row = Row(c0: Lane, c1: Lane, c2: Lane, c3: Lane, c4: Lane) {
    function At(x: nat): Lane
      requires x < 5
    {
      match x
      case 0 => c0
      case 1 => c1
      case 2 => c2
      case 3 => c3
      case 4 => c4
    }
  }

  function XorOr(a: Lane, b: Lane, c: Lane): Lane { Xor(a, Or(b, c)) }

  function XorAnd(a: Lane, b: Lane, c: Lane): Lane { Xor(a, And(b, c)) }

  function Row0(b: Row): Row {
    var n := Not(b.c2);
    Row(XorOr(b.c0, b.c1, b.c2), XorOr(b.c1, n, b.c3), XorAnd(b.c2, b.c3, b.c4),
        XorOr(b.c3, b.c4, b.c0), XorAnd(b.c4, b.c0, b.c1))
  }

  function Row1(b: Row): Row {
    var n := Not(b.c4);
    Row(XorOr(b.c0, b.c1, b.c2), XorAnd(b.c1, b.c2, b.c3), XorOr(b.c2, b.c3, n),
        XorOr(b.c3, b.c4, b.c0), XorAnd(b.c4, b.c0, b.c1))
  }

  function Row2(b: Row): Row {
    var n := Not(b.c3);
    Row(XorOr(b.c0, b.c1, b.c2), XorAnd(b.c1, b.c2, b.c3), XorAnd(b.c2, n, b.c4),
        XorOr(n, b.c4, b.c0), XorAnd(b.c4, b.c0, b.c1))
  }

  function Row3(b: Row): Row {
    var n := Not(b.c3);
    Row(XorAnd(b.c0, b.c1, b.c2), XorOr(b.c1, b.c2, b.c3), XorOr(b.c2, n, b.c4),
        XorAnd(n, b.c4, b.c0), XorOr(b.c4, b.c0, b.c1))
  }

  function Row4(b: Row): Row {
    var n := Not(b.c1);
    Row(XorAnd(b.c0, n, b.c2), XorOr(n, b.c2, b.c3), XorAnd(b.c2, b.c3, b.c4),
        XorOr(b.c3, b.c4, b.c0), XorAnd(b.c4, b.c0, b.c1))
  }

  function KhiRow(b: Row, y: nat): Row
    requires y < 5
  {
    match y
    case 0 => Row0(b)
    case 1 => Row1(b)
    case 2 => Row2(b)
    case 3 => Row3(b)
    case 4 => Row4(b)
  }

  function RowOf(s: State, y: nat): Row
    requires y < 5
  {
    Row(s[y], s[5 + y], s[10 + y], s[15 + y], s[20 + y])
  }

  /** The whole step: each row from the lanes of that row alone. */
  function Khi(s: State): State {
    seq(25, i requires 0 <= i < 25 => KhiRow(RowOf(s, i % 5), i % 5).At(i / 5))
  }

  function ChiRow(a: Row): Row {
    Row(ChiLane(a.c0, a.c1, a.c2), ChiLane(a.c1, a.c2, a.c3), ChiLane(a.c2, a.c3, a.c4),
        ChiLane(a.c3, a.c4, a.c0), ChiLane(a.c4, a.c0, a.c1))
  }

  lemma Row0Chi(a: Row)
    ensures var c := ChiRow(a);
            Row0(Row(Not(a.c0), a.c1, Not(a.c2), Not(a.c3), a.c4)) == Row(c.c0, Not(c.c1), Not(c.c2), c.c3, c.c4)
  {
  }

  lemma Row1Chi(a: Row)
    ensures var c := ChiRow(a);
            Row1(Row(Not(a.c0), a.c1, Not(a.c2), a.c3, a.c4)) == Row(c.c0, c.c1, c.c2, Not(c.c3), c.c4)
  {
  }

  lemma Row2Chi(a: Row)
    ensures var c := ChiRow(a);
            Row2(Row(Not(a.c0), a.c1, Not(a.c2), a.c3, a.c4)) == Row(c.c0, c.c1, Not(c.c2), c.c3, c.c4)
  {
  }

  lemma Row3Chi(a: Row)
    ensures var c := ChiRow(a);
            Row3(Row(a.c0, Not(a.c1), a.c2, Not(a.c3), Not(a.c4))) == Row(c.c0, c.c1, Not(c.c2), c.c3, c.c4)
  {
  }

  lemma Row4Chi(a: Row)
    ensures var c := ChiRow(a);
            Row4(Row(Not(a.c0), a.c1, a.c2, Not(a.c3), a.c4)) == Row(Not(c.c0), c.c1, c.c2, c.c3, c.c4)
  {
  }

  function FlipRow(a: Row, m0: bool, m1: bool, m2: bool, m3: bool, m4: bool): Row {
    Row(FlipLane(a.c0, m0), FlipLane(a.c1, m1), FlipLane(a.c2, m2), FlipLane(a.c3, m3), FlipLane(a.c4, m4))
  }

  lemma RowFlip(s: State, m: Mask, y: nat)
    requires y < 5
    ensures RowOf(Flip(s, m), y) == FlipRow(RowOf(s, y), m[y], m[5 + y], m[10 + y], m[15 + y], m[20 + y])
  {
    hide FlipLane;
  }

  lemma ChiAt(s: State, i: nat, j: nat, k: nat)
    requires i < 25 && j == Right(i) && k == Right(j)
    ensures Chi(s)[i] == ChiLane(s[i], s[j], s[k])
  {
    hide ChiLane, Right;
  }

  lemma RowChi(s: State, y: nat)
    requires y < 5
    ensures RowOf(Chi(s), y) == ChiRow(RowOf(s, y))
  {
    hide Chi, ChiLane;
    ChiAt(s, y, y + 5, y + 10);
    ChiAt(s, y + 5, y + 10, y + 15);
    ChiAt(s, y + 10, y + 15, y + 20);
    ChiAt(s, y + 15, y + 20, y);
    ChiAt(s, y + 20, y, y + 5);
  }

  /** The masks of row y on entry to the step and after it. */
  lemma RowMasks(a: Row, y: nat)
    requires y < 5
    ensures KhiRow(FlipRow(a, EnteringLane(y), EnteringLane(5 + y), EnteringLane(10 + y),
                              EnteringLane(15 + y), EnteringLane(20 + y)), y)
         == FlipRow(ChiRow(a), StoredLane(y), StoredLane(5 + y), StoredLane(10 + y),
                               StoredLane(15 + y), StoredLane(20 + y))
  {
    hide Row0, Row1, Row2, Row3, Row4, Not, ChiRow;
    match y
    case 0 => Row0Chi(a);
    case 1 => Row1Chi(a);
    case 2 => Row2Chi(a);
    case 3 => Row3Chi(a);
    case 4 => Row4Chi(a);
  }

  lemma RowEntering(s: State, y: nat)
    requires y < 5
    ensures KhiRow(RowOf(Flip(s, Entering()), y), y) == RowOf(Flip(Chi(s), Stored()), y)
  {
    hide KhiRow, RowOf, ChiRow, FlipRow, Flip, Chi, EnteringLane, StoredLane;
    RowFlip(s, Entering(), y);
    RowMasks(RowOf(s, y), y);
    RowFlip(Chi(s), Stored(), y);
    RowChi(s, y);
  }

  /** On lanes complemented as they enter, the step gives chi with the stored mask. */
  lemma KhiIsChi(s: State)
    ensures Khi(Flip(s, Entering())) == Flip(Chi(s), Stored())
  {
    hide KhiRow, Flip, Chi;
    forall i | 0 <= i < 25 ensures Khi(Flip(s, Entering()))[i] == Flip(Chi(s), Stored())[i] {
      RowEntering(s, i % 5);
      assert RowOf(Flip(Chi(s), Stored()), i % 5).At(i / 5) == Flip(Chi(s), Stored())[i];
    }
  }
}
