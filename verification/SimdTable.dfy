/** The table of powers of 41 modulo 257. */
module SimdTable {
  import opened SimdMath

  /** Sixteen consecutive entries. */
  datatype Sixteen = Sixteen(c0: int, c1: int, c2: int, c3: int, c4: int, c5: int, c6: int, c7: int,
                             c8: int, c9: int, c10: int, c11: int, c12: int, c13: int, c14: int, c15: int)
  {
    function At(j: nat): int {
      match j
      case 0 => c0
      case 1 => c1
      case 2 => c2
      case 3 => c3
      case 4 => c4
      case 5 => c5
      case 6 => c6
      case 7 => c7
      case 8 => c8
      case 9 => c9
      case 10 => c10
      case 11 => c11
      case 12 => c12
      case 13 => c13
      case 14 => c14
      case _ => c15
    }
  }

  function Row(r: nat): Sixteen {
    match r
    case 0 => Sixteen(1, 41, 139, 45, 46, 87, 226, 14, 60, 147, 116, 130, 190, 80, 196, 69)
    case 1 => Sixteen(2, 82, 21, 90, 92, 174, 195, 28, 120, 37, 232, 3, 123, 160, 135, 138)
    case 2 => Sixteen(4, 164, 42, 180, 184, 91, 133, 56, 240, 74, 207, 6, 246, 63, 13, 19)
    case 3 => Sixteen(8, 71, 84, 103, 111, 182, 9, 112, 223, 148, 157, 12, 235, 126, 26, 38)
    case 4 => Sixteen(16, 142, 168, 206, 222, 107, 18, 224, 189, 39, 57, 24, 213, 252, 52, 76)
    case 5 => Sixteen(32, 27, 79, 155, 187, 214, 36, 191, 121, 78, 114, 48, 169, 247, 104, 152)
    case 6 => Sixteen(64, 54, 158, 53, 117, 171, 72, 125, 242, 156, 228, 96, 81, 237, 208, 47)
    case 7 => Sixteen(128, 108, 59, 106, 234, 85, 144, 250, 227, 55, 199, 192, 162, 217, 159, 94)
    case 8 => Sixteen(256, 216, 118, 212, 211, 170, 31, 243, 197, 110, 141, 127, 67, 177, 61, 188)
    case 9 => Sixteen(255, 175, 236, 167, 165, 83, 62, 229, 137, 220, 25, 254, 134, 97, 122, 119)
    case 10 => Sixteen(253, 93, 215, 77, 73, 166, 124, 201, 17, 183, 50, 251, 11, 194, 244, 238)
    case 11 => Sixteen(249, 186, 173, 154, 146, 75, 248, 145, 34, 109, 100, 245, 22, 131, 231, 219)
    case 12 => Sixteen(241, 115, 89, 51, 35, 150, 239, 33, 68, 218, 200, 233, 44, 5, 205, 181)
    case 13 => Sixteen(225, 230, 178, 102, 70, 43, 221, 66, 136, 179, 143, 209, 88, 10, 153, 105)
    case 14 => Sixteen(193, 203, 99, 204, 140, 86, 185, 132, 15, 101, 29, 161, 176, 20, 49, 210)
    case _ => Sixteen(129, 149, 198, 151, 23, 172, 113, 7, 30, 202, 58, 65, 95, 40, 98, 163)
  }

  function Next(a: int): int { 41 * a % 257 }

  /** Each entry of the first row follows from the one before it. */
  lemma FirstRow(j: nat)
    requires j < 15
    ensures Row(0).At(j + 1) == Next(Row(0).At(j))
  {
  }

  /** 41^16 is 2, so each row doubles the one before it. */
  function Twice(a: int): int { if 2 * a < 257 then 2 * a else 2 * a - 257 }

  predicate Doubled(c: Sixteen, d: Sixteen) {
    && d.c0 == Twice(c.c0) && d.c1 == Twice(c.c1) && d.c2 == Twice(c.c2) && d.c3 == Twice(c.c3)
    && d.c4 == Twice(c.c4) && d.c5 == Twice(c.c5) && d.c6 == Twice(c.c6) && d.c7 == Twice(c.c7)
    && d.c8 == Twice(c.c8) && d.c9 == Twice(c.c9) && d.c10 == Twice(c.c10) && d.c11 == Twice(c.c11)
    && d.c12 == Twice(c.c12) && d.c13 == Twice(c.c13) && d.c14 == Twice(c.c14) && d.c15 == Twice(c.c15)
  }

  lemma RowsDouble(r: nat)
    requires r < 15
    ensures Doubled(Row(r), Row(r + 1))
  {
    match r
    case 0 => assert Doubled(Row(0), Row(1));
    case 1 => assert Doubled(Row(1), Row(2));
    case 2 => assert Doubled(Row(2), Row(3));
    case 3 => assert Doubled(Row(3), Row(4));
    case 4 => assert Doubled(Row(4), Row(5));
    case 5 => assert Doubled(Row(5), Row(6));
    case 6 => assert Doubled(Row(6), Row(7));
    case 7 => assert Doubled(Row(7), Row(8));
    case 8 => assert Doubled(Row(8), Row(9));
    case 9 => assert Doubled(Row(9), Row(10));
    case 10 => assert Doubled(Row(10), Row(11));
    case 11 => assert Doubled(Row(11), Row(12));
    case 12 => assert Doubled(Row(12), Row(13));
    case 13 => assert Doubled(Row(13), Row(14));
    case 14 => assert Doubled(Row(14), Row(15));
  }

  lemma DoubledAt(c: Sixteen, d: Sixteen, j: nat)
    requires Doubled(c, d)
    ensures d.At(j) == Twice(c.At(j))
  {
    hide Twice;
  }

  /** Entry `v` of the table. */
  function AlphaTab(v: nat): int
    requires v < 256
  {
    Row(v / 16).At(v % 16)
  }

  lemma EntryRange(v: nat)
    requires v < 256
    ensures 0 <= AlphaTab(v) <= 256
  {
  }

  lemma EntryDoubles(v: nat)
    requires 16 <= v < 256
    ensures AlphaTab(v) == Twice(AlphaTab(v - 16))
  {
    hide Row, Doubled, Twice;
    assert v / 16 == (v - 16) / 16 + 1 && v % 16 == (v - 16) % 16;
    RowsDouble((v - 16) / 16);
    DoubledAt(Row((v - 16) / 16), Row(v / 16), v % 16);
  }

  lemma TwiceCong(a: int)
    ensures Cong(Twice(a), 2 * a)
  {
    if 2 * a < 257 { CongFrom(Twice(a), 2 * a, 0); } else { CongFrom(Twice(a), 2 * a, -1); }
  }

  lemma NextCong(a: int)
    ensures Cong(Next(a), 41 * a)
  {
    CongFrom(Next(a), 41 * a, -(41 * a / 257));
  }

  lemma PowStep(v: nat)
    requires v > 0
    ensures Pow(v) == 41 * Pow(v - 1)
  {
  }

  lemma NextPower(a: int, p: int)
    requires Cong(a, p)
    ensures Cong(Next(a), 41 * p)
  {
    hide Cong, Next;
    NextCong(a);
    CongRefl(41);
    CongMul(41, 41, a, p);
    CongTrans(Next(a), 41 * a, 41 * p);
  }

  lemma TwicePower(a: int, p: int)
    requires Cong(a, p)
    ensures Cong(Twice(a), Pow(16) * p)
  {
    hide Cong, Twice, Pow;
    TwiceCong(a);
    Root16();
    CongSymm(Pow(16), 2);
    CongMul(2, Pow(16), a, p);
    CongTrans(Twice(a), 2 * a, Pow(16) * p);
  }

  lemma FirstEntries(v: nat)
    requires 0 < v < 16
    ensures AlphaTab(v) == Next(AlphaTab(v - 1))
  {
    FirstRow(v - 1);
  }

  /** The first row is 41^0 to 41^15. */
  lemma {:induction false} FirstPowers(v: nat)
    requires v < 16
    ensures Cong(AlphaTab(v), Pow(v))
  {
    if v == 0 {
      assert AlphaTab(0) == 1 && Pow(0) == 1;
      CongRefl(1);
    } else {
      hide AlphaTab, Next, Pow, Cong;
      FirstPowers(v - 1);
      FirstEntries(v);
      NextPower(AlphaTab(v - 1), Pow(v - 1));
      PowStep(v);
    }
  }

  /** Entry `v` is 41^v modulo 257. */
  lemma {:induction false} TablePowers(v: nat)
    requires v < 256
    ensures Cong(AlphaTab(v), Pow(v)) && 0 <= AlphaTab(v) <= 256
  {
    hide AlphaTab, Pow, Cong, Twice;
    EntryRange(v);
    if v < 16 {
      FirstPowers(v);
    } else {
      TablePowers(v - 16);
      EntryDoubles(v);
      TwicePower(AlphaTab(v - 16), Pow(v - 16));
      PowAdd(16, v - 16);
    }
  }

  /** The entries the butterflies use stay below 253. */
  lemma UsedEntries(v: nat)
    requires v < 128
    ensures AlphaTab(v) <= 252
  {
    SmallRow(v / 16, v % 16);
  }

  lemma SmallRow(r: nat, j: nat)
    requires r < 8
    ensures Row(r).At(j) <= 252
  {
  }
}
