// 64-bit words and bytes as their bits, least significant first.
module Words {

  type Word = v: seq<bool> | |v| == 64 witness seq(64, _ => false)

  type Byte = v: seq<bool> | |v| == 8 witness seq(8, _ => false)

  function Xor(a: Word, b: Word): Word { seq(64, i requires 0 <= i < 64 => a[i] != b[i]) }

  function And(a: Word, b: Word): Word { seq(64, i requires 0 <= i < 64 => a[i] && b[i]) }

  function Or(a: Word, b: Word): Word { seq(64, i requires 0 <= i < 64 => a[i] || b[i]) }

  function Not(a: Word): Word { seq(64, i requires 0 <= i < 64 => !a[i]) }

  /** Rotation towards the most significant bit. */
  function Rol(v: Word, n: nat): Word
    requires n < 64
  {
    v[64 - n..] + v[..64 - n]
  }

  /** Rotation towards the least significant bit. */
  function Ror(v: Word, n: nat): Word
    requires n < 64
  {
    v[n..] + v[..n]
  }

  function Shl(v: Word, n: nat): Word
    requires n <= 64
  {
    seq(64, i requires 0 <= i < 64 => i >= n && v[i - n])
  }

  function Shr(v: Word, n: nat): Word
    requires n <= 64
  {
    seq(64, i requires 0 <= i < 64 => i + n < 64 && v[i + n])
  }

  /** The two shifts of the usual rotation idiom make a rotation. */
  lemma ShiftsRotate(v: Word, n: nat)
    requires n < 64
    ensures Or(Shr(v, n), Shl(v, 64 - n)) == Ror(v, n)
  {
  }

  /** The carry into bit i of the sum of two numbers of equal width. */
  function Carry(a: seq<bool>, b: seq<bool>, i: nat): bool
    requires |a| == |b| && i <= |a|
  {
    i > 0 && var c := Carry(a, b, i - 1); (a[i - 1] && b[i - 1]) || (c && (a[i - 1] || b[i - 1]))
  }

  /** The sum, without the carry out of the highest bit. */
  function Sum(a: seq<bool>, b: seq<bool>): (c: seq<bool>)
    requires |a| == |b|
    ensures |c| == |a|
  {
    seq(|a|, i requires 0 <= i < |a| => (a[i] != b[i]) != Carry(a, b, i))
  }

  /** Addition modulo 2^64. */
  function Add(a: Word, b: Word): Word { Sum(a, b) }

  lemma {:induction false} CarryCommutes(a: seq<bool>, b: seq<bool>, i: nat)
    requires |a| == |b| && i <= |a|
    ensures Carry(a, b, i) == Carry(b, a, i)
  {
    if i > 0 { CarryCommutes(a, b, i - 1); }
  }

  lemma AddCommutes(a: Word, b: Word)
    ensures Add(a, b) == Add(b, a)
  {
    hide Carry;
    forall i | 0 <= i < 64 ensures Add(a, b)[i] == Add(b, a)[i] {
      CarryCommutes(a, b, i);
    }
  }

  function Pow2(e: nat): (p: nat)
    ensures p > 0
  {
    if e == 0 then 1 else 2 * Pow2(e - 1)
  }

  function Digit(b: bool): nat { if b then 1 else 0 }

  /** The number whose binary digits are the given bits. */
  function Value(v: seq<bool>): nat {
    if v == [] then 0 else Value(v[..|v| - 1]) + Digit(v[|v| - 1]) * Pow2(|v| - 1)
  }

  /** One digit of an addition with carry. */
  lemma DigitSum(x: bool, y: bool, c: bool, p: nat)
    ensures var z := (x != y) != c;
            var d := (x && y) || (c && (x || y));
            Digit(z) * p + Digit(d) * (2 * p) == Digit(x) * p + Digit(y) * p + Digit(c) * p
  {
  }

  lemma ValueStep(v: seq<bool>, i: nat)
    requires 0 < i <= |v|
    ensures Value(v[..i]) == Value(v[..i - 1]) + Digit(v[i - 1]) * Pow2(i - 1)
  {
    assert v[..i][..i - 1] == v[..i - 1];
  }

  /** The sum of the low i bits, with its carry. */
  lemma {:induction false} SumValueLow(a: seq<bool>, b: seq<bool>, i: nat)
    requires |a| == |b| && i <= |a|
    ensures Value(Sum(a, b)[..i]) + Digit(Carry(a, b, i)) * Pow2(i) == Value(a[..i]) + Value(b[..i])
  {
    if i > 0 {
      SumValueLow(a, b, i - 1);
      ValueStep(a, i);
      ValueStep(b, i);
      ValueStep(Sum(a, b), i);
      DigitSum(a[i - 1], b[i - 1], Carry(a, b, i - 1), Pow2(i - 1));
      hide Value, Digit, Sum;
    }
  }

  /** Adding bit by bit is adding numbers, less the power of two above them when it overflows. */
  lemma SumValue(a: seq<bool>, b: seq<bool>)
    requires |a| == |b|
    ensures Value(Sum(a, b)) + Digit(Carry(a, b, |a|)) * Pow2(|a|) == Value(a) + Value(b)
  {
    hide Value, Carry, Pow2, Sum;
    SumValueLow(a, b, |a|);
    assert a[..|a|] == a && b[..|a|] == b && Sum(a, b)[..|a|] == Sum(a, b);
  }

  /** Addition of words is addition of numbers modulo 2^64. */
  lemma AddValue(a: Word, b: Word)
    ensures Value(Add(a, b)) + Digit(Carry(a, b, 64)) * Pow2(64) == Value(a) + Value(b)
  {
    hide Value, Carry, Pow2, Sum;
    SumValue(a, b);
  }

  /** The low 64 binary digits of a number. */
  function FromNat(n: nat): Word {
    seq(64, i requires 0 <= i < 64 => n / Pow2(i) % 2 == 1)
  }

  /** Little-endian decoding of eight bytes. */
  function LoadLE(b: seq<Byte>): Word
    requires |b| == 8
  {
    seq(64, i requires 0 <= i < 64 => b[i / 8][i % 8])
  }

  /** Little-endian encoding of a word. */
  function StoreLE(v: Word): (b: seq<Byte>)
    ensures |b| == 8
  {
    seq(8, k requires 0 <= k < 8 => v[8 * k..8 * k + 8])
  }

  /** Encoding and decoding are inverse to each other. */
  lemma StoreLoad(v: Word, b: seq<Byte>)
    requires |b| == 8
    ensures LoadLE(StoreLE(v)) == v
    ensures StoreLE(LoadLE(b)) == b
  {
    assert LoadLE(StoreLE(v)) == v by {
      forall i | 0 <= i < 64 ensures LoadLE(StoreLE(v))[i] == v[i] {
        assert StoreLE(v)[i / 8] == v[8 * (i / 8)..8 * (i / 8) + 8];
      }
    }
    forall k | 0 <= k < 8 ensures StoreLE(LoadLE(b))[k] == b[k] {
      forall j | 0 <= j < 8 ensures StoreLE(LoadLE(b))[k][j] == b[k][j] {
        assert (8 * k + j) / 8 == k && (8 * k + j) % 8 == j;
      }
    }
  }

  /** The same with the most significant byte first. */
  function LoadBE(b: seq<Byte>): Word
    requires |b| == 8
  {
    LoadLE([b[7], b[6], b[5], b[4], b[3], b[2], b[1], b[0]])
  }

  function StoreBE(v: Word): (b: seq<Byte>)
    ensures |b| == 8
  {
    var l := StoreLE(v);
    [l[7], l[6], l[5], l[4], l[3], l[2], l[1], l[0]]
  }
}
