// 32-bit words as their bits, least significant first.
module Words32 {
  import Words
  import Numbers

  type Word = v: seq<bool> | |v| == 32 witness seq(32, _ => false)

  function Xor(a: Word, b: Word): Word { seq(32, i requires 0 <= i < 32 => a[i] != b[i]) }

  /** Rotation towards the most significant bit. */
  function Rol(v: Word, n: nat): Word { v[32 - n % 32..] + v[..32 - n % 32] }

  function Ror(v: Word, n: nat): Word { v[n % 32..] + v[..n % 32] }

  /** Addition modulo 2^32. */
  function Add(a: Word, b: Word): Word { Words.Sum(a, b) }

  /** Addition of words is addition of numbers modulo 2^32. */
  lemma AddValue(a: Word, b: Word)
    ensures Words.Value(Add(a, b)) + Words.Digit(Words.Carry(a, b, 32)) * Words.Pow2(32) == Words.Value(a) + Words.Value(b)
  {
    hide Words.Value, Words.Carry, Words.Pow2, Words.Sum;
    Words.SumValue(a, b);
  }

  /** The borrow out of bit i of a difference. */
  function Borrow(a: Word, b: Word, i: nat): bool
    requires i <= 32
  {
    i > 0 && var c := Borrow(a, b, i - 1); (!a[i - 1] && b[i - 1]) || (c && (!a[i - 1] || b[i - 1]))
  }

  /** Subtraction modulo 2^32. */
  function Sub(a: Word, b: Word): Word {
    seq(32, i requires 0 <= i < 32 => (a[i] != b[i]) != Borrow(a, b, i))
  }

  /** Taking back what was added borrows where the sum carried. */
  lemma {:induction false} BorrowOfSum(a: Word, b: Word, i: nat)
    requires i <= 32
    ensures Borrow(Add(a, b), a, i) == Words.Carry(a, b, i)
  {
    if i > 0 { BorrowOfSum(a, b, i - 1); }
  }

  lemma {:induction false} CarryOfDifference(a: Word, b: Word, i: nat)
    requires i <= 32
    ensures Words.Carry(a, Sub(b, a), i) == Borrow(b, a, i)
  {
    if i > 0 { CarryOfDifference(a, b, i - 1); }
  }

  lemma SubAdd(a: Word, b: Word)
    ensures Sub(Add(a, b), a) == b
    ensures Add(a, Sub(b, a)) == b
  {
    hide Words.Carry, Borrow;
    forall i | 0 <= i < 32 ensures Sub(Add(a, b), a)[i] == b[i] && Add(a, Sub(b, a))[i] == b[i] {
      BorrowOfSum(a, b, i);
      CarryOfDifference(a, b, i);
    }
  }

  /** The sum of two words is their sum without carries and twice the carries. */
  lemma XorValue(a: Word, b: Word, both: Word)
    requires forall i | 0 <= i < 32 :: both[i] == (a[i] && b[i])
    ensures Words.Value(Xor(a, b)) + 2 * Words.Value(both) == Words.Value(a) + Words.Value(b)
  {
    hide Words.Value;
    Numbers.XorAndValue(a, b, Xor(a, b), both);
  }

  /** Rotations as numbers. */
  lemma RolValue(v: Word, n: nat)
    requires n < 32
    ensures Words.Value(Rol(v, n)) == Words.Value(v) * Words.Pow2(n) % Words.Pow2(32) + Words.Value(v) / Words.Pow2(32 - n)
  {
    hide Words.Value, Words.Pow2;
    Numbers.RotationValue(v, n);
  }

  lemma RorValue(v: Word, n: nat)
    requires n < 32
    ensures Words.Value(Ror(v, n)) == Words.Value(v) / Words.Pow2(n) + Words.Value(v) * Words.Pow2(32 - n) % Words.Pow2(32)
  {
    hide Words.Value, Words.Pow2;
    Numbers.RotationValue(v, 32 - n);
  }

  lemma XorTwice(a: Word, b: Word)
    ensures Xor(Xor(a, b), b) == a
  {
  }

  lemma RolRor(a: Word, n: nat)
    requires n < 32
    ensures Ror(Rol(a, n), n) == a && Rol(Ror(a, n), n) == a
  {
  }
}
