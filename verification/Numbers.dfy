// What words and bytes mean as numbers: shifts, rotations and the two byte orders.
module Numbers {
  import opened Words
  import opened Bytes

  // ---- powers of two and quotients ----

  lemma {:induction false} PowerAdd(m: nat, n: nat)
    ensures Pow2(m + n) == Pow2(m) * Pow2(n)
  {
    if m > 0 {
      PowerAdd(m - 1, n);
      assert Pow2(m + n) == 2 * Pow2(m - 1 + n);
    }
  }

  lemma PowerSixteen()
    ensures Pow2(16) == 0x1_0000
  {
    assert Pow2(4) == 16;
    PowerAdd(4, 4);
    PowerAdd(8, 8);
  }

  lemma PowerSixtyFour()
    ensures Pow2(64) == TWO64
  {
    hide Pow2;
    PowerSixteen();
    PowerAdd(16, 16);
    PowerAdd(32, 32);
  }

  lemma HalfOf(q: nat, p: nat)
    requires p > 0
    ensures q / (2 * p) == q / p / 2
  {
    var m := q / p;
    var h := m / 2;
    assert q == m * p + q % p;
    assert m == 2 * h + m % 2;
    assert q == h * (2 * p) + ((m % 2) * p + q % p);
    assert 0 <= (m % 2) * p + q % p < 2 * p;
    QuotientIs(q, 2 * p, h, (m % 2) * p + q % p);
  }

  lemma MoreTimes(k: nat, m: nat, d: nat)
    requires k > m
    ensures k * d >= m * d + d
  {
    var x := k - m - 1;
    assert k * d == m * d + d + x * d;
    assert x * d >= 0;
  }

  lemma NoMore(k: nat, m: nat, d: nat, r: nat, q: nat)
    requires k * d + r == m * d + q && r < d && q < d
    ensures k <= m
  {
    if k > m { MoreTimes(k, m, d); }
  }

  lemma QuotientIs(n: nat, d: nat, k: nat, r: nat)
    requires n == k * d + r && r < d
    ensures n / d == k
  {
    var m, q := n / d, n % d;
    assert n == m * d + q;
    NoMore(k, m, d, r, q);
    NoMore(m, k, d, q, r);
  }

  lemma Quotient(lo: nat, p: nat, hi: nat)
    requires lo < p
    ensures (lo + p * hi) / p == hi && (lo + p * hi) % p == lo
  {
    var n := lo + p * hi;
    assert p * hi == hi * p;
    QuotientIs(n, p, hi, lo);
    assert n == n / p * p + n % p;
  }

  lemma {:induction false} ValueBelow(v: seq<bool>)
    ensures Value(v) < Pow2(|v|)
  {
    if v != [] { ValueBelow(v[..|v| - 1]); }
  }

  lemma {:induction false} ValueAppend(a: seq<bool>, b: seq<bool>)
    ensures Value(a + b) == Value(a) + Pow2(|a|) * Value(b)
    decreases |b|
  {
    if b == [] {
      assert a + b == a;
    } else {
      var n := |b| - 1;
      assert (a + b)[..|a| + n] == a + b[..n] && (a + b)[|a| + n] == b[n];
      ValueAppend(a, b[..n]);
      PowerAdd(|a|, n);
      Spread(Pow2(|a|), Value(b[..n]), Digit(b[n]), Pow2(n));
    }
  }

  lemma Spread(p: nat, x: nat, d: nat, q: nat)
    ensures p * (x + d * q) == p * x + d * (p * q)
  {
    assert p * (d * q) == d * (p * q);
  }

  lemma {:induction false} ValueZeros(n: nat)
    ensures Value(ZeroBits(n)) == 0
  {
    if n > 0 {
      assert ZeroBits(n)[..n - 1] == ZeroBits(n - 1);
      ValueZeros(n - 1);
    }
  }

  // ---- logic as arithmetic ----

  /** Bits that differ and bits that agree on one, as numbers: the sum without its carries, and the carries. */
  lemma {:induction false} XorAndValue(a: seq<bool>, b: seq<bool>, x: seq<bool>, c: seq<bool>)
    requires |a| == |b| == |x| == |c|
    requires forall i | 0 <= i < |a| :: x[i] == (a[i] != b[i]) && c[i] == (a[i] && b[i])
    ensures Value(x) + 2 * Value(c) == Value(a) + Value(b)
  {
    if a != [] {
      var n := |a| - 1;
      XorAndValue(a[..n], b[..n], x[..n], c[..n]);
      DigitPair(a[n], b[n], Pow2(n));
    }
  }

  lemma DigitPair(x: bool, y: bool, p: nat)
    ensures Digit(x != y) * p + 2 * (Digit(x && y) * p) == Digit(x) * p + Digit(y) * p
  {
  }

  lemma {:induction false} OrValue(a: seq<bool>, b: seq<bool>, o: seq<bool>, c: seq<bool>)
    requires |a| == |b| == |o| == |c|
    requires forall i | 0 <= i < |a| :: o[i] == (a[i] || b[i]) && c[i] == (a[i] && b[i])
    ensures Value(o) + Value(c) == Value(a) + Value(b)
  {
    if a != [] {
      var n := |a| - 1;
      OrValue(a[..n], b[..n], o[..n], c[..n]);
    }
  }

  lemma {:induction false} NotValue(a: seq<bool>, b: seq<bool>)
    requires |a| == |b| && forall i | 0 <= i < |a| :: b[i] == !a[i]
    ensures Value(a) + Value(b) + 1 == Pow2(|a|)
  {
    if a != [] {
      NotValue(a[..|a| - 1], b[..|b| - 1]);
    }
  }

  /** The four operations on words. */
  lemma LogicValues(a: Word, b: Word)
    ensures Value(Xor(a, b)) + 2 * Value(And(a, b)) == Value(a) + Value(b)
    ensures Value(Or(a, b)) + Value(And(a, b)) == Value(a) + Value(b)
    ensures Value(Not(a)) + Value(a) + 1 == Pow2(64)
  {
    hide Value, Pow2;
    XorAndValue(a, b, Xor(a, b), And(a, b));
    OrValue(a, b, Or(a, b), And(a, b));
    NotValue(a, Not(a));
  }

  // ---- shifts and rotations ----

  /** The low n bits and the others. */
  lemma ValueSplit(v: seq<bool>, n: nat)
    requires n <= |v|
    ensures Value(v) == Value(v[..n]) + Pow2(n) * Value(v[n..])
    ensures Value(v) / Pow2(n) == Value(v[n..]) && Value(v) % Pow2(n) == Value(v[..n])
  {
    hide Value, Pow2;
    assert v == v[..n] + v[n..];
    ValueAppend(v[..n], v[n..]);
    ValueBelow(v[..n]);
    Quotient(Value(v[..n]), Pow2(n), Value(v[n..]));
  }

  /** Moving the low bits up by n places is multiplying by 2^n modulo the power of two above the word. */
  lemma ValueUp(v: seq<bool>, n: nat)
    requires n <= |v|
    ensures Pow2(n) * Value(v[..|v| - n]) == Value(v) * Pow2(n) % Pow2(|v|)
  {
    hide Value, Pow2;
    var k := |v| - n;
    var lo, hi := Value(v[..k]), Value(v[k..]);
    ValueSplit(v, k);
    PowerAdd(n, k);
    ValueBelow(v[..k]);
    Scaled(lo, hi, Pow2(k), Pow2(n));
    Quotient(Pow2(n) * lo, Pow2(|v|), hi);
  }

  lemma Scaled(lo: nat, hi: nat, p: nat, q: nat)
    requires lo < p && q > 0
    ensures (lo + p * hi) * q == q * lo + (q * p) * hi
    ensures q * lo < q * p
  {
    assert (lo + p * hi) * q == lo * q + p * hi * q;
    assert p * hi * q == (q * p) * hi;
    MoreTimes(p, lo, q);
  }

  lemma ShrValue(v: Word, n: nat)
    requires n <= 64
    ensures Value(Shr(v, n)) == Value(v) / Pow2(n)
  {
    hide Value, Pow2;
    assert Shr(v, n) == v[n..] + ZeroBits(n);
    ValueAppend(v[n..], ZeroBits(n));
    ValueZeros(n);
    ValueSplit(v, n);
  }

  lemma ShlValue(v: Word, n: nat)
    requires n <= 64
    ensures Value(Shl(v, n)) == Value(v) * Pow2(n) % Pow2(64)
  {
    hide Value, Pow2;
    assert Shl(v, n) == ZeroBits(n) + v[..64 - n];
    ValueAppend(ZeroBits(n), v[..64 - n]);
    ValueZeros(n);
    ValueUp(v, n);
  }

  /** A rotation towards the most significant bit, for words of any width. */
  lemma RotationValue(v: seq<bool>, n: nat)
    requires n <= |v|
    ensures Value(v[|v| - n..] + v[..|v| - n]) == Value(v) * Pow2(n) % Pow2(|v|) + Value(v) / Pow2(|v| - n)
  {
    hide Value, Pow2;
    ValueAppend(v[|v| - n..], v[..|v| - n]);
    ValueUp(v, n);
    ValueSplit(v, |v| - n);
  }

  /** Left rotation of a 64-bit word: two shifts, and what they mean for its value. */
  lemma RolMeaning(v: Word, n: nat)
    requires n < 64
    ensures Rol(v, n) == Or(Shl(v, n), Shr(v, 64 - n))
    ensures Value(Rol(v, n)) == Value(v) * Pow2(n) % Pow2(64) + Value(v) / Pow2(64 - n)
  {
    hide Value, Pow2;
    RotationValue(v, n);
  }

  /** Right rotation of a 64-bit word. */
  lemma RorMeaning(v: Word, n: nat)
    requires n < 64
    ensures Value(Ror(v, n)) == Value(v) / Pow2(n) + Value(v) * Pow2(64 - n) % Pow2(64)
  {
    hide Value, Pow2;
    RotationValue(v, 64 - n);
  }

  // ---- numbers as words ----

  lemma {:induction false} FromNatLow(n: nat, i: nat)
    requires i <= 64
    ensures Value(FromNat(n)[..i]) == n % Pow2(i)
  {
    if i > 0 {
      hide FromNat;
      FromNatLow(n, i - 1);
      ValueStep(FromNat(n), i);
      FromNatDigit(n, i - 1);
      NextDigit(n, Pow2(i - 1));
    }
  }

  lemma FromNatDigit(n: nat, i: nat)
    requires i < 64
    ensures Digit(FromNat(n)[i]) == n / Pow2(i) % 2
  {
  }

  lemma NextDigit(n: nat, p: nat)
    requires p > 0
    ensures n % (2 * p) == n % p + (n / p % 2) * p
  {
    HalfOf(n, p);
    var m := n / p;
    assert n == m * p + n % p;
    assert n == n / (2 * p) * (2 * p) + n % (2 * p);
    assert m == 2 * (m / 2) + m % 2;
    assert m * p == (m / 2) * (2 * p) + (m % 2) * p;
  }

  /** A number as a word is the number modulo 2^64. */
  lemma FromNatValue(n: nat)
    ensures Value(FromNat(n)) == n % TWO64
  {
    hide Value, Pow2, FromNat;
    FromNatLow(n, 64);
    assert FromNat(n)[..64] == FromNat(n);
    PowerSixtyFour();
  }

  lemma ByteConstants()
    ensures Value(NONE) == 0 && Value(TOP) == 0x80
  {
    PowerEight();
    assert NONE == ZeroBits(8);
    ValueZeros(8);
    assert TOP[..7] == ZeroBits(7);
    ValueZeros(7);
  }

  // ---- byte order ----

  /** The number with the given bytes as its digits to base 256, the least significant first. */
  function LittleEndian(b: seq<Byte>): nat {
    if b == [] then 0 else Value(b[0]) + 256 * LittleEndian(b[1..])
  }

  /** The same, the most significant first. */
  function BigEndian(b: seq<Byte>): nat {
    if b == [] then 0 else 256 * BigEndian(b[..|b| - 1]) + Value(b[|b| - 1])
  }

  lemma {:induction false} BitsValue(b: seq<Byte>)
    ensures Value(Bits(b)) == LittleEndian(b)
  {
    if b != [] {
      BitsValue(b[1..]);
      ValueAppend(b[0], Bits(b[1..]));
      PowerEight();
    } else {
      assert Bits(b) == [];
    }
  }

  lemma PowerEight()
    ensures Pow2(8) == 256
  {
    assert Pow2(4) == 16;
    PowerAdd(4, 4);
  }

  lemma {:induction false} BitAt(b: seq<Byte>, i: nat)
    requires i < 8 * |b|
    ensures i < |Bits(b)| && Bits(b)[i] == b[i / 8][i % 8]
  {
    BitsLength(b);
    if i >= 8 {
      BitAt(b[1..], i - 8);
      assert Bits(b)[i] == Bits(b[1..])[i - 8];
      assert (i - 8) / 8 == i / 8 - 1 && (i - 8) % 8 == i % 8;
    }
  }

  /** Little-endian decoding of eight bytes gives the number they spell. */
  lemma LoadLEValue(b: seq<Byte>)
    requires |b| == 8
    ensures Value(LoadLE(b)) == LittleEndian(b)
  {
    hide Value, LittleEndian, Bits;
    BitsLength(b);
    forall i | 0 <= i < 64 ensures LoadLE(b)[i] == Bits(b)[i] { BitAt(b, i); }
    assert LoadLE(b) == Bits(b);
    BitsValue(b);
  }

  lemma {:induction false} Reverse(a: seq<Byte>, b: seq<Byte>)
    requires |a| == |b| && forall k | 0 <= k < |a| :: a[k] == b[|b| - 1 - k]
    ensures LittleEndian(a) == BigEndian(b)
    decreases |a|
  {
    if a != [] {
      Reverse(a[1..], b[..|b| - 1]);
    }
  }

  /** Big-endian decoding, and both encodings. */
  lemma LoadBEValue(b: seq<Byte>)
    requires |b| == 8
    ensures Value(LoadBE(b)) == BigEndian(b)
  {
    hide Value, LittleEndian, BigEndian, LoadLE;
    var a := [b[7], b[6], b[5], b[4], b[3], b[2], b[1], b[0]];
    LoadLEValue(a);
    Reverse(a, b);
  }

  lemma StoreValue(v: Word)
    ensures LittleEndian(StoreLE(v)) == Value(v) && BigEndian(StoreBE(v)) == Value(v)
  {
    hide Value, LittleEndian, BigEndian, LoadLE;
    StoreLoad(v, StoreLE(v));
    LoadLEValue(StoreLE(v));
    Reverse(StoreLE(v), StoreBE(v));
  }

  /** A number in eight bytes. */
  lemma Int8Value(n: nat)
    ensures BigEndian(Int8(n)) == n % TWO64
  {
    hide Value, BigEndian, StoreBE, FromNat;
    StoreValue(FromNat(n));
    FromNatValue(n);
  }

  lemma {:induction false} BigAppend(a: seq<Byte>, b: seq<Byte>)
    ensures BigEndian(a + b) == BigEndian(a) * Pow2(8 * |b|) + BigEndian(b)
    decreases |b|
  {
    if b == [] {
      assert a + b == a;
    } else {
      var n := |b| - 1;
      assert (a + b)[..|a| + n] == a + b[..n] && (a + b)[|a| + n] == b[n];
      BigAppend(a, b[..n]);
      PowerEight();
      PowerAdd(8, 8 * n);
      assert 8 + 8 * n == 8 * |b|;
      Times256(BigEndian(a), Pow2(8 * n));
    }
  }

  lemma Times256(x: nat, p: nat)
    ensures 256 * (x * p) == x * (256 * p)
  {
  }

  lemma {:induction false} BigBelow(b: seq<Byte>)
    ensures BigEndian(b) < Pow2(8 * |b|)
  {
    if b != [] {
      BigBelow(b[..|b| - 1]);
      ValueBelow(b[|b| - 1]);
      PowerEight();
      PowerAdd(8, 8 * (|b| - 1));
    }
  }

  /** A number in four bytes. */
  lemma Int4Value(n: nat)
    ensures BigEndian(Int4(n)) == n % TWO32
  {
    hide BigEndian, StoreBE, FromNat, Pow2;
    var b := Int8(n);
    Int8Value(n);
    assert b == b[..4] + b[4..];
    BigAppend(b[..4], b[4..]);
    BigBelow(b[4..]);
    PowerSixteen();
    PowerAdd(16, 16);
    var hi, lo := BigEndian(b[..4]), BigEndian(b[4..]);
    assert n % TWO64 == hi * TWO32 + lo && lo < TWO32;
    LowHalf(n, hi, lo);
  }

  lemma LowHalf(n: nat, hi: nat, lo: nat)
    requires n % TWO64 == hi * TWO32 + lo && lo < TWO32
    ensures n % TWO32 == lo
  {
    assert n == TWO64 * (n / TWO64) + hi * TWO32 + lo;
    assert n == TWO32 * (TWO32 * (n / TWO64) + hi) + lo;
  }
}
