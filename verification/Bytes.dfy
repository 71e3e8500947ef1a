// Strings of bytes and of their bits, and the counters that run along with them.
module Bytes {
  import opened Words

  const NONE: Byte := [false, false, false, false, false, false, false, false]

  /** The byte 0x80. */
  const TOP: Byte := [false, false, false, false, false, false, false, true]

  function Zeros(n: nat): seq<Byte> { seq(n, _ => NONE) }

  type Digest32 = d: seq<Byte> | |d| == 32 witness seq(32, _ => seq(8, _ => false))

  const TWO32: nat := 0x1_0000_0000

  const TWO64: nat := 0x1_0000_0000_0000_0000

  /** A count as a 64-bit counter holds it. */
  function Wrap(n: nat): (m: nat)
    ensures m < TWO64
  {
    n % TWO64
  }

  lemma WrapAdd(n: nat, k: nat)
    ensures Wrap(Wrap(n) + k) == Wrap(n + k)
  {
  }

  /** A 32-bit number, most significant byte first. */
  function Int4(n: nat): (b: seq<Byte>)
    ensures |b| == 4
  {
    StoreBE(FromNat(n))[4..]
  }

  /** A 64-bit number, most significant byte first. */
  function Int8(n: nat): (b: seq<Byte>)
    ensures |b| == 8
  {
    StoreBE(FromNat(n))
  }

  /** The n highest bits of ub, a one, and zeros. */
  function EndByte(ub: Byte, n: nat): Byte
    requires n < 8
  {
    seq(8, k requires 0 <= k < 8 => (k > 7 - n && ub[k]) || k == 7 - n)
  }

  /** The bits of bytes one after the other, least significant first. */
  function Bits(b: seq<Byte>): seq<bool> {
    if b == [] then [] else b[0] + Bits(b[1..])
  }

  function ZeroBits(n: nat): seq<bool> { seq(n, _ => false) }

  lemma {:induction false} BitsAppend(a: seq<Byte>, b: seq<Byte>)
    ensures Bits(a + b) == Bits(a) + Bits(b)
    decreases |a|
  {
    if a == [] {
      assert a + b == b;
    } else {
      assert (a + b)[0] == a[0] && (a + b)[1..] == a[1..] + b;
      BitsAppend(a[1..], b);
    }
  }

  lemma BitsOne(b: Byte)
    ensures Bits([b]) == b
  {
    assert [b][1..] == [];
  }

  lemma {:induction false} BitsLength(x: seq<Byte>)
    ensures |Bits(x)| == 8 * |x|
  {
    if x != [] { BitsLength(x[1..]); }
  }

  lemma {:induction false} BitsZeros(n: nat)
    ensures Bits(Zeros(n)) == ZeroBits(8 * n)
  {
    if n > 0 {
      assert Zeros(n)[1..] == Zeros(n - 1);
      BitsZeros(n - 1);
      assert NONE + ZeroBits(8 * (n - 1)) == ZeroBits(8 * n);
    }
  }
}
