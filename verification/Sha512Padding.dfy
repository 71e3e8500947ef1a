// The padding the hasher writes against section 5.1.2 of FIPS 180-4.  The size field is
// 128 bits wide there and 64 bits wide here.
module Sha512Padding {
  import opened Words
  import opened Bytes
  import opened Numbers
  import opened Sha512

  /** A bit count as two 64-bit words, the high one first. */
  function LengthField(bits: nat): seq<Byte> {
    StoreBE(FromNat(bits / TWO64)) + StoreBE(FromNat(bits))
  }

  /** A one bit, the fewest zeros that leave room for the length at the end of a block, the length. */
  ghost predicate StandardPadding(length: nat, p: seq<Byte>) {
    exists z | 0 <= z < 128 :: Position(length + 1 + z) == 112 && p == [TOP] + Zeros(z) + LengthField(8 * length)
  }

  lemma PadPlace(n: nat)
    ensures Position(n + PadLength(n)) == 112
  {
    var p := Position(n);
    if p < 112 { assert PadLength(n) == 112 - p; } else { assert PadLength(n) == 240 - p; }
  }

  /** A number whose low digits are all zero is a multiple of the power of two above them. */
  lemma {:induction false} ZeroDigits(q: nat, i: nat)
    requires i <= 64 && forall j | 0 <= j < i :: !FromNat(q)[j]
    ensures q == q / Pow2(i) * Pow2(i)
  {
    if i > 0 {
      ZeroDigits(q, i - 1);
      var p := Pow2(i - 1);
      HalfOf(q, p);
      assert !FromNat(q)[i - 1];
      assert q / p == 2 * (q / p / 2);
      assert q == q / (2 * p) * (2 * p);
    }
  }

  /** Only zero has 64 zero digits, among the numbers that fit. */
  lemma ZeroWord(q: nat)
    requires q < TWO64
    ensures StoreBE(FromNat(q)) == Zeros(8) <==> q == 0
  {
    PowerSixtyFour();
    if q == 0 {
      ZeroEncodes();
    } else if StoreBE(FromNat(q)) == Zeros(8) {
      EncodesZero(FromNat(q));
      ZeroDigits(q, 64);
      QuotientIs(q, TWO64, 0, q);
    }
  }

  lemma ZeroEncodes()
    ensures StoreBE(FromNat(0)) == Zeros(8)
  {
    var w := FromNat(0);
    assert forall i | 0 <= i < 64 :: !w[i];
    assert forall k | 0 <= k < 8 :: StoreLE(w)[k] == NONE;
  }

  lemma EncodesZero(w: Word)
    requires StoreBE(w) == Zeros(8)
    ensures forall i | 0 <= i < 64 :: !w[i]
  {
    var l := StoreLE(w);
    var z := Zeros(8);
    assert l[7] == StoreBE(w)[0] && l[6] == StoreBE(w)[1] && l[5] == StoreBE(w)[2] && l[4] == StoreBE(w)[3];
    assert l[3] == StoreBE(w)[4] && l[2] == StoreBE(w)[5] && l[1] == StoreBE(w)[6] && l[0] == StoreBE(w)[7];
    assert forall k | 0 <= k < 8 :: l[k] == NONE;
    forall i | 0 <= i < 64 ensures !w[i] {
      assert l[i / 8][i % 8] == w[8 * (i / 8) + i % 8];
    }
  }

  /** The padding is the standard's exactly for messages below 2^61 bytes. */
  lemma PaddingMeetsStandard(length: nat)
    requires 8 * length / TWO64 < TWO64
    ensures StandardPadding(length, Padding(length)) <==> 8 * length < TWO64
  {
    hide FromNat, StoreBE, Position;
    var q := 8 * length / TWO64;
    ZeroWord(q);
    PadPlace(length);
    PadPosition(length);
    var z := PadLength(length) - 1;
    var p := Padding(length);
    if 8 * length < TWO64 {
      FitsWrap(length);
      assert q == 0;
      assert p == [TOP] + Zeros(z) + LengthField(8 * length);
      assert length + 1 + z == length + PadLength(length);
    } else {
      assert q > 0;
      forall y | 0 <= y < 128 && p == [TOP] + Zeros(y) + LengthField(8 * length) ensures false {
        SameField(z, y, SizeField(length), LengthField(8 * length));
      }
    }
  }

  /** The shortest message for which it is not. */
  lemma PaddingFails()
    ensures !StandardPadding(0x2000_0000_0000_0000, Padding(0x2000_0000_0000_0000))
  {
    PaddingMeetsStandard(0x2000_0000_0000_0000);
  }

  lemma FitsWrap(length: nat)
    requires 8 * length < TWO64
    ensures Wrap(length) == length
  {
  }

  /** Two paddings of equal total length end in equal fields. */
  lemma SameField(m: nat, n: nat, a: seq<Byte>, b: seq<Byte>)
    requires |a| == |b| == 16
    requires [TOP] + Zeros(m) + a == [TOP] + Zeros(n) + b
    ensures a == b
    ensures a[..8] == b[..8]
  {
    var x := [TOP] + Zeros(m) + a;
    assert x[m + 1..] == a;
    assert |x| == 1 + m + 16 == 1 + n + 16;
    assert ([TOP] + Zeros(n) + b)[n + 1..] == b;
  }
}
