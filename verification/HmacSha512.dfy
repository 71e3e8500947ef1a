// HMAC with SHA-512, as section 2 of RFC 2104 defines it, from two hashers that are fed the
// padded key when they are made.
module HmacSha512 {
  import opened Words
  import opened Bytes
  import opened Sha512

  function XorByte(a: Byte, b: Byte): Byte { seq(8, i requires 0 <= i < 8 => a[i] != b[i]) }

  /** 0x36 repeated is ipad, 0x5c repeated is opad. */
  const INNER: Byte := [false, true, true, false, true, true, false, false]

  const OUTER: Byte := [false, false, true, true, true, false, true, false]

  lemma PadNumbers()
    ensures Value(INNER) == 0x36 && Value(OUTER) == 0x5c
  {
    ByteValue(INNER);
    ByteValue(OUTER);
  }

  lemma ByteValue(b: Byte)
    ensures Value(b) == Digit(b[0]) + 2 * Digit(b[1]) + 4 * Digit(b[2]) + 8 * Digit(b[3])
                        + 16 * Digit(b[4]) + 32 * Digit(b[5]) + 64 * Digit(b[6]) + 128 * Digit(b[7])
  {
    assert Pow2(1) == 2 && Pow2(2) == 4 && Pow2(3) == 8 && Pow2(4) == 16;
    assert Pow2(5) == 32 && Pow2(6) == 64 && Pow2(7) == 128;
    ValueStep(b, 1);
    ValueStep(b, 2);
    ValueStep(b, 3);
    ValueStep(b, 4);
    ValueStep(b, 5);
    ValueStep(b, 6);
    ValueStep(b, 7);
    ValueStep(b, 8);
    assert b[..8] == b && b[..0] == [];
    hide Digit, Pow2;
  }

  function XorAll(k: seq<Byte>, b: Byte): (r: seq<Byte>)
    ensures |r| == |k|
  {
    seq(|k|, i requires 0 <= i < |k| => XorByte(k[i], b))
  }

  /** The key brought to the length of a block; a longer key is hashed first. */
  function BlockKey(key: seq<Byte>): (k: seq<Byte>)
    ensures |k| == 128
  {
    if |key| <= 128 then key + Zeros(128 - |key|) else Digest(key) + Zeros(64)
  }

  /** A key of up to a block is followed by zeros; a longer one acts like its digest. */
  lemma BlockKeyMeaning(key: seq<Byte>)
    ensures |key| <= 128 ==> BlockKey(key)[..|key|] == key && forall i | |key| <= i < 128 :: Value(BlockKey(key)[i]) == 0
    ensures |key| > 128 ==> BlockKey(key) == BlockKey(Digest(key))
  {
    hide Digest;
    ByteValue(NONE);
    hide Value;
  }

  /** Byte by byte, m is k with the bits of the number n turned over. */
  ghost predicate TurnedOver(k: seq<Byte>, m: seq<Byte>, n: nat) {
    |m| == |k| && forall i, j | 0 <= i < |k| && 0 <= j < 8 :: (m[i][j] != k[i][j]) == (n / Pow2(j) % 2 == 1)
  }

  lemma PadBits(k: seq<Byte>)
    ensures TurnedOver(k, XorAll(k, INNER), 0x36) && TurnedOver(k, XorAll(k, OUTER), 0x5c)
  {
    assert Pow2(0) == 1 && Pow2(1) == 2 && Pow2(2) == 4 && Pow2(3) == 8 && Pow2(4) == 16;
    assert Pow2(5) == 32 && Pow2(6) == 64 && Pow2(7) == 128;
    hide Pow2;
    forall j | 0 <= j < 8 ensures INNER[j] == (0x36 / Pow2(j) % 2 == 1) && OUTER[j] == (0x5c / Pow2(j) % 2 == 1) {
      match j { case 0 => case 1 => case 2 => case 3 => case 4 => case 5 => case 6 => case 7 => }
    }
    PadTurns(k, INNER, 0x36);
    PadTurns(k, OUTER, 0x5c);
  }

  lemma PadTurns(k: seq<Byte>, b: Byte, n: nat)
    requires forall j | 0 <= j < 8 :: b[j] == (n / Pow2(j) % 2 == 1)
    ensures TurnedOver(k, XorAll(k, b), n)
  {
    hide Pow2;
    forall i, j | 0 <= i < |k| && 0 <= j < 8 ensures XorAll(k, b)[i][j] == (k[i][j] != b[j]) {}
  }

  function Hmac(key: seq<Byte>, text: seq<Byte>): (d: seq<Byte>)
    ensures |d| == 64
  {
    var k := BlockKey(key);
    Digest(XorAll(k, OUTER) + Digest(XorAll(k, INNER) + text))
  }

  /** Turning an outer key byte into an inner one. */
  lemma XorAgain(a: Byte)
    ensures XorByte(XorByte(a, OUTER), XorByte(OUTER, INNER)) == XorByte(a, INNER)
  {
    forall i | 0 <= i < 8
      ensures XorByte(XorByte(a, OUTER), XorByte(OUTER, INNER))[i] == XorByte(a, INNER)[i]
    {
    }
  }

  /** Every byte of the block changed by the same value, in place. */
  method XorInPlace(rkey: array<Byte>, b: Byte)
    modifies rkey
    ensures rkey[..] == XorAll(old(rkey[..]), b)
  {
    hide XorByte;
    ghost var k := rkey[..];
    for n := 0 to rkey.Length
      invariant forall i | 0 <= i < n :: rkey[i] == XorByte(k[i], b)
      invariant forall i | n <= i < rkey.Length :: rkey[i] == k[i]
    {
      rkey[n] := XorByte(rkey[n], b);
    }
  }

  method MakeBlockKey(key: seq<Byte>) returns (k: seq<Byte>)
    ensures k == BlockKey(key)
  {
    hide Digest;
    if |key| <= 128 {
      k := key + Zeros(128 - |key|);
    } else {
      var hasher := new Hasher();
      hasher.Write(key);
      assert hasher.message == key;
      var d := hasher.Finalize();
      k := d + Zeros(64);
    }
  }

  class Authenticator {
    const outer: Hasher
    const inner: Hasher
    ghost const key: seq<Byte>
    ghost var text: seq<Byte>

    ghost predicate Apart() {
      outer != inner && outer.s != inner.s && outer.buf != inner.buf
    }

    ghost predicate Valid()
      reads this, outer, outer.s, outer.buf, inner, inner.s, inner.buf
    {
      && Apart() && outer.Valid() && inner.Valid()
      && outer.message == XorAll(BlockKey(key), OUTER)
      && inner.message == XorAll(BlockKey(key), INNER) + text
    }

    constructor (secret: seq<Byte>)
      ensures Valid() && key == secret && text == []
      ensures TurnedOver(BlockKey(secret), outer.message, 0x5c) && TurnedOver(BlockKey(secret), inner.message, 0x36)
      ensures fresh(outer) && fresh(outer.s) && fresh(outer.buf)
      ensures fresh(inner) && fresh(inner.s) && fresh(inner.buf)
    {
      hide BlockKey, XorByte, Hasher.Valid, TurnedOver;
      PadBits(BlockKey(secret));
      var o := new Hasher();
      var i := new Hasher();
      outer, inner, key, text := o, i, secret, [];
      new;
      var k := MakeBlockKey(secret);
      var rkey := new Byte[128](i requires 0 <= i < 128 => k[i]);
      assert rkey[..] == k;
      XorInPlace(rkey, OUTER);
      o.Write(rkey[..]);
      XorInPlace(rkey, XorByte(OUTER, INNER));
      forall n | 0 <= n < 128 ensures rkey[n] == XorByte(k[n], INNER) {
        XorAgain(k[n]);
      }
      i.Write(rkey[..]);
      assert outer.message == XorAll(BlockKey(secret), OUTER);
      assert inner.message == XorAll(BlockKey(secret), INNER);
    }

    method Write(data: seq<Byte>)
      requires Valid()
      modifies this`text, inner, inner.s, inner.buf
      ensures Valid() && text == old(text) + data
    {
      hide BlockKey, XorAll, Hasher.Valid;
      inner.Write(data);
      text := text + data;
    }

    /** The code of everything written. */
    method Finalize() returns (hash: seq<Byte>)
      requires Valid()
      modifies outer, outer.s, outer.buf, inner, inner.s, inner.buf
      ensures hash == Hmac(key, old(text))
    {
      hide BlockKey, XorAll, Digest, Padded, Hasher.Valid;
      var temp := inner.Finalize();
      outer.Write(temp);
      hash := outer.Finalize();
    }
  }
}
