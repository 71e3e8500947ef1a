// PBKDF2 (section 5.2 of RFC 8018) with HMAC (section 2 of RFC 2104) over any hash with
// 64-byte blocks and 32-byte digests.
module Pbkdf2 {
  import opened Words
  import opened Bytes
  import opened HmacSha512

  type Hash = seq<Byte> -> Digest32

  /** The key brought to the length of a block; a longer key is hashed first. */
  function KeyBlock(hash: Hash, key: seq<Byte>): (k: seq<Byte>)
    ensures |k| == 64
  {
    if |key| <= 64 then key + Zeros(64 - |key|) else hash(key) + Zeros(32)
  }

  /** A key of up to a block is followed by zeros; a longer one acts like its digest. */
  lemma KeyBlockMeaning(hash: Hash, key: seq<Byte>)
    ensures |key| <= 64 ==> KeyBlock(hash, key)[..|key|] == key && forall i | |key| <= i < 64 :: Value(KeyBlock(hash, key)[i]) == 0
    ensures |key| > 64 ==> KeyBlock(hash, key) == KeyBlock(hash, hash(key))
  {
    ByteValue(NONE);
    hide Value;
  }

  function Hmac256(hash: Hash, key: seq<Byte>, text: seq<Byte>): Digest32 {
    var k := KeyBlock(hash, key);
    hash(XorAll(k, OUTER) + hash(XorAll(k, INNER) + text))
  }

  /** Two hash computations under way, by the bytes they have been fed. */
  datatype Running = Running(inner: seq<Byte>, outer: seq<Byte>)

  lemma XorNone(b: Byte)
    ensures XorByte(NONE, b) == b
  {
    forall i | 0 <= i < 8 ensures XorByte(NONE, b)[i] == b[i] {}
  }

  lemma XorSwap(a: Byte, b: Byte)
    ensures XorByte(a, b) == XorByte(b, a)
  {
  }

  /** A block of one byte value, with the key added from the front. */
  method PadKey(k: seq<Byte>, b: Byte) returns (pad: seq<Byte>)
    requires |k| <= 64
    ensures pad == XorAll(k + Zeros(64 - |k|), b)
  {
    hide XorByte;
    var a := new Byte[64](_ => b);
    for i := 0 to |k|
      invariant forall n | 0 <= n < i :: a[n] == XorByte(b, k[n])
      invariant forall n | i <= n < 64 :: a[n] == b
    {
      a[i] := XorByte(a[i], k[i]);
    }
    pad := a[..];
    forall n | 0 <= n < 64 ensures pad[n] == XorAll(k + Zeros(64 - |k|), b)[n] {
      if n < |k| { XorSwap(b, k[n]); } else { XorNone(b); }
    }
  }

  ghost predicate Keyed(hash: Hash, key: seq<Byte>, text: seq<Byte>, r: Running) {
    && r.inner == XorAll(KeyBlock(hash, key), INNER) + text
    && r.outer == XorAll(KeyBlock(hash, key), OUTER)
  }

  method HmacInit(hash: Hash, key: seq<Byte>) returns (r: Running)
    ensures Keyed(hash, key, [], r)
    ensures TurnedOver(KeyBlock(hash, key), r.outer, 0x5c) && TurnedOver(KeyBlock(hash, key), r.inner, 0x36)
  {
    hide TurnedOver;
    PadBits(KeyBlock(hash, key));
    var k := key;
    if |key| > 64 {
      k := hash(key);
    }
    var inner := PadKey(k, INNER);
    var outer := PadKey(k, OUTER);
    r := Running(inner, outer);
  }

  method HmacUpdate(hash: Hash, r: Running, data: seq<Byte>, ghost key: seq<Byte>, ghost text: seq<Byte>) returns (q: Running)
    requires Keyed(hash, key, text, r)
    ensures Keyed(hash, key, text + data, q)
  {
    hide KeyBlock, XorAll;
    q := r.(inner := r.inner + data);
  }

  method HmacFinal(hash: Hash, r: Running, ghost key: seq<Byte>, ghost text: seq<Byte>) returns (d: Digest32)
    requires Keyed(hash, key, text, r)
    ensures d == Hmac256(hash, key, text)
  {
    d := hash(r.outer + hash(r.inner));
  }

  function XorDigest(a: Digest32, b: Digest32): Digest32 {
    seq(32, i requires 0 <= i < 32 => XorByte(a[i], b[i]))
  }

  /** U_j of block i. */
  function U(hash: Hash, passwd: seq<Byte>, salt: seq<Byte>, i: nat, j: nat): Digest32
    requires j >= 1
  {
    Hmac256(hash, passwd, if j == 1 then salt + Int4(i) else U(hash, passwd, salt, i, j - 1))
  }

  /** The sum of U_1 to U_c of block i. */
  function T(hash: Hash, passwd: seq<Byte>, salt: seq<Byte>, c: nat, i: nat): Digest32
    requires c >= 1
  {
    if c == 1 then U(hash, passwd, salt, i, 1)
    else XorDigest(T(hash, passwd, salt, c - 1, i), U(hash, passwd, salt, i, c))
  }

  /** T_1 to T_n one after the other. */
  function Stream(hash: Hash, passwd: seq<Byte>, salt: seq<Byte>, c: nat, n: nat): (s: seq<Byte>)
    requires c >= 1
    ensures |s| == 32 * n
  {
    if n == 0 then [] else Stream(hash, passwd, salt, c, n - 1) + T(hash, passwd, salt, c, n)
  }

  /** The derived key: the first dkLen bytes of the stream. */
  function Derived(hash: Hash, passwd: seq<Byte>, salt: seq<Byte>, c: nat, dkLen: nat): (dk: seq<Byte>)
    requires c >= 1
    ensures |dk| == dkLen
  {
    Stream(hash, passwd, salt, c, (dkLen + 31) / 32)[..dkLen]
  }

  /** T ^= U, byte by byte. */
  method XorDigests(a: Digest32, b: Digest32) returns (r: Digest32)
    ensures r == XorDigest(a, b)
  {
    hide XorByte;
    var t := new Byte[32](i requires 0 <= i < 32 => a[i]);
    for k := 0 to 32
      invariant forall n | 0 <= n < k :: t[n] == XorByte(a[n], b[n])
      invariant forall n | k <= n < 32 :: t[n] == a[n]
    {
      t[k] := XorByte(t[k], b[k]);
    }
    r := t[..];
  }

  /** One block of the stream; an iteration count of 0 works like 1. */
  method BlockOf(hash: Hash, passwd: seq<Byte>, salt: seq<Byte>, c: nat, i: nat, start: Running) returns (t: Digest32)
    requires Keyed(hash, passwd, salt, start) && i + 1 < TWO32
    ensures t == T(hash, passwd, salt, if c == 0 then 1 else c, i + 1)
  {
    hide Hmac256, Int4, XorDigest, Keyed;
    var h := HmacUpdate(hash, start, Int4((i + 1) % TWO32), passwd, salt);
    var u := HmacFinal(hash, h, passwd, salt + Int4(i + 1));
    t := u;
    var j := 2;
    while j <= c
      invariant 2 <= j && (j <= c + 1 || c <= 1)
      invariant u == U(hash, passwd, salt, i + 1, j - 1)
      invariant t == T(hash, passwd, salt, j - 1, i + 1)
      invariant c <= 1 ==> j == 2
    {
      h := HmacInit(hash, passwd);
      h := HmacUpdate(hash, h, u, passwd, []);
      assert [] + u == u;
      u := HmacFinal(hash, h, passwd, u);
      t := XorDigests(t, u);
      j := j + 1;
    }
  }

  /** The derived key for every length the format allows. */
  method Derive(hash: Hash, passwd: seq<Byte>, salt: seq<Byte>, c: nat, dkLen: nat) returns (buf: seq<Byte>)
    requires dkLen <= 32 * (TWO32 - 1)
    ensures buf == Derived(hash, passwd, salt, if c == 0 then 1 else c, dkLen)
  {
    hide T, Keyed;
    var start := HmacInit(hash, passwd);
    start := HmacUpdate(hash, start, salt, passwd, []);
    assert [] + salt == salt;
    ghost var n := if c == 0 then 1 else c;
    buf := [];
    var i := 0;
    while i * 32 < dkLen
      invariant i * 32 < dkLen + 32
      invariant buf == Stream(hash, passwd, salt, n, i)[..if i * 32 <= dkLen then i * 32 else dkLen]
    {
      var t := BlockOf(hash, passwd, salt, c, i, start);
      var clen := dkLen - i * 32;
      if clen > 32 {
        clen := 32;
      }
      assert Stream(hash, passwd, salt, n, i + 1) == buf + t;
      buf := buf + t[..clen];
      i := i + 1;
    }
    assert i == (dkLen + 31) / 32;
  }
}
