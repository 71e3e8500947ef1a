// The sponge of section 4 of FIPS 202 with the pad10*1 rule, over bytes.
module KeccakSponge {
  import opened Words
  import opened Bytes
  import opened Numbers
  import opened KeccakSpec
  import opened Streams

  /** The place of a lane in the order in which message words are added: x + 5y. */
  function WordOrder(i: nat): (k: nat)
    requires i < 25
    ensures k < 25
  {
    i / 5 + 5 * (i % 5)
  }

  /** A block of message bytes added to the lanes it covers. */
  function Input(s: State, block: seq<Byte>): State {
    seq(25, i requires 0 <= i < 25 =>
      var k := WordOrder(i);
      if 8 * k + 8 <= |block| then Xor(s[i], LoadLE(block[8 * k..8 * k + 8])) else s[i])
  }

  function Absorb(s: State, block: seq<Byte>): State { F1600(Input(s, block)) }

  /** The state after the whole blocks of a message, `rate` bytes each. */
  function Absorbed(rate: nat, message: seq<Byte>): State
    requires rate > 0
  {
    Fold(Absorb, rate, rate, START, message)
  }

  /** The lane with number k in that order is A[k % 5, k / 5]. */
  function WordAt(k: nat): (i: nat)
    requires k < 25
    ensures i < 25
  {
    5 * (k % 5) + k / 5
  }

  /** The first `words` words of the state as bytes. */
  function Squeeze(s: State, words: nat): (b: seq<Byte>)
    requires words <= 25
    ensures |b| == 8 * words
  {
    if words == 0 then [] else Squeeze(s, words - 1) + StoreLE(s[WordAt(words - 1)])
  }

  /** The byte made of the n highest bits of ub followed by a one: bits 8 - n to 15 - n of 0x100 + ub. */
  function LastByte(ub: Byte, n: nat): Byte
    requires n < 8
  {
    var w := ub + [true];
    seq(8, j requires 0 <= j < 8 => j + 8 - n < 9 && w[j + 8 - n])
  }

  function WithTop(b: Byte): Byte { b[7 := true] }

  /** The bytes that end a message with `pending` bytes in its last block. */
  function Padding(rate: nat, pending: nat, ub: Byte, n: nat): seq<Byte>
    requires pending < rate && n < 8
  {
    if pending == rate - 1 then
      if n == 7 then [LastByte(ub, n)] + Zeros(rate - 1) + [TOP] else [WithTop(LastByte(ub, n))]
    else
      [LastByte(ub, n)] + Zeros(rate - pending - 2) + [TOP]
  }

  function Padded(rate: nat, message: seq<Byte>, ub: Byte, n: nat): seq<Byte>
    requires rate > 0 && n < 8
  {
    message + Padding(rate, |Rest(rate, rate, message)|, ub, n)
  }

  /** The digest of a message followed by the n highest bits of ub. */
  function Digest(rate: nat, size: nat, message: seq<Byte>, ub: Byte, n: nat): (d: seq<Byte>)
    requires rate > 0 && n < 8 && size <= 200
    ensures |d| == size
  {
    Squeeze(Absorbed(rate, Padded(rate, message, ub, n)), (size + 7) / 8)[..size]
  }

  lemma BitsBetween(a: Byte, n: nat, b: Byte)
    ensures Bits([a] + Zeros(n) + [b]) == a + ZeroBits(8 * n) + b
  {
    BitsAppend([a] + Zeros(n), [b]);
    BitsAppend([a], Zeros(n));
    BitsZeros(n);
    BitsOne(a);
    BitsOne(b);
  }

  lemma LastByteBits(ub: Byte, n: nat)
    requires n < 8
    ensures LastByte(ub, n) == ub[8 - n..] + [true] + ZeroBits(7 - n)
    ensures n < 7 ==> WithTop(LastByte(ub, n)) == ub[8 - n..] + [true] + ZeroBits(6 - n) + [true]
  {
  }

  /** The padding is the extra bits, a one, fewer than a block of zeros, and a one. */
  lemma PaddingBits(rate: nat, pending: nat, ub: Byte, n: nat) returns (zeros: nat)
    requires pending < rate && n < 8
    ensures Bits(Padding(rate, pending, ub, n)) == ub[8 - n..] + [true] + ZeroBits(zeros) + [true]
    ensures zeros < 8 * rate
  {
    LastByteBits(ub, n);
    var last := LastByte(ub, n);
    if pending == rate - 1 && n < 7 {
      zeros := 6 - n;
      BitsOne(WithTop(last));
    } else {
      var k := if pending == rate - 1 then rate - 1 else rate - pending - 2;
      zeros := (7 - n) + 8 * k + 7;
      BitsBetween(last, k, TOP);
      JoinZeros(ub[8 - n..] + [true], 7 - n, 8 * k);
    }
  }

  lemma JoinZeros(a: seq<bool>, m: nat, k: nat)
    ensures a + ZeroBits(m) + ZeroBits(k) + TOP == a + ZeroBits(m + k + 7) + [true]
  {
    assert TOP == ZeroBits(7) + [true];
  }

  lemma PaddingLength(rate: nat, pending: nat, ub: Byte, n: nat)
    requires pending < rate && n < 8
    ensures pending + |Padding(rate, pending, ub, n)| == if pending == rate - 1 && n == 7 then 2 * rate else rate
  {
    hide LastByte, WithTop;
  }

  lemma RestWhole(rate: nat, x: seq<Byte>)
    requires rate > 0 && (|x| == rate || |x| == 2 * rate)
    ensures Rest(rate, rate, x) == []
  {
    if |x| == 2 * rate {
      RestWhole(rate, x[rate..]);
    } else {
      assert x[rate..] == [];
    }
  }

  /** A padded message is a whole number of blocks. */
  lemma PaddedWhole(rate: nat, message: seq<Byte>, ub: Byte, n: nat)
    requires rate > 0 && n < 8
    ensures Rest(rate, rate, Padded(rate, message, ub, n)) == []
  {
    hide Padding, Rest, Fold;
    var r := Rest(rate, rate, message);
    PaddingLength(rate, |r|, ub, n);
    FoldAppend(Absorb, rate, rate, START, message, Padding(rate, |r|, ub, n));
    RestWhole(rate, r + Padding(rate, |r|, ub, n));
  }

  /** The bit string hashed for a message followed by n extra bits: pad10*1 and nothing else. */
  lemma PaddedBits(rate: nat, message: seq<Byte>, ub: Byte, n: nat) returns (zeros: nat)
    requires rate > 0 && n < 8
    ensures Bits(Padded(rate, message, ub, n)) == Bits(message) + ub[8 - n..] + [true] + ZeroBits(zeros) + [true]
    ensures zeros < 8 * rate
  {
    var r := Rest(rate, rate, message);
    zeros := PaddingBits(rate, |r|, ub, n);
    BitsAppend(message, Padding(rate, |r|, ub, n));
    assert Bits(message) + (ub[8 - n..] + [true] + ZeroBits(zeros) + [true])
        == Bits(message) + ub[8 - n..] + [true] + ZeroBits(zeros) + [true];
  }

  // ---- the state as a string of bits ----

  /** Bit z of lane A[x, y] takes bit 64(5y + x) + z of the block, as section 3.1.2 of FIPS 202 numbers them; what
      lies beyond the block stays. */
  lemma InputBits(s: State, block: seq<Byte>, x: nat, y: nat, z: nat)
    requires x < 5 && y < 5 && z < 64 && |block| % 8 == 0
    ensures var i := 64 * (5 * y + x) + z;
      && (i < 8 * |block| ==> i < |Bits(block)| && Input(s, block)[5 * x + y][z] == (s[5 * x + y][z] != Bits(block)[i]))
      && (i >= 8 * |block| ==> Input(s, block)[5 * x + y][z] == s[5 * x + y][z])
  {
    hide Bits, LoadLE, WordOrder, WordAt;
    LanePlace(x, y);
    var k := 5 * y + x;
    if 64 * k + z < 8 * |block| {
      assert 8 * k + 8 <= |block|;
      WordBits(block, k, z);
    }
  }

  lemma LanePlace(x: nat, y: nat)
    requires x < 5 && y < 5
    ensures 5 * x + y < 25 && WordOrder(5 * x + y) == 5 * y + x && WordAt(5 * y + x) == 5 * x + y
  {
    assert (5 * x + y) / 5 == x && (5 * x + y) % 5 == y;
    assert (5 * y + x) / 5 == y && (5 * y + x) % 5 == x;
  }

  lemma WordBits(block: seq<Byte>, k: nat, z: nat)
    requires 8 * k + 8 <= |block| && z < 64
    ensures 64 * k + z < |Bits(block)| && LoadLE(block[8 * k..8 * k + 8])[z] == Bits(block)[64 * k + z]
  {
    hide Bits;
    BitAt(block, 64 * k + z);
    BitPlace(k, z);
    assert block[8 * k..8 * k + 8][z / 8] == block[8 * k + z / 8];
  }

  lemma BitPlace(k: nat, z: nat)
    requires z < 64
    ensures (64 * k + z) / 8 == 8 * k + z / 8 && (64 * k + z) % 8 == z % 8
  {
  }

  /** The output takes the bits in the same order. */
  lemma SqueezeBits(s: State, words: nat, x: nat, y: nat, z: nat)
    requires x < 5 && y < 5 && z < 64 && 5 * y + x < words <= 25
    ensures var i := 64 * (5 * y + x) + z; i < |Bits(Squeeze(s, words))| && Bits(Squeeze(s, words))[i] == s[5 * x + y][z]
  {
    hide Bits, Squeeze, WordAt, WordOrder, LoadLE, StoreLE;
    LanePlace(x, y);
    var k := 5 * y + x;
    SqueezeAt(s, words, k);
    WordBits(Squeeze(s, words), k, z);
    StoreLoad(s[5 * x + y], StoreLE(s[5 * x + y]));
  }

  lemma {:induction false} SqueezeAt(s: State, words: nat, k: nat)
    requires k < words <= 25
    ensures Squeeze(s, words)[8 * k..8 * k + 8] == StoreLE(s[WordAt(k)])
  {
    hide StoreLE, WordAt;
    if k < words - 1 {
      SqueezeAt(s, words - 1, k);
      assert Squeeze(s, words)[8 * k..8 * k + 8] == Squeeze(s, words - 1)[8 * k..8 * k + 8];
    }
  }
}
