// The iteration and padding of BLAKE, sections 2.1.3 and 2.1.4 of the BLAKE specification
// (and their counterparts for the large variant), over any compression function.
module BlakeSpec {
  import opened Words
  import opened Bytes
  import opened Numbers
  import opened Streams
  import opened Blake

  /** The parts left open: compression of a block under a counter, and the digest. */
  datatype Algorithm<!H> = Algorithm(
    compress: (H, seq<Byte>, Counter) -> H,
    output: H -> seq<Byte>)

  function FieldBytes(v: Variant): nat { if v.Small? then 8 else 16 }

  /** A bit count as two words, each with the most significant byte first. */
  function LengthField(v: Variant, c: Counter): (b: seq<Byte>)
    ensures |b| == FieldBytes(v)
  {
    if v.Small? then Int4(c.t1) + Int4(c.t0) else Int8(c.t1) + Int8(c.t0)
  }

  /** The field spells the bit count modulo 2^64 or 2^128. */
  lemma LengthFieldValue(v: Variant, n: nat)
    ensures BigEndian(LengthField(v, Pair(v, n))) == n % (Modulus(v) * Modulus(v))
  {
    hide BigEndian, Int4, Int8;
    var c := Pair(v, n);
    if v.Small? { FourFour(c.t1, c.t0); TwoDigitsSmall(n); } else { EightEight(c.t1, c.t0); TwoDigitsBig(n); }
  }

  lemma FourFour(a: nat, b: nat)
    requires a < TWO32 && b < TWO32
    ensures BigEndian(Int4(a) + Int4(b)) == a * TWO32 + b
  {
    hide BigEndian, Pow2, Int4;
    BigAppend(Int4(a), Int4(b));
    Int4Value(a);
    Int4Value(b);
    PowerSixteen();
    PowerAdd(16, 16);
  }

  lemma EightEight(a: nat, b: nat)
    requires a < TWO64 && b < TWO64
    ensures BigEndian(Int8(a) + Int8(b)) == a * TWO64 + b
  {
    hide BigEndian, Pow2, Int8;
    BigAppend(Int8(a), Int8(b));
    Int8Value(a);
    Int8Value(b);
    PowerSixtyFour();
  }

  lemma TwoDigitsSmall(n: nat)
    ensures n % (TWO32 * TWO32) == n / TWO32 % TWO32 * TWO32 + n % TWO32
  {
  }

  lemma TwoDigitsBig(n: nat)
    ensures n % (TWO64 * TWO64) == n / TWO64 % TWO64 * TWO64 + n % TWO64
  {
  }

  /** The lowest bit of the last byte set for a full-size digest. */
  function MarkLast(x: seq<Byte>, full: bool): (y: seq<Byte>)
    requires |x| > 0
    ensures |y| == |x|
  {
    var b := x[|x| - 1];
    x[|x| - 1 := b[0 := b[0] || full]]
  }

  /** Whether the mark and the length still fit in the block that bitLen bits have begun. */
  predicate FitsBlock(v: Variant, bitLen: nat) { bitLen + 2 + 8 * FieldBytes(v) <= BlockBits(v) }

  /** The padding after `pending` bytes of a block and n bits, up to the length field. */
  function Filler(v: Variant, pending: nat, ub: Byte, n: nat, full: bool): seq<Byte>
    requires pending < BlockBytes(v) && n < 8
  {
    if FitsBlock(v, 8 * pending + n) then
      MarkLast([EndByte(ub, n)] + Zeros(BlockBytes(v) - FieldBytes(v) - 1 - pending), full)
    else
      [EndByte(ub, n)] + Zeros(BlockBytes(v) - 1 - pending)
      + MarkLast(Zeros(BlockBytes(v) - FieldBytes(v)), full)
  }

  function Total(message: seq<Byte>, n: nat): nat { 8 * |message| + n }

  function Padded(v: Variant, full: bool, message: seq<Byte>, ub: Byte, n: nat): seq<Byte>
    requires n < 8
  {
    message + (Filler(v, |Rest(BlockBytes(v), BlockBytes(v), message)|, ub, n, full)
               + LengthField(v, Pair(v, Total(message, n))))
  }

  /** The counter of the block after `done` bits: the message bits up to its end, or zero if it has none. */
  function Stamp(v: Variant, done: nat, total: nat): Counter {
    if total <= done then ZERO
    else if total < done + BlockBits(v) then Pair(v, total)
    else Pair(v, done + BlockBits(v))
  }

  /** The chain value after the blocks of x, which begin `done` bits into a message of `total` bits. */
  function Blocks<H>(v: Variant, alg: Algorithm<H>, h: H, x: seq<Byte>, done: nat, total: nat): H
    decreases |x|
  {
    if |x| < BlockBytes(v) then h
    else Blocks(v, alg, alg.compress(h, x[..BlockBytes(v)], Stamp(v, done, total)),
                x[BlockBytes(v)..], done + BlockBits(v), total)
  }

  /** The digest of a message followed by the n highest bits of ub. */
  function Digest<H>(v: Variant, alg: Algorithm<H>, full: bool, h: H, message: seq<Byte>, ub: Byte, n: nat): seq<Byte>
    requires n < 8
  {
    alg.output(Blocks(v, alg, h, Padded(v, full, message, ub, n), 0, Total(message, n)))
  }

  function Msb(b: Byte): Byte { seq(8, i requires 0 <= i < 8 => b[7 - i]) }

  function Mirrored(b: seq<Byte>): seq<Byte> { seq(|b|, i requires 0 <= i < |b| => Msb(b[i])) }

  /** The bits of bytes one after the other, most significant first. */
  function MsbBits(b: seq<Byte>): (r: seq<bool>)
    ensures |r| == 8 * |b|
  {
    BitsLength(Mirrored(b));
    Bits(Mirrored(b))
  }

  lemma MsbAppend(a: seq<Byte>, b: seq<Byte>)
    ensures MsbBits(a + b) == MsbBits(a) + MsbBits(b)
  {
    hide Msb, Bits;
    assert Mirrored(a + b) == Mirrored(a) + Mirrored(b);
    BitsAppend(Mirrored(a), Mirrored(b));
  }

  lemma MsbOne(b: Byte)
    ensures MsbBits([b]) == Msb(b)
  {
    hide Msb, Bits;
    assert Mirrored([b]) == [Msb(b)];
    BitsOne(Msb(b));
  }

  lemma MsbZeros(n: nat)
    ensures MsbBits(Zeros(n)) == ZeroBits(8 * n)
  {
    hide Bits;
    assert Msb(NONE) == NONE;
    assert Mirrored(Zeros(n)) == Zeros(n);
    BitsZeros(n);
  }

  /** The mark is the last bit. */
  lemma MsbMark(x: seq<Byte>, full: bool)
    requires |x| > 0
    ensures MsbBits(MarkLast(x, full)) == MsbBits(x)[8 * |x| - 1 := MsbBits(x)[8 * |x| - 1] || full]
  {
    hide MsbBits;
    var k := |x| - 1;
    var b := x[k];
    var c := b[0 := b[0] || full];
    assert x == x[..k] + [b] && MarkLast(x, full) == x[..k] + [c];
    MsbAppend(x[..k], [b]);
    MsbAppend(x[..k], [c]);
    MsbOne(b);
    MsbOne(c);
  }

  lemma EndByteBits(ub: Byte, n: nat)
    requires n < 8
    ensures Msb(EndByte(ub, n)) == Msb(ub)[..n] + [true] + ZeroBits(7 - n)
  {
  }

  lemma LeadBits(ub: Byte, n: nat, k: nat)
    requires n < 8
    ensures MsbBits([EndByte(ub, n)] + Zeros(k)) == Msb(ub)[..n] + [true] + ZeroBits(7 - n + 8 * k)
  {
    hide EndByte, Msb, MsbBits;
    MsbAppend([EndByte(ub, n)], Zeros(k));
    MsbOne(EndByte(ub, n));
    MsbZeros(k);
    EndByteBits(ub, n);
    assert ZeroBits(7 - n) + ZeroBits(8 * k) == ZeroBits(7 - n + 8 * k);
  }

  lemma MarkZeros(a: seq<bool>, m: nat, full: bool)
    requires m > 0
    ensures var x := a + ZeroBits(m); x[|x| - 1 := x[|x| - 1] || full] == a + ZeroBits(m - 1) + [full]
  {
  }

  lemma MarkedLead(ub: Byte, n: nat, k: nat, full: bool)
    requires n < 8 && 7 - n + 8 * k > 0
    ensures MsbBits(MarkLast([EndByte(ub, n)] + Zeros(k), full))
         == Msb(ub)[..n] + [true] + ZeroBits(7 - n + 8 * k - 1) + [full]
  {
    hide EndByte, Msb, MarkLast, MsbBits, ZeroBits;
    LeadBits(ub, n, k);
    MsbMark([EndByte(ub, n)] + Zeros(k), full);
    MarkZeros(Msb(ub)[..n] + [true], 7 - n + 8 * k, full);
  }

  lemma MarkedSecond(ub: Byte, n: nat, k: nat, l: nat, full: bool)
    requires n < 8 && l > 0
    ensures MsbBits([EndByte(ub, n)] + Zeros(k) + MarkLast(Zeros(l), full))
         == Msb(ub)[..n] + [true] + ZeroBits(7 - n + 8 * k + 8 * l - 1) + [full]
  {
    hide EndByte, Msb, MarkLast, MsbBits, ZeroBits;
    LeadBits(ub, n, k);
    MsbAppend([EndByte(ub, n)] + Zeros(k), MarkLast(Zeros(l), full));
    MsbZeros(l);
    MsbMark(Zeros(l), full);
    MarkZeros([], 8 * l, full);
    assert [] + ZeroBits(8 * l) == ZeroBits(8 * l);
    JoinBits(Msb(ub)[..n] + [true], 7 - n + 8 * k, 8 * l - 1, full);
  }

  /** The filler is the extra bits, a one, zeros, and the mark. */
  lemma FillerBits(v: Variant, pending: nat, ub: Byte, n: nat, full: bool) returns (zeros: nat)
    requires pending < BlockBytes(v) && n < 8
    ensures MsbBits(Filler(v, pending, ub, n, full)) == Msb(ub)[..n] + [true] + ZeroBits(zeros) + [full]
    ensures zeros < BlockBits(v)
  {
    hide EndByte, Msb, MarkLast, MsbBits, ZeroBits;
    if FitsBlock(v, 8 * pending + n) {
      var k := BlockBytes(v) - FieldBytes(v) - 1 - pending;
      zeros := 7 - n + 8 * k - 1;
      MarkedLead(ub, n, k, full);
    } else {
      var k, l := BlockBytes(v) - 1 - pending, BlockBytes(v) - FieldBytes(v);
      zeros := 7 - n + 8 * k + 8 * l - 1;
      MarkedSecond(ub, n, k, l, full);
    }
  }

  lemma JoinBits(a: seq<bool>, m: nat, k: nat, full: bool)
    ensures a + ZeroBits(m) + ([] + ZeroBits(k) + [full]) == a + ZeroBits(m + k) + [full]
  {
  }

  /** The filler leaves exactly the room of the length field in its last block. */
  lemma FillerLength(v: Variant, pending: nat, ub: Byte, n: nat, full: bool)
    requires pending < BlockBytes(v) && n < 8
    ensures pending + |Filler(v, pending, ub, n, full)| + FieldBytes(v)
         == if FitsBlock(v, 8 * pending + n) then BlockBytes(v) else 2 * BlockBytes(v)
  {
    hide EndByte;
  }
}
