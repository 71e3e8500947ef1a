// Skein-512 over any tweakable compression function: the buffer that may hold a full block,
// and the tweak of each block, against section 3.4 of the Skein specification.
module Skein {
  import opened Words
  import opened Bytes
  import opened Streams

  const TWO58: nat := 0x400_0000_0000_0000

  /** The parts left open: the compression of a block under the two position words and the upper
      tweak bits, and the output of a chain value. */
  datatype Algorithm<!H> = Algorithm(
    compress: (H, seq<Byte>, nat, nat, nat) -> H,
    output: H -> seq<Byte>)

  function ToBlock(x: seq<Byte>): (b: seq<Byte>)
    requires |x| <= 64
    ensures |b| == 64
  {
    x + Zeros(64 - |x|)
  }

  function Flag(b: bool): nat { if b then 1 else 0 }

  /** The upper tweak bits: final flag, first flag, block type, bit-padding flag. */
  function Upper(final: bool, first: bool, kind: nat, padded: bool): nat {
    256 * Flag(final) + 128 * Flag(first) + 2 * kind + Flag(padded)
  }

  const MESSAGE: nat := 48

  const OUTPUT: nat := 63

  /** Compression with the position in bytes as one number. */
  function Compress<H>(alg: Algorithm<H>, h: H, block: seq<Byte>, position: nat, upper: nat): H {
    alg.compress(h, block, position % TWO64, position / TWO64, upper)
  }

  /** The chain value after the message bytes x that follow `done` bytes: the first block flagged
      first, the last one final, zero-filled and at position `last`, every other one at its end. */
  function ChainTo<H>(alg: Algorithm<H>, h: H, done: nat, x: seq<Byte>, padded: bool, last: nat): H
    decreases |x|
  {
    if |x| <= 64 then
      Compress(alg, h, ToBlock(x), last, Upper(true, done == 0, MESSAGE, padded))
    else
      ChainTo(alg, Compress(alg, h, x[..64], done + 64, Upper(false, done == 0, MESSAGE, false)), done + 64, x[64..], padded, last)
  }

  function WithBits(message: seq<Byte>, ub: Byte, n: nat): seq<Byte>
    requires n < 8
  {
    if n == 0 then message else message + [EndByte(ub, n)]
  }

  /** The output block: the counter zero in eight bytes. */
  function Output<H>(alg: Algorithm<H>, h: H): seq<Byte> {
    alg.output(Compress(alg, h, Zeros(64), 8, Upper(true, true, OUTPUT, false)))
  }

  /** The digest with the last block at a given position. */
  function DigestTo<H>(alg: Algorithm<H>, start: H, message: seq<Byte>, ub: Byte, n: nat, last: nat): seq<Byte>
    requires n < 8
  {
    Output(alg, ChainTo(alg, start, 0, WithBits(message, ub, n), n != 0, last))
  }

  /** The digest of the specification: the last block ends where the message ends. */
  function Digest<H>(alg: Algorithm<H>, start: H, message: seq<Byte>, ub: Byte, n: nat): seq<Byte>
    requires n < 8
  {
    DigestTo(alg, start, message, ub, n, |WithBits(message, ub, n)|)
  }

  /** The position the last block is given: its end, less 2^64 when a carry is lost. */
  function LastPosition(total: nat): nat {
    if total > 0 && total % TWO64 == 0 then total - TWO64 else total
  }

  /** The position words as they are made from a block count and the bytes of a last block. */
  function LowWord(blocks: nat, extra: nat): nat { (64 * blocks % TWO64 + extra) % TWO64 }

  function HighWord(blocks: nat): nat { blocks / TWO58 }

  /** The low word is always right; the high word exactly when adding the last bytes does not carry.
      Together they are the position above. */
  lemma WordsExact(blocks: nat, extra: nat)
    requires extra <= 64
    ensures LowWord(blocks, extra) == (64 * blocks + extra) % TWO64
    ensures HighWord(blocks) == (64 * blocks + extra) / TWO64 <==> 64 * blocks % TWO64 + extra < TWO64
    ensures 64 * blocks % TWO64 + extra < TWO64 <==> (64 * blocks + extra) % TWO64 != 0 || extra == 0
    ensures extra > 0 || blocks == 0 ==>
      var p := LastPosition(64 * blocks + extra); LowWord(blocks, extra) == p % TWO64 && HighWord(blocks) == p / TWO64
  {
    var q, r := blocks / TWO58, blocks % TWO58;
    assert 64 * blocks == TWO64 * q + 64 * r;
    assert 64 * blocks % TWO64 == 64 * r && 64 * blocks / TWO64 == q;
    if 64 * r + extra < TWO64 {
      assert (64 * blocks + extra) / TWO64 == q && (64 * blocks + extra) % TWO64 == 64 * r + extra;
    } else {
      assert extra == 64 && 64 * blocks + extra == TWO64 * (q + 1);
      assert (TWO64 * (q + 1) - TWO64) / TWO64 == q;
    }
  }

  /** A last full block that ends at byte 2^64 is given position 0. */
  lemma PositionLosesCarry()
    ensures LowWord(TWO58 - 1, 64) == 0 && HighWord(TWO58 - 1) == 0
    ensures 64 * (TWO58 - 1) + 64 == TWO64
  {
  }

  /** The chain value and the number of blocks compressed. */
  datatype Link<H> = Link(h: H, blocks: nat)

  function Advance<H>(alg: Algorithm<H>): (Link<H>, seq<Byte>) -> Link<H> {
    (c: Link<H>, block: seq<Byte>) =>
      Link(Compress(alg, c.h, block, 64 * (c.blocks + 1), Upper(false, c.blocks == 0, MESSAGE, false)), c.blocks + 1)
  }

  const HOLD: nat := 65

  function Linked<H>(alg: Algorithm<H>, start: H, data: seq<Byte>): Link<H> {
    Fold(Advance(alg), 64, HOLD, Link(start, 0), data)
  }

  function Held(data: seq<Byte>): (r: seq<Byte>)
    ensures |r| <= 64
  {
    Rest(64, HOLD, data)
  }

  lemma ChainStep<H>(alg: Algorithm<H>, h: H, done: nat, x: seq<Byte>, padded: bool, last: nat)
    requires |x| > 64
    ensures ChainTo(alg, h, done, x, padded, last)
         == ChainTo(alg, Compress(alg, h, x[..64], done + 64, Upper(false, done == 0, MESSAGE, false)), done + 64, x[64..], padded, last)
  {
    hide Compress, Upper, ToBlock;
  }

  /** Compressing every block that cannot be the last leaves the result as it was. */
  lemma {:induction false} ChainFold<H>(alg: Algorithm<H>, c: Link<H>, x: seq<Byte>, padded: bool, last: nat)
    ensures var e := Fold(Advance(alg), 64, HOLD, c, x);
            ChainTo(alg, c.h, 64 * c.blocks, x, padded, last)
            == ChainTo(alg, e.h, 64 * e.blocks, Rest(64, HOLD, x), padded, last)
    decreases |x|
  {
    hide ChainTo, Compress, Upper;
    if |x| >= HOLD {
      ChainStep(alg, c.h, 64 * c.blocks, x, padded, last);
      var d := Link(Compress(alg, c.h, x[..64], 64 * (c.blocks + 1), Upper(false, c.blocks == 0, MESSAGE, false)), c.blocks + 1);
      assert d == Advance(alg)(c, x[..64]);
      assert 64 * d.blocks == 64 * c.blocks + 64 && (64 * c.blocks == 0 <==> c.blocks == 0);
      assert Fold(Advance(alg), 64, HOLD, c, x) == Fold(Advance(alg), 64, HOLD, d, x[64..]);
      assert Rest(64, HOLD, x) == Rest(64, HOLD, x[64..]);
      ChainFold(alg, d, x[64..], padded, last);
    }
  }

  /** After any message but the empty one, between 1 and 64 bytes are held, and all are accounted for. */
  lemma {:induction false} HeldBytes<H>(alg: Algorithm<H>, c: Link<H>, x: seq<Byte>)
    ensures x != [] ==> 1 <= |Rest(64, HOLD, x)| <= 64
    ensures 64 * Fold(Advance(alg), 64, HOLD, c, x).blocks + |Rest(64, HOLD, x)| == 64 * c.blocks + |x|
    decreases |x|
  {
    hide Compress, Upper;
    if |x| >= HOLD { HeldBytes(alg, Advance(alg)(c, x[..64]), x[64..]); }
  }

  /** One block compressed when more than a block is at hand. */
  lemma FoldStep<H>(alg: Algorithm<H>, c: Link<H>, full: seq<Byte>, y: seq<Byte>)
    requires |full| == 64 && |y| > 0
    ensures Fold(Advance(alg), 64, HOLD, c, full + y) == Fold(Advance(alg), 64, HOLD, Advance(alg)(c, full), y)
    ensures Rest(64, HOLD, full + y) == Rest(64, HOLD, y)
  {
    assert (full + y)[..64] == full && (full + y)[64..] == y;
  }

  lemma EmptyBlock()
    ensures ToBlock([]) == Zeros(64)
  {
  }

  /** The compression of the last block as it is called. */
  lemma FinalWords<H>(alg: Algorithm<H>, h: H, blocks: nat, x: seq<Byte>, padded: bool)
    requires |x| <= 64 && (x != [] || blocks == 0)
    ensures var et := 352 + (if blocks == 0 then 128 else 0) + (if padded then 1 else 0);
            alg.compress(h, ToBlock(x), LowWord(blocks, |x|), HighWord(blocks), et)
            == ChainTo(alg, h, 64 * blocks, x, padded, LastPosition(64 * blocks + |x|))
  {
    hide LowWord, HighWord, ToBlock, LastPosition;
    WordsExact(blocks, |x|);
    assert 352 + (if blocks == 0 then 128 else 0) + (if padded then 1 else 0)
        == Upper(true, 64 * blocks == 0, MESSAGE, padded);
  }

  lemma OutputWords<H>(alg: Algorithm<H>, h: H)
    ensures alg.output(alg.compress(h, Zeros(64), LowWord(0, 8), HighWord(0), 510)) == Output(alg, h)
  {
    hide Zeros;
    assert Upper(true, true, OUTPUT, false) == 510;
    assert LowWord(0, 8) == 8 % TWO64 && HighWord(0) == 8 / TWO64;
  }

  class Context<H(0)> {
    const alg: Algorithm<H>
    const buf: array<Byte>
    var h: H
    var bcount: nat
    var ptr: nat
    ghost var start: H
    ghost var message: seq<Byte>

    ghost predicate Shaped()
      reads this`ptr
    {
      buf.Length == 64 && ptr <= 64
    }

    /** The chain value covers what was compressed, and the buffer holds the rest. */
    ghost predicate Valid()
      reads this, buf
    {
      && Shaped()
      && Link(h, bcount) == Linked(alg, start, message)
      && buf[..ptr] == Held(message)
    }

    constructor (a: Algorithm<H>, iv: H)
      ensures Valid() && alg == a && start == iv && message == [] && fresh(buf)
    {
      alg := a;
      buf := new Byte[64](_ => NONE);
      h, bcount, ptr := iv, 0, 0;
      start, message := iv, [];
    }

    /** Bytes copied behind those in the buffer. */
    method Buffer(x: seq<Byte>)
      requires Shaped() && ptr + |x| <= 64
      modifies this`ptr, buf
      ensures ptr == old(ptr) + |x|
      ensures buf[..ptr] == old(buf[..ptr]) + x
    {
      ghost var b := buf[..];
      for i := 0 to |x|
        invariant ptr == old(ptr) && buf[..ptr] == b[..ptr]
        invariant forall n | 0 <= n < i :: buf[ptr + n] == x[n]
      {
        buf[ptr + i] := x[i];
      }
      ptr := ptr + |x|;
    }

    /** The full buffer compressed as a block that is not the last. */
    method Ubi(first: bool)
      requires Shaped() && ptr == 64 && first == (bcount == 0)
      modifies this`h, this`bcount, this`ptr
      ensures ptr == 0 && bcount > 0
      ensures Link(h, bcount) == Advance(alg)(Link(old(h), old(bcount)), buf[..])
    {
      hide LowWord, HighWord;
      bcount := bcount + 1;
      WordsExact(bcount, 0);
      assert LowWord(bcount, 0) == (64 * bcount) % TWO64 && HighWord(bcount) == (64 * bcount) / TWO64;
      assert 96 + (if first then 128 else 0) == Upper(false, first, MESSAGE, false);
      var et := 96 + (if first then 128 else 0);
      h := alg.compress(h, buf[..], LowWord(bcount, 0), HighWord(bcount), et);
      assert h == Compress(alg, old(h), buf[..], 64 * bcount, Upper(false, first, MESSAGE, false));
      ptr := 0;
      assert bcount == old(bcount) + 1 && first == (old(bcount) == 0);
      assert Advance(alg)(Link(old(h), old(bcount)), buf[..])
          == Link(Compress(alg, old(h), buf[..], 64 * (old(bcount) + 1), Upper(false, first, MESSAGE, false)), old(bcount) + 1);
    }

    /** The state with the input y still to come amounts to the message `total`. */
    ghost predicate Ahead(y: seq<Byte>, total: seq<Byte>)
      reads this`h, this`bcount, this`ptr, this`start, buf
    {
      && Shaped()
      && Fold(Advance(alg), 64, HOLD, Link(h, bcount), buf[..ptr] + y) == Linked(alg, start, total)
      && Rest(64, HOLD, buf[..ptr] + y) == Held(total)
    }

    lemma Enter(y: seq<Byte>)
      requires Valid()
      ensures Shaped() && Ahead(y, message + y)
    {
      hide Fold, Rest;
      FoldAppend(Advance(alg), 64, HOLD, Link(start, 0), message, y);
    }

    lemma Leave()
      requires Ahead([], message)
      ensures Valid()
    {
      hide Fold, Rest;
      assert buf[..ptr] + [] == buf[..ptr];
      FoldNone(Advance(alg), 64, HOLD, Link(h, bcount), buf[..ptr]);
    }

    /** A full buffer makes room when there is more input. */
    method MakeRoom(first: bool, ghost y: seq<Byte>, ghost total: seq<Byte>)
      requires Ahead(y, total) && ptr == 64 && |y| > 0 && first == (bcount == 0)
      modifies this`h, this`bcount, this`ptr
      ensures Ahead(y, total) && Shaped() && ptr == 0 && bcount > 0
    {
      hide Fold, Rest, Linked, Held, Advance;
      assert buf[..64] == buf[..];
      FoldStep(alg, Link(h, bcount), buf[..], y);
      Ubi(first);
      assert buf[..0] + y == y;
    }

    /** Input copied into the room there is. */
    method TakeIn(x: seq<Byte>, ghost y: seq<Byte>, ghost total: seq<Byte>)
      requires Ahead(x + y, total) && ptr + |x| <= 64
      modifies this`ptr, buf
      ensures Ahead(y, total) && Shaped() && ptr == old(ptr) + |x|
    {
      hide Fold, Rest, Linked, Held, Advance;
      assert buf[..ptr] + (x + y) == buf[..ptr] + x + y;
      Buffer(x);
    }

    /** The loop over input that does not fit in the buffer. */
    method Consume(data: seq<Byte>, ghost total: seq<Byte>)
      requires Shaped() && Ahead(data, total) && ptr + |data| > 64
      modifies this`h, this`bcount, this`ptr, buf
      ensures Ahead([], total)
    {
      hide Ahead;
      var first := bcount == 0;
      var y := data;
      while |y| > 0
        invariant Shaped() && Ahead(y, total) && first == (bcount == 0)
      {
        if ptr == 64 {
          MakeRoom(first, y, total);
          first := false;
        }
        var clen := 64 - ptr;
        if clen > |y| {
          clen := |y|;
        }
        assert y == y[..clen] + y[clen..];
        TakeIn(y[..clen], y[clen..], total);
        y := y[clen..];
      }
    }

    /** Data of any length appended to the message. */
    method Core(data: seq<Byte>)
      requires Valid()
      modifies this`h, this`bcount, this`ptr, this`message, buf
      ensures Valid() && message == old(message) + data
    {
      hide *;
      Enter(data);
      ghost var total := message + data;
      if |data| <= 64 - ptr {
        assert data + [] == data;
        TakeIn(data, [], total);
      } else {
        Consume(data, total);
      }
      message := total;
      Leave();
    }

    /** What is compressed and what is held make up the message. */
    lemma Remaining(padded: bool)
      requires Valid()
      ensures Shaped() && 64 * bcount + ptr == |message| && (ptr > 0 || bcount == 0)
      ensures forall last :: ChainTo(alg, start, 0, message, padded, last) == ChainTo(alg, h, 64 * bcount, buf[..ptr], padded, last)
    {
      hide ChainTo, Fold, Rest;
      forall last
        ensures ChainTo(alg, start, 0, message, padded, last) == ChainTo(alg, h, 64 * bcount, buf[..ptr], padded, last)
      {
        ChainFold(alg, Link(start, 0), message, padded, last);
      }
      HeldBytes(alg, Link(start, 0), message);
    }

    /** The held bytes, zero-filled, as the final block, and then the output block. */
    method Finish(padded: bool) returns (dst: seq<Byte>)
      requires Shaped() && (ptr > 0 || bcount == 0)
      modifies this`h, this`bcount, this`ptr, buf
      ensures dst == Output(alg, ChainTo(alg, old(h), 64 * old(bcount), old(buf[..ptr]), padded,
                                         LastPosition(64 * old(bcount) + old(ptr))))
    {
      hide LowWord, HighWord, ToBlock, ChainTo, Output, LastPosition;
      FinalWords(alg, h, bcount, buf[..ptr], padded);
      Fill(ptr);
      var et := 352 + (if bcount == 0 then 128 else 0) + (if padded then 1 else 0);
      h := alg.compress(h, buf[..], LowWord(bcount, ptr), HighWord(bcount), et);
      OutputWords(alg, h);
      Fill(0);
      assert buf[..] == Zeros(64) by { EmptyBlock(); }
      bcount, et, ptr := 0, 510, 8;
      h := alg.compress(h, buf[..], LowWord(bcount, ptr), HighWord(bcount), et);
      dst := alg.output(h);
    }

    /** Zeros from a position on. */
    method Fill(at: nat)
      requires buf.Length == 64 && at <= 64
      modifies buf
      ensures buf[..] == ToBlock(old(buf[..at]))
    {
      ghost var b := buf[..];
      for i := at to 64
        invariant buf[..at] == b[..at]
        invariant forall n | at <= n < i :: buf[n] == NONE
      {
        buf[i] := NONE;
      }
    }

    /** The digest of the message followed by the n highest bits of ub, with the last block at the position
        it is given; that is the digest of the specification unless the carry is lost. */
    method Close(ub: Byte, n: nat) returns (dst: seq<Byte>)
      requires Valid() && n < 8
      modifies this`h, this`bcount, this`ptr, this`message, buf
      ensures message == WithBits(old(message), ub, n)
      ensures dst == DigestTo(alg, start, old(message), ub, n, LastPosition(|message|))
      ensures message == [] || |message| % TWO64 != 0 ==> dst == Digest(alg, start, old(message), ub, n)
    {
      hide ChainTo, Output, EndByte, Valid;
      if n != 0 {
        Core([EndByte(ub, n)]);
      }
      Remaining(n != 0);
      dst := Finish(n != 0);
    }
  }
}
