// The streaming BLAKE object and its close step.
module BlakeContext {
  import opened Words
  import opened Bytes
  import opened Streams
  import opened Blake
  import opened BlakeSpec

  /** The chain value and the counter. */
  datatype Chain<H> = Chain(h: H, t: Counter)

  /** One block compressed under the counter one step on. */
  function Advance<H>(v: Variant, alg: Algorithm<H>): (Chain<H>, seq<Byte>) -> Chain<H> {
    (c: Chain<H>, block: seq<Byte>) => var t := Inc(v, c.t); Chain(alg.compress(c.h, block, t), t)
  }

  function Chained<H>(v: Variant, alg: Algorithm<H>, c: Chain<H>, data: seq<Byte>): Chain<H> {
    Fold(Advance(v, alg), BlockBytes(v), BlockBytes(v), c, data)
  }

  function Pending(v: Variant, data: seq<Byte>): (r: seq<Byte>)
    ensures |r| < BlockBytes(v) && |r| <= |data|
  {
    Rest(BlockBytes(v), BlockBytes(v), data)
  }

  lemma BlocksStep<H>(v: Variant, alg: Algorithm<H>, h: H, x: seq<Byte>, y: seq<Byte>, done: nat, total: nat)
    requires |x| >= BlockBytes(v)
    ensures Blocks(v, alg, h, x + y, done, total)
         == Blocks(v, alg, alg.compress(h, x[..BlockBytes(v)], Stamp(v, done, total)),
                   x[BlockBytes(v)..] + y, done + BlockBits(v), total)
  {
    hide Stamp;
    assert (x + y)[..BlockBytes(v)] == x[..BlockBytes(v)] && (x + y)[BlockBytes(v)..] == x[BlockBytes(v)..] + y;
  }

  /** While whole blocks of the message come, the counter is the count of message bits. */
  lemma {:induction false} MessageBlocks<H>(v: Variant, alg: Algorithm<H>, c: Chain<H>, done: nat,
                                            x: seq<Byte>, y: seq<Byte>, total: nat) returns (end: nat)
    requires done % BlockBits(v) == 0 && c.t == Pair(v, done) && done + 8 * |x| <= total
    ensures end == done + 8 * (|x| - |Pending(v, x)|) && end % BlockBits(v) == 0
    ensures var e := Chained(v, alg, c, x);
            && e.t == Pair(v, end)
            && Blocks(v, alg, c.h, x + y, done, total) == Blocks(v, alg, e.h, Pending(v, x) + y, end, total)
    decreases |x|
  {
    hide Pair, Blocks, Inc;
    if |x| < BlockBytes(v) {
      end := done;
    } else {
      var b := BlockBytes(v);
      IncPair(v, done);
      BlocksStep(v, alg, c.h, x, y, done, total);
      AlignedNext(v, done);
      assert Stamp(v, done, total) == Pair(v, done + BlockBits(v));
      end := MessageBlocks(v, alg, Advance(v, alg)(c, x[..b]), done + BlockBits(v), x[b..], y, total);
    }
  }

  lemma AlignedNext(v: Variant, done: nat)
    requires done % BlockBits(v) == 0
    ensures (done + BlockBits(v)) % BlockBits(v) == 0
  {
  }

  /** One last block. */
  lemma OneBlock<H>(v: Variant, alg: Algorithm<H>, h: H, x: seq<Byte>, done: nat, total: nat)
    requires |x| == BlockBytes(v)
    ensures Blocks(v, alg, h, x, done, total) == alg.compress(h, x, Stamp(v, done, total))
  {
    hide Stamp, Pair, BlockBits;
    var b := BlockBytes(v);
    var next := alg.compress(h, x, Stamp(v, done, total));
    assert x[..b] == x && x[b..] == [];
    assert Blocks(v, alg, next, [], done + BlockBits(v), total) == next;
  }

  /** Two last blocks. */
  lemma TwoBlocks<H>(v: Variant, alg: Algorithm<H>, h: H, x: seq<Byte>, y: seq<Byte>, done: nat, total: nat)
    requires |x| == |y| == BlockBytes(v)
    ensures Blocks(v, alg, h, x + y, done, total)
         == alg.compress(alg.compress(h, x, Stamp(v, done, total)), y, Stamp(v, done + BlockBits(v), total))
  {
    hide Stamp, Blocks;
    BlocksStep(v, alg, h, x, y, done, total);
    assert x[..BlockBytes(v)] == x && x[BlockBytes(v)..] + y == y;
    OneBlock(v, alg, alg.compress(h, x, Stamp(v, done, total)), y, done + BlockBits(v), total);
  }

  /** A block of b bytes fed at once. */
  lemma FedOnce<H>(v: Variant, alg: Algorithm<H>, c: Chain<H>, x: seq<Byte>)
    requires |x| == BlockBytes(v)
    ensures Chained(v, alg, c, x) == Chain(alg.compress(c.h, x, Inc(v, c.t)), Inc(v, c.t))
    ensures Pending(v, x) == []
  {
    hide Inc, Fold, Rest;
    FoldOne(Advance(v, alg), BlockBytes(v), BlockBytes(v), c, x);
    assert x[..BlockBytes(v)] == x && x[BlockBytes(v)..] == [];
  }

  lemma ModulusRoom(v: Variant)
    ensures Modulus(v) > BlockBits(v)
  {
  }

  /** The last block with message bits under the set-back counter. */
  lemma LastStamp(v: Variant, end: nat, bitLen: nat)
    requires end % BlockBits(v) == 0 && bitLen < BlockBits(v)
    ensures var c := Pair(v, end);
            && (c.t0 == 0 || c.t0 >= BlockBits(v))
            && Inc(v, SetBack(v, c, bitLen)) == Stamp(v, end, end + bitLen)
            && Pair(v, end + bitLen) == Counter(c.t1, c.t0 + bitLen)
    ensures Stamp(v, end + BlockBits(v), end + bitLen) == ZERO
  {
    PairAligned(v, end);
    SetBackPair(v, end, bitLen);
    hide Inc, SetBack, Pair;
  }

  class Context<H(0)> {
    const v: Variant
    const alg: Algorithm<H>
    const full: bool
    const buf: array<Byte>
    var h: H
    var t: Counter
    var ptr: nat
    ghost var first: H
    ghost var message: seq<Byte>

    ghost predicate Shaped()
      reads this`ptr
    {
      buf.Length == BlockBytes(v) && ptr < BlockBytes(v)
    }

    /** The buffer holds the unfinished block, and the chain covers the whole ones. */
    ghost predicate Valid()
      reads this, buf
    {
      && Shaped()
      && Chain(h, t) == Chained(v, alg, Chain(first, ZERO), message)
      && buf[..ptr] == Pending(v, message)
    }

    constructor (variant: Variant, algorithm: Algorithm<H>, fullSize: bool, start: H)
      ensures Valid() && message == [] && first == start
      ensures v == variant && alg == algorithm && full == fullSize && fresh(buf)
    {
      v, alg, full := variant, algorithm, fullSize;
      buf := new Byte[BlockBytes(variant)](_ => NONE);
      h, t, ptr := start, ZERO, 0;
      first, message := start, [];
    }

    /** Bytes copied behind those in the buffer. */
    method Buffer(x: seq<Byte>)
      requires buf.Length == BlockBytes(v) && ptr + |x| <= BlockBytes(v)
      modifies buf
      ensures buf[..ptr + |x|] == old(buf[..ptr]) + x
    {
      ghost var b := buf[..];
      for i := 0 to |x|
        invariant buf[..ptr] == b[..ptr]
        invariant forall n | 0 <= n < i :: buf[ptr + n] == x[n]
      {
        buf[ptr + i] := x[i];
      }
    }

    /** A piece that fits in the buffer; a full buffer is compressed at once. */
    method Piece(x: seq<Byte>)
      requires Shaped() && ptr + |x| <= BlockBytes(v)
      modifies this`h, this`t, this`ptr, buf
      ensures Shaped()
      ensures Chain(h, t) == Chained(v, alg, Chain(old(h), old(t)), old(buf[..ptr]) + x)
      ensures buf[..ptr] == Pending(v, old(buf[..ptr]) + x)
    {
      hide Fold, Rest, Inc;
      var b := BlockBytes(v);
      ghost var c := Chain(h, t);
      ghost var all := buf[..ptr] + x;
      Buffer(x);
      ptr := ptr + |x|;
      if ptr == b {
        assert buf[..] == all == all[..b];
        t := Inc(v, t);
        h := alg.compress(h, buf[..], t);
        ptr := 0;
        FoldOne(Advance(v, alg), b, b, c, all);
        assert buf[..0] == all[b..];
      } else {
        FoldNone(Advance(v, alg), b, b, c, all);
      }
    }

    /** Data of any length, from any chain value and counter. */
    method Core(data: seq<Byte>)
      requires Shaped()
      modifies this`h, this`t, this`ptr, buf
      ensures Shaped()
      ensures Chain(h, t) == Chained(v, alg, Chain(old(h), old(t)), old(buf[..ptr]) + data)
      ensures buf[..ptr] == Pending(v, old(buf[..ptr]) + data)
    {
      hide Chained, Pending;
      ghost var c, held := Chain(h, t), buf[..ptr];
      if |data| < BlockBytes(v) - ptr {
        Piece(data);
        return;
      }
      ghost var x := [];
      var y := data;
      Begin(c, held);
      assert held + x == held;
      while |y| > 0
        invariant Shaped() && data == x + y
        invariant Chain(h, t) == Chained(v, alg, c, held + x) && buf[..ptr] == Pending(v, held + x)
      {
        var clen := BlockBytes(v) - ptr;
        if clen > |y| {
          clen := |y|;
        }
        Further(c, held + x, y[..clen]);
        assert held + (x + y[..clen]) == (held + x) + y[..clen];
        assert data == (x + y[..clen]) + y[clen..];
        Piece(y[..clen]);
        x := x + y[..clen];
        y := y[clen..];
      }
      assert data == x;
    }

    lemma Begin(c: Chain<H>, held: seq<Byte>)
      requires Shaped() && held == buf[..ptr]
      ensures Chained(v, alg, c, held) == c && Pending(v, held) == held
    {
    }

    lemma Further(c: Chain<H>, x: seq<Byte>, y: seq<Byte>)
      ensures Chained(v, alg, c, x + y) == Chained(v, alg, Chained(v, alg, c, x), Pending(v, x) + y)
      ensures Pending(v, x + y) == Pending(v, Pending(v, x) + y)
    {
      FoldAppend(Advance(v, alg), BlockBytes(v), BlockBytes(v), c, x, y);
    }

    /** Data of any length appended to the message. */
    method Write(data: seq<Byte>)
      requires Valid()
      modifies this`h, this`t, this`ptr, this`message, buf
      ensures Valid() && message == old(message) + data
    {
      hide Chained, Pending;
      Further(Chain(first, ZERO), message, data);
      Core(data);
      message := message + data;
    }

    /** The message bits before the buffer, and what the digest still depends on. */
    lemma SoFar(y: seq<Byte>, total: nat) returns (end: nat)
      requires Valid() && 8 * |message| <= total
      ensures end == 8 * (|message| - ptr) && end % BlockBits(v) == 0 && t == Pair(v, end)
      ensures Blocks(v, alg, first, message + y, 0, total) == Blocks(v, alg, h, buf[..ptr] + y, end, total)
    {
      hide Chained, Pending, Blocks;
      assert Pair(v, 0) == ZERO && 0 % BlockBits(v) == 0;
      hide Pair;
      end := MessageBlocks(v, alg, Chain(first, ZERO), 0, message, y, total);
    }

    /** Bytes that fill the buffer exactly. */
    method Complete(x: seq<Byte>)
      requires Shaped() && ptr + |x| == BlockBytes(v)
      modifies this`h, this`t, this`ptr, buf
      ensures Shaped() && ptr == 0
      ensures h == alg.compress(old(h), old(buf[..ptr]) + x, Inc(v, old(t)))
    {
      hide Chained, Inc, Pending;
      FedOnce(v, alg, Chain(h, t), buf[..ptr] + x);
      Core(x);
    }

    /** The end of the message when the length fits in the current block. */
    method CloseOne(x: seq<Byte>, bitLen: nat, ghost end: nat)
      requires Shaped() && ptr + |x| == BlockBytes(v) && bitLen < BlockBits(v)
      requires end % BlockBits(v) == 0 && t == Pair(v, end)
      modifies this`h, this`t, this`ptr, buf
      ensures h == Blocks(v, alg, old(h), old(buf[..ptr]) + x, end, end + bitLen)
    {
      hide Blocks, Inc, SetBack, Pair, Stamp;
      LastStamp(v, end, bitLen);
      OneBlock(v, alg, h, buf[..ptr] + x, end, end + bitLen);
      t := SetBack(v, t, bitLen);
      Complete(x);
    }

    /** The end of the message when the length needs a block of its own. */
    method CloseTwo(x: seq<Byte>, y: seq<Byte>, bitLen: nat, ghost end: nat)
      requires Shaped() && ptr + |x| == BlockBytes(v) == |y| && bitLen < BlockBits(v)
      requires end % BlockBits(v) == 0 && t == Pair(v, end)
      modifies this`h, this`t, this`ptr, buf
      ensures h == Blocks(v, alg, old(h), old(buf[..ptr]) + (x + y), end, end + bitLen)
    {
      hide Blocks, Inc, SetBack, Pair, Stamp, Modulus;
      LastStamp(v, end, bitLen);
      SetBackZero(v);
      TwoBlocks(v, alg, h, buf[..ptr] + x, y, end, end + bitLen);
      assert buf[..ptr] + (x + y) == buf[..ptr] + x + y;
      t := SetBack(v, t, bitLen);
      Complete(x);
      ModulusRoom(v);
      t := Counter(Modulus(v) - 1, Modulus(v) - BlockBits(v));
      assert buf[..ptr] + y == y;
      Complete(y);
    }

    /** The digest of the message followed by the n highest bits of ub. */
    method Close(ub: Byte, n: nat) returns (dst: seq<Byte>)
      requires Valid() && n < 8
      modifies this`h, this`t, this`ptr, buf
      ensures dst == Digest(v, alg, full, first, message, ub, n)
    {
      hide Blocks, Inc, SetBack, Pair, Stamp, Chained, Rest, EndByte, MarkLast, LengthField;
      var bitLen := 8 * ptr + n;
      ghost var total := Total(message, n);
      ghost var y := Filler(v, ptr, ub, n, full) + LengthField(v, Pair(v, total));
      ghost var end := SoFar(y, total);
      FillerLength(v, ptr, ub, n, full);
      LastStamp(v, end, bitLen);
      var field := LengthField(v, Counter(t.t1, t.t0 + bitLen));
      if FitsBlock(v, bitLen) {
        CloseOne(MarkLast([EndByte(ub, n)] + Zeros(BlockBytes(v) - FieldBytes(v) - 1 - ptr), full) + field, bitLen, end);
      } else {
        var x := [EndByte(ub, n)] + Zeros(BlockBytes(v) - 1 - ptr);
        var z := MarkLast(Zeros(BlockBytes(v) - FieldBytes(v)), full) + field;
        assert y == x + z;
        CloseTwo(x, z, bitLen, end);
      }
      dst := alg.output(h);
    }
  }
}
