// BLAKE2s over any compression function: the lazy two-block buffer and the two-word byte
// counter, against the one-shot definition in section 3.3 of RFC 7693.
module Blake2s {
  import opened Words
  import opened Bytes
  import opened Streams

  /** The parts left open: the start value for an output and a key length, the compression of one
      block with the byte count and the last-block flag, and the output of a chain value. */
  datatype Algorithm<!H> = Algorithm(
    start: (nat, nat) -> H,
    compress: (H, seq<Byte>, nat, bool) -> H,
    output: H -> Digest32)

  function ToBlock(x: seq<Byte>): (b: seq<Byte>)
    requires |x| <= 64
    ensures |b| == 64
  {
    x + Zeros(64 - |x|)
  }

  /** The chain value after the data x that follows `done` bytes: every block but the last with the
      count up to its end, the last one zero-filled, flagged, and with the count of all bytes. */
  function OneShot<H>(alg: Algorithm<H>, h: H, done: nat, x: seq<Byte>): H
    decreases |x|
  {
    if |x| <= 64 then alg.compress(h, ToBlock(x), Wrap(done + |x|), true)
    else OneShot(alg, alg.compress(h, x[..64], Wrap(done + 64), false), done + 64, x[64..])
  }

  /** A key is a zero-filled block ahead of the message. */
  function Keyed(key: seq<Byte>, message: seq<Byte>): seq<Byte>
    requires |key| <= 64
  {
    if key == [] then message else ToBlock(key) + message
  }

  /** The digest of a message under a key, which may be empty. */
  function Digest<H>(alg: Algorithm<H>, outlen: nat, key: seq<Byte>, message: seq<Byte>): (d: seq<Byte>)
    requires outlen <= 32 && |key| <= 32
    ensures |d| == outlen
  {
    alg.output(OneShot(alg, alg.start(outlen, |key|), 0, Keyed(key, message)))[..outlen]
  }

  /** The chain value and the bytes counted. */
  datatype Chain<H> = Chain(h: H, done: nat)

  function Advance<H>(alg: Algorithm<H>): (Chain<H>, seq<Byte>) -> Chain<H> {
    (c: Chain<H>, block: seq<Byte>) => Chain(alg.compress(c.h, block, Wrap(c.done + 64), false), c.done + 64)
  }

  const HOLD: nat := 129

  /** The chain after the blocks that are compressed while more than two blocks are held. */
  function Chained<H>(alg: Algorithm<H>, h: H, data: seq<Byte>): Chain<H> {
    Fold(Advance(alg), 64, HOLD, Chain(h, 0), data)
  }

  function Held(data: seq<Byte>): (r: seq<Byte>)
    ensures |r| <= 128
  {
    Rest(64, HOLD, data)
  }

  /** One block compressed when the buffer overflows. */
  lemma FoldStep<H>(alg: Algorithm<H>, c: Chain<H>, held: seq<Byte>, x: seq<Byte>, y: seq<Byte>)
    requires |held| + |x| == 128 && |y| > 0
    ensures var full := held + x;
            var d := Advance(alg)(c, full[..64]);
            && Fold(Advance(alg), 64, HOLD, c, held + (x + y)) == Fold(Advance(alg), 64, HOLD, d, full[64..] + y)
            && Rest(64, HOLD, held + (x + y)) == Rest(64, HOLD, full[64..] + y)
  {
    var all := held + (x + y);
    assert all[..64] == (held + x)[..64] && all[64..] == (held + x)[64..] + y;
  }

  lemma OneShotStep<H>(alg: Algorithm<H>, h: H, done: nat, x: seq<Byte>)
    requires |x| > 64
    ensures OneShot(alg, h, done, x)
         == OneShot(alg, alg.compress(h, x[..64], Wrap(done + 64), false), done + 64, x[64..])
  {
    hide Wrap, ToBlock;
  }

  /** Compressing early what is not last leaves the one-shot result as it was. */
  lemma {:induction false} OneShotFold<H>(alg: Algorithm<H>, c: Chain<H>, x: seq<Byte>)
    ensures var e := Fold(Advance(alg), 64, HOLD, c, x);
            OneShot(alg, c.h, c.done, x) == OneShot(alg, e.h, e.done, Rest(64, HOLD, x))
    decreases |x|
  {
    hide Wrap, OneShot;
    if |x| >= HOLD {
      OneShotStep(alg, c.h, c.done, x);
      var d := Chain(alg.compress(c.h, x[..64], Wrap(c.done + 64), false), c.done + 64);
      assert d == Advance(alg)(c, x[..64]);
      assert Fold(Advance(alg), 64, HOLD, c, x) == Fold(Advance(alg), 64, HOLD, d, x[64..]);
      assert Rest(64, HOLD, x) == Rest(64, HOLD, x[64..]);
      OneShotFold(alg, d, x[64..]);
    }
  }

  /** The last block is never compressed early: of a long message more than one block is held. */
  lemma {:induction false} LastIsHeld(x: seq<Byte>)
    ensures |x| <= 128 ==> Rest(64, HOLD, x) == x
    ensures |x| > 128 ==> |Rest(64, HOLD, x)| > 64
    decreases |x|
  {
    if |x| >= HOLD { LastIsHeld(x[64..]); }
  }

  /** Everything counted is compressed or held. */
  lemma {:induction false} CountExact<H>(alg: Algorithm<H>, c: Chain<H>, x: seq<Byte>)
    ensures Fold(Advance(alg), 64, HOLD, c, x).done + |Rest(64, HOLD, x)| == c.done + |x|
    decreases |x|
  {
    if |x| >= HOLD {
      CountExact(alg, Advance(alg)(c, x[..64]), x[64..]);
    }
  }

  /** The two words of the counter as one number. */
  function Count(t0: nat, t1: nat): nat { t0 + TWO32 * t1 }

  /** Counting up, with the carry found by comparing. */
  method Increment(t0: nat, t1: nat, inc: nat) returns (u0: nat, u1: nat)
    requires t0 < TWO32 && t1 < TWO32 && inc < TWO32
    ensures u0 < TWO32 && u1 < TWO32
    ensures Count(u0, u1) == Wrap(Count(t0, t1) + inc)
  {
    u0 := (t0 + inc) % TWO32;
    u1 := (t1 + (if u0 < inc then 1 else 0)) % TWO32;
  }

  class Hasher<H(0)> {
    const alg: Algorithm<H>
    const buf: array<Byte>
    var h: H
    var t0: nat
    var t1: nat
    var f0: bool
    var buflen: nat
    ghost var first: H
    ghost var data: seq<Byte>

    ghost predicate Shaped()
      reads this`t0, this`t1, this`buflen
    {
      buf.Length == 128 && t0 < TWO32 && t1 < TWO32 && buflen <= 128
    }

    /** The chain value covers what was compressed, and the buffer holds the rest of the data. */
    ghost predicate Valid()
      reads this, buf
    {
      && Shaped() && !f0
      && h == Chained(alg, first, data).h
      && Count(t0, t1) == Wrap(Chained(alg, first, data).done)
      && buf[..buflen] == Held(data)
    }

    constructor (a: Algorithm<H>)
      ensures alg == a && Shaped() && fresh(buf)
    {
      alg := a;
      buf := new Byte[128](_ => NONE);
      t0, t1, f0, buflen := 0, 0, false, 0;
    }

    method Begin(start: H)
      requires buf.Length == 128
      modifies this
      ensures Valid() && first == start && data == []
    {
      h, t0, t1, f0, buflen := start, 0, 0, false, 0;
      first, data := start, [];
      assert buf[..0] == [];
    }

    /** Unkeyed hashing; output lengths outside 1 to 32 are refused. */
    method Init(outlen: nat) returns (ok: bool)
      requires buf.Length == 128
      modifies this
      ensures ok <==> 1 <= outlen <= 32
      ensures ok ==> Valid() && first == alg.start(outlen, 0) && data == []
    {
      if outlen == 0 || outlen > 32 { return false; }
      Begin(alg.start(outlen, 0));
      ok := true;
    }

    /** Keyed hashing; key lengths outside 1 to 32 are refused as well. */
    method InitKey(outlen: nat, key: seq<Byte>) returns (ok: bool)
      requires buf.Length == 128
      modifies this, buf
      ensures ok <==> 1 <= outlen <= 32 && 1 <= |key| <= 32
      ensures ok ==> Valid() && first == alg.start(outlen, |key|) && data == ToBlock(key)
    {
      hide Valid, ToBlock;
      if outlen == 0 || outlen > 32 { return false; }
      if key == [] || |key| > 32 { return false; }
      Begin(alg.start(outlen, |key|));
      Update(ToBlock(key));
      ok := true;
    }

    /** Bytes copied behind those in the buffer. */
    method Buffer(x: seq<Byte>)
      requires Shaped() && buflen + |x| <= 128
      modifies this`buflen, buf
      ensures buflen == old(buflen) + |x|
      ensures buf[..buflen] == old(buf[..buflen]) + x
    {
      ghost var b := buf[..];
      for i := 0 to |x|
        invariant buflen == old(buflen) && buf[..buflen] == b[..buflen]
        invariant forall n | 0 <= n < i :: buf[buflen + n] == x[n]
      {
        buf[buflen + i] := x[i];
      }
      buflen := buflen + |x|;
    }

    /** The first block of the buffer compressed, and the rest moved to the front. */
    method CompressFirst()
      requires Shaped() && buflen >= 64
      modifies this`h, this`t0, this`t1, this`buflen, buf
      ensures Shaped() && buflen == old(buflen) - 64
      ensures Count(t0, t1) == Wrap(old(Count(t0, t1)) + 64)
      ensures h == alg.compress(old(h), old(buf[..64]), Count(t0, t1), f0)
      ensures buf[..buflen] == old(buf[64..buflen])
    {
      hide Count, Wrap;
      t0, t1 := Increment(t0, t1, 64);
      h := alg.compress(h, buf[..64], Count(t0, t1), f0);
      ghost var b := buf[..];
      buflen := buflen - 64;
      for i := 0 to buflen
        modifies buf
        invariant forall n | 0 <= n < i :: buf[n] == b[64 + n]
        invariant forall n | i <= n < 128 :: buf[n] == b[n]
      {
        buf[i] := buf[64 + i];
      }
    }

    /** The buffer filled up, its first block compressed and the second moved to the front. */
    method Overflow(x: seq<Byte>)
      requires Shaped() && buflen + |x| == 128
      modifies this`h, this`t0, this`t1, this`buflen, buf
      ensures Shaped() && buflen == 64
      ensures Count(t0, t1) == Wrap(old(Count(t0, t1)) + 64)
      ensures var full := old(buf[..buflen]) + x;
              h == alg.compress(old(h), full[..64], Count(t0, t1), f0) && buf[..buflen] == full[64..]
    {
      hide Count, Wrap;
      Buffer(x);
      ghost var full := buf[..buflen];
      assert buf[..64] == full[..64] && buf[64..buflen] == full[64..];
      CompressFirst();
    }

    /** The state c with the buffer and the input y still to come amounts to the data `total`. */
    ghost predicate Ahead(c: Chain<H>, y: seq<Byte>, total: seq<Byte>)
      reads this`h, this`t0, this`t1, this`f0, this`buflen, this`first, buf
    {
      && Shaped() && !f0
      && h == c.h && Count(t0, t1) == Wrap(c.done)
      && Fold(Advance(alg), 64, HOLD, c, buf[..buflen] + y) == Chained(alg, first, total)
      && Rest(64, HOLD, buf[..buflen] + y) == Held(total)
    }

    /** More input than the buffer has room for. */
    method TakeOver(x: seq<Byte>, ghost y: seq<Byte>, ghost c: Chain<H>, ghost total: seq<Byte>) returns (ghost d: Chain<H>)
      requires Ahead(c, x + y, total) && buflen + |x| == 128 && |y| > 0
      modifies this`h, this`t0, this`t1, this`buflen, buf
      ensures Ahead(d, y, total) && Shaped() && buflen == 64
    {
      hide Count, Wrap, Fold, Rest, Chained, Held;
      ghost var full := buf[..buflen] + x;
      FoldStep(alg, c, buf[..buflen], x, y);
      WrapAdd(c.done, 64);
      Overflow(x);
      d := Advance(alg)(c, full[..64]);
    }

    /** Input that fits in the buffer. */
    method TakeIn(x: seq<Byte>, ghost c: Chain<H>, ghost total: seq<Byte>)
      requires Ahead(c, x, total) && buflen + |x| <= 128
      modifies this`buflen, buf
      ensures Ahead(c, [], total) && Shaped()
    {
      hide Count, Wrap, Fold, Rest, Chained, Held;
      ghost var full := buf[..buflen] + x;
      Buffer(x);
      assert buf[..buflen] + [] == full;
    }

    lemma Enter(input: seq<Byte>)
      requires Valid()
      ensures Shaped() && Ahead(Chained(alg, first, data), input, data + input)
    {
      hide Count, Wrap, Fold, Rest;
      FoldAppend(Advance(alg), 64, HOLD, Chain(first, 0), data, input);
    }

    lemma Leave(c: Chain<H>)
      requires Ahead(c, [], data)
      ensures Valid()
    {
      hide Count, Wrap, Fold, Rest;
      assert buf[..buflen] + [] == buf[..buflen];
      FoldNone(Advance(alg), 64, HOLD, c, buf[..buflen]);
    }

    lemma ShapedBound()
      requires Shaped()
      ensures buflen <= 128
    {
    }

    /** The loop that takes the input in. */
    method Consume(input: seq<Byte>, ghost c: Chain<H>, ghost total: seq<Byte>) returns (ghost d: Chain<H>)
      requires Shaped() && Ahead(c, input, total)
      modifies this`h, this`t0, this`t1, this`buflen, buf
      ensures Ahead(d, [], total)
    {
      hide *;
      d := c;
      var y := input;
      while |y| > 0
        invariant Shaped() && Ahead(d, y, total)
        decreases |y|, buflen
      {
        assert buflen <= 128 by { ShapedBound(); }
        var fill := 128 - buflen;
        if |y| > fill {
          assert y == y[..fill] + y[fill..];
          d := TakeOver(y[..fill], y[fill..], d, total);
          y := y[fill..];
        } else {
          TakeIn(y, d, total);
          y := [];
        }
      }
    }

    /** Data of any length appended, compressing lazily. */
    method Update(input: seq<Byte>)
      requires Valid()
      modifies this`h, this`t0, this`t1, this`buflen, this`data, buf
      ensures Valid() && data == old(data) + input
    {
      hide *;
      Enter(input);
      ghost var total := data + input;
      ghost var d := Consume(input, Chained(alg, first, data), total);
      data := total;
      Leave(d);
    }

    /** The last block, zero-filled, flagged and with the count of all bytes. */
    method Finish(outlen: nat, ghost c: Chain<H>) returns (out: seq<Byte>)
      requires Shaped() && buflen <= 64 && outlen <= 32
      requires h == c.h && Count(t0, t1) == Wrap(c.done)
      modifies this`h, this`t0, this`t1, this`f0, buf
      ensures out == alg.output(OneShot(alg, c.h, c.done, old(buf[..buflen])))[..outlen]
    {
      hide Count, Wrap, ToBlock;
      WrapAdd(c.done, buflen);
      t0, t1 := Increment(t0, t1, buflen);
      f0 := true;
      Fill();
      h := alg.compress(h, buf[..64], Count(t0, t1), f0);
      out := alg.output(h)[..outlen];
    }

    /** The digest of all the data. */
    method Final(outlen: nat) returns (out: seq<Byte>)
      requires Valid() && outlen <= 32
      modifies this`h, this`t0, this`t1, this`buflen, this`f0, buf
      ensures out == alg.output(OneShot(alg, first, 0, data))[..outlen]
    {
      hide Count, Wrap, Fold, Rest, OneShot;
      ghost var c := Chained(alg, first, data);
      OneShotFold(alg, Chain(first, 0), data);
      if buflen > 64 {
        ghost var held := buf[..buflen];
        assert held[..64] == buf[..64] && held[64..] == buf[64..buflen];
        OneShotStep(alg, c.h, c.done, held);
        WrapAdd(c.done, 64);
        CompressFirst();
        c := Chain(h, c.done + 64);
      }
      out := Finish(outlen, c);
    }

    /** Zeros behind the bytes of the last block. */
    method Fill()
      requires Shaped() && buflen <= 64
      modifies buf
      ensures buf[..64] == ToBlock(old(buf[..buflen]))
    {
      ghost var b := buf[..];
      for i := buflen to 128
        invariant buf[..buflen] == b[..buflen]
        invariant forall n | buflen <= n < i :: buf[n] == NONE
      {
        buf[i] := NONE;
      }
    }
  }

  /** Hashing in one call; a zero or oversized output or key length is refused. */
  method Hash<H(0)>(alg: Algorithm<H>, outlen: nat, key: seq<Byte>, input: seq<Byte>) returns (ok: bool, out: seq<Byte>)
    ensures ok <==> 1 <= outlen <= 32 && |key| <= 32
    ensures ok ==> out == Digest(alg, outlen, key, input)
  {
    hide Hasher.Valid, OneShot, ToBlock;
    out := [];
    var s := new Hasher(alg);
    if |key| > 0 {
      ok := s.InitKey(outlen, key);
    } else {
      ok := s.Init(outlen);
    }
    if !ok { return; }
    s.Update(input);
    assert s.data == Keyed(key, input);
    out := s.Final(outlen);
  }
}
