// The streaming Keccak hash object: a buffer for one block, 25 words of which six are
// stored complemented, and the digest of everything that was fed in.
module KeccakContext {
  import opened Words
  import opened Bytes
  import opened KeccakLanes
  import opened KeccakSpec
  import opened KeccakMasks
  import opened KeccakRounds
  import opened KeccakSponge
  import opened Streams

  lemma InputFlip(s: State, block: seq<Byte>)
    ensures Input(Flip(s, Stored()), block) == Flip(Input(s, block), Stored())
  {
    hide Xor, Not, WordOrder, LoadLE, StoredLane, FlipLane;
    forall i | 0 <= i < 25
      ensures Input(Flip(s, Stored()), block)[i] == Flip(Input(s, block), Stored())[i]
    {
      var k := WordOrder(i);
      if 8 * k + 8 <= |block| {
        FlipWith(s[i], LoadLE(block[8 * k..8 * k + 8]), StoredLane(i));
      }
    }
  }

  lemma FlipWith(u: Lane, v: Lane, on: bool)
    ensures Xor(FlipLane(u, on), v) == FlipLane(Xor(u, v), on)
  {
    XorFlip(u, v, on, false);
  }

  lemma StoredStart(i: nat)
    requires i < 25
    ensures Flip(START, Stored())[i] == if StoredLane(i) then ONES else ZERO
  {
    hide StoredLane;
    FlipZero(StoredLane(i));
  }

  lemma WordOrders(k: nat, i: nat)
    requires k < 25 && i < 25
    ensures WordOrder(i) == k <==> i == WordAt(k)
  {
    assert i == 5 * (i / 5) + i % 5 && k == 5 * (k / 5) + k % 5;
    if WordOrder(i) == k {
      assert k == 5 * (i % 5) + i / 5;
      assert k / 5 == i % 5 && k % 5 == i / 5;
    }
    if i == WordAt(k) {
      assert i / 5 == k % 5 && i % 5 == k / 5;
    }
  }

  lemma SixWords()
    ensures WordAt(1) == 5 && WordAt(2) == 10 && WordAt(8) == 16
    ensures WordAt(12) == 12 && WordAt(17) == 13 && WordAt(20) == 4
  {
  }

  class Context {
    const size: nat
    const lim: nat
    const wide: array<Lane>
    const buf: array<Byte>
    var ptr: nat
    ghost var message: seq<Byte>

    ghost predicate Shaped() {
      && lim == 200 - 2 * size && 28 <= size <= 64 && size % 4 == 0
      && wide.Length == 25 && buf.Length == 144
    }

    /** The buffer holds the unfinished block, and the words hold the absorbed state as stored. */
    ghost predicate Valid()
      reads this, wide, buf
    {
      && Shaped()
      && ptr < lim
      && buf[..ptr] == Rest(lim, lim, message)
      && wide[..] == Flip(Absorbed(lim, message), Stored())
    }

    constructor (bytes: nat)
      requires bytes == 28 || bytes == 32 || bytes == 48 || bytes == 64
      ensures Valid() && message == [] && size == bytes
      ensures fresh(wide) && fresh(buf)
    {
      size := bytes;
      lim := 200 - 2 * bytes;
      wide := new Lane[25](_ => ZERO);
      buf := new Byte[144](_ => NONE);
      new;
      Init();
    }

    /** Ready for a new message. */
    method Init()
      requires Shaped()
      modifies this`ptr, this`message, wide
      ensures Valid() && message == []
    {
      Clear();
      ptr := 0;
      message := [];
      hide Flip;
    }

    /** All words zero, then six of them complemented. */
    method Clear()
      requires Shaped()
      modifies wide
      ensures wide[..] == Flip(START, Stored())
    {
      SixWords();
      hide WordAt, Flip;
      for i := 0 to 25
        invariant forall n | 0 <= n < i :: wide[n] == ZERO
      {
        wide[i] := ZERO;
      }
      wide[WordAt(1)] := ONES;
      wide[WordAt(2)] := ONES;
      wide[WordAt(8)] := ONES;
      wide[WordAt(12)] := ONES;
      wide[WordAt(17)] := ONES;
      wide[WordAt(20)] := ONES;
      forall i | 0 <= i < 25 ensures wide[i] == Flip(START, Stored())[i] {
        StoredStart(i);
      }
    }

    /** Eight bytes of the buffer added to the word they cover. */
    method InputWord(j: nat)
      requires Shaped() && j % 8 == 0 && j + 8 <= lim
      modifies wide
      ensures var w := WordAt(j / 8);
        && wide[w] == Xor(old(wide[w]), LoadLE(buf[..lim][j..j + 8]))
        && forall i | 0 <= i < 25 && i != w :: wide[i] == old(wide[i])
    {
      hide Xor, LoadLE, WordAt;
      assert buf[j..j + 8] == buf[..lim][j..j + 8];
      var w := WordAt(j / 8);
      wide[w] := Xor(wide[w], LoadLE(buf[j..j + 8]));
    }

    /** The full buffer added to the words it covers. */
    method InputBlock()
      requires Shaped()
      modifies wide
      ensures wide[..] == Input(old(wide[..]), buf[..lim])
    {
      hide Xor, LoadLE, WordOrder, WordAt;
      ghost var m := wide[..];
      ghost var block := buf[..lim];
      var j := 0;
      while j < lim
        invariant j % 8 == 0 && j <= lim
        invariant forall i | 0 <= i < 25 && 8 * WordOrder(i) < j :: wide[i] == Input(m, block)[i]
        invariant forall i | 0 <= i < 25 && 8 * WordOrder(i) >= j :: wide[i] == m[i]
      {
        ghost var before := wide[..];
        ghost var k := j / 8;
        ghost var w := WordAt(k);
        WordOrders(k, w);
        assert j == 8 * k && j + 8 <= lim;
        InputWord(j);
        forall i | 0 <= i < 25 && i != w ensures WordOrder(i) != k && wide[i] == before[i] {
          WordOrders(k, i);
        }
        j := j + 8;
      }
    }

    /** The six complemented words turned back. */
    method Uncomplement()
      requires Shaped()
      modifies wide
      ensures wide[..] == Flip(old(wide[..]), Stored())
    {
      SixWords();
      hide Not, WordAt;
      ghost var m := wide[..];
      wide[WordAt(1)] := Not(wide[WordAt(1)]);
      wide[WordAt(2)] := Not(wide[WordAt(2)]);
      wide[WordAt(8)] := Not(wide[WordAt(8)]);
      wide[WordAt(12)] := Not(wide[WordAt(12)]);
      wide[WordAt(17)] := Not(wide[WordAt(17)]);
      wide[WordAt(20)] := Not(wide[WordAt(20)]);
      assert forall i | 0 <= i < 25 :: wide[i] == FlipLane(m[i], StoredLane(i));
    }

    /** The full buffer absorbed. */
    method Process(ghost s: State)
      requires Shaped()
      requires wide[..] == Flip(s, Stored())
      modifies wide
      ensures wide[..] == Flip(Absorb(s, buf[..lim]), Stored())
    {
      hide Flip, Input, F1600, Stored;
      InputBlock();
      InputFlip(s, buf[..lim]);
      Permute(wide, Input(s, buf[..lim]));
    }

    /** Data copied behind the bytes already in the buffer. */
    method Buffer(data: seq<Byte>)
      requires Shaped() && ptr + |data| <= lim
      modifies buf
      ensures buf[..ptr + |data|] == old(buf[..ptr]) + data
    {
      ghost var b := buf[..];
      for i := 0 to |data|
        invariant buf[..ptr] == b[..ptr]
        invariant forall n | 0 <= n < i :: buf[ptr + n] == data[n]
      {
        buf[ptr + i] := data[i];
      }
    }

    /** A piece that fits in the buffer; a full buffer is absorbed at once. */
    method Piece(data: seq<Byte>)
      requires Valid() && ptr + |data| <= lim
      modifies this`ptr, this`message, wide, buf
      ensures Valid()
      ensures message == old(message) + data
    {
      hide Fold, Rest, Flip, Stored, Absorb;
      ghost var s := Absorbed(lim, message);
      ghost var x := Rest(lim, lim, message) + data;
      FoldAppend(Absorb, lim, lim, START, message, data);
      Buffer(data);
      ptr := ptr + |data|;
      message := message + data;
      if ptr == lim {
        Process(s);
        FoldOne(Absorb, lim, lim, s, x);
        assert x[..lim] == x && x[lim..] == [];
        ptr := 0;
      } else {
        FoldNone(Absorb, lim, lim, s, x);
      }
    }

    /** Data too short to fill the buffer. */
    method Keep(data: seq<Byte>)
      requires Valid() && ptr + |data| < lim
      modifies this`ptr, this`message, buf
      ensures Valid()
      ensures message == old(message) + data
    {
      hide Fold, Rest, Flip, Stored, Absorb;
      FoldAppend(Absorb, lim, lim, START, message, data);
      FoldNone(Absorb, lim, lim, Absorbed(lim, message), Rest(lim, lim, message) + data);
      Buffer(data);
      ptr := ptr + |data|;
      message := message + data;
    }

    lemma Room()
      requires Valid()
      ensures ptr < lim
    {
    }

    /** Feeding data in, in pieces of any length. */
    method Core(data: seq<Byte>)
      requires Valid()
      modifies this`ptr, this`message, wide, buf
      ensures Valid()
      ensures message == old(message) + data
    {
      hide *;
      Room();
      if |data| < lim - ptr {
        Keep(data);
        return;
      }
      ghost var total := message + data;
      var y := data;
      while |y| > 0
        invariant Valid() && total == message + y
      {
        Room();
        var clen := lim - ptr;
        if clen > |y| {
          clen := |y|;
        }
        assert message + y == message + y[..clen] + y[clen..];
        Piece(y[..clen]);
        y := y[clen..];
      }
    }

    /** The words as bytes, in memory order. */
    method Output() returns (dst: seq<Byte>)
      requires Shaped()
      ensures dst == Squeeze(wide[..], (size + 7) / 8)[..size]
    {
      hide StoreLE, WordAt;
      var j := 0;
      var tmp: seq<Byte> := [];
      while j < size
        invariant j % 8 == 0 && j < size + 8
        invariant tmp == Squeeze(wide[..], j / 8)
      {
        tmp := tmp + StoreLE(wide[WordAt(j / 8)]);
        j := j + 8;
      }
      assert j / 8 == (size + 7) / 8;
      dst := tmp[..size];
    }

    /** The padding for the current position. */
    method FinalBytes(ub: Byte, n: nat) returns (tmp: seq<Byte>)
      requires Shaped() && ptr < lim && n < 8
      ensures tmp == Padding(lim, ptr, ub, n)
    {
      hide LastByte, WithTop;
      var eb := LastByte(ub, n);
      if ptr == lim - 1 {
        if n == 7 {
          tmp := [eb] + Zeros(lim - 1) + [TOP];
        } else {
          tmp := [WithTop(eb)];
        }
      } else {
        var j := lim - ptr;
        tmp := [eb] + Zeros(j - 2) + [TOP];
      }
    }

    /** The digest of all data fed in, followed by n extra bits; then ready for a new message. */
    method Close(ub: Byte, n: nat) returns (dst: seq<Byte>)
      requires Valid() && n < 8
      modifies this`ptr, this`message, wide, buf
      ensures dst == Digest(lim, size, old(message), ub, n)
      ensures Valid() && message == []
    {
      hide Fold, Rest, Flip, Stored, Absorb, Padding, Squeeze;
      var tmp := FinalBytes(ub, n);
      ghost var s := Absorbed(lim, message + tmp);
      Core(tmp);
      Uncomplement();
      FlipInverse(s, Stored());
      dst := Output();
      Init();
    }
  }
}
