// The streaming SHA-512 object: the padding of section 5.1.2 of FIPS 180-4, and the digest
// of everything that was written.
module Sha512 {
  import opened Words
  import opened Bytes
  import opened Streams
  import opened Sha512Spec
  import opened Sha512Transform

  /** The position in the current block after n bytes. */
  function Position(n: nat): (p: nat)
    ensures p < 128
  {
    n % 128
  }

  /** The block position survives the wrap-around of the counter. */
  lemma WrapPosition(n: nat)
    ensures Position(Wrap(n)) == Position(n)
  {
  }

  lemma PositionAdd(n: nat, k: nat)
    ensures Position(n) + k < 128 ==> Position(n + k) == Position(n) + k
    ensures Position(n) + k == 128 ==> Position(n + k) == 0
    ensures n < 128 ==> Position(n) == n
    ensures Position(n + 128) == Position(n)
  {
  }

  function Update(r: Regs, b: seq<Byte>): Regs { if |b| == 128 then Compress(r, b) else r }

  /** The hash value after the whole blocks of a message. */
  function Hashed(message: seq<Byte>): Regs { Fold(Update, 128, 128, Initial(), message) }

  /** The size field: the bit count of a message as far as 64 bits hold it. */
  function SizeField(length: nat): (b: seq<Byte>)
    ensures |b| == 16
  {
    Zeros(8) + StoreBE(FromNat(8 * Wrap(length)))
  }

  function PadLength(length: nat): nat { 1 + (239 - Position(length)) % 128 }

  function Padding(length: nat): seq<Byte> {
    [TOP] + Zeros(PadLength(length) - 1) + SizeField(length)
  }

  function Padded(message: seq<Byte>): seq<Byte> { message + Padding(|message|) }

  function Output(r: Regs): (d: seq<Byte>)
    ensures |d| == 64
  {
    StoreBE(r.a) + StoreBE(r.b) + StoreBE(r.c) + StoreBE(r.d)
    + StoreBE(r.e) + StoreBE(r.f) + StoreBE(r.g) + StoreBE(r.h)
  }

  function Digest(message: seq<Byte>): (d: seq<Byte>)
    ensures |d| == 64
  {
    Output(Hashed(Padded(message)))
  }

  lemma {:induction false} RestLength<T>(x: seq<T>)
    ensures |Rest(128, 128, x)| == Position(|x|)
    decreases |x|
  {
    hide Position;
    if |x| >= 128 {
      RestLength(x[128..]);
      PositionAdd(|x| - 128, 128);
    } else {
      PositionAdd(|x|, 0);
    }
  }

  /** The padding ends on a block boundary. */
  lemma PadPosition(n: nat)
    ensures Position(n + PadLength(n) + 16) == 0
    ensures 1 <= PadLength(n) <= 128
  {
    var p := Position(n);
    if p < 112 { assert PadLength(n) == 112 - p; } else { assert PadLength(n) == 240 - p; }
  }

  /** A padded message is a whole number of blocks. */
  lemma PaddedWhole(message: seq<Byte>)
    ensures Rest(128, 128, Padded(message)) == []
  {
    hide Rest, Position, SizeField, PadLength;
    PadPosition(|message|);
    RestLength(Padded(message));
  }

  class Hasher {
    const s: array<Word>
    const buf: array<Byte>
    var bytes: nat
    ghost var message: seq<Byte>

    ghost predicate Shaped() { s.Length == 8 && buf.Length == 128 }

    /** The hash value covers the whole blocks, and the buffer holds the rest. */
    ghost predicate Valid()
      reads this, s, buf
    {
      && Shaped()
      && bytes == Wrap(|message|)
      && RegsOf(s[..]) == Hashed(message)
      && buf[..Position(|message|)] == Rest(128, 128, message)
    }

    constructor ()
      ensures Valid() && message == []
      ensures fresh(s) && fresh(buf)
    {
      s := new Word[8](_ => seq(64, _ => false));
      buf := new Byte[128](_ => NONE);
      new;
      Reset();
    }

    method Reset()
      requires Shaped()
      modifies this`bytes, this`message, s
      ensures Valid() && message == []
    {
      hide FromNat;
      bytes := 0;
      message := [];
      var r := Initial();
      s[0] := r.a;
      s[1] := r.b;
      s[2] := r.c;
      s[3] := r.d;
      s[4] := r.e;
      s[5] := r.f;
      s[6] := r.g;
      s[7] := r.h;
    }

    /** Data copied into the buffer from position `at`. */
    method Buffer(at: nat, data: seq<Byte>)
      requires Shaped() && at + |data| <= 128
      modifies buf
      ensures buf[..at + |data|] == old(buf[..at]) + data
    {
      ghost var b := buf[..];
      for i := 0 to |data|
        invariant buf[..at] == b[..at]
        invariant forall n | 0 <= n < i :: buf[at + n] == data[n]
      {
        buf[at + i] := data[i];
      }
    }

    /** What appending data does to the counter and the position. */
    lemma Counts(data: seq<Byte>)
      requires bytes == Wrap(|message|)
      ensures Position(bytes) == Position(|message|)
      ensures Wrap(bytes + |data|) == Wrap(|message + data|)
      ensures Position(bytes) + |data| < 128 ==> Position(|message + data|) == Position(bytes) + |data|
      ensures Position(bytes) + |data| == 128 ==> Position(|message + data|) == 0
      ensures |data| == 128 ==> Position(|message + data|) == Position(bytes)
    {
      hide Wrap, Position;
      WrapPosition(|message|);
      WrapAdd(|message|, |data|);
      PositionAdd(|message|, |data|);
    }

    /** Data that does not fill the buffer. */
    method Keep(data: seq<Byte>)
      requires Valid() && Position(bytes) + |data| < 128
      modifies this`bytes, this`message, buf
      ensures Valid() && message == old(message) + data
    {
      hide Fold, Rest, RegsOf, Compress, Initial, Wrap, Position;
      RestLength(message);
      Counts(data);
      FoldAppend(Update, 128, 128, Initial(), message, data);
      FoldNone(Update, 128, 128, Hashed(message), Rest(128, 128, message) + data);
      ghost var t := s[..];
      Buffer(Position(bytes), data);
      bytes := Wrap(bytes + |data|);
      message := message + data;
      assert bytes == Wrap(|message|);
      assert buf[..Position(|message|)] == Rest(128, 128, message);
      assert s[..] == t;
      assert RegsOf(s[..]) == Hashed(message);
    }

    /** Data that fills the buffer exactly. */
    method Fill(data: seq<Byte>)
      requires Valid() && Position(bytes) + |data| == 128
      modifies this`bytes, this`message, s, buf
      ensures Valid() && message == old(message) + data && Position(bytes) == 0
    {
      hide Fold, Rest, RegsOf, Compress, Initial, Wrap, Position;
      RestLength(message);
      Counts(data);
      ghost var x := Rest(128, 128, message) + data;
      FoldAppend(Update, 128, 128, Initial(), message, data);
      FoldOne(Update, 128, 128, Hashed(message), x);
      Buffer(Position(bytes), data);
      assert buf[..] == x == x[..128];
      Transform(s, buf[..]);
      bytes := Wrap(bytes + |data|);
      message := message + data;
      WrapPosition(|message|);
    }

    /** A whole block straight from the data, when the buffer is empty. */
    method Direct(data: seq<Byte>)
      requires Valid() && Position(bytes) == 0 && |data| == 128
      modifies this`bytes, this`message, s
      ensures Valid() && message == old(message) + data && Position(bytes) == 0
    {
      hide Fold, Rest, RegsOf, Compress, Initial, Wrap, Position;
      RestLength(message);
      Counts(data);
      assert Rest(128, 128, message) == [] && Rest(128, 128, message) + data == data == data[..128];
      FoldAppend(Update, 128, 128, Initial(), message, data);
      FoldOne(Update, 128, 128, Hashed(message), data);
      Transform(s, data);
      bytes := Wrap(bytes + 128);
      message := message + data;
      WrapPosition(|message|);
    }

    /** Data of any length appended to the message. */
    method Write(data: seq<Byte>)
      requires Valid()
      modifies this`bytes, this`message, s, buf
      ensures Valid() && message == old(message) + data
    {
      hide Valid, Wrap, Position;
      ghost var before := message;
      var from := 0;
      var bufsize := Position(bytes);
      if bufsize != 0 && bufsize + |data| >= 128 {
        from := 128 - bufsize;
        Fill(data[..from]);
        bufsize := 0;
      }
      while |data| >= from + 128
        invariant Valid() && from <= |data| && bufsize == Position(bytes)
        invariant message == before + data[..from]
        invariant bufsize == 0 || from + 128 > |data|
        invariant bufsize == 0 || bufsize + |data| - from < 128
      {
        Direct(data[from..from + 128]);
        assert data[..from + 128] == data[..from] + data[from..from + 128];
        from := from + 128;
      }
      if |data| > from {
        Keep(data[from..]);
        assert data[..from] + data[from..] == data;
      }
      assert data[..|data|] == data;
    }

    lemma Counted()
      requires Valid()
      ensures bytes == Wrap(|message|) && Wrap(bytes) == bytes && Position(bytes) == Position(|message|)
    {
      hide Wrap, Position, Hashed, Rest;
      WrapPosition(|message|);
      WrapAdd(|message|, 0);
    }

    lemma Finished()
      requires Valid()
      ensures Shaped() && RegsOf(s[..]) == Hashed(message)
    {
    }

    /** The digest of the message; the padding stays behind as the end of the message. */
    method Finalize() returns (hash: seq<Byte>)
      requires Valid()
      modifies this`bytes, this`message, s, buf
      ensures hash == Digest(old(message))
      ensures Valid() && message == Padded(old(message))
    {
      hide Hashed, Rest, StoreBE, Wrap, Position, FromNat, Valid;
      ghost var before := message;
      Counted();
      var sizedesc := Zeros(8) + StoreBE(FromNat(8 * bytes));
      var n := 1 + (239 - Position(bytes)) % 128;
      PadPosition(|message|);
      var pad := [TOP] + Zeros(127);
      assert pad[..n] == [TOP] + Zeros(n - 1);
      Write(pad[..n]);
      Write(sizedesc);
      assert message == before + (pad[..n] + sizedesc);
      Finished();
      hash := StoreBE(s[0]) + StoreBE(s[1]) + StoreBE(s[2]) + StoreBE(s[3])
            + StoreBE(s[4]) + StoreBE(s[5]) + StoreBE(s[6]) + StoreBE(s[7]);
    }
  }
}
