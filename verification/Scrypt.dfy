// scrypt with N = 1024, r = 1, p = 1: the in-place mixing on 32 words against sections 4, 5
// and 6 of RFC 7914.
module Scrypt {
  import opened Words32
  import opened Salsa
  import Words
  import Numbers
  import Bytes
  import Pbkdf2

  type Pair = b: seq<Word> | |b| == 32 witness seq(32, _ => seq(32, _ => false))

  function XorBlock(a: Block, b: Block): Block { seq(16, i requires 0 <= i < 16 => Xor(a[i], b[i])) }

  function XorPair(a: Pair, b: Pair): Pair { seq(32, i requires 0 <= i < 32 => Xor(a[i], b[i])) }

  /** scryptBlockMix for two blocks. */
  function BlockMix(b: Pair): Pair {
    var y0 := Core(XorBlock(b[16..], b[..16]));
    var y1 := Core(XorBlock(y0, b[16..]));
    y0 + y1
  }

  const N: nat := 1024

  /** The pair after i mixings: V_i. */
  function Mixed(b: Pair, i: nat): Pair {
    if i == 0 then b else BlockMix(Mixed(b, i - 1))
  }

  function BitsOf(b: seq<Word>): seq<bool> {
    if b == [] then [] else b[0] + BitsOf(b[1..])
  }

  /** The last block as one little-endian number. */
  function Integerify(b: Pair): nat { Words.Value(BitsOf(b[16..])) }

  /** The second loop of scryptROMix, n times. */
  function Looked(b: Pair, n: nat): Pair {
    if n == 0 then Mixed(b, N) else
      var x := Looked(b, n - 1);
      BlockMix(XorPair(x, Mixed(b, Integerify(x) % N)))
  }

  function RoMix(b: Pair): Pair { Looked(b, N) }

  /** The low ten bits of a number written in binary. */
  lemma {:induction false} LowTen(v: seq<bool>)
    requires |v| >= 10
    ensures Words.Value(v) % N == Words.Value(v[..10]) < N
    decreases |v|
  {
    if |v| == 10 {
      assert v[..10] == v;
      TenBits(v);
    } else {
      var k := |v| - 1;
      LowTen(v[..k]);
      assert v[..k][..10] == v[..10];
      HighPower(k);
      var p := Words.Pow2(k - 10);
      var d := Words.Digit(v[k]);
      assert Words.Value(v) == Words.Value(v[..k]) + d * (N * p);
      MultipleOff(Words.Value(v[..k]), d * p);
      assert d * (N * p) == N * (d * p);
    }
  }

  lemma MultipleOff(n: nat, m: nat)
    ensures (n + N * m) % N == n % N
  {
  }

  lemma {:induction false} HighPower(k: nat)
    requires k >= 10
    ensures Words.Pow2(k) == N * Words.Pow2(k - 10)
  {
    if k > 10 {
      HighPower(k - 1);
    } else {
      assert Words.Pow2(5) == 32;
      assert Words.Pow2(10) == 32 * Words.Pow2(5);
    }
  }

  lemma TenBits(v: seq<bool>)
    requires |v| == 10
    ensures Words.Value(v) < N
  {
    Numbers.ValueBelow(v);
    HighPower(10);
  }

  /** The index read from one word is the number modulo N. */
  lemma IndexOf(b: Pair)
    ensures Integerify(b) % N == Words.Value(b[16][..10]) < N
  {
    var l := b[16..];
    assert BitsOf(l)[..10] == l[0][..10];
    LowTen(BitsOf(l));
  }

  lemma XorBlockCommutes(a: Block, b: Block)
    ensures XorBlock(a, b) == XorBlock(b, a)
  {
    forall i | 0 <= i < 16 ensures Xor(a[i], b[i]) == Xor(b[i], a[i]) {}
  }

  /** Half of the words: 16 of them from position `at`. */
  function HalfAt(x: seq<Word>, at: nat): Block
    requires |x| == 32 && at <= 16
  {
    x[at..at + 16]
  }

  ghost predicate Halves(to: nat, from: nat) { (to == 0 && from == 16) || (to == 16 && from == 0) }

  /** One half added to the other without carries. */
  method XorHalf(x: array<Word>, to: nat, from: nat)
    requires x.Length == 32 && Halves(to, from)
    modifies x
    ensures HalfAt(x[..], to) == XorBlock(HalfAt(old(x[..]), to), HalfAt(old(x[..]), from))
    ensures HalfAt(x[..], from) == HalfAt(old(x[..]), from)
  {
    hide Xor;
    ghost var v := x[..];
    for k := 0 to 16
      invariant forall n | 0 <= n < 32 && !(to <= n < to + k) :: x[n] == v[n]
      invariant forall n | to <= n < to + k :: x[n] == Xor(v[n], v[n - to + from])
    {
      x[to + k] := Xor(x[to + k], x[from + k]);
    }
  }

  /** A block added to one half. */
  method AddHalf(x: array<Word>, to: nat, from: nat, y: Block)
    requires x.Length == 32 && Halves(to, from)
    modifies x
    ensures HalfAt(x[..], to) == AddBlock(HalfAt(old(x[..]), to), y)
    ensures HalfAt(x[..], from) == HalfAt(old(x[..]), from)
  {
    hide Add;
    ghost var v := x[..];
    for k := 0 to 16
      invariant forall n | 0 <= n < 32 && !(to <= n < to + k) :: x[n] == v[n]
      invariant forall n | to <= n < to + k :: x[n] == Add(v[n], y[n - to])
    {
      x[to + k] := Add(x[to + k], y[k]);
    }
  }

  /** The 16 words from `to` mixed with the 16 words from `from`, in place. */
  method XorSalsa(x: array<Word>, to: nat, from: nat)
    requires x.Length == 32 && Halves(to, from)
    modifies x
    ensures HalfAt(x[..], to) == Core(XorBlock(HalfAt(old(x[..]), to), HalfAt(old(x[..]), from)))
    ensures HalfAt(x[..], from) == HalfAt(old(x[..]), from)
  {
    hide XorBlock, AddBlock, Rounds;
    XorHalf(x, to, from);
    var y := RunRounds(HalfAt(x[..], to));
    AddHalf(x, to, from, y);
  }

  /** The two calls in a row mix the pair. */
  method MixInPlace(x: array<Word>)
    requires x.Length == 32
    modifies x
    ensures x[..] == BlockMix(old(x[..]))
  {
    hide Core, XorBlock;
    ghost var b: Pair := x[..];
    assert HalfAt(b, 0) == b[..16] && HalfAt(b, 16) == b[16..];
    XorBlockCommutes(b[..16], b[16..]);
    XorSalsa(x, 0, 16);
    XorBlockCommutes(b[16..], HalfAt(x[..], 0));
    XorSalsa(x, 16, 0);
    assert x[..] == HalfAt(x[..], 0) + HalfAt(x[..], 16);
  }

  /** The words of x added to 32 words of v, in place. */
  method XorFrom(x: array<Word>, v: array<Word>, j: nat)
    requires x.Length == 32 && j + 32 <= v.Length && x != v
    modifies x
    ensures x[..] == XorPair(old(x[..]), v[j..j + 32])
  {
    hide Xor;
    ghost var b := x[..];
    for k := 0 to 32
      invariant forall n | 0 <= n < k :: x[n] == Xor(b[n], v[j + n])
      invariant forall n | k <= n < 32 :: x[n] == b[n]
    {
      x[k] := Xor(x[k], v[j + k]);
    }
  }

  method CopyTo(v: array<Word>, j: nat, x: array<Word>)
    requires x.Length == 32 && j + 32 <= v.Length && x != v
    modifies v
    ensures v[j..j + 32] == x[..]
    ensures v[..j] == old(v[..j])
  {
    ghost var w := v[..];
    for k := 0 to 32
      invariant forall n | 0 <= n < k :: v[j + n] == x[n]
      invariant v[..j] == w[..j]
    {
      v[j + k] := x[k];
    }
  }

  /** The scratchpad holds V_0 to V_(n-1). */
  ghost predicate Filled(b: Pair, v: seq<Word>, n: nat) {
    32 * n <= |v| && forall i | 0 <= i < n :: v[32 * i..32 * i + 32] == Mixed(b, i)
  }

  lemma FilledMore(b: Pair, v: seq<Word>, w: seq<Word>, n: nat)
    requires Filled(b, v, n) && |v| == |w| && 32 * n + 32 <= |w|
    requires w[..32 * n] == v[..32 * n] && w[32 * n..32 * n + 32] == Mixed(b, n)
    ensures Filled(b, w, n + 1)
  {
    hide Mixed;
    forall i | 0 <= i < n + 1 ensures w[32 * i..32 * i + 32] == Mixed(b, i) {
      if i < n {
        assert w[32 * i..32 * i + 32] == w[..32 * n][32 * i..32 * i + 32];
        assert v[32 * i..32 * i + 32] == v[..32 * n][32 * i..32 * i + 32];
      }
    }
  }

  /** The first loop. */
  method Expand(x: array<Word>, v: array<Word>)
    requires x.Length == 32 && v.Length == 32 * N && x != v
    modifies x, v
    ensures x[..] == Mixed(old(x[..]), N)
    ensures Filled(old(x[..]), v[..], N)
  {
    hide BlockMix, Filled;
    ghost var b: Pair := x[..];
    FilledNone(b, v[..]);
    var i := 0;
    while i < N
      invariant i <= N && x[..] == Mixed(b, i) && Filled(b, v[..], i)
    {
      ghost var w := v[..];
      CopyTo(v, 32 * i, x);
      FilledMore(b, w, v[..], i);
      MixInPlace(x);
      i := i + 1;
    }
  }

  lemma FilledNone(b: Pair, v: seq<Word>)
    ensures Filled(b, v, 0)
  {
  }

  lemma FilledAt(b: Pair, v: seq<Word>, n: nat, i: nat)
    requires Filled(b, v, n) && i < n
    ensures 32 * i + 32 <= |v| && v[32 * i..32 * i + 32] == Mixed(b, i)
  {
  }

  /** Both loops; every index into the scratchpad is in bounds. */
  method RoMixInPlace(x: array<Word>, v: array<Word>)
    requires x.Length == 32 && v.Length == 32 * N && x != v
    modifies x, v
    ensures x[..] == RoMix(old(x[..]))
  {
    hide BlockMix, Filled, Mixed, Integerify;
    ghost var b: Pair := x[..];
    Expand(x, v);
    var i := 0;
    while i < N
      invariant i <= N && x[..] == Looked(b, i) && Filled(b, v[..], N)
    {
      IndexOf(x[..]);
      var j := 32 * Words.Value(x[16][..10]);
      FilledAt(b, v[..], N, j / 32);
      assert v[..][j..j + 32] == v[j..j + 32];
      XorFrom(x, v, j);
      MixInPlace(x);
      i := i + 1;
    }
  }

  type Byte = Words.Byte

  function Join(a: Byte, b: Byte, c: Byte, d: Byte): Word {
    var x: seq<bool> := a;
    x + b + c + d
  }

  /** 32 little-endian words from 128 bytes. */
  function WordsOf(b: seq<Byte>): Pair
    requires |b| == 128
  {
    seq(32, k requires 0 <= k < 32 => Join(b[4 * k], b[4 * k + 1], b[4 * k + 2], b[4 * k + 3]))
  }

  /** Word k is the number its four bytes spell. */
  lemma WordsValue(b: seq<Byte>, k: nat)
    requires |b| == 128 && k < 32
    ensures Words.Value(WordsOf(b)[k]) == Numbers.LittleEndian(b[4 * k..4 * k + 4])
  {
    hide Words.Value, Numbers.LittleEndian;
    var c := b[4 * k..4 * k + 4];
    JoinBits(c);
    Numbers.BitsValue(c);
  }

  lemma JoinBits(c: seq<Byte>)
    requires |c| == 4
    ensures Bytes.Bits(c) == Join(c[0], c[1], c[2], c[3])
  {
    assert c[1..][1..] == c[2..] && c[2..][1..] == c[3..] && c[3..][1..] == [];
    assert Bytes.Bits(c[3..]) == c[3] + Bytes.Bits([]);
    assert Bytes.Bits(c[2..]) == c[2] + Bytes.Bits(c[3..]);
    assert Bytes.Bits(c[1..]) == c[1] + Bytes.Bits(c[2..]);
  }

  function ByteOf(x: Pair, i: nat): Byte
    requires i < 128
  {
    var k := 8 * (i % 4);
    assert k + 8 <= 32;
    x[i / 4][k..k + 8]
  }

  function BytesOf(x: Pair): (b: seq<Byte>)
    ensures |b| == 128
  {
    seq(128, i requires 0 <= i < 128 => ByteOf(x, i))
  }

  lemma ByteParts(x: Pair, k: nat, j: nat)
    requires k < 32 && j < 4
    ensures BytesOf(x)[4 * k + j] == x[k][8 * j..8 * j + 8]
  {
    assert (4 * k + j) / 4 == k && (4 * k + j) % 4 == j;
  }

  lemma JoinParts(w: Word)
    ensures Join(w[0..8], w[8..16], w[16..24], w[24..32]) == w
  {
  }

  /** Encoding 32 words and decoding them again changes nothing. */
  lemma BytesWords(x: Pair)
    ensures WordsOf(BytesOf(x)) == x
  {
    hide Join, BytesOf;
    forall k | 0 <= k < 32 ensures WordsOf(BytesOf(x))[k] == x[k] {
      ByteParts(x, k, 0);
      ByteParts(x, k, 1);
      ByteParts(x, k, 2);
      ByteParts(x, k, 3);
      JoinParts(x[k]);
    }
  }

  /** scrypt of a password and a salt, for N = 1024, r = 1 and p = 1. */
  function Derived(hash: Pbkdf2.Hash, passwd: seq<Byte>, salt: seq<Byte>, dkLen: nat): seq<Byte> {
    var b := WordsOf(Pbkdf2.Derived(hash, passwd, salt, 1, 128));
    Pbkdf2.Derived(hash, passwd, BytesOf(RoMix(b)), 1, dkLen)
  }

  method Hash(hash: Pbkdf2.Hash, input: seq<Byte>) returns (output: seq<Byte>)
    ensures output == Derived(hash, input, input, 32)
  {
    hide Pbkdf2.Derived, RoMix, WordsOf, BytesOf;
    var b := Pbkdf2.Derive(hash, input, input, 1, 128);
    var w := WordsOf(b);
    var x := new Word[32](k requires 0 <= k < 32 => w[k]);
    assert x[..] == w;
    var v := new Word[32 * N](_ => seq(32, _ => false));
    RoMixInPlace(x, v);
    b := BytesOf(x[..]);
    output := Pbkdf2.Derive(hash, input, b, 1, 32);
  }
}
