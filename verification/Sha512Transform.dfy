// The SHA-512 transformation as it runs.  The working variables stay where they are and
// change roles from round to round, and 16 words hold the message schedule.
module Sha512Transform {
  import opened Words
  import opened Sha512Spec

  function FastCh(x: Word, y: Word, z: Word): Word { Xor(z, And(x, Xor(y, z))) }

  function FastMaj(x: Word, y: Word, z: Word): Word { Or(And(x, y), And(z, Or(x, y))) }

  /** The choice and majority functions in fewer operations. */
  lemma FastForms(x: Word, y: Word, z: Word)
    ensures FastCh(x, y, z) == Ch(x, y, z)
    ensures FastMaj(x, y, z) == Maj(x, y, z)
  {
  }

  function Turn(x: Word, n: nat): Word
    requires n < 64
  {
    Or(Shr(x, n), Shl(x, 64 - n))
  }

  function FastBig0(x: Word): Word { Xor(Xor(Turn(x, 28), Turn(x, 34)), Turn(x, 39)) }

  function FastBig1(x: Word): Word { Xor(Xor(Turn(x, 14), Turn(x, 18)), Turn(x, 41)) }

  function FastSmall0(x: Word): Word { Xor(Xor(Turn(x, 1), Turn(x, 8)), Shr(x, 7)) }

  function FastSmall1(x: Word): Word { Xor(Xor(Turn(x, 19), Turn(x, 61)), Shr(x, 6)) }

  lemma FastSigmas(x: Word)
    ensures FastBig0(x) == BigSigma0(x) && FastBig1(x) == BigSigma1(x)
    ensures FastSmall0(x) == SmallSigma0(x) && FastSmall1(x) == SmallSigma1(x)
  {
    hide Shr, Shl, Or, Xor, Ror;
    ShiftsRotate(x, 28);
    ShiftsRotate(x, 34);
    ShiftsRotate(x, 39);
    ShiftsRotate(x, 14);
    ShiftsRotate(x, 18);
    ShiftsRotate(x, 41);
    ShiftsRotate(x, 1);
    ShiftsRotate(x, 8);
    ShiftsRotate(x, 19);
    ShiftsRotate(x, 61);
  }

  /** The place of working variable j in round t. */
  function Place(t: nat, j: nat): (p: nat)
    requires j < 8
    ensures p < 8
  {
    if t % 8 <= j then j - t % 8 else j + 8 - t % 8
  }

  type Eight = v: seq<Word> | |v| == 8 witness seq(8, _ => seq(64, _ => false))

  /** The working variables before round t. */
  function Roles(v: Eight, t: nat): Regs {
    Regs(v[Place(t, 0)], v[Place(t, 1)], v[Place(t, 2)], v[Place(t, 3)],
         v[Place(t, 4)], v[Place(t, 5)], v[Place(t, 6)], v[Place(t, 7)])
  }

  /** The last 16 schedule words before round t, each at its number modulo 16. */
  ghost predicate Window(w: seq<Word>, block: Block, t: nat)
    requires |w| == 16
  {
    forall u: nat | t <= u + 16 && u < t :: w[u % 16] == Schedule(block, u)
  }

  /** One round: only two of the variables change, the others only change roles. */
  lemma RoundInPlace(v: Eight, t: nat, k: Word, x: Word, v': Eight)
    requires var r := Roles(v, t);
             var t1 := Add(Add(Add(Add(r.h, BigSigma1(r.e)), Ch(r.e, r.f, r.g)), k), x);
             var t2 := Add(BigSigma0(r.a), Maj(r.a, r.b, r.c));
             v' == v[Place(t, 3) := Add(r.d, t1)][Place(t, 7) := Add(t1, t2)]
    ensures Roles(v', t + 1) == Round(Roles(v, t), k, x)
  {
    hide Add, BigSigma0, BigSigma1, Ch, Maj;
    PlaceNext(t);
  }

  lemma PlaceNext(t: nat)
    ensures forall j | 0 <= j < 7 :: Place(t + 1, j + 1) == Place(t, j)
    ensures Place(t + 1, 0) == Place(t, 7)
    ensures forall i, j | 0 <= i < j < 8 :: Place(t, i) != Place(t, j)
  {
  }

  lemma WindowSlides(w: seq<Word>, block: Block, t: nat, w': seq<Word>)
    requires |w| == 16 && Window(w, block, t)
    requires w' == w[t % 16 := Schedule(block, t)]
    ensures Window(w', block, t + 1)
  {
    hide Schedule;
    forall u: nat | t + 1 <= u + 16 && u < t + 1 ensures w'[u % 16] == Schedule(block, u) {
      if u < t { assert u % 16 != t % 16; }
    }
  }

  lemma StepBack(t: nat, k: nat)
    requires k <= 16 <= t
    ensures (t - k) % 16 == (t % 16 + (16 - k)) % 16
  {
    assert t - k == 16 * (t / 16 - 1) + (t % 16 + (16 - k));
  }

  lemma WindowAt(w: seq<Word>, block: Block, t: nat, k: nat, j: nat)
    requires |w| == 16 && Window(w, block, t) && 1 <= k <= 16 <= t && j == (t % 16 + (16 - k)) % 16
    ensures w[j] == Schedule(block, t - k)
  {
    hide Schedule;
    StepBack(t, k);
  }

  lemma ScheduleStep(block: Block, t: nat)
    requires t >= 16
    ensures Schedule(block, t)
         == Add(Add(Add(SmallSigma1(Schedule(block, t - 2)), Schedule(block, t - 7)),
                    SmallSigma0(Schedule(block, t - 15))), Schedule(block, t - 16))
  {
    hide Add, SmallSigma0, SmallSigma1;
  }

  /** The word for round t from the 16 before it. */
  lemma WindowNext(w: seq<Word>, block: Block, t: nat, i: nat)
    requires |w| == 16 && Window(w, block, t) && t >= 16 && i == t % 16
    ensures Add(w[i], Add(Add(SmallSigma1(w[(i + 14) % 16]), w[(i + 9) % 16]), SmallSigma0(w[(i + 1) % 16])))
         == Schedule(block, t)
  {
    hide Add, SmallSigma0, SmallSigma1, Schedule, Window;
    WindowAt(w, block, t, 2, (i + 14) % 16);
    WindowAt(w, block, t, 7, (i + 9) % 16);
    WindowAt(w, block, t, 15, (i + 1) % 16);
    WindowAt(w, block, t, 16, i);
    ScheduleStep(block, t);
    AddCommutes(w[i], Add(Add(SmallSigma1(w[(i + 14) % 16]), w[(i + 9) % 16]), SmallSigma0(w[(i + 1) % 16])));
  }

  /** Before round t, the variables and the window hold what the definition says. */
  ghost predicate At(v: seq<Word>, w: seq<Word>, block: Block, t: nat, r: Regs)
    requires t <= 80
  {
    |v| == 8 && |w| == 16 && Window(w, block, t) && Roles(v, t) == Rounds(r, block, t)
  }

  /** Round t with the variables in the given roles, d and h updated in place. */
  method Step(v: array<Word>, w: array<Word>, a: nat, b: nat, c: nat, d: nat, e: nat, f: nat, g: nat, h: nat,
              chunk: Block, t: nat, i: nat, ghost r: Regs)
    requires v.Length == 8 && w.Length == 16 && v != w && t < 80 && i == t % 16
    requires a == Place(t, 0) && b == Place(t, 1) && c == Place(t, 2) && d == Place(t, 3)
    requires e == Place(t, 4) && f == Place(t, 5) && g == Place(t, 6) && h == Place(t, 7)
    requires At(v[..], w[..], chunk, t, r)
    modifies v, w
    ensures At(v[..], w[..], chunk, t + 1, r)
  {
    hide Place, Window, Add, BigSigma0, BigSigma1, Ch, Maj, FastBig0, FastBig1, FastCh, FastMaj, Schedule, Constant;
    ghost var v0 := v[..];
    Expand(w, chunk, t, i);
    FastSigmas(v[e]);
    FastSigmas(v[a]);
    FastForms(v[e], v[f], v[g]);
    FastForms(v[a], v[b], v[c]);
    var t1 := Add(Add(Add(Add(v[h], FastBig1(v[e])), FastCh(v[e], v[f], v[g])), Constant(t)), w[i]);
    var t2 := Add(FastBig0(v[a]), FastMaj(v[a], v[b], v[c]));
    v[d] := Add(v[d], t1);
    v[h] := Add(t1, t2);
    RoundInPlace(v0, t, Constant(t), Schedule(chunk, t), v[..]);
  }

  /** The schedule word of round t, written over the word of round t - 16. */
  method Expand(w: array<Word>, chunk: Block, t: nat, i: nat)
    requires w.Length == 16 && i == t % 16 && Window(w[..], chunk, t)
    modifies w
    ensures Window(w[..], chunk, t + 1) && w[i] == Schedule(chunk, t)
  {
    hide Window, Add, FastSmall0, FastSmall1, SmallSigma0, SmallSigma1;
    ghost var w0 := w[..];
    if t < 16 {
      w[i] := LoadBE(chunk[8 * t..8 * t + 8]);
    } else {
      WindowNext(w0, chunk, t, i);
      FastSigmas(w[(i + 14) % 16]);
      FastSigmas(w[(i + 1) % 16]);
      w[i] := Add(w[i], Add(Add(FastSmall1(w[(i + 14) % 16]), w[(i + 9) % 16]), FastSmall0(w[(i + 1) % 16])));
    }
    WindowSlides(w0, chunk, t, w[..]);
  }

  lemma PlacesFrom(t: nat, k: nat, u: nat)
    requires t % 8 == 0 && k < 8 && u == t + k
    ensures u % 16 == t % 16 + k
    ensures forall j | 0 <= j < 8 :: Place(u, j) == if k <= j then j - k else j + 8 - k
  {
    assert u % 8 == k;
  }

  /** Eight rounds, after which the variables are back in their first roles. */
  method EightSteps(v: array<Word>, w: array<Word>, chunk: Block, t: nat, i: nat, ghost r: Regs)
    requires v.Length == 8 && w.Length == 16 && v != w && t % 8 == 0 && t + 8 <= 80 && i == t % 16
    requires At(v[..], w[..], chunk, t, r)
    modifies v, w
    ensures At(v[..], w[..], chunk, t + 8, r)
  {
    hide At, Place;
    PlacesFrom(t, 0, t);
    Step(v, w, 0, 1, 2, 3, 4, 5, 6, 7, chunk, t, i, r);
    PlacesFrom(t, 1, t + 1);
    Step(v, w, 7, 0, 1, 2, 3, 4, 5, 6, chunk, t + 1, i + 1, r);
    PlacesFrom(t, 2, t + 2);
    Step(v, w, 6, 7, 0, 1, 2, 3, 4, 5, chunk, t + 2, i + 2, r);
    PlacesFrom(t, 3, t + 3);
    Step(v, w, 5, 6, 7, 0, 1, 2, 3, 4, chunk, t + 3, i + 3, r);
    PlacesFrom(t, 4, t + 4);
    Step(v, w, 4, 5, 6, 7, 0, 1, 2, 3, chunk, t + 4, i + 4, r);
    PlacesFrom(t, 5, t + 5);
    Step(v, w, 3, 4, 5, 6, 7, 0, 1, 2, chunk, t + 5, i + 5, r);
    PlacesFrom(t, 6, t + 6);
    Step(v, w, 2, 3, 4, 5, 6, 7, 0, 1, chunk, t + 6, i + 6, r);
    PlacesFrom(t, 7, t + 7);
    Step(v, w, 1, 2, 3, 4, 5, 6, 7, 0, chunk, t + 7, i + 7, r);
  }

  method Sixteen(v: array<Word>, w: array<Word>, chunk: Block, t: nat, ghost r: Regs)
    requires v.Length == 8 && w.Length == 16 && v != w && t % 16 == 0 && t + 16 <= 80
    requires At(v[..], w[..], chunk, t, r)
    modifies v, w
    ensures At(v[..], w[..], chunk, t + 16, r)
  {
    hide At;
    EightSteps(v, w, chunk, t, 0, r);
    EightSteps(v, w, chunk, t + 8, 8, r);
  }

  function RegsOf(s: Eight): Regs { Regs(s[0], s[1], s[2], s[3], s[4], s[5], s[6], s[7]) }

  lemma Start(v: Eight, w: seq<Word>, block: Block)
    requires |w| == 16
    ensures At(v, w, block, 0, RegsOf(v))
  {
  }

  lemma Finish(v: Eight, w: seq<Word>, block: Block, r: Regs)
    requires At(v, w, block, 80, r)
    ensures RegsOf(v) == Rounds(r, block, 80)
  {
    hide Window, Rounds;
    assert forall j | 0 <= j < 8 :: Place(80, j) == j;
  }

  method AddTo(s: array<Word>, v: array<Word>)
    requires s.Length == 8 && v.Length == 8 && s != v
    modifies s
    ensures RegsOf(s[..]) == AddRegs(RegsOf(old(s[..])), RegsOf(v[..]))
  {
    hide Add;
    s[0] := Add(s[0], v[0]);
    s[1] := Add(s[1], v[1]);
    s[2] := Add(s[2], v[2]);
    s[3] := Add(s[3], v[3]);
    s[4] := Add(s[4], v[4]);
    s[5] := Add(s[5], v[5]);
    s[6] := Add(s[6], v[6]);
    s[7] := Add(s[7], v[7]);
  }

  /** The transformation of the hash value by one chunk. */
  method Transform(s: array<Word>, chunk: Block)
    requires s.Length == 8
    modifies s
    ensures RegsOf(s[..]) == Compress(RegsOf(old(s[..])), chunk)
  {
    hide At, AddRegs, Rounds, RegsOf;
    ghost var r := RegsOf(s[..]);
    var v := new Word[8](i requires 0 <= i < 8 reads s => s[i]);
    var w := new Word[16](_ => seq(64, _ => false));
    assert v[..] == s[..];
    Start(v[..], w[..], chunk);
    Sixteen(v, w, chunk, 0, r);
    Sixteen(v, w, chunk, 16, r);
    Sixteen(v, w, chunk, 32, r);
    Sixteen(v, w, chunk, 48, r);
    Sixteen(v, w, chunk, 64, r);
    Finish(v[..], w[..], chunk, r);
    AddTo(s, v);
  }
}
