// 32-bit words as the words of CubeHash.
module CubeWords {
  import opened Words32
  import opened CubeHash

  function WordOps(): Ops<Word> { Ops(Add, Sub, Rol, Ror, Xor) }

  /** 32-bit words obey the laws. */
  lemma WordsLawful()
    ensures Lawful(WordOps())
  {
    hide Add, Sub, Xor, Rol, Ror;
    forall a: Word, b: Word
      ensures Sub(Add(a, b), a) == b && Add(a, Sub(b, a)) == b && Xor(Xor(a, b), b) == a
    {
      SubAdd(a, b);
      XorTwice(a, b);
    }
    forall a: Word
      ensures Ror(Rol(a, 7), 7) == a && Ror(Rol(a, 11), 11) == a
      ensures Rol(Ror(a, 7), 7) == a && Rol(Ror(a, 11), 11) == a
    {
      RolRor(a, 7);
      RolRor(a, 11);
    }
  }

  /** Rounds of 32-bit words can be undone, and every state is the round of another. */
  lemma Invertible(s: seq<Word>)
    requires |s| == 32
    ensures RoundBack(WordOps(), Round(WordOps(), s)) == s
    ensures Round(WordOps(), RoundBack(WordOps(), s)) == s
  {
    WordsLawful();
    RoundInverse(WordOps(), s);
  }
}
