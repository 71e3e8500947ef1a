// BLAKE over any compression function: the two-word bit counter, which the close step sets
// back before the last blocks, against the counter rule of the BLAKE specification.
module Blake {

  /** 32-bit words and 64-byte blocks, or 64-bit words and 128-byte blocks. */
  datatype Variant = Small | Big

  function BlockBytes(v: Variant): nat { if v.Small? then 64 else 128 }

  function BlockBits(v: Variant): nat { if v.Small? then 512 else 1024 }

  function Modulus(v: Variant): nat { if v.Small? then 0x1_0000_0000 else 0x1_0000_0000_0000_0000 }

  /** The two words, high and low. */
  datatype Counter = Counter(t1: nat, t0: nat)

  const ZERO := Counter(0, 0)

  /** A bit count as the two words hold it. */
  function Pair(v: Variant, n: nat): Counter { Counter(n / Modulus(v) % Modulus(v), n % Modulus(v)) }

  /** One block further; the carry shows in a low word below the block size. */
  function Inc(v: Variant, c: Counter): Counter {
    var low := c.t0 + BlockBits(v);
    var t0 := if low >= Modulus(v) then low - Modulus(v) else low;
    var high := if c.t1 + 1 >= Modulus(v) then c.t1 + 1 - Modulus(v) else c.t1 + 1;
    Counter(if t0 < BlockBits(v) then high else c.t1, t0)
  }

  /** The value set back so that one step gives the count for a block with bitLen message bits. */
  function SetBack(v: Variant, c: Counter, bitLen: nat): Counter
    requires bitLen < BlockBits(v) && (c.t0 == 0 || c.t0 >= BlockBits(v))
  {
    if bitLen == 0 then Counter(Modulus(v) - 1, Modulus(v) - BlockBits(v))
    else if c.t0 == 0 then Counter(if c.t1 == 0 then Modulus(v) - 1 else c.t1 - 1, Modulus(v) - BlockBits(v) + bitLen)
    else Counter(c.t1, c.t0 - (BlockBits(v) - bitLen))
  }

  lemma AlignedSmall(n: nat)
    requires n % 512 == 0
    ensures var r := n % 0x1_0000_0000; (r == 0 || r >= 512) && r + 512 <= 0x1_0000_0000
  {
    var s := n / 512 - 0x80_0000 * (n / 0x1_0000_0000);
    assert n % 0x1_0000_0000 == 512 * s;
  }

  lemma AlignedBig(n: nat)
    requires n % 1024 == 0
    ensures var r := n % 0x1_0000_0000_0000_0000; (r == 0 || r >= 1024) && r + 1024 <= 0x1_0000_0000_0000_0000
  {
    var s := n / 1024 - 0x40_0000_0000_0000 * (n / 0x1_0000_0000_0000_0000);
    assert n % 0x1_0000_0000_0000_0000 == 1024 * s;
  }

  /** Between blocks the low word is zero or at least one block. */
  lemma PairAligned(v: Variant, n: nat)
    requires n % BlockBits(v) == 0
    ensures var c := Pair(v, n); c.t0 == 0 || c.t0 >= BlockBits(v)
    ensures Pair(v, n).t0 + BlockBits(v) <= Modulus(v)
  {
    if v.Small? { AlignedSmall(n); } else { AlignedBig(n); }
  }

  lemma PairBelow(v: Variant, n: nat, k: nat)
    requires Pair(v, n).t0 + k < Modulus(v)
    ensures Pair(v, n + k) == Counter(Pair(v, n).t1, Pair(v, n).t0 + k)
  {
  }

  lemma PairCarry(v: Variant, n: nat, k: nat)
    requires Pair(v, n).t0 + k == Modulus(v)
    ensures Pair(v, n + k) == Counter(if Pair(v, n).t1 + 1 == Modulus(v) then 0 else Pair(v, n).t1 + 1, 0)
  {
    if v.Small? { CarrySmall(n, k); } else { CarryBig(n, k); }
  }

  lemma CarrySmall(n: nat, k: nat)
    requires n % 0x1_0000_0000 + k == 0x1_0000_0000
    ensures (n + k) % 0x1_0000_0000 == 0 && (n + k) / 0x1_0000_0000 == n / 0x1_0000_0000 + 1
    ensures var h := n / 0x1_0000_0000 % 0x1_0000_0000;
            (n / 0x1_0000_0000 + 1) % 0x1_0000_0000 == if h + 1 == 0x1_0000_0000 then 0 else h + 1
  {
  }

  lemma CarryBig(n: nat, k: nat)
    requires n % 0x1_0000_0000_0000_0000 + k == 0x1_0000_0000_0000_0000
    ensures (n + k) % 0x1_0000_0000_0000_0000 == 0
    ensures (n + k) / 0x1_0000_0000_0000_0000 == n / 0x1_0000_0000_0000_0000 + 1
    ensures var h := n / 0x1_0000_0000_0000_0000 % 0x1_0000_0000_0000_0000;
            (n / 0x1_0000_0000_0000_0000 + 1) % 0x1_0000_0000_0000_0000
            == if h + 1 == 0x1_0000_0000_0000_0000 then 0 else h + 1
  {
  }

  /** Counting one block up. */
  lemma IncPair(v: Variant, n: nat)
    requires n % BlockBits(v) == 0
    ensures Inc(v, Pair(v, n)) == Pair(v, n + BlockBits(v))
  {
    PairAligned(v, n);
    var c := Pair(v, n);
    assert c.t1 < Modulus(v);
    if c.t0 + BlockBits(v) < Modulus(v) {
      PairBelow(v, n, BlockBits(v));
    } else {
      PairCarry(v, n, BlockBits(v));
    }
  }

  /** The set-back counter stepped once counts all message bits, or nothing for padding alone. */
  lemma SetBackPair(v: Variant, n: nat, bitLen: nat)
    requires n % BlockBits(v) == 0 && bitLen < BlockBits(v)
    requires var c := Pair(v, n); c.t0 == 0 || c.t0 >= BlockBits(v)
    ensures Inc(v, SetBack(v, Pair(v, n), bitLen)) == if bitLen == 0 then ZERO else Pair(v, n + bitLen)
    ensures Pair(v, n + bitLen) == Counter(Pair(v, n).t1, Pair(v, n).t0 + bitLen)
  {
    PairAligned(v, n);
    PairBelow(v, n, bitLen);
    assert Pair(v, n).t1 < Modulus(v);
    hide Pair;
  }

  /** The counter for padding alone. */
  lemma SetBackZero(v: Variant)
    ensures Inc(v, Counter(Modulus(v) - 1, Modulus(v) - BlockBits(v))) == ZERO
  {
  }
}
