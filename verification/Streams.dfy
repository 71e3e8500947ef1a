// Block-wise processing of a stream that arrives in pieces: what a buffering update loop
// computes from the whole of the data seen so far.
module Streams {

  /** The state after every block of b items has been taken while at least `hold` items were left. */
  function Fold<S, T>(f: (S, seq<T>) -> S, b: nat, hold: nat, s: S, data: seq<T>): S
    requires 0 < b <= hold
    decreases |data|
  {
    if |data| < hold then s else Fold(f, b, hold, f(s, data[..b]), data[b..])
  }

  /** The items that are left. */
  function Rest<T>(b: nat, hold: nat, data: seq<T>): (r: seq<T>)
    requires 0 < b <= hold
    ensures |r| < hold
    ensures |r| <= |data| && r == data[|data| - |r|..]
    decreases |data|
  {
    if |data| < hold then data else Rest(b, hold, data[b..])
  }

  /** Appending data is the same as appending it to what was left. */
  lemma {:induction false} FoldAppend<S, T>(f: (S, seq<T>) -> S, b: nat, hold: nat, s: S, x: seq<T>, y: seq<T>)
    requires 0 < b <= hold
    ensures Fold(f, b, hold, s, x + y) == Fold(f, b, hold, Fold(f, b, hold, s, x), Rest(b, hold, x) + y)
    ensures Rest(b, hold, x + y) == Rest(b, hold, Rest(b, hold, x) + y)
    decreases |x|
  {
    if |x| >= hold {
      assert (x + y)[..b] == x[..b] && (x + y)[b..] == x[b..] + y;
      FoldAppend(f, b, hold, f(s, x[..b]), x[b..], y);
    }
  }

  /** Too few items to take a block. */
  lemma FoldNone<S, T>(f: (S, seq<T>) -> S, b: nat, hold: nat, s: S, x: seq<T>)
    requires 0 < b <= hold && |x| < hold
    ensures Fold(f, b, hold, s, x) == s
    ensures Rest(b, hold, x) == x
  {
  }

  /** One block, when taking it leaves fewer than `hold` items. */
  lemma FoldOne<S, T>(f: (S, seq<T>) -> S, b: nat, hold: nat, s: S, x: seq<T>)
    requires 0 < b <= hold <= |x| < hold + b
    ensures Fold(f, b, hold, s, x) == f(s, x[..b])
    ensures Rest(b, hold, x) == x[b..]
  {
    assert |x[b..]| < hold;
    assert Fold(f, b, hold, f(s, x[..b]), x[b..]) == f(s, x[..b]);
  }
}
