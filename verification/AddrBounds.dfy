/** Counting: the number of records, and why the tables cannot grow without bound. */
module AddrBounds {
  import opened AddrTypes
  import opened AddrState
  import opened AddrRuns
  import opened Ids

  lemma SubsetCard(a: set<Id>, b: set<Id>)
    requires a <= b
    ensures |a| <= |b|
    ensures |a| == |b| ==> a == b
  {
    assert b == a + (b - a);
    if |a| == |b| { assert b - a == {}; }
  }

  function Elements(v: seq<Id>): (r: set<Id>)
    ensures forall x :: x in r <==> x in v
    ensures |r| <= |v|
  {
    if v == [] then {}
    else
      var n := |v| - 1;
      var rest := Elements(v[..n]);
      assert v == v[..n] + [v[n]];
      rest + {v[n]}
  }

  /** A sequence without repetitions has as many elements as positions. */
  lemma {:induction false} ElementsDistinct(v: seq<Id>)
    requires forall i, j :: 0 <= i < j < |v| ==> v[i] != v[j]
    ensures |Elements(v)| == |v|
  {
    if v != [] {
      var n := |v| - 1;
      ElementsDistinct(v[..n]);
      assert v[n] !in v[..n];
    }
  }

  function Union(buckets: seq<set<Id>>): set<Id> {
    if buckets == [] then {} else Union(buckets[..|buckets| - 1]) + buckets[|buckets| - 1]
  }

  lemma {:induction false} UnionContains(buckets: seq<set<Id>>, b: nat, id: Id)
    requires b < |buckets| && id in buckets[b]
    ensures id in Union(buckets)
  {
    if b < |buckets| - 1 { UnionContains(buckets[..|buckets| - 1], b, id); }
  }

  lemma {:induction false} UnionBound(buckets: seq<set<Id>>, k: nat)
    requires forall b :: 0 <= b < |buckets| ==> |buckets[b]| <= k
    ensures |Union(buckets)| <= |buckets| * k
  {
    if buckets != [] {
      var n := |buckets| - 1;
      UnionBound(buckets[..n], k);
      var u := Union(buckets[..n]);
      assert |u + buckets[n]| <= |u| + |buckets[n]|;
      assert |buckets| * k == n * k + k;
    }
  }

  /** `random` has one position per record. */
  lemma RandomCount(info: map<Id, Info>, random: seq<Id>)
    requires RandomOk(info, random)
    ensures |random| == |info| && Elements(random) == info.Keys
  {
    ElementsDistinct(random);
    forall id ensures id in Elements(random) <==> id in info.Keys {
      if id in info { assert random[info[id].randomPos] == id; }
    }
    assert Elements(random) == info.Keys;
  }

  lemma SplitCount(info: map<Id, Info>)
    ensures |info| == |NewIds(info)| + |TriedIds(info)|
  {
    assert info.Keys == NewIds(info) + TriedIds(info);
    assert NewIds(info) !! TriedIds(info);
  }

  /** The counters add up to the number of records, and both tables are bounded. */
  lemma InvBounded(env: Env, s: State)
    requires Inv(env, s)
    ensures s.nNew + s.nTried == |s.random| == |s.info|
    ensures s.nTried <= TRIED_BUCKET_COUNT * TRIED_BUCKET_SIZE
    ensures s.nNew <= NEW_BUCKET_COUNT * NEW_BUCKET_SIZE
  {
    RandomCount(s.info, s.random);
    SplitCount(s.info);
    NewBound(env, s);
    TriedBound(env, s);
  }

  lemma NewBound(env: Env, s: State)
    requires Inv(env, s)
    ensures |NewIds(s.info)| <= NEW_BUCKET_COUNT * NEW_BUCKET_SIZE
  {
    UnionBound(s.untried, NEW_BUCKET_SIZE);
    forall id | id in NewIds(s.info) ensures id in Union(s.untried) {
      RefsPositive(s.untried, id);
      var b :| 0 <= b < |s.untried| && id in s.untried[b];
      UnionContains(s.untried, b, id);
    }
    SubsetCard(NewIds(s.info), Union(s.untried));
  }

  lemma TriedBound(env: Env, s: State)
    requires Inv(env, s)
    ensures |TriedIds(s.info)| <= TRIED_BUCKET_COUNT * TRIED_BUCKET_SIZE
  {
    var buckets := seq(|s.tried|, b requires 0 <= b < |s.tried| => Elements(s.tried[b]));
    UnionBound(buckets, TRIED_BUCKET_SIZE);
    forall id | id in TriedIds(s.info) ensures id in Union(buckets) {
      UnionContains(buckets, TriedBucket(env, s.key, s.info[id].address.service), id);
    }
    SubsetCard(TriedIds(s.info), Union(buckets));
  }

  /** Whatever is done to it, the manager never holds more than 64*64 + 256*64 addresses. */
  lemma RunBounded(env: Env, key: seq<int>, ops: seq<Op>)
    ensures |Run(env, key, ops).random| <= 64 * 64 + 256 * 64
  {
    InvBounded(env, Run(env, key, ops));
  }
}
