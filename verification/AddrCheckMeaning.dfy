/** What passing the consistency check says about the tables. */
module AddrCheckMeaning {
  import opened AddrTypes
  import opened AddrState
  import opened AddrBounds
  import opened AddrCheck
  import opened AddrRuns
  import opened Ids

  /** Every stored address has an entry in the address index. */
  ghost predicate AddressesKnown(s: State) {
    forall id :: id in s.info ==> s.info[id].Net() in s.addr
  }

  /** The part of the invariant the check looks at. */
  ghost predicate Consistent(s: State) {
    && RandomOk(s.info, s.random)
    && (forall id :: id in s.info ==> s.info[id].Net() in s.addr && s.addr[s.info[id].Net()] == id)
    && (forall id :: id in s.info ==> StatsRange(s.info[id]))
    && TriedOnce(s.tried, TriedIds(s.info))
    && RefsExact(s.untried, NewRefs(s.info))
    && CountsOk(s.info, s.nNew, s.nTried)
    && TimesOk(s)
  }

  ghost predicate StatsRange(r: Info) {
    if r.inTried then r.refCount == 0 else 1 <= r.refCount <= NEW_BUCKETS_PER_ADDRESS
  }

  /** The check passes exactly when these indexes are consistent. It tests `random` in one direction only
      and compares sizes; that forces the other direction. */
  lemma PassesMeansConsistent(s: State)
    requires AddressesKnown(s)
    ensures Passes(s) <==> Consistent(s)
  {
    hide Passes, Consistent;
    if Passes(s) { PassesThenConsistent(s); }
    if Consistent(s) { ConsistentThenPasses(s); }
  }

  lemma PassesThenConsistent(s: State)
    requires AddressesKnown(s) && Passes(s)
    ensures Consistent(s)
  {
    hide TriedOnce, RefsExact, RecordPasses, RandomOk;
    SplitCount(s.info);
    forall id | id in s.info
      ensures 0 <= s.info[id].randomPos < |s.random| && s.random[s.info[id].randomPos] == id
      ensures s.addr[s.info[id].Net()] == id && StatsRange(s.info[id])
      ensures s.info[id].lastTry >= 0 && s.info[id].lastSuccess >= 0
      ensures s.info[id].inTried ==> s.info[id].lastSuccess != 0
    {
      RecordMeans(s.info, s.addr, s.random, id);
    }
    Pigeonhole(s.info, s.random);
  }

  lemma ConsistentThenPasses(s: State)
    requires Consistent(s)
    ensures Passes(s)
  {
    hide TriedOnce, RefsExact, RecordPasses, RandomOk;
    SplitCount(s.info);
    RandomCount(s.info, s.random);
    forall id | id in s.info ensures RecordPasses(s.info, s.addr, s.random, id) {
      PositionOf(s.info, s.random, id);
      RecordMeans(s.info, s.addr, s.random, id);
    }
  }

  lemma PositionOf(info: map<Id, Info>, random: seq<Id>, id: Id)
    requires RandomOk(info, random) && id in info
    ensures 0 <= info[id].randomPos < |random| && random[info[id].randomPos] == id
  {
  }

  lemma RecordMeans(info: map<Id, Info>, addr: map<NetAddr, Id>, random: seq<Id>, id: Id)
    requires id in info && info[id].Net() in addr
    ensures RecordPasses(info, addr, random, id) <==>
      && StatsRange(info[id])
      && addr[info[id].Net()] == id
      && 0 <= info[id].randomPos < |random| && random[info[id].randomPos] == id
      && info[id].lastTry >= 0 && info[id].lastSuccess >= 0
      && (info[id].inTried ==> info[id].lastSuccess != 0)
  {
  }

  /** A sequence with as many elements as positions has no repetitions. */
  lemma {:induction false} FullyDistinct(v: seq<Id>)
    requires |Elements(v)| == |v|
    ensures Distinct(v)
  {
    if v != [] {
      var n := |v| - 1;
      assert |Elements(v[..n]) + {v[n]}| <= |Elements(v[..n])| + 1;
      FullyDistinct(v[..n]);
      assert v[n] !in Elements(v[..n]);
      forall i, j | 0 <= i < j < |v| ensures v[i] != v[j] {
        assert v[..n][i] == v[i];
        if j == n { assert v[i] in v[..n]; } else { assert v[..n][j] == v[j]; }
      }
    }
  }

  /** If every record is found at its position and there are no more positions than records,
      then every position holds a record that points back. */
  lemma Pigeonhole(info: map<Id, Info>, random: seq<Id>)
    requires forall id :: id in info ==> 0 <= info[id].randomPos < |random| && random[info[id].randomPos] == id
    requires |random| == |info|
    ensures RandomOk(info, random)
  {
    assert info.Keys <= Elements(random);
    SubsetCard(info.Keys, Elements(random));
    FullyDistinct(random);
    forall i | 0 <= i < |random| ensures random[i] in info && info[random[i]].randomPos == i {
      assert random[i] in Elements(random);
      var p := info[random[i]].randomPos;
      assert random[p] == random[i];
    }
  }

  // ---- the check and the invariant ----

  /** What the invariant asks beyond the check: bucket sizes, unused identifiers,
      no stale address, and tried records in the bucket they hash to. */
  ghost predicate Unchecked(env: Env, s: State) {
    && SizesOk(s.tried, s.untried)
    && IdsOk(s.info, s.idCount)
    && NoStaleAddress(s)
    && AtHome(env, s)
  }

  ghost predicate NoStaleAddress(s: State) {
    forall a :: a in s.addr ==> s.addr[a] in s.info && s.info[s.addr[a]].Net() == a
  }

  ghost predicate AtHome(env: Env, s: State) {
    forall b, i :: 0 <= b < |s.tried| && 0 <= i < |s.tried[b]| && s.tried[b][i] in s.info ==>
      TriedBucket(env, s.key, s.info[s.tried[b][i]].address.service) == b
  }

  lemma {:induction false} FlatContains(tried: seq<seq<Id>>, x: Id)
    ensures x in Flat(tried) <==> exists b :: 0 <= b < |tried| && x in tried[b]
  {
    if tried != [] {
      var n := |tried| - 1;
      FlatContains(tried[..n], x);
      if x in Flat(tried) && x !in tried[n] {
        var b :| 0 <= b < n && x in tried[..n][b];
        assert x in tried[b];
      }
      if b :| 0 <= b < |tried| && x in tried[b] {
        if b < n { assert x in tried[..n][b]; }
      }
    }
  }

  lemma {:induction false} FlatDistinct(tried: seq<seq<Id>>, home: Id -> int)
    requires forall b, i :: 0 <= b < |tried| && 0 <= i < |tried[b]| ==> home(tried[b][i]) == b
    requires forall b :: 0 <= b < |tried| ==> Distinct(tried[b])
    ensures Distinct(Flat(tried))
  {
    if tried != [] {
      var n := |tried| - 1;
      FlatDistinct(tried[..n], home);
      var front, last := Flat(tried[..n]), tried[n];
      forall i, j | 0 <= i < j < |front + last| ensures (front + last)[i] != (front + last)[j] {
        if i < |front| <= j {
          FlatContains(tried[..n], front[i]);
          assert front[i] in front;
          var b :| 0 <= b < n && front[i] in tried[..n][b];
          var k :| 0 <= k < |tried[b]| && tried[b][k] == front[i];
          assert home(tried[b][k]) == b;
          assert home(last[j - |front|]) == n;
        }
      }
    }
  }

  lemma {:induction false} DistinctBuckets(tried: seq<seq<Id>>, b: nat)
    requires Distinct(Flat(tried)) && b < |tried|
    ensures Distinct(tried[b])
  {
    var n := |tried| - 1;
    var front, last := Flat(tried[..n]), tried[n];
    assert Flat(tried) == front + last;
    if b == n {
      forall i, j | 0 <= i < j < |last| ensures last[i] != last[j] {
        assert (front + last)[|front| + i] == last[i];
        assert (front + last)[|front| + j] == last[j];
      }
    } else {
      forall i, j | 0 <= i < j < |front| ensures front[i] != front[j] {
        assert (front + last)[i] == front[i];
        assert (front + last)[j] == front[j];
      }
      DistinctBuckets(tried[..n], b);
    }
  }

  lemma TriedOkMeansOnce(env: Env, key: seq<int>, info: map<Id, Info>, tried: seq<seq<Id>>)
    requires TriedOk(env, key, info, tried)
    ensures TriedOnce(tried, TriedIds(info))
  {
    var home := (id: Id) => if id in info then TriedBucket(env, key, info[id].address.service) else -1;
    FlatDistinct(tried, home);
    forall x ensures x in Flat(tried) <==> x in TriedIds(info) {
      FlatContains(tried, x);
    }
  }

  lemma OnceMeansTriedOk(env: Env, key: seq<int>, info: map<Id, Info>, tried: seq<seq<Id>>)
    requires TriedOnce(tried, TriedIds(info)) && |tried| == TRIED_BUCKET_COUNT
    requires forall b, i :: 0 <= b < |tried| && 0 <= i < |tried[b]| && tried[b][i] in info ==>
               TriedBucket(env, key, info[tried[b][i]].address.service) == b
    ensures TriedOk(env, key, info, tried)
  {
    forall b, i | 0 <= b < |tried| && 0 <= i < |tried[b]|
      ensures tried[b][i] in info && info[tried[b][i]].inTried
    {
      FlatContains(tried, tried[b][i]);
      assert tried[b][i] in tried[b];
    }
    forall b, i, j | 0 <= b < |tried| && 0 <= i < j < |tried[b]| ensures tried[b][i] != tried[b][j] {
      DistinctBuckets(tried, b);
    }
    forall id | id in info && info[id].inTried
      ensures id in tried[TriedBucket(env, key, info[id].address.service)]
    {
      FlatContains(tried, id);
      assert id in TriedIds(info);
    }
  }

  lemma UntriedMeansExact(info: map<Id, Info>, untried: seq<set<Id>>)
    requires NOBODY !in info
    ensures UntriedOk(info, untried, NOBODY) <==>
            RefsExact(untried, NewRefs(info)) && forall id :: id in info ==> StatsRange(info[id])
  {
    if UntriedOk(info, untried, NOBODY) {
      forall b, x | 0 <= b < |untried| && x in untried[b] ensures x in NewRefs(info) {
        RefsPositive(untried, x);
      }
    }
    if RefsExact(untried, NewRefs(info)) && forall id :: id in info ==> StatsRange(info[id]) {
      forall id | id in info ensures info[id].refCount == Refs(untried, id) {
        RefsPositive(untried, id);
        assert id in NewRefs(info) <==> !info[id].inTried;
        assert StatsRange(info[id]);
      }
      forall b, x | 0 <= b < |untried| && x in untried[b] ensures x in info {
        assert x in NewRefs(info);
      }
      assert forall id :: id in info ==> StatsRange(info[id]);
      assert UntriedOk(info, untried, NOBODY);
    }
  }

  /** The invariant with acceptable time stamps is exactly: the check passes, stored addresses are known,
      and the four conditions the check does not test hold. */
  lemma CheckDecidesInv(env: Env, s: State)
    ensures Inv(env, s) && TimesOk(s) <==> Passes(s) && AddressesKnown(s) && Unchecked(env, s)
  {
    hide Inv, Passes, AddressesKnown, Unchecked, TimesOk;
    if Inv(env, s) && TimesOk(s) { InvThenPasses(env, s); }
    if Passes(s) && AddressesKnown(s) && Unchecked(env, s) { PassesThenInv(env, s); }
  }

  lemma InvThenPasses(env: Env, s: State)
    requires Inv(env, s) && TimesOk(s)
    ensures Passes(s) && AddressesKnown(s) && Unchecked(env, s)
  {
    hide RefsExact, TriedOnce, RandomOk, UntriedOk, Passes;
    UntriedMeansExact(s.info, s.untried);
    TriedOkMeansOnce(env, s.key, s.info, s.tried);
    PassesMeansConsistent(s);
  }

  lemma PassesThenInv(env: Env, s: State)
    requires Passes(s) && AddressesKnown(s) && Unchecked(env, s)
    ensures Inv(env, s) && TimesOk(s)
  {
    hide RefsExact, TriedOnce, RandomOk, TriedOk, UntriedOk, Passes;
    PassesMeansConsistent(s);
    UntriedMeansExact(s.info, s.untried);
    OnceMeansTriedOk(env, s.key, s.info, s.tried);
  }

  /** In a run that records only positive times, the check passes after every operation. */
  lemma RunPasses(env: Env, key: seq<int>, ops: seq<Op>)
    requires forall i :: 0 <= i < |ops| ==> (ops[i].OpGood? || ops[i].OpAttempt? ==> ops[i].time > 0)
    ensures Passes(Run(env, key, ops))
  {
    hide Inv, Passes;
    RunTimes(env, key, ops);
    CheckDecidesInv(env, Run(env, key, ops));
  }
}
