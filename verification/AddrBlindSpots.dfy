/** What the consistency check overlooks: for each condition of the invariant that it does not test,
    a state that violates this condition alone and passes. */
module AddrBlindSpots {
  import opened AddrTypes
  import opened AddrState
  import opened AddrCheck
  import opened AddrCheckMeaning
  import opened Ids

  /** Overlooked by the check: the four conditions in turn. */
  ghost predicate Slips(s: State) { Passes(s) && AddressesKnown(s) }

  lemma EmptyPasses(env: Env, key: seq<int>)
    ensures var s := Empty(key);
      Slips(s) && SizesOk(s.tried, s.untried) && IdsOk(s.info, s.idCount) && NoStaleAddress(s) && AtHome(env, s)
  {
    EmptyInv(env, key);
    CheckDecidesInv(env, Empty(key));
  }

  /** The next identifier is not looked at. */
  lemma OverlooksIdCount(s: State, n: int)
    ensures Slips(s.(idCount := n)) <==> Slips(s)
  {
    hide RecordPasses, CountsOk, TriedOnce, RefsExact;
  }

  /** Nor is an index entry for an address that no record has. */
  lemma OverlooksStaleAddress(s: State, net: NetAddr, id: Id)
    requires forall x :: x in s.info ==> s.info[x].Net() != net
    ensures Slips(s.(addr := s.addr[net := id])) <==> Slips(s)
  {
    hide CountsOk, TriedOnce, RefsExact;
    var s' := s.(addr := s.addr[net := id]);
    assert forall x :: x in s.info ==>
      (RecordPasses(s'.info, s'.addr, s'.random, x) <==> RecordPasses(s.info, s.addr, s.random, x));
  }

  /** Nor is the way the tried entries are spread over the buckets. */
  lemma OverlooksTriedBuckets(s: State, tried: seq<seq<Id>>)
    requires Flat(tried) == Flat(s.tried)
    ensures Slips(s.(tried := tried)) <==> Slips(s)
  {
    hide RecordPasses, CountsOk, RefsExact, Flat;
  }

  lemma IdCountSlips(env: Env, key: seq<int>)
    ensures var s := Empty(key).(idCount := -1);
      && Slips(s) && !IdsOk(s.info, s.idCount)
      && SizesOk(s.tried, s.untried) && NoStaleAddress(s) && AtHome(env, s)
  {
    EmptyPasses(env, key);
    OverlooksIdCount(Empty(key), -1);
  }

  lemma StaleAddressSlips(env: Env, key: seq<int>, net: NetAddr, id: Id)
    ensures var s := Empty(key).(addr := map[net := id]);
      && Slips(s) && !NoStaleAddress(s)
      && SizesOk(s.tried, s.untried) && IdsOk(s.info, s.idCount) && AtHome(env, s)
  {
    EmptyPasses(env, key);
    OverlooksStaleAddress(Empty(key), net, id);
    assert net in map[net := id];
  }

  // ---- one tried record ----

  /** A manager with one tried record, in tried bucket `b`. */
  ghost function Single(key: seq<int>, service: Service, b: nat): State
    requires b < TRIED_BUCKET_COUNT
  {
    var r := Info(Address(service, 0, 0), service.net, 1, 0, 0, 0, true, 0);
    Empty(key).(idCount := 1, info := map[Id(0) := r], addr := map[service.net := Id(0)], random := [Id(0)],
                nTried := 1, tried := Empty(key).tried[b := [Id(0)]])
  }

  lemma {:induction false} FlatSingle(tried: seq<seq<Id>>, b: nat, x: Id)
    requires b < |tried| && forall c :: 0 <= c < |tried| ==> tried[c] == if c == b then [x] else []
    ensures Flat(tried) == [x]
  {
    var n := |tried| - 1;
    if b < n {
      FlatSingle(tried[..n], b, x);
    } else {
      FlatNone(tried[..n]);
    }
  }

  lemma {:induction false} FlatNone(tried: seq<seq<Id>>)
    requires forall c :: 0 <= c < |tried| ==> tried[c] == []
    ensures Flat(tried) == []
  {
    if tried != [] { FlatNone(tried[..|tried| - 1]); }
  }

  lemma NoRefs(untried: seq<set<Id>>, x: Id)
    requires forall b :: 0 <= b < |untried| ==> untried[b] == {}
    ensures Refs(untried, x) == 0
  {
    RefsPositive(untried, x);
  }

  lemma SinglePasses(key: seq<int>, service: Service, b: nat)
    requires b < TRIED_BUCKET_COUNT
    ensures Slips(Single(key, service, b))
  {
    var s := Single(key, service, b);
    FlatSingle(s.tried, b, Id(0));
    assert TriedIds(s.info) == {Id(0)} && NewIds(s.info) == {};
    assert NewRefs(s.info) == map[];
  }

  /** A tried record in a bucket its address does not hash to. */
  lemma WrongBucketSlips(env: Env, key: seq<int>, service: Service, b: nat)
    requires b < TRIED_BUCKET_COUNT && b != TriedBucket(env, key, service)
    ensures var s := Single(key, service, b);
      && Slips(s) && !AtHome(env, s)
      && SizesOk(s.tried, s.untried) && IdsOk(s.info, s.idCount) && NoStaleAddress(s)
  {
    hide TriedBucket;
    SinglePasses(key, service, b);
    var s := Single(key, service, b);
    assert s.tried[b][0] == Id(0);
  }

  // ---- many new records in one bucket ----

  function First(n: nat): (r: set<Id>)
    ensures forall x :: x in r <==> 0 <= x.n < n
    ensures |r| == n
  {
    if n == 0 then {} else
      var rest := First(n - 1);
      assert Id(n - 1) !in rest;
      rest + {Id(n - 1)}
  }

  function Record(i: int): Info {
    Info(Address(Service(NetAddr([i]), 0), 0, 0), NetAddr([]), 0, 0, 0, 1, false, i)
  }

  /** A manager with `n` new records, all in the first new bucket. */
  ghost function Crowd(key: seq<int>, n: nat): State {
    Empty(key).(idCount := n, info := map x | x in First(n) :: Record(x.n),
                addr := map x | x in First(n) :: NetAddr([x.n]) := x, random := seq(n, i => Id(i)),
                nNew := n, untried := Empty(key).untried[0 := First(n)])
  }

  lemma CrowdRefs(key: seq<int>, n: nat, x: Id)
    ensures Refs(Crowd(key, n).untried, x) == if x in First(n) then 1 else 0
  {
    NoRefs(Empty(key).untried, x);
    RefsStore(Empty(key).untried, 0, First(n), x);
  }

  lemma CrowdRecords(key: seq<int>, n: nat, x: Id)
    requires x in First(n)
    ensures var s := Crowd(key, n);
      && x in s.info && s.info[x] == Record(x.n) && NetAddr([x.n]) in s.addr && s.addr[NetAddr([x.n])] == x
      && RecordPasses(s.info, s.addr, s.random, x)
  {
    var s := Crowd(key, n);
    assert x == Id(x.n);
    assert NetAddr([x.n]) in s.addr;
    var y := s.addr[NetAddr([x.n])];
    assert y in First(n) && NetAddr([y.n]) == NetAddr([x.n]);
    assert [y.n][0] == [x.n][0];
  }

  lemma CrowdSets(key: seq<int>, n: nat)
    ensures var s := Crowd(key, n);
      NewIds(s.info) == First(n) && TriedIds(s.info) == {} && NewRefs(s.info).Keys == First(n)
  {
  }

  lemma CrowdExact(key: seq<int>, n: nat)
    ensures var s := Crowd(key, n); RefsExact(s.untried, NewRefs(s.info))
  {
    var s := Crowd(key, n);
    CrowdSets(key, n);
    forall x | x in NewRefs(s.info) ensures NewRefs(s.info)[x] == Refs(s.untried, x) {
      CrowdRefs(key, n, x);
    }
    hide Refs, First;
  }

  lemma CrowdCounts(key: seq<int>, n: nat)
    ensures var s := Crowd(key, n);
      |s.random| == s.nTried + s.nNew && CountsOk(s.info, s.nNew, s.nTried) && TriedOnce(s.tried, TriedIds(s.info))
  {
    CrowdSets(key, n);
    FlatNone(Crowd(key, n).tried);
    hide First, NewIds, TriedIds, Flat;
  }

  lemma CrowdAll(key: seq<int>, n: nat)
    ensures var s := Crowd(key, n);
      && AddressesKnown(s)
      && forall x :: x in s.info ==> RecordPasses(s.info, s.addr, s.random, x)
  {
    hide RecordPasses;
    var s := Crowd(key, n);
    forall x | x in s.info ensures RecordPasses(s.info, s.addr, s.random, x) && s.info[x].Net() in s.addr {
      CrowdRecords(key, n, x);
    }
  }

  lemma CrowdPasses(key: seq<int>, n: nat)
    ensures Slips(Crowd(key, n))
  {
    hide Crowd, RefsExact, RecordPasses, CountsOk, TriedOnce, AddressesKnown;
    CrowdCounts(key, n);
    CrowdAll(key, n);
    CrowdExact(key, n);
  }

  /** A new bucket with more entries than it may hold. */
  lemma OverfullBucketSlips(env: Env, key: seq<int>, n: nat)
    requires n > NEW_BUCKET_SIZE
    ensures var s := Crowd(key, n);
      && Slips(s) && !SizesOk(s.tried, s.untried)
      && IdsOk(s.info, s.idCount) && NoStaleAddress(s) && AtHome(env, s)
  {
    CrowdPasses(key, n);
    var s := Crowd(key, n);
    assert |s.untried[0]| == n;
    forall a | a in s.addr ensures s.addr[a] in s.info && s.info[s.addr[a]].Net() == a {
      var x := s.addr[a];
      CrowdRecords(key, n, x);
    }
  }
}
