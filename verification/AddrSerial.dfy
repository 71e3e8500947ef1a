/** The compact on-disk form: what it holds, and what reading it back restores. */
module AddrSerial {
  import opened AddrTypes
  import opened AddrState
  import opened AddrBounds
  import opened Ids

  /** The fields of a record that are written out. */
  datatype Record = Record(address: Address, source: NetAddr, lastSuccess: int, attempts: int)

  /** One item of the stream. */
  datatype Token = TInt(n: int) | TKey(key: seq<int>) | TRecord(record: Record)

  function Keep(r: Info): Record { Record(r.address, r.source, r.lastSuccess, r.attempts) }

  /** A record as read: the fields kept in memory only have their initial values. */
  function Reload(r: Record): Info { Info(r.address, r.source, r.lastSuccess, r.attempts, 0, 0, false, -1) }

  /** The record a map lookup creates for an unknown identifier. */
  const BLANK: Info := NewInfo(Address(Service(NetAddr(seq(16, _ => 0)), 0), 1, 100000000), NetAddr(seq(16, _ => 0)))

  // ---- the order in which records are written ----

  /** The tried (or new) ones of the given identifiers, in the same order. */
  function Pick(order: seq<Id>, info: map<Id, Info>, tried: bool): seq<Id>
    requires forall x :: x in order ==> x in info
  {
    if order == [] then []
    else
      var n := |order| - 1;
      Pick(order[..n], info, tried) + (if info[order[n]].inTried == tried then [order[n]] else [])
  }

  function NewOrder(info: map<Id, Info>): seq<Id> { Pick(Sorted(info.Keys), info, false) }
  function TriedOrder(info: map<Id, Info>): seq<Id> { Pick(Sorted(info.Keys), info, true) }

  /** New records in identifier order, then tried ones: position `k` is identifier `k` after reading. */
  function Order(info: map<Id, Info>): seq<Id> { NewOrder(info) + TriedOrder(info) }

  lemma {:induction false} PickFacts(order: seq<Id>, info: map<Id, Info>, tried: bool)
    requires Increasing(order) && forall x :: x in order ==> x in info
    ensures forall x :: x in Pick(order, info, tried) <==> x in order && info[x].inTried == tried
    ensures Increasing(Pick(order, info, tried))
  {
    if order != [] {
      var n := |order| - 1;
      PickFacts(order[..n], info, tried);
      var front := Pick(order[..n], info, tried);
      assert order == order[..n] + [order[n]];
      forall i | 0 <= i < |front| ensures front[i].n < order[n].n {
        assert front[i] in order[..n];
      }
    }
  }

  lemma {:induction false} PickPrefix(order: seq<Id>, info: map<Id, Info>, tried: bool, n: nat)
    requires n <= |order| && forall x :: x in order ==> x in info
    ensures Pick(order[..n], info, tried) <= Pick(order, info, tried)
  {
    if n == |order| {
      assert order[..n] == order;
    } else {
      var m := |order| - 1;
      assert order[..m][..n] == order[..n];
      PickPrefix(order[..m], info, tried, n);
    }
  }

  lemma OrderFacts(info: map<Id, Info>)
    ensures forall x :: x in NewOrder(info) <==> x in NewIds(info)
    ensures forall x :: x in TriedOrder(info) <==> x in TriedIds(info)
    ensures Increasing(NewOrder(info)) && Increasing(TriedOrder(info))
    ensures |NewOrder(info)| == |NewIds(info)| && |TriedOrder(info)| == |TriedIds(info)|
  {
    var order := Sorted(info.Keys);
    PickFacts(order, info, false);
    PickFacts(order, info, true);
    IncreasingCount(NewOrder(info), NewIds(info));
    IncreasingCount(TriedOrder(info), TriedIds(info));
  }

  lemma IncreasingCount(v: seq<Id>, ids: set<Id>)
    requires Increasing(v) && forall x :: x in v <==> x in ids
    ensures |v| == |ids|
  {
    ElementsDistinct(v);
    assert Elements(v) == ids;
  }

  /** Every record has exactly one position in the order. */
  lemma OrderIsBijective(info: map<Id, Info>)
    ensures |Order(info)| == |info|
    ensures forall x :: x in Order(info) <==> x in info
    ensures Distinct(Order(info))
    ensures forall k :: 0 <= k < |Order(info)| ==>
              var id := Order(info)[k]; id in info && (info[id].inTried <==> k >= |NewOrder(info)|)
  {
    hide NewOrder, TriedOrder, Increasing;
    OrderFacts(info);
    SplitCount(info);
    var a, b := NewOrder(info), TriedOrder(info);
    IncreasingDistinct(a);
    IncreasingDistinct(b);
    forall i, j | 0 <= i < j < |a + b| ensures (a + b)[i] != (a + b)[j] {
      if i < |a| <= j { assert a[i] in a; assert b[j - |a|] in b; }
    }
    forall k | 0 <= k < |a + b|
      ensures (a + b)[k] in info && (info[(a + b)[k]].inTried <==> k >= |a|)
    {
      if k < |a| { assert a[k] in a; } else { assert b[k - |a|] in b; }
    }
  }

  lemma IncreasingDistinct(v: seq<Id>)
    requires Increasing(v)
    ensures Distinct(v)
  {
  }

  /** The position of an identifier in a sequence. */
  function Rank(order: seq<Id>, id: Id): (k: nat)
    requires id in order
    ensures k < |order| && order[k] == id
  {
    if order[0] == id then 0 else 1 + Rank(order[1..], id)
  }

  lemma RankUnique(order: seq<Id>, k: nat)
    requires Distinct(order) && k < |order|
    ensures Rank(order, order[k]) == k
  {
  }

  // ---- the stream ----

  function Records(info: map<Id, Info>, ids: seq<Id>): seq<Token>
    requires forall i :: 0 <= i < |ids| ==> ids[i] in info
  {
    seq(|ids|, i requires 0 <= i < |ids| => TRecord(Keep(info[ids[i]])))
  }

  function Indices(order: seq<Id>, ids: seq<Id>): (r: seq<Token>)
    requires forall x :: x in ids ==> x in order
    ensures |r| == |ids|
  {
    seq(|ids|, i requires 0 <= i < |ids| => assert ids[i] in ids; TInt(Rank(order, ids[i])))
  }

  function Buckets(order: seq<Id>, untried: seq<set<Id>>): seq<Token>
    requires forall b, x :: 0 <= b < |untried| && x in untried[b] ==> x in order
  {
    if untried == [] then []
    else [TInt(|untried[0]|)] + Indices(order, Sorted(untried[0])) + Buckets(order, untried[1..])
  }

  /** What the writer produces for a consistent manager. */
  function Encode(env: Env, s: State): seq<Token>
    requires Inv(env, s)
  {
    OrderKnown(s.info);
    BucketsAreNew(env, s);
    [TInt(0), TKey(s.key), TInt(s.nNew), TInt(s.nTried), TInt(NEW_BUCKET_COUNT)]
    + Records(s.info, NewOrder(s.info)) + Records(s.info, TriedOrder(s.info)) + Buckets(NewOrder(s.info), s.untried)
  }

  lemma OrderKnown(info: map<Id, Info>)
    ensures forall i :: 0 <= i < |NewOrder(info)| ==> NewOrder(info)[i] in info && !info[NewOrder(info)[i]].inTried
    ensures forall i :: 0 <= i < |TriedOrder(info)| ==> TriedOrder(info)[i] in info && info[TriedOrder(info)[i]].inTried
  {
    hide NewOrder, TriedOrder;
    OrderFacts(info);
    forall i | 0 <= i < |NewOrder(info)| ensures NewOrder(info)[i] in NewIds(info) {
      assert NewOrder(info)[i] in NewOrder(info);
    }
    forall i | 0 <= i < |TriedOrder(info)| ensures TriedOrder(info)[i] in TriedIds(info) {
      assert TriedOrder(info)[i] in TriedOrder(info);
    }
  }

  lemma BucketsAreNew(env: Env, s: State)
    requires Inv(env, s)
    ensures forall b, x :: 0 <= b < |s.untried| && x in s.untried[b] ==> x in NewOrder(s.info)
  {
    hide NewOrder, TriedOrder, RandomOk, AddrOk, TriedOk, IdsOk, CountsOk;
    OrderFacts(s.info);
    forall b, x | 0 <= b < |s.untried| && x in s.untried[b] ensures x in NewOrder(s.info) {
      RefsPositive(s.untried, x);
    }
  }

  /** A stream that begins with version 0, the key, the two counters and 256 for the buckets, and goes on with the
      persistent fields of the records in the given order. */
  ghost predicate Laid(s: State, order: seq<Id>, out: seq<Token>) {
    && |out| >= 5 + |order|
    && out[0] == TInt(0) && out[1] == TKey(s.key) && out[2] == TInt(s.nNew) && out[3] == TInt(s.nTried) && out[4] == TInt(256)
    && (forall k :: 0 <= k < |order| ==> order[k] in s.info && out[5 + k].TRecord?)
    && (forall k :: 0 <= k < |order| ==>
          var r := s.info[order[k]]; out[5 + k].record == Record(r.address, r.source, r.lastSuccess, r.attempts))
  }

  lemma LaidOut(s: State, n: seq<Id>, t: seq<Id>, buckets: seq<Token>)
    requires forall i :: 0 <= i < |n| ==> n[i] in s.info
    requires forall i :: 0 <= i < |t| ==> t[i] in s.info
    ensures var out := [TInt(0), TKey(s.key), TInt(s.nNew), TInt(s.nTried), TInt(NEW_BUCKET_COUNT)]
                       + Records(s.info, n) + Records(s.info, t) + buckets;
      Laid(s, n + t, out) && out[5 + |n + t|..] == buckets
  {
  }

  /** The stream holds these, with every record once and new ones first, and then the buckets. */
  lemma EncodeLayout(env: Env, s: State)
    requires Inv(env, s)
    ensures Laid(s, Order(s.info), Encode(env, s))
    ensures forall b, x :: 0 <= b < |s.untried| && x in s.untried[b] ==> x in NewOrder(s.info)
    ensures 5 + |Order(s.info)| <= |Encode(env, s)|
    ensures Encode(env, s)[5 + |Order(s.info)|..] == Buckets(NewOrder(s.info), s.untried)
  {
    hide Inv, NewOrder, TriedOrder, Buckets, Records, Laid;
    OrderKnown(s.info);
    BucketsAreNew(env, s);
    LaidOut(s, NewOrder(s.info), TriedOrder(s.info), Buckets(NewOrder(s.info), s.untried));
    LaidLength(s, Order(s.info), Encode(env, s));
  }

  lemma LaidLength(s: State, order: seq<Id>, out: seq<Token>)
    requires Laid(s, order, out)
    ensures |out| >= 5 + |order|
  {
  }

  /** Bucket `b` in the stream: its size, then the numbers of its members. */
  lemma {:induction false} BucketsLayout(order: seq<Id>, untried: seq<set<Id>>, b: nat)
    requires b < |untried| && forall c, x :: 0 <= c < |untried| && x in untried[c] ==> x in order
    ensures Buckets(order, untried) == Buckets(order, untried[..b]) + [TInt(|untried[b]|)]
                                       + Indices(order, Sorted(untried[b])) + Buckets(order, untried[b + 1..])
    decreases b
  {
    hide Sorted, Buckets, Indices;
    BucketsHead(order, untried);
    if b == 0 {
      assert untried[..0] == [];
      BucketsNone(order);
    } else {
      var rest := untried[1..];
      assert rest[b - 1] == untried[b] && untried[..b][1..] == rest[..b - 1] && untried[..b][0] == untried[0];
      assert rest[b..] == untried[b + 1..];
      BucketsLayout(order, rest, b - 1);
      BucketsHead(order, untried[..b]);
    }
  }

  /** The number of a member is its position in the order of the records. */
  lemma IndicesMeaning(order: seq<Id>, ids: seq<Id>, i: nat)
    requires i < |ids| && forall x :: x in ids ==> x in order
    ensures Indices(order, ids)[i].TInt? && 0 <= Indices(order, ids)[i].n < |order| && order[Indices(order, ids)[i].n] == ids[i]
  {
    hide Rank;
    assert ids[i] in ids;
  }

  lemma BucketsNone(order: seq<Id>)
    ensures Buckets(order, []) == []
  {
  }

  lemma BucketsHead(order: seq<Id>, untried: seq<set<Id>>)
    requires |untried| > 0 && forall c, x :: 0 <= c < |untried| && x in untried[c] ==> x in order
    ensures forall c, x :: 0 <= c < |untried[1..]| && x in untried[1..][c] ==> x in order
    ensures Buckets(order, untried) == [TInt(|untried[0]|)] + Indices(order, Sorted(untried[0])) + Buckets(order, untried[1..])
  {
    hide Sorted, Indices;
  }

  // ---- what reading restores ----

  /** Records by position: identifier `k` has the persistent fields of the `k`-th record written. */
  ghost predicate RecordsRestored(info: map<Id, Info>, order: seq<Id>, info': map<Id, Info>) {
    && (forall x :: x in info' <==> 0 <= x.n < |order|)
    && (forall k :: 0 <= k < |order| ==>
          order[k] in info && Id(k) in info' && info'[Id(k)] == info[order[k]].(lastTry := 0, randomPos := k))
  }

  ghost predicate TriedRestored(tried: seq<seq<Id>>, order: seq<Id>, tried': seq<seq<Id>>) {
    && |tried'| == |tried|
    && (forall b :: 0 <= b < |tried| ==> |tried'[b]| == |tried[b]| && Distinct(tried'[b]))
    && (forall b, x :: 0 <= b < |tried| && x in tried'[b] ==> 0 <= x.n < |order|)
    && (forall b, k :: 0 <= b < |tried| && 0 <= k < |order| ==> (Id(k) in tried'[b] <==> order[k] in tried[b]))
  }

  ghost predicate UntriedRestored(untried: seq<set<Id>>, order: seq<Id>, untried': seq<set<Id>>) {
    && |untried'| == |untried|
    && (forall b, x :: 0 <= b < |untried| && x in untried'[b] ==> 0 <= x.n < |order|)
    && (forall b, k :: 0 <= b < |untried| && 0 <= k < |order| ==> (Id(k) in untried'[b] <==> order[k] in untried[b]))
  }

  ghost predicate AddrRestored(info: map<Id, Info>, order: seq<Id>, addr': map<NetAddr, Id>) {
    && (forall k :: 0 <= k < |order| ==> order[k] in info && info[order[k]].Net() in addr' && addr'[info[order[k]].Net()] == Id(k))
    && (forall a :: a in addr' ==> 0 <= addr'[a].n < |order| && order[addr'[a].n] in info && info[order[addr'[a].n]].Net() == a)
  }

  /** `s'` is `s` with the `k`-th record of the written order renamed to identifier `k`. The random order
      starts anew, the order inside a tried bucket is free, and a record loses only the time of its last try. */
  ghost predicate Restored(s: State, s': State) {
    var order := Order(s.info);
    && s'.key == s.key && s'.nNew == s.nNew && s'.nTried == s.nTried && s'.idCount == |order|
    && RecordsRestored(s.info, order, s'.info)
    && AddrRestored(s.info, order, s'.addr)
    && |s'.random| == |order| && (forall k :: 0 <= k < |order| ==> s'.random[k] == Id(k))
    && TriedRestored(s.tried, order, s'.tried)
    && UntriedRestored(s.untried, order, s'.untried)
  }

  /** A restored manager is consistent again, and as large as before. */
  lemma RestoredInv(env: Env, s: State, s': State)
    requires Inv(env, s) && Restored(s, s')
    ensures Inv(env, s')
    ensures |s'.random| == |s.random| && |s'.info| == |s.info|
  {
    hide Order, NewOrder, RandomOk, AddrOk, TriedOk, UntriedOk, SizesOk, NewIds, TriedIds;
    hide RecordsRestored, AddrRestored, TriedRestored, UntriedRestored;
    var order := Order(s.info);
    OrderIsBijective(s.info);
    RandomCount(s.info, s.random);
    RestoredRandom(s.info, order, s'.info, s'.random, s'.idCount);
    RandomCount(s'.info, s'.random);
    RestoredAddr(s.info, order, s'.info, s'.addr);
    RestoredTried(env, s, order, s');
    RestoredUntried(env, s, order, s');
    RestoredCounts(s.info, order, s'.info);
    BucketsAreNew(env, s);
    NewFirst(s.info);
    RestoredSizes(env, s, order, s');
  }

  /** The times of a restored manager still pass the consistency check. */
  lemma RestoredTimes(s: State, s': State)
    requires TimesOk(s) && Restored(s, s')
    ensures TimesOk(s')
  {
    hide Order, AddrRestored, TriedRestored, UntriedRestored;
    var order := Order(s.info);
    forall x | x in s'.info
      ensures s'.info[x].lastTry >= 0 && s'.info[x].lastSuccess >= 0
      ensures s'.info[x].inTried ==> s'.info[x].lastSuccess != 0
    {
      assert x == Id(x.n) && order[x.n] in s.info;
    }
  }

  lemma NewFirst(info: map<Id, Info>)
    ensures forall x :: x in NewOrder(info) ==> x in Order(info)
  {
    OrderIsBijective(info);
    OrderFacts(info);
  }

  lemma RestoredRandom(info: map<Id, Info>, order: seq<Id>, info': map<Id, Info>, random': seq<Id>, idCount: int)
    requires RecordsRestored(info, order, info') && idCount == |order|
    requires |random'| == |order| && (forall k :: 0 <= k < |order| ==> random'[k] == Id(k))
    ensures RandomOk(info', random') && IdsOk(info', idCount)
  {
    forall x | x in info' ensures 0 <= info'[x].randomPos < |random'| && random'[info'[x].randomPos] == x {
      assert x == Id(x.n);
    }
  }

  lemma RestoredAddr(info: map<Id, Info>, order: seq<Id>, info': map<Id, Info>, addr': map<NetAddr, Id>)
    requires RecordsRestored(info, order, info') && AddrRestored(info, order, addr')
    ensures AddrOk(info', addr')
  {
    forall a | a in addr' ensures addr'[a] in info' && info'[addr'[a]].Net() == a {
      var k := addr'[a].n;
      assert addr'[a] == Id(k);
      assert order[k] in info && info[order[k]].Net() == a;
      assert info'[Id(k)] == info[order[k]].(lastTry := 0, randomPos := k);
    }
    forall x | x in info' ensures info'[x].Net() in addr' && addr'[info'[x].Net()] == x {
      assert x == Id(x.n);
      assert info'[Id(x.n)] == info[order[x.n]].(lastTry := 0, randomPos := x.n);
    }
  }

  lemma RestoredTried(env: Env, s: State, order: seq<Id>, s': State)
    requires TriedOk(env, s.key, s.info, s.tried) && RecordsRestored(s.info, order, s'.info)
    requires TriedRestored(s.tried, order, s'.tried) && s'.key == s.key
    ensures TriedOk(env, s'.key, s'.info, s'.tried)
  {
    forall b, i | 0 <= b < |s'.tried| && 0 <= i < |s'.tried[b]|
      ensures s'.tried[b][i] in s'.info && s'.info[s'.tried[b][i]].inTried
      ensures TriedBucket(env, s'.key, s'.info[s'.tried[b][i]].address.service) == b
    {
      var x := s'.tried[b][i];
      assert x in s'.tried[b] && x == Id(x.n);
      assert order[x.n] in s.tried[b];
    }
    forall x | x in s'.info && s'.info[x].inTried
      ensures x in s'.tried[TriedBucket(env, s'.key, s'.info[x].address.service)]
    {
      assert x == Id(x.n);
      assert s'.info[Id(x.n)] == s.info[order[x.n]].(lastTry := 0, randomPos := x.n);
    }
  }

  lemma {:induction false} RestoredRefs(untried: seq<set<Id>>, order: seq<Id>, untried': seq<set<Id>>, k: nat)
    requires UntriedRestored(untried, order, untried') && k < |order|
    ensures Refs(untried', Id(k)) == Refs(untried, order[k])
    decreases |untried|
  {
    if |untried| > 0 {
      var n := |untried| - 1;
      RestoredRefs(untried[..n], order, untried'[..n], k);
      assert Id(k) in untried'[n] <==> order[k] in untried[n];
    }
  }

  lemma RestoredUntried(env: Env, s: State, order: seq<Id>, s': State)
    requires UntriedOk(s.info, s.untried, NOBODY) && NOBODY !in s.info
    requires RecordsRestored(s.info, order, s'.info) && UntriedRestored(s.untried, order, s'.untried)
    ensures UntriedOk(s'.info, s'.untried, NOBODY)
  {
    forall x | x in s'.info
      ensures s'.info[x].refCount == Refs(s'.untried, x)
      ensures if s'.info[x].inTried then s'.info[x].refCount == 0 else 1 <= s'.info[x].refCount <= NEW_BUCKETS_PER_ADDRESS
    {
      assert x == Id(x.n);
      RestoredRefs(s.untried, order, s'.untried, x.n);
      assert s'.info[Id(x.n)] == s.info[order[x.n]].(lastTry := 0, randomPos := x.n);
    }
  }

  /** Renaming along a sequence without repetitions preserves the number of elements. */
  lemma {:induction false} RenamedCard(a: set<Id>, b: set<Id>, order: seq<Id>)
    requires Distinct(order)
    requires forall x :: x in a ==> 0 <= x.n < |order|
    requires forall y :: y in b ==> y in order
    requires forall k :: 0 <= k < |order| ==> (Id(k) in a <==> order[k] in b)
    ensures |a| == |b|
    decreases a
  {
    if a == {} {
      assert b == {};
    } else {
      var x :| x in a;
      assert x == Id(x.n);
      RenamedCard(a - {x}, b - {order[x.n]}, order);
    }
  }

  lemma RestoredCounts(info: map<Id, Info>, order: seq<Id>, info': map<Id, Info>)
    requires RecordsRestored(info, order, info') && Distinct(order)
    requires forall x :: x in order <==> x in info
    ensures |NewIds(info')| == |NewIds(info)| && |TriedIds(info')| == |TriedIds(info)|
  {
    forall k | 0 <= k < |order|
      ensures Id(k) in NewIds(info') <==> order[k] in NewIds(info)
      ensures Id(k) in TriedIds(info') <==> order[k] in TriedIds(info)
    {
      assert order[k] in order;
      assert info'[Id(k)] == info[order[k]].(lastTry := 0, randomPos := k);
    }
    RenamedCard(NewIds(info'), NewIds(info), order);
    RenamedCard(TriedIds(info'), TriedIds(info), order);
  }

  lemma RestoredSizes(env: Env, s: State, order: seq<Id>, s': State)
    requires SizesOk(s.tried, s.untried) && Distinct(order)
    requires forall b, x :: 0 <= b < |s.untried| && x in s.untried[b] ==> x in order
    requires TriedRestored(s.tried, order, s'.tried) && UntriedRestored(s.untried, order, s'.untried)
    ensures SizesOk(s'.tried, s'.untried)
  {
    forall b | 0 <= b < |s'.untried| ensures |s'.untried[b]| <= NEW_BUCKET_SIZE {
      RenamedCard(s'.untried[b], s.untried[b], order);
    }
  }
}
