/** Partially read managers: what holds after each item of a stream the writer produced. */
module AddrRead {
  import opened AddrTypes
  import opened AddrState
  import opened AddrBounds
  import opened AddrSerial
  import opened Ids

  ghost predicate NetsDistinct(info: map<Id, Info>, order: seq<Id>) {
    && (forall k :: 0 <= k < |order| ==> order[k] in info)
    && (forall i, j :: 0 <= i < j < |order| ==> info[order[i]].Net() != info[order[j]].Net())
  }

  lemma OrderNetsDistinct(env: Env, s: State)
    requires Inv(env, s)
    ensures NetsDistinct(s.info, Order(s.info))
  {
    hide Order, RandomOk, UntriedOk, TriedOk, SizesOk, CountsOk;
    OrderIsBijective(s.info);
    var order := Order(s.info);
    forall k | 0 <= k < |order| ensures order[k] in s.info && s.addr[s.info[order[k]].Net()] == order[k] {
      assert order[k] in order;
    }
  }

  /** The first `k` records are loaded, without references. */
  ghost predicate Loaded(info: map<Id, Info>, order: seq<Id>, k: nat,
                         info': map<Id, Info>, addr': map<NetAddr, Id>, random': seq<Id>) {
    && k <= |order|
    && (forall x :: x in info' <==> 0 <= x.n < k)
    && (forall j :: 0 <= j < k ==>
          order[j] in info && Id(j) in info'
          && info'[Id(j)] == info[order[j]].(lastTry := 0, randomPos := j, refCount := 0))
    && AddrRestored(info, order[..k], addr')
    && |random'| == k && (forall j :: 0 <= j < k ==> random'[j] == Id(j))
  }

  lemma LoadOne(info: map<Id, Info>, order: seq<Id>, k: nat,
                info': map<Id, Info>, addr': map<NetAddr, Id>, random': seq<Id>, r: Info)
    requires Loaded(info, order, k, info', addr', random') && k < |order| && NetsDistinct(info, order)
    requires r == info[order[k]].(lastTry := 0, randomPos := k, refCount := 0)
    ensures Loaded(info, order, k + 1, info'[Id(k) := r], addr'[r.Net() := Id(k)], random' + [Id(k)])
  {
    assert order[..k + 1] == order[..k] + [order[k]];
    AddrOne(info, order[..k], addr', order[k]);
  }

  lemma AddrOne(info: map<Id, Info>, order: seq<Id>, addr': map<NetAddr, Id>, id: Id)
    requires AddrRestored(info, order, addr') && id in info
    requires forall j :: 0 <= j < |order| ==> info[order[j]].Net() != info[id].Net()
    ensures AddrRestored(info, order + [id], addr'[info[id].Net() := Id(|order|)])
  {
  }

  // ---- tried buckets ----

  /** The tried records among the first `k` are in their buckets. */
  ghost predicate TriedLoaded(tried: seq<seq<Id>>, order: seq<Id>, k: nat, tried': seq<seq<Id>>) {
    && k <= |order| && |tried'| == |tried|
    && (forall b :: 0 <= b < |tried| ==> Distinct(tried'[b]))
    && (forall b, x :: 0 <= b < |tried| && x in tried'[b] ==> 0 <= x.n < k)
    && (forall b, j :: 0 <= b < |tried| && 0 <= j < k ==> (Id(j) in tried'[b] <==> order[j] in tried[b]))
  }

  /** Before a tried record is loaded its bucket has room, so nothing is ever lost. */
  lemma TriedHasRoom(tried: seq<seq<Id>>, order: seq<Id>, k: nat, tried': seq<seq<Id>>, b: nat)
    requires TriedLoaded(tried, order, k, tried') && b < |tried| && k < |order| && Distinct(order)
    requires order[k] in tried[b]
    ensures |tried'[b]| < |tried[b]|
  {
    var v := tried'[b];
    forall i | 0 <= i < |v| ensures 0 <= v[i].n < k && order[v[i].n] in tried[b] {
      assert v[i] in v && v[i] == Id(v[i].n);
    }
    var w := seq(|v|, i requires 0 <= i < |v| => order[v[i].n]);
    ElementsDistinct(w + [order[k]]);
    SubsetCard(Elements(w + [order[k]]), Elements(tried[b]));
  }

  lemma TriedOne(tried: seq<seq<Id>>, order: seq<Id>, k: nat, tried': seq<seq<Id>>, b: nat)
    requires TriedLoaded(tried, order, k, tried') && b < |tried| && k < |order|
    requires forall c :: 0 <= c < |tried| ==> (order[k] in tried[c] <==> c == b)
    ensures TriedLoaded(tried, order, k + 1, tried'[b := tried'[b] + [Id(k)]])
  {
    assert Id(k) !in tried'[b];
  }

  lemma OnlyTried(env: Env, s: State)
    requires Inv(env, s)
    ensures |s.tried| == TRIED_BUCKET_COUNT
    ensures forall b, x :: 0 <= b < |s.tried| && x in s.tried[b] ==> x in s.info && s.info[x].inTried
  {
    hide RandomOk, AddrOk, UntriedOk, SizesOk, CountsOk, IdsOk, TriedBucket;
  }

  lemma NewSkipped(env: Env, s: State, tried': seq<seq<Id>>)
    requires Inv(env, s)
    requires |tried'| == TRIED_BUCKET_COUNT && forall b :: 0 <= b < |tried'| ==> tried'[b] == []
    ensures TriedLoaded(s.tried, Order(s.info), |NewOrder(s.info)|, tried')
  {
    hide Order, NewOrder, Inv, TriedLoaded;
    OrderSplit(s.info);
    OrderIsBijective(s.info);
    OnlyTried(env, s);
    var order, n := Order(s.info), |NewOrder(s.info)|;
    forall b, j | 0 <= b < |s.tried| && 0 <= j < n ensures order[j] !in s.tried[b] {
      var id := order[j];
      assert id in s.info && !s.info[id].inTried;
    }
    NoneLoaded(s.tried, order, n, tried');
  }

  lemma NoneLoaded(tried: seq<seq<Id>>, order: seq<Id>, n: nat, tried': seq<seq<Id>>)
    requires |tried'| == |tried| && n <= |order|
    requires forall b :: 0 <= b < |tried| ==> tried'[b] == []
    requires forall b, j :: 0 <= b < |tried| && 0 <= j < n ==> order[j] !in tried[b]
    ensures TriedLoaded(tried, order, n, tried')
  {
  }

  lemma OrderSplit(info: map<Id, Info>)
    ensures |NewOrder(info)| <= |Order(info)|
    ensures |Order(info)| == |NewOrder(info)| + |TriedOrder(info)|
    ensures Order(info)[..|NewOrder(info)|] == NewOrder(info)
    ensures Order(info)[|NewOrder(info)|..] == TriedOrder(info)
  {
  }

  lemma TriedAllLoaded(tried: seq<seq<Id>>, order: seq<Id>, tried': seq<seq<Id>>)
    requires TriedLoaded(tried, order, |order|, tried') && Distinct(order)
    requires forall b :: 0 <= b < |tried| ==> Distinct(tried[b])
    requires forall b, x :: 0 <= b < |tried| && x in tried[b] ==> x in order
    ensures TriedRestored(tried, order, tried')
  {
    forall b | 0 <= b < |tried| ensures |tried'[b]| == |tried[b]| {
      RenamedCard(Elements(tried'[b]), Elements(tried[b]), order);
      ElementsDistinct(tried'[b]);
      ElementsDistinct(tried[b]);
    }
  }

  // ---- new buckets ----

  /** All records are loaded, with the references read so far. */
  ghost predicate Referenced(info: map<Id, Info>, order: seq<Id>, info': map<Id, Info>, untried': seq<set<Id>>) {
    && (forall x :: x in info' <==> 0 <= x.n < |order|)
    && (forall j :: 0 <= j < |order| ==>
          order[j] in info && Id(j) in info'
          && info'[Id(j)] == info[order[j]].(lastTry := 0, randomPos := j, refCount := Refs(untried', Id(j))))
  }

  /** The members of `bucket` under their new numbers. */
  ghost predicate Renumbered(order: seq<Id>, bucket: set<Id>, bucket': set<Id>) {
    && (forall x :: x in bucket' ==> 0 <= x.n < |order|)
    && (forall j :: 0 <= j < |order| ==> (Id(j) in bucket' <==> order[j] in bucket))
  }

  /** The first `b` new buckets are read; of the next one, the entries `part`. */
  ghost predicate UntriedLoaded(untried: seq<set<Id>>, order: seq<Id>, b: nat, part: set<Id>, untried': seq<set<Id>>) {
    && b <= |untried| && |untried'| == |untried|
    && (forall c :: 0 <= c < b ==> Renumbered(order, untried[c], untried'[c]))
    && (forall c :: b < c < |untried| ==> untried'[c] == {})
    && (if b < |untried| then Renumbered(order, part, untried'[b]) && part <= untried[b] else part == {})
  }

  /** Reading one more reference. */
  lemma ReferOne(info: map<Id, Info>, order: seq<Id>, untried: seq<set<Id>>, b: nat, part: set<Id>,
                 info': map<Id, Info>, untried': seq<set<Id>>, k: nat)
    requires Distinct(order) && k < |order| && b < |untried|
    requires Referenced(info, order, info', untried') && UntriedLoaded(untried, order, b, part, untried')
    requires order[k] in untried[b] && order[k] !in part
    ensures var r := info'[Id(k)].(refCount := info'[Id(k)].refCount + 1);
      var untried1 := untried'[b := untried'[b] + {Id(k)}];
      && Referenced(info, order, info'[Id(k) := r], untried1)
      && UntriedLoaded(untried, order, b, part + {order[k]}, untried1)
  {
    hide Distinct, Refs;
    var untried1 := untried'[b := untried'[b] + {Id(k)}];
    forall j | 0 <= j < |order| ensures Refs(untried1, Id(j)) == Refs(untried', Id(j)) + (if j == k then 1 else 0) {
      RefsStore(untried', b, untried'[b] + {Id(k)}, Id(j));
    }
    ReferBucket(order, untried, b, part, untried', k);
    hide UntriedLoaded;
    assert Id(k) in info';
  }

  lemma ReferBucket(order: seq<Id>, untried: seq<set<Id>>, b: nat, part: set<Id>, untried': seq<set<Id>>, k: nat)
    requires Distinct(order) && k < |order| && b < |untried|
    requires UntriedLoaded(untried, order, b, part, untried') && order[k] in untried[b]
    ensures UntriedLoaded(untried, order, b, part + {order[k]}, untried'[b := untried'[b] + {Id(k)}])
  {
    RenumberedOne(order, part, untried'[b], k);
    hide Renumbered, Distinct;
  }

  lemma RenumberedOne(order: seq<Id>, bucket: set<Id>, bucket': set<Id>, k: nat)
    requires Distinct(order) && k < |order| && Renumbered(order, bucket, bucket')
    ensures Renumbered(order, bucket + {order[k]}, bucket' + {Id(k)})
  {
  }

  /** The reference count never reaches its limit before the last reference is read. */
  lemma {:induction false} RefsSoFar(untried: seq<set<Id>>, order: seq<Id>, b: nat, part: set<Id>, untried': seq<set<Id>>, k: nat)
    requires UntriedLoaded(untried, order, b, part, untried') && k < |order| && b < |untried|
    requires order[k] in untried[b] && order[k] !in part
    ensures Refs(untried', Id(k)) < Refs(untried, order[k])
  {
    RefsBelow(untried, order, untried', b, k, |untried|);
  }

  lemma {:induction false} RefsBelow(untried: seq<set<Id>>, order: seq<Id>, untried': seq<set<Id>>, b: nat, k: nat, n: nat)
    requires |untried'| == |untried| && b < |untried| && n <= |untried| && k < |order|
    requires forall c :: 0 <= c < |untried| && Id(k) in untried'[c] ==> order[k] in untried[c]
    requires order[k] in untried[b] && Id(k) !in untried'[b]
    ensures Refs(untried'[..n], Id(k)) + (if b < n then 1 else 0) <= Refs(untried[..n], order[k])
    ensures n == |untried| ==> Refs(untried', Id(k)) < Refs(untried, order[k])
    decreases n
  {
    if n > 0 {
      RefsBelow(untried, order, untried', b, k, n - 1);
      assert untried[..n][..n - 1] == untried[..n - 1];
      assert untried'[..n][..n - 1] == untried'[..n - 1];
    }
    if n == |untried| {
      assert untried[..n] == untried && untried'[..n] == untried';
    }
  }

  lemma BucketDone(untried: seq<set<Id>>, order: seq<Id>, b: nat, untried': seq<set<Id>>)
    requires b < |untried| && UntriedLoaded(untried, order, b, untried[b], untried')
    requires forall c :: b < c < |untried| ==> untried'[c] == {}
    requires b + 1 == |untried| || untried'[b + 1] == {}
    ensures UntriedLoaded(untried, order, b + 1, {}, untried')
  {
  }
}
