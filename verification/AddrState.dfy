/** The manager's tables as one value, and the invariant that links them. */
module AddrState {
  import opened AddrTypes
  import opened Ids

  datatype State = State(
    key: seq<int>,              // secret bucket key
    idCount: int,               // next identifier
    info: map<Id, Info>,       // record of every identifier
    addr: map<NetAddr, Id>,    // identifier of every network address
    random: seq<Id>,           // all identifiers, in random order
    nTried: int,
    tried: seq<seq<Id>>,       // tried buckets
    nNew: int,
    untried: seq<set<Id>>)       // new buckets

  const NOBODY: Id := Id(-1)

  /** The manager as constructed. */
  function Empty(key: seq<int>): State {
    State(key, 0, map[], map[], [], 0, seq(TRIED_BUCKET_COUNT, _ => []), 0, seq(NEW_BUCKET_COUNT, _ => {}))
  }

  /** How many new buckets hold `id`. */
  function Refs(untried: seq<set<Id>>, id: Id): nat {
    if |untried| == 0 then 0
    else Refs(untried[..|untried| - 1], id) + (if id in untried[|untried| - 1] then 1 else 0)
  }

  ghost function NewIds(info: map<Id, Info>): set<Id> { set id | id in info && !info[id].inTried }
  ghost function TriedIds(info: map<Id, Info>): set<Id> { set id | id in info && info[id].inTried }

  /** `random` lists every identifier once and `randomPos` is its inverse. */
  ghost predicate RandomOk(info: map<Id, Info>, random: seq<Id>) {
    && (forall i :: 0 <= i < |random| ==> random[i] in info && info[random[i]].randomPos == i)
    && (forall id :: id in info ==> 0 <= info[id].randomPos < |random| && random[info[id].randomPos] == id)
  }

  /** `addr` is the inverse of the map from identifier to network address. */
  ghost predicate AddrOk(info: map<Id, Info>, addr: map<NetAddr, Id>) {
    && (forall a :: a in addr ==> addr[a] in info && info[addr[a]].Net() == a)
    && (forall id :: id in info ==> info[id].Net() in addr && addr[info[id].Net()] == id)
  }

  /** Reference counts are bucket multiplicities; `extra` may hold one reference not yet in a bucket. */
  ghost predicate UntriedOk(info: map<Id, Info>, untried: seq<set<Id>>, extra: Id) {
    && (forall b, id :: 0 <= b < |untried| && id in untried[b] ==> id in info)
    && (forall id :: id in info ==> info[id].refCount == Refs(untried, id) + (if id == extra then 1 else 0))
    && (forall id :: id in info ==>
          if info[id].inTried then info[id].refCount == 0
          else 1 <= info[id].refCount <= NEW_BUCKETS_PER_ADDRESS)
  }

  /** Every tried identifier sits exactly once, in the bucket its address hashes to. */
  ghost predicate TriedOk(env: Env, key: seq<int>, info: map<Id, Info>, tried: seq<seq<Id>>) {
    && |tried| == TRIED_BUCKET_COUNT
    && (forall b, i :: 0 <= b < |tried| && 0 <= i < |tried[b]| ==>
          && tried[b][i] in info
          && info[tried[b][i]].inTried
          && TriedBucket(env, key, info[tried[b][i]].address.service) == b)
    && (forall b, i, j :: 0 <= b < |tried| && 0 <= i < j < |tried[b]| ==> tried[b][i] != tried[b][j])
    && (forall id :: id in info && info[id].inTried ==>
          id in tried[TriedBucket(env, key, info[id].address.service)])
  }

  ghost predicate SizesOk(tried: seq<seq<Id>>, untried: seq<set<Id>>) {
    && |tried| == TRIED_BUCKET_COUNT
    && |untried| == NEW_BUCKET_COUNT
    && (forall b :: 0 <= b < |tried| ==> |tried[b]| <= TRIED_BUCKET_SIZE)
    && (forall b :: 0 <= b < |untried| ==> |untried[b]| <= NEW_BUCKET_SIZE)
  }

  ghost predicate CountsOk(info: map<Id, Info>, nNew: int, nTried: int) {
    nNew == |NewIds(info)| && nTried == |TriedIds(info)|
  }

  ghost predicate IdsOk(info: map<Id, Info>, idCount: int) {
    0 <= idCount && forall id :: id in info ==> 0 <= id.n < idCount
  }

  /** The invariant, up to one reference of `extra` that is counted but not yet in a bucket. */
  ghost predicate InvExcept(env: Env, s: State, extra: Id) {
    && SizesOk(s.tried, s.untried)
    && IdsOk(s.info, s.idCount)
    && RandomOk(s.info, s.random)
    && AddrOk(s.info, s.addr)
    && UntriedOk(s.info, s.untried, extra)
    && TriedOk(env, s.key, s.info, s.tried)
    && CountsOk(s.info, s.nNew, s.nTried)
  }

  /** The index invariant. */
  ghost predicate Inv(env: Env, s: State) { InvExcept(env, s, NOBODY) }

  /** The time stamps the consistency check also looks at. */
  ghost predicate TimesOk(s: State) {
    forall id :: id in s.info ==>
      && s.info[id].lastTry >= 0
      && s.info[id].lastSuccess >= 0
      && (s.info[id].inTried ==> s.info[id].lastSuccess != 0)
  }

  // ---- reference counts ----

  lemma {:induction false} RefsStore(untried: seq<set<Id>>, b: nat, bucket: set<Id>, id: Id)
    requires b < |untried|
    ensures Refs(untried[b := bucket], id)
         == Refs(untried, id) - (if id in untried[b] then 1 else 0) + (if id in bucket then 1 else 0)
  {
    var n := |untried| - 1;
    if b == n {
      assert untried[b := bucket][..n] == untried[..n];
    } else {
      assert untried[b := bucket][..n] == untried[..n][b := bucket];
      RefsStore(untried[..n], b, bucket, id);
    }
  }

  lemma {:induction false} RefsPositive(untried: seq<set<Id>>, id: Id)
    ensures Refs(untried, id) > 0 <==> exists b :: 0 <= b < |untried| && id in untried[b]
    ensures Refs(untried, id) <= |untried|
  {
    if |untried| > 0 {
      var n := |untried| - 1;
      RefsPositive(untried[..n], id);
      if Refs(untried[..n], id) > 0 {
        var b :| 0 <= b < n && id in untried[..n][b];
        assert id in untried[b];
      } else if exists b :: 0 <= b < |untried| && id in untried[b] {
        var b :| 0 <= b < |untried| && id in untried[b];
        assert b < n ==> id in untried[..n][b];
      }
    }
  }

  /** The buckets with `id` removed from each of them. */
  function Without(untried: seq<set<Id>>, id: Id): (r: seq<set<Id>>)
    ensures |r| == |untried|
    ensures forall b :: 0 <= b < |untried| ==> r[b] == untried[b] - {id}
  {
    seq(|untried|, b requires 0 <= b < |untried| => untried[b] - {id})
  }

  lemma {:induction false} RefsWithout(untried: seq<set<Id>>, id: Id, x: Id)
    ensures Refs(Without(untried, id), x) == if x == id then 0 else Refs(untried, x)
  {
    if |untried| > 0 {
      var n := |untried| - 1;
      assert Without(untried, id)[..n] == Without(untried[..n], id);
      RefsWithout(untried[..n], id, x);
    }
  }

  // ---- how changes of the record table act on each index ----

  /** Two record tables with the same keys that agree on what `random` and `addr` depend on. */
  ghost predicate SameIndex(info: map<Id, Info>, info': map<Id, Info>) {
    && (forall id :: id in info' ==> id in info)
    && forall id :: id in info ==>
         && id in info'
         && info'[id].randomPos == info[id].randomPos
         && info'[id].Net() == info[id].Net()
  }

  /** Two record tables with the same keys that agree on what the tried buckets depend on. */
  ghost predicate SameTried(info: map<Id, Info>, info': map<Id, Info>) {
    && (forall id :: id in info' ==> id in info)
    && forall id :: id in info ==>
         && id in info'
         && info'[id].inTried == info[id].inTried
         && info'[id].address.service == info[id].address.service
  }

  ghost predicate SameRefs(info: map<Id, Info>, info': map<Id, Info>) {
    forall id :: id in info && id in info' ==> info'[id].refCount == info[id].refCount
  }

  lemma RandomStable(info: map<Id, Info>, info': map<Id, Info>, random: seq<Id>)
    requires RandomOk(info, random) && SameIndex(info, info')
    ensures RandomOk(info', random)
  {
  }

  lemma RandomSwapped(info: map<Id, Info>, info': map<Id, Info>, random: seq<Id>, i: int, j: int)
    requires RandomOk(info, random) && 0 <= i < |random| && 0 <= j < |random|
    requires forall id :: id in info' ==> id in info
    requires forall id :: id in info ==>
               && id in info'
               && info'[id].randomPos ==
                  if id == random[i] then j else if id == random[j] then i else info[id].randomPos
    ensures RandomOk(info', random[i := random[j]][j := random[i]])
  {
  }

  lemma RandomPushed(info: map<Id, Info>, info': map<Id, Info>, random: seq<Id>, id: Id)
    requires RandomOk(info, random) && id !in info && id in info'
    requires forall x :: x in info' ==> x in info || x == id
    requires forall x :: x in info ==> x in info' && info'[x].randomPos == info[x].randomPos
    requires info'[id].randomPos == |random|
    ensures RandomOk(info', random + [id])
  {
  }

  lemma RandomPopped(info: map<Id, Info>, random: seq<Id>, id: Id)
    requires RandomOk(info, random) && id in info && info[id].randomPos == |random| - 1
    ensures RandomOk(info - {id}, random[..|random| - 1])
  {
  }

  lemma AddrStable(info: map<Id, Info>, info': map<Id, Info>, addr: map<NetAddr, Id>)
    requires AddrOk(info, addr) && SameIndex(info, info')
    ensures AddrOk(info', addr)
  {
  }

  lemma TriedStable(env: Env, key: seq<int>, info: map<Id, Info>, info': map<Id, Info>, tried: seq<seq<Id>>)
    requires TriedOk(env, key, info, tried) && SameTried(info, info')
    ensures TriedOk(env, key, info', tried)
  {
  }

  lemma CountsStable(info: map<Id, Info>, info': map<Id, Info>, nNew: int, nTried: int)
    requires CountsOk(info, nNew, nTried) && SameTried(info, info')
    ensures CountsOk(info', nNew, nTried)
  {
    assert NewIds(info') == NewIds(info);
    assert TriedIds(info') == TriedIds(info);
  }

  lemma UntriedStable(info: map<Id, Info>, info': map<Id, Info>, untried: seq<set<Id>>, extra: Id)
    requires UntriedOk(info, untried, extra) && SameTried(info, info') && SameRefs(info, info')
    ensures UntriedOk(info', untried, extra)
  {
  }

  /** Replacing one record by one that agrees on the indexed fields. */
  lemma RecordReplaced(info: map<Id, Info>, id: Id, r: Info)
    requires id in info
    requires r.address.service == info[id].address.service
    ensures r.randomPos == info[id].randomPos ==> SameIndex(info, info[id := r])
    ensures r.inTried == info[id].inTried ==> SameTried(info, info[id := r])
    ensures r.refCount == info[id].refCount ==> SameRefs(info, info[id := r])
  {
  }

  /** Changing only statistics keeps the invariant. */
  lemma InertKeepsInv(env: Env, s: State, s': State, extra: Id)
    requires InvExcept(env, s, extra) && s' == s.(info := s'.info)
    requires SameIndex(s.info, s'.info) && SameTried(s.info, s'.info) && SameRefs(s.info, s'.info)
    ensures InvExcept(env, s', extra)
  {
    RandomStable(s.info, s'.info, s.random);
    AddrStable(s.info, s'.info, s.addr);
    UntriedStable(s.info, s'.info, s.untried, extra);
    TriedStable(env, s.key, s.info, s'.info, s.tried);
    CountsStable(s.info, s'.info, s.nNew, s.nTried);
  }

  lemma RefCountExact(env: Env, s: State, id: Id)
    requires Inv(env, s) && id in s.info
    ensures s.info[id].refCount == Refs(s.untried, id)
  {
    assert id != NOBODY;
  }

  /** The empty manager satisfies the invariant. */
  lemma EmptyInv(env: Env, key: seq<int>)
    ensures Inv(env, Empty(key)) && TimesOk(Empty(key))
  {
    var s := Empty(key);
    assert NewIds(s.info) == {} && TriedIds(s.info) == {};
  }
}
