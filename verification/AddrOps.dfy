/** The effect of each operation on the tables, as a function of the old tables and the random draws. */
module AddrOps {
  import opened AddrTypes
  import opened AddrState
  import opened Ids

  datatype Option<T> = None | Some(value: T)

  function Max(a: int, b: int): int { if a < b then b else a }

  /** The identifier under which a network address is known. */
  function FindId(s: State, net: NetAddr): Option<Id> {
    if net in s.addr && s.addr[net] in s.info then Some(s.addr[net]) else None
  }

  function SetInfo(s: State, id: Id, info: Info): State { s.(info := s.info[id := info]) }

  /** A new record under the next identifier, at the end of `random`. */
  function Create(s: State, address: Address, source: NetAddr): State {
    var id := Id(s.idCount);
    s.(idCount := s.idCount + 1,
       info := s.info[id := NewInfo(address, source).(randomPos := |s.random|)],
       addr := s.addr[address.service.net := id],
       random := s.random + [id])
  }

  /** Exchange two positions of `random` and their back-pointers. */
  function SwapRandom(s: State, i: int, j: int): State
    requires 0 <= i < |s.random| && 0 <= j < |s.random|
    requires s.random[i] in s.info && s.random[j] in s.info
  {
    if i == j then s
    else
      var a, b := s.random[i], s.random[j];
      var info1 := s.info[a := s.info[a].(randomPos := j)];
      s.(info := info1[b := info1[b].(randomPos := i)],
         random := s.random[i := b][j := a])
  }

  /** Forget a record: swap it to the end of `random`, then drop it from every index. */
  function Delete(s: State, id: Id): State
    requires id in s.info && RandomOk(s.info, s.random)
  {
    var s1 := SwapRandom(s, s.info[id].randomPos, |s.random| - 1);
    s1.(random := s1.random[..|s1.random| - 1],
        addr := s1.addr - {s.info[id].Net()},
        info := s1.info - {id},
        nNew := s1.nNew - 1)
  }

  function AddRef(s: State, id: Id): State
    requires id in s.info
  {
    SetInfo(s, id, s.info[id].(refCount := s.info[id].refCount + 1))
  }

  /** Drop one reference to `id`; forget the record when it was the last one. */
  function DropRef(s: State, id: Id): State
    requires id in s.info && RandomOk(s.info, s.random)
  {
    var s1 := SetInfo(s, id, s.info[id].(refCount := s.info[id].refCount - 1));
    assert RandomOk(s1.info, s1.random);
    if s1.info[id].refCount == 0 then Delete(s1, id) else s1
  }

  function PutIn(s: State, id: Id, b: nat): State
    requires b < |s.untried|
  {
    s.(untried := s.untried[b := s.untried[b] + {id}])
  }

  function TakeOut(s: State, id: Id, b: nat): State
    requires b < |s.untried|
  {
    s.(untried := s.untried[b := s.untried[b] - {id}])
  }

  /** Remove `id` from one new bucket. */
  function Release(s: State, id: Id, b: nat): (r: State)
    requires id in s.info && RandomOk(s.info, s.random) && b < |s.untried|
    ensures |r.untried| == |s.untried|
  {
    TakeOut(DropRef(s, id), id, b)
  }

  // ---- random order ----

  lemma SwapEffect(s: State, i: int, j: int)
    requires RandomOk(s.info, s.random)
    requires 0 <= i < |s.random| && 0 <= j < |s.random|
    ensures var s' := SwapRandom(s, i, j);
      && RandomOk(s'.info, s'.random)
      && s' == s.(info := s'.info, random := s.random[i := s.random[j]][j := s.random[i]])
      && (forall id :: id in s'.info ==> id in s.info)
      && (forall id :: id in s.info ==> id in s'.info && s'.info[id] == s.info[id].(randomPos := s'.info[id].randomPos))
  {
    var s' := SwapRandom(s, i, j);
    if i == j {
      assert s.random[i := s.random[j]][j := s.random[i]] == s.random;
    } else {
      RandomSwapped(s.info, s'.info, s.random, i, j);
    }
  }

  lemma SwapKeepsInv(env: Env, s: State, i: int, j: int)
    requires Inv(env, s)
    requires 0 <= i < |s.random| && 0 <= j < |s.random|
    ensures Inv(env, SwapRandom(s, i, j))
  {
    var s' := SwapRandom(s, i, j);
    SwapEffect(s, i, j);
    AddrReordered(s.info, s'.info, s.addr);
    UntriedStable(s.info, s'.info, s.untried, NOBODY);
    TriedStable(env, s.key, s.info, s'.info, s.tried);
    CountsStable(s.info, s'.info, s.nNew, s.nTried);
  }

  lemma AddrReordered(info: map<Id, Info>, info': map<Id, Info>, addr: map<NetAddr, Id>)
    requires AddrOk(info, addr) && SameTried(info, info')
    ensures AddrOk(info', addr)
  {
  }

  lemma SwapPosition(info: map<Id, Info>, random: seq<Id>, old_: seq<Id>, p: int, id: Id)
    requires RandomOk(info, random) && id in info && 0 <= p < |old_| && old_[p] == id
    requires random == old_[p := old_[|old_| - 1]][|old_| - 1 := old_[p]]
    ensures info[id].randomPos == |random| - 1
  {
    assert random[|random| - 1] == id;
  }

  /** Deletion removes one record from the three indexes and moves at most one back-pointer. */
  lemma DeleteEffect(s: State, id: Id)
    requires id in s.info && RandomOk(s.info, s.random)
    ensures var s' := Delete(s, id);
      && RandomOk(s'.info, s'.random)
      && |s'.random| == |s.random| - 1
      && (forall x :: x in s'.info <==> x in s.info && x != id)
      && (forall x :: x in s'.info ==> s'.info[x] == s.info[x].(randomPos := s'.info[x].randomPos))
      && s' == s.(info := s'.info, random := s'.random, addr := s.addr - {s.info[id].Net()}, nNew := s.nNew - 1)
  {
    hide SwapRandom, RandomOk;
    var p := s.info[id].randomPos;
    var s1 := SwappedOut(s, id, p);
    RandomPopped(s1.info, s1.random, id);
    assert Delete(s, id) == s1.(random := s1.random[..|s1.random| - 1], addr := s1.addr - {s.info[id].Net()},
                                info := s1.info - {id}, nNew := s1.nNew - 1);
  }

  /** The first half of a deletion: the record comes last in `random`. */
  lemma SwappedOut(s: State, id: Id, p: int) returns (s1: State)
    requires id in s.info && RandomOk(s.info, s.random) && p == s.info[id].randomPos
    ensures 0 <= p < |s.random| && s.random[p] in s.info && s.random[|s.random| - 1] in s.info
    ensures s1 == SwapRandom(s, p, |s.random| - 1)
    ensures RandomOk(s1.info, s1.random) && id in s1.info && s1.info[id].randomPos == |s1.random| - 1
    ensures |s1.random| == |s.random| && s1 == s.(info := s1.info, random := s1.random)
    ensures forall x :: x in s1.info <==> x in s.info
    ensures forall x :: x in s1.info ==> s1.info[x] == s.info[x].(randomPos := s1.info[x].randomPos)
  {
    s1 := SwapRandom(s, p, |s.random| - 1);
    hide SwapRandom;
    SwapEffect(s, p, |s.random| - 1);
    SwapPosition(s1.info, s1.random, s.random, p, id);
  }

  // ---- registering and referencing ----

  lemma CreateEffect(s: State, address: Address, source: NetAddr)
    requires IdsOk(s.info, s.idCount)
    ensures var id := Id(s.idCount);
      var s' := AddRef(Create(s, address, source).(nNew := s.nNew + 1), id);
      && Extends(s.info, s'.info, id) && IdsOk(s'.info, s'.idCount) && NOBODY !in s.info
      && s'.info[id] == NewInfo(address, source).(randomPos := |s.random|, refCount := 1)
      && s' == s.(idCount := s.idCount + 1, info := s'.info, nNew := s.nNew + 1,
                  addr := s.addr[address.service.net := id], random := s.random + [id])
  {
  }

  /** A record created for an unknown address and given its first reference is consistent. */
  lemma CreateKeepsInv(env: Env, s: State, address: Address, source: NetAddr)
    requires Inv(env, s) && address.service.net !in s.addr
    ensures var s1 := Create(s, address, source).(nNew := s.nNew + 1);
      InvExcept(env, AddRef(s1, Id(s.idCount)), Id(s.idCount))
  {
    var id := Id(s.idCount);
    var s' := AddRef(Create(s, address, source).(nNew := s.nNew + 1), id);
    CreateEffect(s, address, source);
    RandomPushed(s.info, s'.info, s.random, id);
    CreateKeepsUntried(s.info, s'.info, s.untried, id);
    CreateKeepsAddr(s.info, s'.info, s.addr, id);
    CreateKeepsTried(env, s.key, s.info, s'.info, s.tried, id);
    CreateKeepsCounts(s.info, s'.info, id);
  }

  ghost predicate Extends(info: map<Id, Info>, info': map<Id, Info>, id: Id) {
    && id !in info && id in info'
    && !info'[id].inTried
    && (forall x :: x in info' ==> x in info || x == id)
    && (forall x :: x in info ==> x in info' && info'[x] == info[x])
  }

  lemma CreateKeepsUntried(info: map<Id, Info>, info': map<Id, Info>, untried: seq<set<Id>>, id: Id)
    requires UntriedOk(info, untried, NOBODY) && Extends(info, info', id) && id != NOBODY
    requires info'[id].refCount == 1
    requires NOBODY !in info
    ensures UntriedOk(info', untried, id)
  {
    RefsPositive(untried, id);
  }

  lemma CreateKeepsAddr(info: map<Id, Info>, info': map<Id, Info>, addr: map<NetAddr, Id>, id: Id)
    requires AddrOk(info, addr) && Extends(info, info', id) && info'[id].Net() !in addr
    ensures AddrOk(info', addr[info'[id].Net() := id])
  {
  }

  lemma CreateKeepsCounts(info: map<Id, Info>, info': map<Id, Info>, id: Id)
    requires Extends(info, info', id)
    ensures |NewIds(info')| == |NewIds(info)| + 1 && TriedIds(info') == TriedIds(info)
  {
    assert NewIds(info') == NewIds(info) + {id};
  }

  lemma CreateKeepsTried(env: Env, key: seq<int>, info: map<Id, Info>, info': map<Id, Info>,
                         tried: seq<seq<Id>>, id: Id)
    requires TriedOk(env, key, info, tried) && Extends(info, info', id)
    ensures TriedOk(env, key, info', tried)
  {
  }

  lemma AddRefKeepsInv(env: Env, s: State, id: Id)
    requires Inv(env, s) && id in s.info
    requires !s.info[id].inTried && s.info[id].refCount < NEW_BUCKETS_PER_ADDRESS
    ensures InvExcept(env, AddRef(s, id), id)
  {
    var s' := AddRef(s, id);
    RecordReplaced(s.info, id, s'.info[id]);
    RandomStable(s.info, s'.info, s.random);
    AddrStable(s.info, s'.info, s.addr);
    AddRefKeepsUntried(s.info, s.untried, id, s'.info[id]);
    TriedStable(env, s.key, s.info, s'.info, s.tried);
    CountsStable(s.info, s'.info, s.nNew, s.nTried);
  }

  lemma AddRefKeepsUntried(info: map<Id, Info>, untried: seq<set<Id>>, id: Id, r: Info)
    requires UntriedOk(info, untried, NOBODY) && id in info && NOBODY !in info
    requires !info[id].inTried && info[id].refCount < NEW_BUCKETS_PER_ADDRESS
    requires r == info[id].(refCount := info[id].refCount + 1)
    ensures UntriedOk(info[id := r], untried, id)
  {
  }

  lemma PutInKeepsInv(env: Env, s: State, id: Id, b: nat)
    requires InvExcept(env, s, id) && id in s.info
    requires b < |s.untried| && id !in s.untried[b] && |s.untried[b]| < NEW_BUCKET_SIZE
    ensures Inv(env, PutIn(s, id, b))
  {
    var s' := PutIn(s, id, b);
    forall x | x in s'.info ensures s'.info[x].refCount == Refs(s'.untried, x) {
      RefsStore(s.untried, b, s.untried[b] + {id}, x);
    }
  }

  /** Releasing leaves every other record as it was, and keeps `id` unless its last reference went. */
  lemma ReleaseEffect(s: State, id: Id, b: nat)
    requires id in s.info && RandomOk(s.info, s.random) && b < |s.untried|
    ensures var s' := Release(s, id, b);
      && RandomOk(s'.info, s'.random)
      && (forall x :: x in s'.info <==> x in s.info && (x != id || s.info[id].refCount != 1))
      && (forall x :: x in s'.info ==> s'.info[x] == s.info[x].(
            randomPos := s'.info[x].randomPos,
            refCount := s.info[x].refCount - if x == id then 1 else 0))
      && s' == s.(info := s'.info, random := s'.random, addr := s'.addr, nNew := s'.nNew,
                  untried := s.untried[b := s.untried[b] - {id}])
      && (if s.info[id].refCount == 1
          then s'.addr == s.addr - {s.info[id].Net()} && s'.nNew == s.nNew - 1 && |s'.random| == |s.random| - 1
          else s'.addr == s.addr && s'.nNew == s.nNew && s'.random == s.random)
  {
    var s1 := SetInfo(s, id, s.info[id].(refCount := s.info[id].refCount - 1));
    RandomStable(s.info, s1.info, s.random);
    if s.info[id].refCount == 1 { DeleteEffect(s1, id); }
  }

  lemma ReleaseKeepsUntried(s: State, id: Id, b: nat, extra: Id)
    requires UntriedOk(s.info, s.untried, extra) && RandomOk(s.info, s.random)
    requires b < |s.untried| && id in s.untried[b] && id != extra
    ensures id in s.info && !s.info[id].inTried
    ensures var s' := Release(s, id, b); UntriedOk(s'.info, s'.untried, extra)
  {
    RefsPositive(s.untried, id);
    ReleaseEffect(s, id, b);
    var s' := Release(s, id, b);
    RefsRemoved(s.untried, b, id);
    RefsPositive(s'.untried, id);
  }

  lemma RefsRemoved(untried: seq<set<Id>>, b: nat, id: Id)
    requires b < |untried| && id in untried[b]
    ensures forall x :: Refs(untried[b := untried[b] - {id}], x) == Refs(untried, x) - if x == id then 1 else 0
  {
    forall x
      ensures Refs(untried[b := untried[b] - {id}], x) == Refs(untried, x) - if x == id then 1 else 0
    {
      RefsStore(untried, b, untried[b] - {id}, x);
    }
  }

  ghost predicate Shrinks(info: map<Id, Info>, info': map<Id, Info>, gone: set<Id>) {
    && (forall x :: x in info' <==> x in info && x !in gone)
    && (forall x :: x in info' ==>
          && info'[x].address.service == info[x].address.service
          && info'[x].inTried == info[x].inTried)
    && (forall x :: x in gone && x in info ==> !info[x].inTried)
  }

  lemma ShrinkKeepsTables(env: Env, key: seq<int>, info: map<Id, Info>, info': map<Id, Info>,
                          gone: set<Id>, tried: seq<seq<Id>>)
    requires TriedOk(env, key, info, tried) && Shrinks(info, info', gone)
    ensures TriedOk(env, key, info', tried)
    ensures TriedIds(info') == TriedIds(info)
    ensures NewIds(info') == NewIds(info) - gone
  {
  }

  lemma ReleaseKeepsInv(env: Env, s: State, id: Id, b: nat, extra: Id)
    requires InvExcept(env, s, extra) && b < |s.untried| && id in s.untried[b] && id != extra
    ensures id in s.info && !s.info[id].inTried
    ensures InvExcept(env, Release(s, id, b), extra)
  {
    ReleaseKeepsUntried(s, id, b, extra);
    var gone := ReleaseShrinks(s, id, b);
    ShrinkKeepsInv(env, s, Release(s, id, b), id, gone, b, extra);
  }

  lemma ShrinkKeepsInv(env: Env, s: State, s': State, id: Id, gone: set<Id>, b: nat, extra: Id)
    requires InvExcept(env, s, extra) && b < |s.untried| && id in s.info && !s.info[id].inTried
    requires gone == {id} || gone == {}
    requires Shrinks(s.info, s'.info, gone)
    requires RandomOk(s'.info, s'.random) && UntriedOk(s'.info, s'.untried, extra)
    requires s' == s.(info := s'.info, random := s'.random, nNew := s.nNew - |gone|,
                      addr := s.addr - (if gone == {} then {} else {s.info[id].Net()}),
                      untried := s.untried[b := s.untried[b] - {id}])
    ensures InvExcept(env, s', extra)
  {
    hide IdsOk, RandomOk, AddrOk, UntriedOk, TriedOk, Shrinks;
    ShrinkKeepsTables(env, s.key, s.info, s'.info, gone, s.tried);
    ShrinkKeepsAddr(s.info, s'.info, id, gone, s.addr, s'.addr);
    ShrinkKeepsIds(s.info, s'.info, gone, s.idCount);
  }

  lemma ReleaseShrinks(s: State, id: Id, b: nat) returns (gone: set<Id>)
    requires id in s.info && RandomOk(s.info, s.random) && b < |s.untried| && !s.info[id].inTried
    ensures var s' := Release(s, id, b);
      && gone == (if s.info[id].refCount == 1 then {id} else {})
      && Shrinks(s.info, s'.info, gone)
      && RandomOk(s'.info, s'.random)
      && s' == s.(info := s'.info, random := s'.random, nNew := s.nNew - |gone|,
                  addr := s.addr - (if gone == {} then {} else {s.info[id].Net()}),
                  untried := s.untried[b := s.untried[b] - {id}])
  {
    ReleaseEffect(s, id, b);
    gone := if s.info[id].refCount == 1 then {id} else {};
    assert s.addr - {} == s.addr;
  }

  lemma ShrinkKeepsIds(info: map<Id, Info>, info': map<Id, Info>, gone: set<Id>, idCount: int)
    requires IdsOk(info, idCount) && Shrinks(info, info', gone)
    ensures IdsOk(info', idCount)
  {
  }

  lemma ShrinkKeepsAddr(info: map<Id, Info>, info': map<Id, Info>, id: Id, gone: set<Id>,
                        addr: map<NetAddr, Id>, addr': map<NetAddr, Id>)
    requires AddrOk(info, addr) && id in info && Shrinks(info, info', gone)
    requires gone == {id} || gone == {}
    requires addr' == addr - (if gone == {} then {} else {info[id].Net()})
    ensures AddrOk(info', addr')
  {
  }
}
