/** The stochastic address manager, updating its tables in place. */
module AddrMan {
  import opened AddrTypes
  import opened AddrState
  import AddrOps
  import AddrAdd
  import AddrPromote
  import AddrMarks
  import AddrCheck
  import AddrCheckMeaning
  import opened AddrSerial
  import AddrWrite
  import AddrRead
  import opened Ids
  import Words

  /** The first loop over a full bucket. */
  method FindTerrible(order: seq<Id>, info: map<Id, Info>, now: int) returns (r: AddrOps.Option<Id>)
    requires forall x :: x in order ==> x in info
    ensures r == AddrAdd.FirstTerrible(order, info, now)
  {
    hide Terrible;
    var i := 0;
    while i < |order|
      invariant 0 <= i <= |order|
      invariant AddrAdd.FirstTerrible(order, info, now) == AddrAdd.FirstTerrible(order[i..], info, now)
    {
      assert order[i] in order && order[i..][0] == order[i];
      if Terrible(info[order[i]], now) {
        return AddrOps.Some(order[i]);
      }
      assert order[i..][1..] == order[i + 1..];
      i := i + 1;
    }
    return AddrOps.None;
  }

  /** The second loop: the oldest of the picked entries. */
  method FindOldest(order: seq<Id>, info: map<Id, Info>, picks: AddrAdd.Picks) returns (oldest: Id)
    requires forall x :: x in order ==> x in info
    ensures oldest == AddrAdd.OldestPicked(order, info, picks, 0, NOBODY)
  {
    oldest := NOBODY;
    var i := 0;
    while i < |order|
      invariant 0 <= i <= |order|
      invariant oldest == NOBODY || oldest in info
      invariant AddrAdd.OldestPicked(order, info, picks, 0, NOBODY) == AddrAdd.OldestPicked(order, info, picks, i, oldest)
    {
      assert order[i] in order;
      if picks.Has(i) {
        if oldest == NOBODY || info[order[i]].address.time < info[oldest].address.time {
          oldest := order[i];
        }
      }
      i := i + 1;
    }
  }

  /** The scan for a new bucket that holds `id`, from a random bucket on. */
  method FindBucket(untried: seq<set<Id>>, id: Id, start: nat) returns (bucket: int)
    ensures match AddrMarks.ScanFrom(untried, id, start, 0) case Some(b) => bucket == b case None => bucket == -1
  {
    bucket := -1;
    var n := 0;
    while n < |untried|
      invariant 0 <= n <= |untried| && bucket == -1
      invariant AddrMarks.ScanFrom(untried, id, start, 0) == AddrMarks.ScanFrom(untried, id, start, n)
    {
      var nB := (n + start) % |untried|;
      if id in untried[nB] {
        bucket := nB;
        break;
      }
      n := n + 1;
    }
  }

  /** How much harder a further reference is to get: twice for each one there is. */
  method Factor(refs: int) returns (factor: nat)
    ensures factor == if refs <= 0 then 1 else Words.Pow2(refs)
  {
    factor := 1;
    var n := 0;
    while n < refs
      invariant 0 <= n && (n <= refs || n == 0)
      invariant factor == Words.Pow2(n)
    {
      factor := factor * 2;
      n := n + 1;
    }
  }

  /** The four reasons not to give a known record a further reference, one after the other. */
  method WantsRef(info: Info, a: Address, coin: nat) returns (more: bool)
    ensures more == AddrAdd.TakesRef(info, a, coin)
  {
    if a.time == 0 || (info.address.time != 0 && a.time <= info.address.time) { return false; }
    if info.inTried { return false; }
    if info.refCount == NEW_BUCKETS_PER_ADDRESS { return false; }
    var factor := Factor(info.refCount);
    if factor > 1 && coin % factor != 0 { return false; }
    return true;
  }

  class Manager {
    const env: Env
    var key: seq<int>
    var idCount: int
    var info: map<Id, Info>
    var addr: map<NetAddr, Id>
    var random: seq<Id>
    var nTried: int
    var tried: seq<seq<Id>>
    var nNew: int
    var untried: seq<set<Id>>

    ghost function Tables(): State
      reads this
    {
      State(key, idCount, info, addr, random, nTried, tried, nNew, untried)
    }

    ghost predicate Valid()
      reads this
    {
      Inv(env, Tables())
    }

    constructor (env: Env, key: seq<int>)
      ensures this.env == env && Tables() == Empty(key) && Valid()
    {
      this.env := env;
      this.key := key;
      idCount, info, addr, random := 0, map[], map[], [];
      nTried, tried := 0, seq(TRIED_BUCKET_COUNT, _ => []);
      nNew, untried := 0, seq(NEW_BUCKET_COUNT, _ => {});
      new;
      EmptyInv(env, key);
    }

    function Find(net: NetAddr): (r: AddrOps.Option<Id>)
      reads this
      ensures r == AddrOps.FindId(Tables(), net)
      ensures Valid() && r.Some? ==> r.value in info && info[r.value].Net() == net
      ensures Valid() && r.None? ==> forall id :: id in info ==> info[id].Net() != net
    {
      if net in addr && addr[net] in info then AddrOps.Some(addr[net]) else AddrOps.None
    }

    method Create(address: Address, source: NetAddr) returns (id: Id)
      modifies this`idCount, this`info, this`addr, this`random
      ensures Tables() == AddrOps.Create(old(Tables()), address, source)
      ensures id == Id(old(idCount))
    {
      id := Id(idCount);
      idCount := idCount + 1;
      info := info[id := NewInfo(address, source)];
      addr := addr[address.service.net := id];
      info := info[id := info[id].(randomPos := |random|)];
      random := random + [id];
    }

    method SwapRandom(i: nat, j: nat)
      requires i < |random| && j < |random| && random[i] in info && random[j] in info
      modifies this`info, this`random
      ensures Tables() == AddrOps.SwapRandom(old(Tables()), i, j)
    {
      if i == j { return; }
      var id1, id2 := random[i], random[j];
      info := info[id1 := info[id1].(randomPos := j)];
      info := info[id2 := info[id2].(randomPos := i)];
      random := random[i := id2];
      random := random[j := id1];
    }

    /** Forget a record whose last reference went. */
    method Erase(id: Id)
      requires id in info && RandomOk(info, random)
      modifies this`info, this`random, this`addr, this`nNew
      ensures Tables() == AddrOps.Delete(old(Tables()), id)
    {
      var net := info[id].Net();
      SwapRandom(info[id].randomPos, |random| - 1);
      random := random[..|random| - 1];
      addr := addr - {net};
      info := info - {id};
      nNew := nNew - 1;
    }

    method Release(id: Id, b: nat)
      requires id in info && RandomOk(info, random) && b < |untried|
      modifies this`info, this`random, this`addr, this`nNew, this`untried
      ensures Tables() == AddrOps.Release(old(Tables()), id, b)
    {
      hide RandomOk, SameIndex, SameTried, SameRefs, AddrOps.Delete;
      RecordReplaced(info, id, info[id].(refCount := info[id].refCount - 1));
      RandomStable(info, info[id := info[id].(refCount := info[id].refCount - 1)], random);
      info := info[id := info[id].(refCount := info[id].refCount - 1)];
      if info[id].refCount == 0 {
        Erase(id);
      }
      untried := untried[b := untried[b] - {id}];
    }

    /** Remove an element from a full new bucket; `extra` is the record about to be placed there. */
    method ShrinkNew(b: nat, now: int, tape: seq<nat>, ghost extra: Id) returns (r: int)
      requires InvExcept(env, Tables(), extra) && b < NEW_BUCKET_COUNT && untried[b] != {} && extra !in untried[b]
      modifies this`info, this`random, this`addr, this`nNew, this`untried
      ensures Tables() == AddrAdd.Shrink(env, old(Tables()), b, now, tape, extra)
      ensures r == 0 <==> exists id :: id in old(untried[b]) && Deletable(old(info)[id], now)
      ensures r == 0 || r == 1
    {
      AddrAdd.BucketFacts(env, Tables(), b, extra);
      hide Inv, InvExcept, AddrOps.Release, AddrAdd.FirstTerrible, AddrAdd.OldestPicked, AddrAdd.FourPicks, Terrible, Deletable, AddrAdd.OldestOfFour;
      AddrAdd.DeletableEntries(untried[b], info, now);
      AddrAdd.VictimIsRight(untried[b], info, now, tape);
      var order := Sorted(untried[b]);
      AddrAdd.FirstTerribleIsFirst(order, info, now);
      var bad := FindTerrible(order, info, now);
      if bad.Some? {
        Release(bad.value, b);
        return 0;
      }
      var oldest := FindOldest(order, info, AddrAdd.FourPicks(tape, |order|));
      Release(oldest, b);
      return 1;
    }

    /** Pick an entry of a tried bucket to evict, shuffling the first few entries. */
    method SelectTried(k: nat, tape: seq<nat>) returns (pos: int)
      requires k < |tried| && (forall x :: x in tried[k] ==> x in info)
      modifies this`tried
      ensures var sel := AddrPromote.SelectTried(old(tried)[k], info, tape);
        pos == sel.pos && tried == old(tried)[k := sel.bucket]
    {
      hide AddrPromote.Permuted;
      ghost var v := tried[k];
      var oldest := NOBODY;
      pos := -1;
      var i := 0;
      while i < TRIED_ENTRIES_INSPECT_ON_EVICT && i < |tried[k]|
        invariant 0 <= i <= |v|
        invariant |tried| == |old(tried)| && tried == old(tried)[k := tried[k]] && |tried[k]| == |v|
        invariant forall x :: x in tried[k] ==> x in info
        invariant oldest == NOBODY || oldest in info
        invariant AddrPromote.SelectTried(v, info, tape) == AddrPromote.SelectFrom(tried[k], info, tape, i, oldest, pos)
      {
        var p := Draw(tape, i, |tried[k]| - i) + i;
        AddrPromote.SwapSameElements(tried[k], i, p);
        ElementsKept(tried[k], i, p);
        var x := tried[k][p];
        assert x in tried[k];
        tried := tried[k := tried[k][p := tried[k][i]]];
        tried := tried[k := tried[k][i := x]];
        if oldest == NOBODY || info[x].lastSuccess < info[oldest].lastSuccess {
          oldest := x;
          pos := p;
        }
        i := i + 1;
      }
      assert tried == old(tried)[k := tried[k]];
    }

    lemma ElementsKept(v: seq<Id>, i: nat, p: nat)
      requires i < |v| && p < |v|
      ensures forall x :: x in AddrPromote.Swap(v, i, p) ==> x in v
    {
      AddrPromote.SwapSameElements(v, i, p);
    }

    /** Take `id` out of every new bucket, counting its references down. */
    method ClearNew(id: Id)
      requires Valid() && id in info
      modifies this`untried, this`info, this`nNew
      ensures untried == Without(old(untried), id)
      ensures info == old(info)[id := old(info)[id].(refCount := 0)]
      ensures nNew == old(nNew) - 1
    {
      hide Inv;
      RefCountExact(env, Tables(), id);
      assert info == info[id := info[id].(refCount := info[id].refCount)];
      ghost var start := untried;
      var b := 0;
      while b < |untried|
        invariant 0 <= b <= |untried| == |start|
        invariant forall j :: 0 <= j < b ==> untried[j] == start[j] - {id}
        invariant forall j :: b <= j < |start| ==> untried[j] == start[j]
        invariant info == old(info)[id := old(info)[id].(refCount := Refs(untried, id))]
        invariant nNew == old(nNew)
      {
        if id in untried[b] {
          RefsStore(untried, b, untried[b] - {id}, id);
          untried := untried[b := untried[b] - {id}];
          info := info[id := info[id].(refCount := info[id].refCount - 1)];
        }
        b := b + 1;
      }
      assert untried == Without(start, id);
      RefsWithout(start, id, id);
      nNew := nNew - 1;
    }
  
    /** Put `id` in the place of entry `pos` of tried bucket `k`, which goes back to a new bucket. */
    method Evict(id: Id, origin: nat, k: nat, pos: nat)
      requires id in info && k < |tried| && pos < |tried[k]| && tried[k][pos] in info && tried[k][pos] != id
      requires |untried| == NEW_BUCKET_COUNT && origin < NEW_BUCKET_COUNT
      modifies this`untried, this`info, this`nNew, this`tried
      ensures var victim := old(tried)[k][pos];
        var own := NewBucket(env, key, old(info)[victim].Net(), old(info)[victim].source);
        var b := if |old(untried)[own]| < NEW_BUCKET_SIZE then own else origin;
        && tried == old(tried)[k := old(tried)[k][pos := id]]
        && untried == old(untried)[b := old(untried)[b] + {victim}]
        && info == old(info)[victim := old(info)[victim].(inTried := false, refCount := 1)]
                            [id := old(info)[id].(inTried := true)]
      ensures nNew == old(nNew) + 1
    {
      var victim := tried[k][pos];
      var own := NewBucket(env, key, info[victim].Net(), info[victim].source);
      info := info[victim := info[victim].(inTried := false)];
      info := info[victim := info[victim].(refCount := 1)];
      if |untried[own]| < NEW_BUCKET_SIZE {
        untried := untried[own := untried[own] + {victim}];
      } else {
        untried := untried[origin := untried[origin] + {victim}];
      }
      nNew := nNew + 1;
      tried := tried[k := tried[k][pos := id]];
      info := info[id := info[id].(inTried := true)];
    }

    /** No room in tried bucket `k`: `id`, already out of the new buckets, takes the place of an entry. */
    method Displace(id: Id, origin: nat, k: nat, tape: seq<nat>, ghost s: State)
      requires id in s.info && |s.tried| == TRIED_BUCKET_COUNT && |s.untried| == NEW_BUCKET_COUNT && origin < NEW_BUCKET_COUNT
      requires k == AddrPromote.Home(env, s, id) && |s.tried[k]| > 0
      requires forall x :: x in s.tried[k] ==> x in s.info && x != id
      requires Tables() == s.(info := s.info[id := s.info[id].(refCount := 0)], untried := Without(s.untried, id), nNew := s.nNew - 1)
      requires forall x :: x in s.tried[k] ==> x in info
      requires AddrPromote.SelectTried(s.tried[k], info, tape) == AddrPromote.SelectTried(s.tried[k], s.info, tape)
      requires var sel := AddrPromote.SelectTried(s.tried[k], s.info, tape);
        |sel.bucket| == |s.tried[k]| && 0 <= sel.pos < |sel.bucket| && sel.bucket[sel.pos] in s.tried[k]
      modifies this`untried, this`info, this`nNew, this`tried
      ensures var sel := AddrPromote.SelectTried(s.tried[k], s.info, tape);
        Tables() == AddrPromote.Replace(env, s, id, origin, sel.bucket, sel.pos)
    {
      hide Inv, AddrPromote.SelectTried;
      ghost var sel := AddrPromote.SelectTried(s.tried[k], s.info, tape);
      var pos := SelectTried(k, tape);
      ghost var victim := tried[k][pos];
      Evict(id, origin, k, pos);
      Rewritten(s.info, id, victim);
      assert tried == s.tried[k := sel.bucket[pos := id]];
    }

    method MakeTried(id: Id, origin: nat, tape: seq<nat>)
      requires Valid() && origin < NEW_BUCKET_COUNT && id in untried[origin]
      modifies this`untried, this`info, this`nNew, this`tried, this`nTried
      ensures Tables() == AddrPromote.MakeTried(env, old(Tables()), id, origin, tape)
      ensures Valid()
    {
      hide Inv, AddrPromote.Promotes, AddrPromote.SelectFrom, AddrPromote.Permuted;
      ghost var s := Tables();
      PromotionFacts(env, s, id, origin, tape);
      ghost var v := s.tried[AddrPromote.Home(env, s, id)];
      ghost var sel := AddrPromote.SelectTried(v, s.info, tape);
      ClearNew(id);
      assert info[id].refCount == 0;
      var k := TriedBucket(env, key, info[id].address.service);
      if |tried[k]| < TRIED_BUCKET_SIZE {
        tried := tried[k := tried[k] + [id]];
        nTried := nTried + 1;
        info := info[id := info[id].(inTried := true)];
        return;
      }
      AddrPromote.SelectFromSame(v, s.info, info, tape, 0, NOBODY, -1);
      Displace(id, origin, k, tape, s);
    }

    /** Mark an exactly matching entry good, moving it from new to tried. */
    method Good(service: Service, time: int, rnd: nat, tape: seq<nat>)
      requires Valid()
      modifies this`untried, this`info, this`nNew, this`tried, this`nTried
      ensures Tables() == AddrMarks.Good(env, old(Tables()), service, time, rnd, tape)
      ensures Valid()
    {
      hide Inv, AddrPromote.MakeTried, AddrMarks.Moves, AddrMarks.ScanFrom, Trunc32;
      ghost var s := Tables();
      ghost var promoted, victims := AddrMarks.GoodKeepsInv(env, s, service, time, rnd, tape);
      var found := Find(service.net);
      if found.None? { return; }
      var id := found.value;
      if info[id].address.service != service { return; }
      AddrMarks.MarkKeepsInv(env, s, id, AddrMarks.MarkedGood(info[id], time));
      info := info[id := info[id].(lastSuccess := time)];
      info := info[id := info[id].(lastTry := time)];
      info := info[id := info[id].(address := info[id].address.(time := Trunc32(time)))];
      info := info[id := info[id].(attempts := 0)];
      assert Tables() == AddrOps.SetInfo(s, id, AddrMarks.MarkedGood(s.info[id], time));
      if info[id].inTried { return; }
      ghost var b := AddrMarks.ScanSucceeds(env, Tables(), id, rnd);
      TableShape(env, Tables());
      var bucket := FindBucket(untried, id, rnd % NEW_BUCKET_COUNT);
      if bucket == -1 { assert false; return; }
      MakeTried(id, bucket, tape);
    }

    method Attempt(service: Service, time: int)
      requires Valid()
      modifies this`info
      ensures Tables() == AddrMarks.Attempt(old(Tables()), service, time)
      ensures Valid()
    {
      hide Inv;
      ghost var s := Tables();
      AddrMarks.AttemptKeepsInv(env, s, service, time);
      var found := Find(service.net);
      if found.None? { return; }
      var id := found.value;
      if info[id].address.service != service { return; }
      info := info[id := info[id].(lastTry := time)];
      info := info[id := info[id].(attempts := info[id].attempts + 1)];
      assert info == s.info[id := s.info[id].(lastTry := time, attempts := s.info[id].attempts + 1)];
    }

    method Connected(service: Service, time: int)
      requires Valid()
      modifies this`info
      ensures Tables() == AddrMarks.Connected(old(Tables()), service, time)
      ensures Valid()
    {
      hide Inv;
      AddrMarks.ConnectedKeepsInv(env, Tables(), service, time);
      var found := Find(service.net);
      if found.None? { return; }
      var id := found.value;
      if info[id].address.service != service { return; }
      var interval := 20 * 60;
      if time - info[id].address.time > interval {
        info := info[id := info[id].(address := info[id].address.(time := Trunc32(time)))];
      }
    }

    /** Append a random sample of the known addresses to `sample`. */
    method GetAddr(sample: seq<Address>, tape: seq<nat>) returns (sample': seq<Address>)
      requires Valid()
      modifies this`info, this`random
      ensures RandomOk(old(info), old(random)) && RandomOk(info, random)
      ensures Tables() == AddrMarks.ShuffleFrom(old(Tables()), 0, AddrMarks.SampleSize(old(Tables())), tape)
      ensures AddrMarks.Reordered(old(Tables()), Tables(), 0)
      ensures sample' == sample + AddrMarks.Sampled(Tables(), AddrMarks.SampleSize(Tables()))
      ensures |sample'| - |sample| == if 23 * |old(random)| / 100 < 2500 then 23 * |old(random)| / 100 else 2500
      ensures Valid()
    {
      hide Inv, RandomOk, AddrMarks.Reordered, AddrOps.SwapRandom, AddrMarks.ShuffleFrom, Draw;
      ghost var s := Tables();
      sample' := sample;
      var nodes: int := GETADDR_MAX_PCT * |random| / 100;
      if nodes > GETADDR_MAX { nodes := GETADDR_MAX; }
      ghost var count := AddrMarks.SampleSize(s);
      ghost var end := ShuffleEnd(env, s, count, tape);
      var n := 0;
      while n < nodes
        invariant 0 <= n <= nodes == count <= |random| == |s.random|
        invariant Valid() && RandomOk(info, random)
        invariant AddrMarks.ShuffleFrom(Tables(), n, count, tape) == end
        invariant sample' == sample + AddrMarks.Sampled(end, n)
      {
        var p := Draw(tape, n, |random| - n) + n;
        ghost var before := Tables();
        AddrMarks.RandomFacts(env, before);
        SwapRandom(n, p);
        ShuffleAdvance(env, before, Tables(), end, n, p, count, tape);
        sample' := sample' + [info[random[n]].address];
        n := n + 1;
        assert AddrMarks.Sampled(end, n) == AddrMarks.Sampled(end, n - 1) + [info[random[n - 1]].address];
      }
      ShuffleDone(Tables(), count, tape);
    }

    /** Put a reference to `id` in the new bucket chosen by `source`, making room there first. */
    method PlaceRef(id: Id, source: NetAddr, now: int, tape: seq<nat>)
      requires id in info && InvExcept(env, AddrOps.AddRef(Tables(), id), id)
      modifies this`info, this`random, this`addr, this`nNew, this`untried
      ensures old(InvExcept(env, AddrOps.AddRef(Tables(), id), id))
      ensures Tables() == AddrAdd.Place(env, old(Tables()), id, source, now, tape)
    {
      hide RandomOk, AddrOk, UntriedOk, TriedOk, IdsOk, CountsOk, AddrAdd.Shrink, AddrAdd.Forgets;
      ghost var s := Tables();
      var b := NewBucket(env, key, info[id].Net(), source);
      if id !in untried[b] {
        info := info[id := info[id].(refCount := info[id].refCount + 1)];
        assert Tables() == AddrOps.AddRef(s, id);
        if |untried[b]| == NEW_BUCKET_SIZE {
          ghost var gone := AddrAdd.ShrinkKeepsInv(env, Tables(), b, now, tape, id);
          var r := ShrinkNew(b, now, tape, id);
        }
        untried := untried[b := untried[b] + {id}];
      }
    }

    /** A record for an unknown address, its time set back by the penalty. */
    method Register(a: Address, source: NetAddr, penalty: int) returns (id: Id)
      modifies this`idCount, this`info, this`addr, this`random, this`nNew
      ensures Tables() == AddrOps.Create(old(Tables()), AddrAdd.Penalised(a, penalty), source).(nNew := old(nNew) + 1)
      ensures id == Id(old(idCount)) && id in info
    {
      id := Create(a, source);
      info := info[id := info[id].(address := info[id].address.(time := Trunc32(AddrOps.Max(0, info[id].address.time - penalty))))];
      nNew := nNew + 1;
    }

    /** Add an entry to the new buckets, or refresh the one that is there. */
    method Add(a: Address, source: NetAddr, penalty: int, now: int, coin: nat, tape: seq<nat>) returns (isNew: bool)
      requires Valid()
      modifies this`idCount, this`info, this`random, this`addr, this`nNew, this`untried
      ensures (Tables(), isNew) == AddrAdd.Add(env, old(Tables()), a, source, penalty, now, coin, tape)
      ensures Valid()
    {
      hide Inv, InvExcept, AddrAdd.Place, AddrAdd.Forgets, AddrAdd.Touched, AddrAdd.TakesRef, AddrOps.Create, AddrAdd.Penalised;
      ghost var s := Tables();
      ghost var gone := AddrAdd.AddKeepsInv(env, s, a, source, penalty, now, coin, tape);
      if !env.routable(a.service.net) { return false; }
      isNew := false;
      var found := Find(a.service.net);
      var id;
      if found.Some? {
        id := found.value;
        AddrAdd.TouchKeepsInv(env, s, id, a, penalty, now);
        Refresh(id, a, penalty, now);
        var more := WantsRef(info[id], a, coin);
        if !more { return false; }
        AddrAdd.TakesRefBounds(info[id], a, coin);
        AddrOps.AddRefKeepsInv(env, Tables(), id);
      } else {
        AddrAdd.UnknownAddress(env, s, a.service.net);
        AddrAdd.PenalisedNet(a, penalty);
        AddrOps.CreateKeepsInv(env, s, AddrAdd.Penalised(a, penalty), source);
        id := Register(a, source, penalty);
        isNew := true;
      }
      PlaceRef(id, source, now, tape);
    }

    /** The consistency check. Reading the address index may insert entries in it. */
    method Check() returns (code: int)
      modifies this`addr
      ensures code == 0 <==> AddrCheck.Passes(old(Tables()))
      ensures AddrCheck.Inserted(info, old(addr), addr)
      ensures AddrCheckMeaning.AddressesKnown(old(Tables())) ==> addr == old(addr)
      ensures old(Valid()) && TimesOk(old(Tables())) ==> code == 0
    {
      hide AddrCheck.RecordPasses, AddrCheck.TriedOnce, AddrCheck.RefsExact, Inv;
      ghost var s := Tables();
      AddrCheckMeaning.CheckDecidesInv(env, s);
      if |random| != nTried + nNew { return -7; }
      var triedIds, newRefs;
      code, addr, triedIds, newRefs := AddrCheck.CheckRecords(info, addr, random);
      NothingInserted(s, addr);
      if code != 0 { return; }
      if |triedIds| != nTried { return -9; }
      assert newRefs.Keys == NewIds(info);
      if |newRefs| != nNew { return -10; }
      var triedLeft;
      code, triedLeft := AddrCheck.CheckTried(tried, triedIds);
      if code != 0 { return; }
      PositiveRefs(s);
      var newLeft;
      code, newLeft := AddrCheck.CheckNew(untried, newRefs);
      if code != 0 { return; }
      if triedLeft != {} { return -13; }
      if newLeft != map[] { return -15; }
      return 0;
    }

    /** Update the time and the services of a known entry. */
    method Refresh(id: Id, a: Address, penalty: int, now: int)
      requires id in info
      modifies this`info
      ensures Tables() == AddrOps.SetInfo(old(Tables()), id, AddrAdd.Touched(old(info)[id], a, penalty, now))
    {
      hide Trunc32, AddrOps.Max, AddrAdd.MergeServices;
      var online := now - a.time < 24 * 60 * 60;
      var interval := if online then 60 * 60 else 24 * 60 * 60;
      var address := info[id].address;
      if a.time != 0 && (address.time == 0 || address.time < a.time - interval - penalty) {
        address := address.(time := Trunc32(AddrOps.Max(0, a.time - penalty)));
      }
      address := address.(services := AddrAdd.MergeServices(address.services, a.services));
      assert info[id].(address := address) == AddrAdd.Touched(old(info)[id], a, penalty, now);
      info := info[id := info[id].(address := address)];
    }

    /** Write the manager to a stream. */
    method Serialize() returns (out: seq<Token>)
      ensures Valid() ==> out == Encode(env, Tables())
    {
      hide Inv, NewOrder, TriedOrder, Records, Buckets, AddrWrite.RefsMarkNew, NewIds, TriedIds;
      var ids, newRecords := AddrWrite.WriteNew(info, nNew);
      var triedRecords := AddrWrite.WriteTried(info, nTried);
      var buckets := AddrWrite.WriteBuckets(untried, ids, NewOrder(info));
      out := [TInt(0), TKey(key), TInt(nNew), TInt(nTried), TInt(NEW_BUCKET_COUNT)]
             + newRecords + triedRecords + buckets;
      if Valid() {
        WriterFacts(env, Tables());
        BucketsAreNew(env, Tables());
      }
    }

    /** Read the new records. When `good`, the stream holds the first `count` records of `order`. */
    method ReadNew(stream: seq<Token>, uBuckets: int,
                   ghost good: bool, ghost src: map<Id, Info>, ghost order: seq<Id>, ghost count: nat, ghost tail: seq<Token>)
        returns (ok: bool, rest: seq<Token>)
      requires |untried| == NEW_BUCKET_COUNT
      requires good ==> AddrRead.NetsDistinct(src, order) && count <= |order| && nNew == count
      requires good ==> forall k :: 0 <= k < count ==> !src[order[k]].inTried
      requires good ==> stream == Records(src, order[..count]) + tail && uBuckets == NEW_BUCKET_COUNT
      requires good ==> AddrRead.Loaded(src, order, 0, info, addr, random)
      modifies this`info, this`addr, this`random, this`untried
      ensures |untried| == NEW_BUCKET_COUNT
      ensures good ==> ok && rest == tail && untried == old(untried)
      ensures good ==> AddrRead.Loaded(src, order, count, info, addr, random)
    {
      hide AddrRead.Loaded;
      rest := stream;
      var n := 0;
      while n < nNew
        invariant 0 <= n && (good ==> n <= nNew) && |untried| == NEW_BUCKET_COUNT
        invariant good ==> rest == Records(src, order[..count])[n..] + tail && untried == old(untried)
        invariant good ==> AddrRead.Loaded(src, order, n, info, addr, random)
      {
        if rest == [] || !rest[0].TRecord? { return false, rest; }
        var r := Reload(rest[0].record);
        rest := rest[1..];
        r := r.(randomPos := |random|);
        if good {
          LoadedSize(src, order, n, info, addr, random);
          AddrRead.LoadOne(src, order, n, info, addr, random, r);
        }
        info := info[Id(n) := r];
        addr := addr[r.Net() := Id(n)];
        random := random + [Id(n)];
        if uBuckets != NEW_BUCKET_COUNT {
          var b := NewBucket(env, key, r.Net(), r.source);
          untried := untried[b := untried[b] + {Id(n)}];
          info := info[Id(n) := r.(refCount := r.refCount + 1)];
        }
        n := n + 1;
      }
      ok := true;
    }

    /** Read the tried records; one whose bucket is full is lost. */
    method ReadTried(stream: seq<Token>,
                     ghost good: bool, ghost s: State, ghost order: seq<Id>, ghost first: nat, ghost tail: seq<Token>)
        returns (ok: bool, rest: seq<Token>)
      requires |tried| == TRIED_BUCKET_COUNT
      requires good ==> AddrRead.NetsDistinct(s.info, order) && first <= |order| && nTried == |order| - first
      requires good ==> (forall k :: first <= k < |order| ==> s.info[order[k]].inTried) && Distinct(order)
      requires good ==> stream == Records(s.info, order[first..]) + tail
      requires good ==> AddrRead.Loaded(s.info, order, first, info, addr, random) && idCount == first && key == s.key
      requires good ==> AddrRead.TriedLoaded(s.tried, order, first, tried) && TriedOk(env, s.key, s.info, s.tried)
      requires good ==> forall b :: 0 <= b < |s.tried| ==> |s.tried[b]| <= TRIED_BUCKET_SIZE
      modifies this`info, this`addr, this`random, this`tried, this`idCount, this`nTried
      ensures |tried| == TRIED_BUCKET_COUNT
      ensures good ==> ok && rest == tail && nTried == old(nTried) && idCount == |order|
      ensures good ==> AddrRead.Loaded(s.info, order, |order|, info, addr, random)
      ensures good ==> AddrRead.TriedLoaded(s.tried, order, |order|, tried)
    {
      hide AddrRead.Loaded, AddrRead.TriedLoaded, TriedOk;
      rest := stream;
      var lost := 0;
      var n := 0;
      while n < nTried
        invariant 0 <= n && (good ==> n <= nTried && lost == 0) && nTried == old(nTried) && |tried| == TRIED_BUCKET_COUNT
        invariant good ==> rest == Records(s.info, order[first..])[n..] + tail && idCount == first + n
        invariant good ==> AddrRead.Loaded(s.info, order, first + n, info, addr, random)
        invariant good ==> AddrRead.TriedLoaded(s.tried, order, first + n, tried)
      {
        if rest == [] || !rest[0].TRecord? { return false, rest; }
        var r := Reload(rest[0].record);
        rest := rest[1..];
        var b := TriedBucket(env, key, r.address.service);
        if good {
          TriedStep(env, s, order, first + n, tried, b);
          LoadedSize(s.info, order, first + n, info, addr, random);
          AddrRead.LoadOne(s.info, order, first + n, info, addr, random, r.(randomPos := |random|, inTried := true));
        }
        if |tried[b]| < TRIED_BUCKET_SIZE {
          r := r.(randomPos := |random|);
          r := r.(inTried := true);
          random := random + [Id(idCount)];
          info := info[Id(idCount) := r];
          addr := addr[r.Net() := Id(idCount)];
          tried := tried[b := tried[b] + [Id(idCount)]];
          idCount := idCount + 1;
        } else {
          lost := lost + 1;
        }
        n := n + 1;
      }
      nTried := nTried - lost;
      ok := true;
    }

    /** Read one new bucket, item by item. When `good`, the stream starts with the numbers of its members. */
    method ReadBucket(stream: seq<Token>, uBuckets: int, b: nat, size: int,
                      ghost good: bool, ghost s: State, ghost order: seq<Id>, ghost news: seq<Id>, ghost tail: seq<Token>)
        returns (ok: bool, rest: seq<Token>)
      requires b < |untried| == NEW_BUCKET_COUNT
      requires good ==> |s.untried| == NEW_BUCKET_COUNT == uBuckets && size == |s.untried[b]|
      requires good ==> news <= order && Distinct(order) && forall x :: x in s.untried[b] ==> x in news
      requires good ==> stream == Indices(news, Sorted(s.untried[b])) + tail
      requires good ==> AddrRead.Referenced(s.info, order, info, untried) && RefsWithin(s.untried, order)
      requires good ==> AddrRead.UntriedLoaded(s.untried, order, b, {}, untried)
      modifies this`info, this`untried
      ensures |untried| == NEW_BUCKET_COUNT
      ensures good ==> ok && rest == tail && AddrRead.Referenced(s.info, order, info, untried)
      ensures good ==> AddrRead.UntriedLoaded(s.untried, order, b, s.untried[b], untried)
      ensures forall c :: 0 <= c < |untried| && c != b ==> untried[c] == old(untried)[c]
    {
      hide AddrRead.Referenced, AddrRead.UntriedLoaded, Sorted, Rank, RefsWithin, Members, Indices, Distinct, Increasing;
      rest := stream;
      ghost var members := if good then Sorted(s.untried[b]) else [];
      if good { NoMembers(members); }
      var n := 0;
      while n < size
        invariant 0 <= n && (good ==> n <= size == |members|) && |untried| == NEW_BUCKET_COUNT
        invariant good ==> rest == Indices(news, members)[n..] + tail
        invariant good ==> AddrRead.Referenced(s.info, order, info, untried)
        invariant good ==> AddrRead.UntriedLoaded(s.untried, order, b, Members(members[..n]), untried)
        invariant forall c :: 0 <= c < |untried| && c != b ==> untried[c] == old(untried)[c]
      {
        if good { NextMember(news, order, members, n, tail); }
        if rest == [] || !rest[0].TInt? { return false, rest; }
        var index := rest[0].n;
        rest := rest[1..];
        if good { BucketStep(s, order, b, Members(members[..n]), info, untried, index); }
        if Id(index) !in info { info := info[Id(index) := BLANK]; }
        if uBuckets == NEW_BUCKET_COUNT && info[Id(index)].refCount < NEW_BUCKETS_PER_ADDRESS {
          info := info[Id(index) := info[Id(index)].(refCount := info[Id(index)].refCount + 1)];
          untried := untried[b := untried[b] + {Id(index)}];
        }
        n := n + 1;
      }
      if good { AllMembers(members, s.untried[b]); }
      ok := true;
    }

    /** Read the new buckets. */
    method ReadBuckets(stream: seq<Token>, uBuckets: int,
                       ghost good: bool, ghost s: State, ghost order: seq<Id>, ghost news: seq<Id>)
        returns (ok: bool, rest: seq<Token>)
      requires |untried| == NEW_BUCKET_COUNT
      requires good ==> |s.untried| == NEW_BUCKET_COUNT == uBuckets
      requires good ==> news <= order && Distinct(order) && RefsWithin(s.untried, order)
      requires good ==> forall b, x :: 0 <= b < |s.untried| && x in s.untried[b] ==> x in news
      requires good ==> stream == Buckets(news, s.untried)
      requires good ==> AddrRead.Referenced(s.info, order, info, untried)
      requires good ==> forall b :: 0 <= b < NEW_BUCKET_COUNT ==> untried[b] == {}
      modifies this`info, this`untried
      ensures good ==> ok && rest == []
      ensures good ==> AddrRead.Referenced(s.info, order, info, untried)
      ensures good ==> AddrRead.UntriedLoaded(s.untried, order, |s.untried|, {}, untried)
    {
      hide AddrRead.Referenced, AddrRead.UntriedLoaded, Sorted, RefsWithin, Indices;
      rest := stream;
      if good { NothingReferenced(s.untried, order, untried); }
      var b := 0;
      while b < uBuckets
        invariant 0 <= b && (good ==> b <= uBuckets) && |untried| == NEW_BUCKET_COUNT
        invariant good ==> rest == Buckets(news, s.untried[b..])
        invariant good ==> AddrRead.Referenced(s.info, order, info, untried)
        invariant good ==> AddrRead.UntriedLoaded(s.untried, order, b, {}, untried)
        invariant good ==> forall c :: b <= c < NEW_BUCKET_COUNT ==> untried[c] == {}
      {
        if b >= |untried| || rest == [] || !rest[0].TInt? { return false, rest; }
        var size := rest[0].n;
        rest := rest[1..];
        ghost var tail := if good then Buckets(news, s.untried[b + 1..]) else [];
        if good { BucketsUnfold(news, s.untried, b); }
        ok, rest := ReadBucket(rest, uBuckets, b, size, good, s, order, news, tail);
        if !ok { return; }
        if good { AddrRead.BucketDone(s.untried, order, b, untried); }
        b := b + 1;
      }
      ok := true;
    }

    /** Replace the manager by the one read from a stream. For a stream written by a consistent manager `s`
        reading succeeds, nothing is lost, and the result is `s` up to renaming. */
    method Unserialize(stream: seq<Token>, ghost s: State) returns (ok: bool)
      modifies this
      ensures Inv(env, s) && stream == Encode(env, s) ==> ok && Restored(s, Tables()) && Valid()
    {
      hide Inv, Restored, NewOrder, TriedOrder, Order, Records, Buckets, RefsWithin, TriedOk;
      hide AddrRead.Loaded, AddrRead.TriedLoaded, AddrRead.UntriedLoaded, AddrRead.Referenced, AddrRead.NetsDistinct;
      ghost var good := Inv(env, s) && stream == Encode(env, s);
      ghost var order := Order(s.info);
      ghost var news := NewOrder(s.info);
      ghost var triedPart, bucketPart := [], [];
      if good { triedPart, bucketPart := StreamParts(env, s, stream); }
      if |stream| < 5 || !stream[0].TInt? || !stream[1].TKey? || !stream[2].TInt? || !stream[3].TInt? || !stream[4].TInt? {
        return false;
      }
      key, nNew, nTried := stream[1].key, stream[2].n, stream[3].n;
      var uBuckets := stream[4].n;
      var rest := stream[5..];
      idCount, info, addr, random := 0, map[], map[], [];
      tried := seq(TRIED_BUCKET_COUNT, _ => []);
      untried := seq(NEW_BUCKET_COUNT, _ => {});
      if good { ReaderStart(env, s, tried); }
      ok, rest := ReadNew(rest, uBuckets, good, s.info, order, |news|, triedPart);
      if !ok { return; }
      idCount := nNew;
      ok, rest := ReadTried(rest, good, s, order, |news|, bucketPart);
      if !ok { return; }
      if good { ReaderMiddle(s.info, order, info, addr, random, untried); }
      ghost var addr1, random1, tried1 := addr, random, tried;
      ghost var info1 := info;
      ok, rest := ReadBuckets(rest, uBuckets, good, s, order, news);
      if good {
        ReaderEnd(env, s, Tables(), info1);
        RestoredInv(env, s, Tables());
      }
    }
  }

  /** Write one manager and read it into another. */
  method Copy(from: Manager, to: Manager) returns (ok: bool)
    requires from != to && from.env == to.env && from.Valid()
    modifies to
    ensures ok && to.Valid() && Restored(from.Tables(), to.Tables())
    ensures |to.random| == |from.random| && to.nTried == from.nTried && to.nNew == from.nNew
  {
    hide Inv;
    var stream := from.Serialize();
    ok := to.Unserialize(stream, from.Tables());
    RestoredInv(from.env, from.Tables(), to.Tables());
  }

  /** A stream of a header, the records of the new and of the tried entries, and the buckets. */
  ghost predicate Parted(s: State, order: seq<Id>, news: seq<Id>, stream: seq<Token>, triedPart: seq<Token>, bucketPart: seq<Token>) {
    && |stream| >= 5 && stream[0].TInt? && stream[1] == TKey(s.key) && stream[2] == TInt(s.nNew) && stream[3] == TInt(s.nTried)
    && stream[4] == TInt(NEW_BUCKET_COUNT)
    && AddrRead.NetsDistinct(s.info, order) && |news| <= |order|
    && s.nNew == |news| && s.nTried == |order| - |news|
    && stream[5..] == Records(s.info, order[..|news|]) + triedPart
    && triedPart == Records(s.info, order[|news|..]) + bucketPart
    && (forall b, x :: 0 <= b < |s.untried| && x in s.untried[b] ==> x in news)
    && bucketPart == Buckets(news, s.untried)
  }

  lemma StreamParts(env: Env, s: State, stream: seq<Token>) returns (triedPart: seq<Token>, bucketPart: seq<Token>)
    requires Inv(env, s) && stream == Encode(env, s)
    ensures Parted(s, Order(s.info), NewOrder(s.info), stream, triedPart, bucketPart)
  {
    hide NewOrder, TriedOrder, Order, Records, Buckets, RandomOk, AddrOk, UntriedOk, TriedOk;
    AddrRead.OrderNetsDistinct(env, s);
    AddrRead.OrderSplit(s.info);
    OrderFacts(s.info);
    BucketsAreNew(env, s);
    bucketPart := Buckets(NewOrder(s.info), s.untried);
    triedPart := Records(s.info, TriedOrder(s.info)) + bucketPart;
    var header := [TInt(0), TKey(s.key), TInt(s.nNew), TInt(s.nTried), TInt(NEW_BUCKET_COUNT)];
    assert stream == header + (Records(s.info, NewOrder(s.info)) + triedPart);
  }

  lemma ReaderStart(env: Env, s: State, tried': seq<seq<Id>>)
    requires Inv(env, s)
    requires |tried'| == TRIED_BUCKET_COUNT && forall b :: 0 <= b < |tried'| ==> tried'[b] == []
    ensures var order := Order(s.info); var first := |NewOrder(s.info)|;
      && AddrRead.Loaded(s.info, order, 0, map[], map[], [])
      && AddrRead.TriedLoaded(s.tried, order, first, tried')
      && Distinct(order) && first <= |order|
      && NewOrder(s.info) <= order
      && (forall k :: 0 <= k < |order| ==> order[k] in s.info && (s.info[order[k]].inTried <==> k >= first))
      && RefsWithin(s.untried, order)
    ensures TriedOk(env, s.key, s.info, s.tried) && |s.untried| == NEW_BUCKET_COUNT
    ensures forall b :: 0 <= b < |s.tried| ==> |s.tried[b]| <= TRIED_BUCKET_SIZE
  {
    hide NewOrder, TriedOrder, Order, RandomOk, AddrOk, TriedOk;
    AddrRead.NewSkipped(env, s, tried');
    OrderIsBijective(s.info);
    AddrRead.OrderSplit(s.info);
  }

  lemma ReaderMiddle(info: map<Id, Info>, order: seq<Id>, info': map<Id, Info>, addr': map<NetAddr, Id>, random': seq<Id>,
                     untried': seq<set<Id>>)
    requires AddrRead.Loaded(info, order, |order|, info', addr', random')
    requires forall b :: 0 <= b < |untried'| ==> untried'[b] == {}
    ensures AddrRead.Referenced(info, order, info', untried')
  {
    forall x ensures Refs(untried', x) == 0 {
      RefsPositive(untried', x);
    }
  }

  lemma ReaderEnd(env: Env, s: State, s': State, info1: map<Id, Info>)
    requires Inv(env, s)
    requires s'.key == s.key && s'.nNew == s.nNew && s'.nTried == s.nTried && s'.idCount == |Order(s.info)|
    requires AddrRead.Loaded(s.info, Order(s.info), |Order(s.info)|, info1, s'.addr, s'.random)
    requires AddrRead.TriedLoaded(s.tried, Order(s.info), |Order(s.info)|, s'.tried)
    requires AddrRead.Referenced(s.info, Order(s.info), s'.info, s'.untried)
    requires AddrRead.UntriedLoaded(s.untried, Order(s.info), |s.untried|, {}, s'.untried)
    ensures Restored(s, s')
  {
    hide Inv, NewOrder, TriedOrder, Order, AddrRestored, TriedRestored, UntriedRestored, RecordsRestored;
    hide AddrRead.Loaded, AddrRead.TriedLoaded, AddrRead.UntriedLoaded, AddrRead.Referenced;
    var order := Order(s.info);
    OrderIsBijective(s.info);
    UntriedEnd(s.untried, order, s'.untried);
    RecordsEnd(env, s, order, s'.info, s'.untried);
    LoadedEnd(s.info, order, info1, s'.addr, s'.random);
    TriedEnd(env, s, order);
    AddrRead.TriedAllLoaded(s.tried, order, s'.tried);
  }

  lemma UntriedEnd(untried: seq<set<Id>>, order: seq<Id>, untried': seq<set<Id>>)
    requires AddrRead.UntriedLoaded(untried, order, |untried|, {}, untried')
    ensures UntriedRestored(untried, order, untried')
  {
  }

  lemma RecordsEnd(env: Env, s: State, order: seq<Id>, info': map<Id, Info>, untried': seq<set<Id>>)
    requires Inv(env, s) && AddrRead.Referenced(s.info, order, info', untried') && UntriedRestored(s.untried, order, untried')
    ensures RecordsRestored(s.info, order, info')
  {
    hide Inv, UntriedRestored;
    forall k | 0 <= k < |order| ensures info'[Id(k)] == s.info[order[k]].(lastTry := 0, randomPos := k) {
      RestoredRefs(s.untried, order, untried', k);
      RefCountExact(env, s, order[k]);
    }
  }

  lemma LoadedEnd(info: map<Id, Info>, order: seq<Id>, info': map<Id, Info>, addr': map<NetAddr, Id>, random': seq<Id>)
    requires AddrRead.Loaded(info, order, |order|, info', addr', random')
    ensures AddrRestored(info, order, addr') && |random'| == |order|
    ensures forall k :: 0 <= k < |order| ==> random'[k] == Id(k)
  {
    assert order[..|order|] == order;
  }

  lemma TriedEnd(env: Env, s: State, order: seq<Id>)
    requires Inv(env, s) && forall x :: x in order <==> x in s.info
    ensures forall b :: 0 <= b < |s.tried| ==> Distinct(s.tried[b])
    ensures forall b, x :: 0 <= b < |s.tried| && x in s.tried[b] ==> x in order
  {
    hide RandomOk, AddrOk, UntriedOk, SizesOk, CountsOk;
  }

  lemma BucketsUnfold(news: seq<Id>, untried: seq<set<Id>>, b: nat)
    requires b < |untried| && forall c, x :: 0 <= c < |untried| && x in untried[c] ==> x in news
    ensures Buckets(news, untried[b..])
         == [TInt(|untried[b]|)] + (Indices(news, Sorted(untried[b])) + Buckets(news, untried[b + 1..]))
  {
    assert untried[b..][1..] == untried[b + 1..];
    assert untried[b..][0] == untried[b];
  }

  lemma NothingReferenced(untried: seq<set<Id>>, order: seq<Id>, untried': seq<set<Id>>)
    requires |untried'| == |untried| == NEW_BUCKET_COUNT && forall b :: 0 <= b < NEW_BUCKET_COUNT ==> untried'[b] == {}
    ensures AddrRead.UntriedLoaded(untried, order, 0, {}, untried')
  {
  }

  /** No record has more than four references. */
  ghost predicate RefsWithin(untried: seq<set<Id>>, order: seq<Id>) {
    forall k :: 0 <= k < |order| ==> Refs(untried, order[k]) <= NEW_BUCKETS_PER_ADDRESS
  }

  ghost function Members(ids: seq<Id>): set<Id> { set x | x in ids }

  lemma NoMembers(ids: seq<Id>)
    ensures Members(ids[..0]) == {}
  {
  }

  lemma AllMembers(ids: seq<Id>, bucket: set<Id>)
    requires forall x :: x in ids <==> x in bucket
    ensures Members(ids[..|ids|]) == bucket
  {
    assert ids[..|ids|] == ids;
  }

  /** The next number in the stream is that of the next member, which was not read before. */
  lemma NextMember(news: seq<Id>, order: seq<Id>, ids: seq<Id>, n: nat, tail: seq<Token>)
    requires (forall x :: x in ids ==> x in news) && Increasing(ids) && n < |ids| && news <= order
    ensures var rest := Indices(news, ids)[n..] + tail;
      && |Indices(news, ids)| == |ids| && ids[n] in news
      && rest[0] == TInt(Rank(news, ids[n])) && rest[1..] == Indices(news, ids)[n + 1..] + tail
      && Rank(news, ids[n]) < |order| && order[Rank(news, ids[n])] == ids[n]
    ensures ids[n] in ids && ids[n] !in Members(ids[..n])
    ensures Members(ids[..n + 1]) == Members(ids[..n]) + {ids[n]}
  {
    hide Rank;
  }

  lemma BucketStep(s: State, order: seq<Id>, b: nat, part: set<Id>, info': map<Id, Info>, untried': seq<set<Id>>, k: int)
    requires Distinct(order) && 0 <= k < |order| && b < |s.untried|
    requires AddrRead.Referenced(s.info, order, info', untried') && AddrRead.UntriedLoaded(s.untried, order, b, part, untried')
    requires RefsWithin(s.untried, order)
    requires order[k] in s.untried[b] && order[k] !in part
    ensures Id(k) in info' && info'[Id(k)].refCount < NEW_BUCKETS_PER_ADDRESS && b < |untried'|
    ensures var r := info'[Id(k)].(refCount := info'[Id(k)].refCount + 1);
      var untried1 := untried'[b := untried'[b] + {Id(k)}];
      && AddrRead.Referenced(s.info, order, info'[Id(k) := r], untried1)
      && AddrRead.UntriedLoaded(s.untried, order, b, part + {order[k]}, untried1)
  {
    AddrRead.RefsSoFar(s.untried, order, b, part, untried', k);
    AddrRead.ReferOne(s.info, order, s.untried, b, part, info', untried', k);
  }

  /** The next tried record has room in its bucket. */
  lemma TriedStep(env: Env, s: State, order: seq<Id>, k: nat, tried': seq<seq<Id>>, b: nat)
    requires TriedOk(env, s.key, s.info, s.tried) && Distinct(order) && k < |order|
    requires order[k] in s.info && s.info[order[k]].inTried && b == TriedBucket(env, s.key, s.info[order[k]].address.service)
    requires AddrRead.TriedLoaded(s.tried, order, k, tried')
    requires forall c :: 0 <= c < |s.tried| ==> |s.tried[c]| <= TRIED_BUCKET_SIZE
    ensures |tried'| == TRIED_BUCKET_COUNT && |tried'[b]| < TRIED_BUCKET_SIZE
    ensures AddrRead.TriedLoaded(s.tried, order, k + 1, tried'[b := tried'[b] + [Id(k)]])
  {
    AddrRead.TriedHasRoom(s.tried, order, k, tried', b);
    AddrRead.TriedOne(s.tried, order, k, tried', b);
  }

  lemma LoadedSize(info: map<Id, Info>, order: seq<Id>, k: nat, info': map<Id, Info>, addr': map<NetAddr, Id>, random': seq<Id>)
    requires AddrRead.Loaded(info, order, k, info', addr', random')
    ensures |random'| == k <= |order|
  {
  }

  lemma WriterFacts(env: Env, s: State)
    requires Inv(env, s)
    ensures AddrWrite.RefsMarkNew(s.info) && s.nNew == |NewIds(s.info)| && s.nTried == |TriedIds(s.info)|
  {
  }

  lemma ShuffleEnd(env: Env, s: State, count: nat, tape: seq<nat>) returns (end: State)
    requires Inv(env, s) && count <= |s.random|
    ensures RandomOk(s.info, s.random)
    ensures end == AddrMarks.ShuffleFrom(s, 0, count, tape)
    ensures Inv(env, end) && |end.random| == |s.random| && AddrMarks.Reordered(s, end, 0)
    ensures forall i :: 0 <= i < |end.random| ==> end.random[i] in end.info
  {
    hide Inv, RandomOk, AddrMarks.ShuffleFrom;
    AddrMarks.RandomFacts(env, s);
    end := AddrMarks.ShuffleFrom(s, 0, count, tape);
    AddrMarks.ShuffleEffect(env, s, 0, count, tape);
    AddrMarks.RandomFacts(env, end);
  }

  lemma ShuffleDone(s: State, count: nat, tape: seq<nat>)
    requires RandomOk(s.info, s.random) && count <= |s.random|
    ensures AddrMarks.ShuffleFrom(s, count, count, tape) == s
  {
  }

  /** One step of the sampling loop: the entry now at position `n` is there to stay. */
  lemma ShuffleAdvance(env: Env, s: State, s1: State, end: State, n: nat, p: nat, count: nat, tape: seq<nat>)
    requires Inv(env, s) && RandomOk(s.info, s.random) && n < count <= |s.random|
    requires p == Draw(tape, n, |s.random| - n) + n
    requires s1 == AddrOps.SwapRandom(s, n, p)
    requires end == AddrMarks.ShuffleFrom(s, n, count, tape)
    ensures Inv(env, s1) && RandomOk(s1.info, s1.random) && |s1.random| == |s.random|
    ensures end == AddrMarks.ShuffleFrom(s1, n + 1, count, tape)
    ensures s1.random[n] in s1.info && |end.random| == |s.random| && end.random[n] in end.info
    ensures end.info[end.random[n]].address == s1.info[s1.random[n]].address
  {
    hide Inv, RandomOk, AddrMarks.ShuffleFrom, AddrMarks.Reordered, AddrOps.SwapRandom, Draw;
    AddrMarks.SwapReorders(env, s, n, p);
    AddrMarks.ShuffleUnfold(s, n, count, tape);
    AddrMarks.RandomFacts(env, s1);
    AddrMarks.ShuffleEffect(env, s1, n + 1, count, tape);
    ReorderedAt(s1, end, n + 1, n);
  }

  lemma PositiveRefs(s: State)
    requires forall id :: id in s.info ==> AddrCheck.RecordPasses(s.info, s.addr, s.random, id)
    ensures forall x :: x in AddrCheck.NewRefs(s.info) ==> AddrCheck.NewRefs(s.info)[x] > 0
  {
    forall x | x in AddrCheck.NewRefs(s.info) ensures AddrCheck.NewRefs(s.info)[x] > 0 {
      assert AddrCheck.RecordPasses(s.info, s.addr, s.random, x);
    }
  }

  lemma NothingInserted(s: State, addr': map<NetAddr, Id>)
    requires AddrCheck.Inserted(s.info, s.addr, addr')
    ensures AddrCheckMeaning.AddressesKnown(s) ==> addr' == s.addr
  {
    if AddrCheckMeaning.AddressesKnown(s) {
      forall net ensures net in addr' <==> net in s.addr {
        assert AddrCheck.Lookup(addr', net) == AddrCheck.Lookup(s.addr, net);
      }
      forall net | net in s.addr ensures addr'[net] == s.addr[net] {
        assert AddrCheck.Lookup(addr', net) == AddrCheck.Lookup(s.addr, net);
      }
    }
  }

  lemma TableShape(env: Env, s: State)
    requires Inv(env, s)
    ensures |s.tried| == TRIED_BUCKET_COUNT && |s.untried| == NEW_BUCKET_COUNT
  {
  }

  lemma ReorderedAt(s: State, s': State, n: nat, i: nat)
    requires AddrMarks.Reordered(s, s', n) && i < n && i < |s.random| && s.random[i] in s.info
    ensures |s'.random| == |s.random| && s'.random[i] == s.random[i]
    ensures s.random[i] in s'.info && s'.info[s.random[i]].address == s.info[s.random[i]].address
  {
  }

  lemma Rewritten(info: map<Id, Info>, id: Id, victim: Id)
    requires id in info && victim in info && id != victim
    ensures var info1 := info[id := info[id].(refCount := 0)];
      info1[victim := info1[victim].(inTried := false, refCount := 1)][id := info1[id].(inTried := true)]
      == info[victim := info[victim].(inTried := false, refCount := 1)][id := info[id].(refCount := 0, inTried := true)]
  {
  }

  /** What the promotion relies on. */
  lemma PromotionFacts(env: Env, s: State, id: Id, origin: nat, tape: seq<nat>)
    requires Inv(env, s) && origin < NEW_BUCKET_COUNT && id in s.untried[origin]
    ensures id in s.info && !s.info[id].inTried && |s.tried| == TRIED_BUCKET_COUNT && |s.untried| == NEW_BUCKET_COUNT
    ensures Inv(env, AddrPromote.MakeTried(env, s, id, origin, tape))
    ensures var v := s.tried[AddrPromote.Home(env, s, id)];
      && (forall x :: x in v ==> x in s.info && x != id)
      && var sel := AddrPromote.SelectTried(v, s.info, tape);
        && |sel.bucket| == |v|
        && (|v| > 0 ==> 0 <= sel.pos < |v| && sel.bucket[sel.pos] in v)
  {
    hide RandomOk, AddrOk, IdsOk, CountsOk, AddrPromote.SelectFrom;
    AddrPromote.MakeTriedKeepsInv(env, s, id, origin, tape);
    var v := s.tried[AddrPromote.Home(env, s, id)];
    AddrPromote.BucketKnown(env, s, AddrPromote.Home(env, s, id));
    AddrPromote.SelectFromPermutes(v, s.info, tape, 0, NOBODY, -1);
    var sel := AddrPromote.SelectTried(v, s.info, tape);
    if |v| > 0 { AddrPromote.PermutedEntry(v, sel.bucket, sel.pos); }
  }
}
