/** The consistency check, and what passing it means. */
module AddrCheck {
  import opened AddrTypes
  import opened AddrState
  import opened Ids

  /** Reading a map that inserts identifier 0 for a missing key. */
  function Lookup(addr: map<NetAddr, Id>, net: NetAddr): Id {
    if net in addr then addr[net] else Id(0)
  }

  /** The tests made on each record in turn. */
  predicate RecordPasses(info: map<Id, Info>, addr: map<NetAddr, Id>, random: seq<Id>, id: Id)
    requires id in info
  {
    var r := info[id];
    && (if r.inTried then r.lastSuccess != 0 && r.refCount == 0 else 1 <= r.refCount <= NEW_BUCKETS_PER_ADDRESS)
    && Lookup(addr, r.Net()) == id
    && 0 <= r.randomPos < |random| && random[r.randomPos] == id
    && r.lastTry >= 0
    && r.lastSuccess >= 0
  }

  function Flat(tried: seq<seq<Id>>): seq<Id> {
    if tried == [] then [] else Flat(tried[..|tried| - 1]) + tried[|tried| - 1]
  }

  /** Each tried record occurs exactly once in the tried buckets, and nothing else does. */
  ghost predicate TriedOnce(tried: seq<seq<Id>>, ids: set<Id>) {
    Distinct(Flat(tried)) && forall x :: x in Flat(tried) <==> x in ids
  }

  /** Each new record occurs in as many new buckets as it has references, and nothing else occurs there. */
  ghost predicate RefsExact(untried: seq<set<Id>>, refs: map<Id, int>) {
    && (forall b, x :: 0 <= b < |untried| && x in untried[b] ==> x in refs)
    && (forall x :: x in refs ==> refs[x] == Refs(untried, x))
  }

  ghost function NewRefs(info: map<Id, Info>): map<Id, int> {
    map id | id in info && !info[id].inTried :: info[id].refCount
  }

  /** What the check tests. */
  ghost predicate Passes(s: State) {
    && |s.random| == s.nTried + s.nNew
    && (forall id :: id in s.info ==> RecordPasses(s.info, s.addr, s.random, id))
    && CountsOk(s.info, s.nNew, s.nTried)
    && TriedOnce(s.tried, TriedIds(s.info))
    && RefsExact(s.untried, NewRefs(s.info))
  }

  // ---- the three passes of the check ----

  /** Reading never removes or changes an entry; it may insert identifier 0 for a stored address. */
  ghost predicate Inserted(info: map<Id, Info>, addr: map<NetAddr, Id>, addr': map<NetAddr, Id>) {
    && (forall net :: Lookup(addr', net) == Lookup(addr, net))
    && (forall net :: net in addr ==> net in addr')
    && (forall net :: net in addr' && net !in addr ==> exists id :: id in info && info[id].Net() == net)
  }

  lemma InsertOne(info: map<Id, Info>, addr: map<NetAddr, Id>, addr': map<NetAddr, Id>, id: Id)
    requires Inserted(info, addr, addr') && id in info && info[id].Net() !in addr'
    ensures Inserted(info, addr, addr'[info[id].Net() := Id(0)])
  {
  }

  /** The tried identifiers and the reference counts of the new ones, among those seen. */
  ghost predicate Collected(info: map<Id, Info>, seen: set<Id>, triedIds: set<Id>, newRefs: map<Id, int>) {
    && (forall x :: x in seen ==> x in info)
    && (forall x :: x in triedIds <==> x in seen && x in info && info[x].inTried)
    && (forall x :: x in newRefs <==> x in seen && x in info && !info[x].inTried)
    && (forall x :: x in newRefs && x in info ==> newRefs[x] == info[x].refCount)
  }

  lemma CollectOne(info: map<Id, Info>, seen: set<Id>, triedIds: set<Id>, newRefs: map<Id, int>, id: Id)
    requires Collected(info, seen, triedIds, newRefs) && id in info
    ensures Collected(info, seen + {id}, if info[id].inTried then triedIds + {id} else triedIds,
                      if info[id].inTried then newRefs else newRefs[id := info[id].refCount])
  {
  }

  lemma CollectedAll(info: map<Id, Info>, order: seq<Id>, seen: set<Id>, triedIds: set<Id>, newRefs: map<Id, int>)
    requires Collected(info, seen, triedIds, newRefs)
    requires forall x :: x in info ==> x in order
    requires forall j :: 0 <= j < |order| ==> order[j] in seen
    ensures triedIds == TriedIds(info) && newRefs == NewRefs(info)
    ensures forall x :: x in info ==> x in seen
  {
    forall x | x in info ensures x in seen {
      assert x in order;
    }
  }

  /** The records: collect the tried identifiers and the reference counts of the new ones. */
  method CheckRecords(info: map<Id, Info>, addr: map<NetAddr, Id>, random: seq<Id>)
      returns (code: int, addr': map<NetAddr, Id>, triedIds: set<Id>, newRefs: map<Id, int>)
    ensures code == 0 <==> forall id :: id in info ==> RecordPasses(info, addr, random, id)
    ensures code == 0 ==> triedIds == TriedIds(info) && newRefs == NewRefs(info)
    ensures code == 0 ==> forall id :: id in info ==> info[id].Net() in addr'
    ensures Inserted(info, addr, addr')
  {
    hide Sorted, RecordPasses, StatsPass, IndexPasses, Inserted, Collected;
    var order := Sorted(info.Keys);
    code, addr', triedIds, newRefs := 0, addr, {}, map[];
    ghost var seen: set<Id> := {};
    Started(info, addr);
    var i := 0;
    while i < |order|
      invariant 0 <= i <= |order| && code == 0
      invariant forall j :: 0 <= j < i ==> order[j] in seen
      invariant forall x :: x in seen ==> x in info && RecordPasses(info, addr, random, x) && info[x].Net() in addr'
      invariant Collected(info, seen, triedIds, newRefs)
      invariant Inserted(info, addr, addr')
    {
      var id := order[i];
      assert id in order;
      PassesSplit(info, addr, random, id);
      code := CheckStats(info[id]);
      if code != 0 { return; }
      CollectOne(info, seen, triedIds, newRefs, id);
      if info[id].inTried {
        triedIds := triedIds + {id};
      } else {
        newRefs := newRefs[id := info[id].refCount];
      }
      if info[id].Net() !in addr' {
        InsertOne(info, addr, addr', id);
        addr' := addr'[info[id].Net() := Id(0)];
      }
      InsertedAt(info, addr, addr', info[id].Net());
      code := CheckIndex(info[id], addr'[info[id].Net()], random, id);
      if code != 0 { return; }
      seen := seen + {id};
      i := i + 1;
    }
    CollectedAll(info, order, seen, triedIds, newRefs);
  }

  predicate StatsPass(r: Info) {
    if r.inTried then r.lastSuccess != 0 && r.refCount == 0 else 1 <= r.refCount <= NEW_BUCKETS_PER_ADDRESS
  }

  predicate IndexPasses(r: Info, known: Id, random: seq<Id>, id: Id) {
    && known == id
    && 0 <= r.randomPos < |random| && random[r.randomPos] == id
    && r.lastTry >= 0
    && r.lastSuccess >= 0
  }

  lemma PassesSplit(info: map<Id, Info>, addr: map<NetAddr, Id>, random: seq<Id>, id: Id)
    requires id in info
    ensures RecordPasses(info, addr, random, id)
       <==> StatsPass(info[id]) && IndexPasses(info[id], Lookup(addr, info[id].Net()), random, id)
  {
  }

  lemma Started(info: map<Id, Info>, addr: map<NetAddr, Id>)
    ensures Inserted(info, addr, addr) && Collected(info, {}, {}, map[])
  {
  }

  lemma InsertedAt(info: map<Id, Info>, addr: map<NetAddr, Id>, addr': map<NetAddr, Id>, net: NetAddr)
    requires Inserted(info, addr, addr') && net in addr'
    ensures addr'[net] == Lookup(addr, net)
  {
    assert Lookup(addr', net) == Lookup(addr, net);
  }

  method CheckStats(r: Info) returns (code: int)
    ensures code == 0 <==> StatsPass(r)
  {
    if r.inTried {
      if r.lastSuccess == 0 { return -1; }
      if r.refCount != 0 { return -2; }
    } else {
      if r.refCount < 0 || r.refCount > NEW_BUCKETS_PER_ADDRESS { return -3; }
      if r.refCount == 0 { return -4; }
    }
    return 0;
  }

  method CheckIndex(r: Info, known: Id, random: seq<Id>, id: Id) returns (code: int)
    ensures code == 0 <==> IndexPasses(r, known, random, id)
  {
    if known != id { return -5; }
    if r.randomPos < 0 || r.randomPos >= |random| || random[r.randomPos] != id { return -14; }
    if r.lastTry < 0 { return -6; }
    if r.lastSuccess < 0 { return -8; }
    return 0;
  }

  /** The tried buckets: strike each entry off the tried identifiers. */
  method CheckTried(tried: seq<seq<Id>>, ids: set<Id>) returns (code: int, left: set<Id>)
    ensures code == 0 && left == {} <==> TriedOnce(tried, ids)
  {
    left := ids;
    code := 0;
    ghost var seen: seq<Id> := [];
    var n := 0;
    while n < |tried|
      invariant 0 <= n <= |tried| && seen == Flat(tried[..n])
      invariant Struck(seen, ids, left)
    {
      var i := 0;
      while i < |tried[n]|
        invariant 0 <= i <= |tried[n]| && seen == Flat(tried[..n]) + tried[n][..i]
        invariant Struck(seen, ids, left)
      {
        var id := tried[n][i];
        if id !in left {
          FlatSplit(tried, n, i);
          Unstruck(Flat(tried), seen, ids, left, id);
          code := -11;
          return;
        }
        StrikeOne(seen, ids, left, id);
        left := left - {id};
        seen := seen + [id];
        i := i + 1;
      }
      assert tried[..n + 1][..n] == tried[..n];
      n := n + 1;
    }
    assert tried[..n] == tried;
    AllStruck(seen, ids, left);
  }

  /** The entries seen so far are distinct, belong to `ids`, and have been struck off. */
  ghost predicate Struck(seen: seq<Id>, ids: set<Id>, left: set<Id>) {
    && Distinct(seen)
    && (forall x :: x in seen ==> x in ids)
    && (forall x :: x in left <==> x in ids && x !in seen)
  }

  lemma StrikeOne(seen: seq<Id>, ids: set<Id>, left: set<Id>, id: Id)
    requires Struck(seen, ids, left) && id in left
    ensures Struck(seen + [id], ids, left - {id})
  {
  }

  lemma Unstruck(all: seq<Id>, seen: seq<Id>, ids: set<Id>, left: set<Id>, id: Id)
    requires Struck(seen, ids, left) && id !in left
    requires seen + [id] <= all
    ensures !(Distinct(all) && forall x :: x in all <==> x in ids)
  {
    assert all[|seen|] == id;
    if id in ids {
      var i :| 0 <= i < |seen| && seen[i] == id;
      assert all[i] == all[|seen|];
    } else {
      assert id in all;
    }
  }

  lemma AllStruck(seen: seq<Id>, ids: set<Id>, left: set<Id>)
    requires Struck(seen, ids, left)
    ensures left == {} <==> (Distinct(seen) && forall x :: x in seen <==> x in ids)
  {
    if left != {} {
      var x :| x in left;
    }
  }

  lemma {:induction false} FlatSplit(tried: seq<seq<Id>>, n: nat, i: nat)
    requires n < |tried| && i < |tried[n]|
    ensures Flat(tried[..n]) + tried[n][..i] + [tried[n][i]] <= Flat(tried)
    decreases |tried|
  {
    var m := |tried| - 1;
    if n < m {
      assert tried[..m][..n] == tried[..n];
      FlatSplit(tried[..m], n, i);
    } else {
      assert tried[n] == tried[n][..i] + [tried[n][i]] + tried[n][i + 1..];
      assert Flat(tried) == Flat(tried[..n]) + tried[n];
    }
  }

  // ---- the new buckets ----

  /** Occurrences met so far: all of the first `n` buckets, and the entries `part` of the next one. */
  ghost function Met(untried: seq<set<Id>>, n: nat, part: set<Id>, x: Id): nat
    requires n <= |untried|
  {
    Refs(untried[..n], x) + (if x in part then 1 else 0)
  }

  /** `left` holds what remains of each reference count. */
  ghost predicate Counted(untried: seq<set<Id>>, refs: map<Id, int>, n: nat, part: set<Id>, left: map<Id, int>)
    requires n <= |untried|
  {
    && (forall x :: Met(untried, n, part, x) > 0 ==> x in refs)
    && (forall x :: x in refs ==> Met(untried, n, part, x) <= refs[x])
    && (forall x :: x in left <==> x in refs && Met(untried, n, part, x) < refs[x])
    && (forall x :: x in left && x in refs ==> left[x] == refs[x] - Met(untried, n, part, x))
  }

  /** The new buckets: count each occurrence against the references of its record. */
  method CheckNew(untried: seq<set<Id>>, refs: map<Id, int>) returns (code: int, left: map<Id, int>)
    requires forall x :: x in refs ==> refs[x] > 0
    ensures code == 0 && left == map[] <==> RefsExact(untried, refs)
  {
    hide Counted, RefsExact, Sorted;
    left := refs;
    code := 0;
    CountStart(untried, refs);
    var n := 0;
    while n < |untried|
      invariant 0 <= n <= |untried|
      invariant Counted(untried, refs, n, {}, left)
    {
      var order := Sorted(untried[n]);
      ghost var part: set<Id> := {};
      var i := 0;
      while i < |order|
        invariant 0 <= i <= |order|
        invariant forall x :: x in part <==> exists j :: 0 <= j < i && order[j] == x
        invariant Counted(untried, refs, n, part, left)
      {
        var id := order[i];
        assert id in order;
        assert id !in part;
        CountOne(untried, refs, n, part, left, id);
        if id !in left {
          code := -12;
          return;
        }
        left := left[id := left[id] - 1];
        if left[id] == 0 {
          left := left - {id};
        }
        part := part + {id};
        i := i + 1;
      }
      assert part == untried[n] by {
        forall x ensures x in part <==> x in untried[n] {
          assert x in untried[n] <==> x in order;
        }
      }
      CountBucket(untried, refs, n, left);
      n := n + 1;
    }
    CountEnd(untried, refs, left);
  }

  lemma CountStart(untried: seq<set<Id>>, refs: map<Id, int>)
    requires forall x :: x in refs ==> refs[x] > 0
    ensures Counted(untried, refs, 0, {}, refs)
  {
  }

  /** Counting one more occurrence, or finding one too many. */
  lemma CountOne(untried: seq<set<Id>>, refs: map<Id, int>, n: nat, part: set<Id>, left: map<Id, int>, id: Id)
    requires n < |untried| && Counted(untried, refs, n, part, left)
    requires id in untried[n] && id !in part
    ensures id !in left ==> !RefsExact(untried, refs)
    ensures id in left ==>
      var left1 := left[id := left[id] - 1];
      Counted(untried, refs, n, part + {id}, if left1[id] == 0 then left1 - {id} else left1)
  {
    if id !in left {
      MetBelow(untried, n, id);
    }
  }

  lemma MetBelow(untried: seq<set<Id>>, n: nat, id: Id)
    requires n < |untried| && id in untried[n]
    ensures Refs(untried[..n], id) + 1 <= Refs(untried, id)
  {
    assert untried[..n + 1][..n] == untried[..n];
    RefsPrefix(untried, n + 1, id);
  }

  lemma {:induction false} RefsPrefix(untried: seq<set<Id>>, n: nat, id: Id)
    requires n <= |untried|
    ensures Refs(untried[..n], id) <= Refs(untried, id)
    decreases |untried|
  {
    if n < |untried| {
      var m := |untried| - 1;
      assert untried[..m][..n] == untried[..n];
      RefsPrefix(untried[..m], n, id);
    } else {
      assert untried[..n] == untried;
    }
  }

  lemma CountBucket(untried: seq<set<Id>>, refs: map<Id, int>, n: nat, left: map<Id, int>)
    requires n < |untried| && Counted(untried, refs, n, untried[n], left)
    ensures Counted(untried, refs, n + 1, {}, left)
  {
    forall x ensures Met(untried, n + 1, {}, x) == Met(untried, n, untried[n], x) {
      assert untried[..n + 1][..n] == untried[..n];
    }
  }

  lemma CountEnd(untried: seq<set<Id>>, refs: map<Id, int>, left: map<Id, int>)
    requires Counted(untried, refs, |untried|, {}, left)
    ensures left == map[] <==> RefsExact(untried, refs)
  {
    assert untried[..|untried|] == untried;
    forall b, x | 0 <= b < |untried| && x in untried[b] ensures x in refs {
      RefsPositive(untried, x);
      assert Met(untried, |untried|, {}, x) > 0;
    }
    if left != map[] {
      assert left.Keys != {};
      var x :| x in left.Keys;
    }
  }
}
