/** What each operation leaves behind, in numbers and in terms of the tables before it. */
module AddrEffects {
  import opened Ids
  import opened AddrTypes
  import opened AddrState
  import opened AddrOps
  import opened AddrAdd
  import opened AddrPromote
  import opened AddrMarks
  import opened AddrStats
  import Words

  // ---- adding ----

  /** Making room changes one bucket by one entry, and no record but for its place in the tables. */
  lemma ShrinkEffect(env: Env, s: State, b: nat, now: int, tape: seq<nat>, extra: Id)
    requires InvExcept(env, s, extra) && b < NEW_BUCKET_COUNT && s.untried[b] != {} && extra !in s.untried[b]
    ensures forall x :: x in s.untried[b] ==> x in s.info
    ensures var s' := Shrink(env, s, b, now, tape, extra); var v := Victim(s.untried[b], s.info, now, tape);
      && v in s.untried[b] && s'.untried == s.untried[b := s.untried[b] - {v}]
      && (forall x :: x in s'.info ==> x in s.info && SameStats(s.info[x], s'.info[x]))
      && (forall x :: x in s.info && x != v ==>
            x in s'.info && s'.info[x].refCount == s.info[x].refCount && s'.info[x].inTried == s.info[x].inTried)
  {
    hide InvExcept, RandomOk, Victim, Release, Shrink, SameStats;
    var v := ShrinkStep(env, s, b, now, tape, extra);
    ReleaseStats(s, v, b);
  }

  lemma ShrinkStep(env: Env, s: State, b: nat, now: int, tape: seq<nat>, extra: Id) returns (v: Id)
    requires InvExcept(env, s, extra) && b < NEW_BUCKET_COUNT && s.untried[b] != {} && extra !in s.untried[b]
    ensures |s.untried| == NEW_BUCKET_COUNT && (forall x :: x in s.untried[b] ==> x in s.info) && RandomOk(s.info, s.random)
    ensures v == Victim(s.untried[b], s.info, now, tape) && v in s.untried[b]
    ensures Shrink(env, s, b, now, tape, extra) == Release(s, v, b)
  {
    BucketFacts(env, s, b, extra);
    hide InvExcept, RandomOk, Victim, Release, OldestOfFour, Deletable;
    VictimIsRight(s.untried[b], s.info, now, tape);
    v := Victim(s.untried[b], s.info, now, tape);
  }

  lemma ReleaseStats(s: State, v: Id, b: nat)
    requires v in s.info && RandomOk(s.info, s.random) && b < |s.untried|
    ensures var s' := Release(s, v, b);
      && s'.untried == s.untried[b := s.untried[b] - {v}]
      && (forall x :: x in s'.info ==> x in s.info && SameStats(s.info[x], s'.info[x]))
      && (forall x :: x in s.info && x != v ==>
            x in s'.info && s'.info[x].refCount == s.info[x].refCount && s'.info[x].inTried == s.info[x].inTried)
  {
    hide RandomOk, Release;
    ReleaseEffect(s, v, b);
  }

  /** After a reference to `id` was put in bucket `b`: it is counted if it was not there before. */
  ghost predicate Placed(s: State, s': State, id: Id, b: nat) {
    && b < |s.untried| == |s'.untried| && id in s.info && id in s'.info
    && SameStats(s.info[id], s'.info[id]) && s'.info[id].inTried == s.info[id].inTried
    && s'.info[id].refCount == s.info[id].refCount + (if id in s.untried[b] then 0 else 1)
    && id in s'.untried[b] && (forall x :: x in s'.untried[b] ==> x == id || x in s.untried[b])
    && (forall c :: 0 <= c < |s.untried| && c != b ==> s'.untried[c] == s.untried[c])
    && (forall x :: x in s'.info ==> x in s.info && SameStats(s.info[x], s'.info[x]))
  }

  lemma PlaceEffect(env: Env, s: State, id: Id, source: NetAddr, now: int, tape: seq<nat>)
    requires id in s.info && InvExcept(env, AddRef(s, id), id)
    ensures Placed(s, Place(env, s, id, source, now, tape), id, NewBucket(env, s.key, s.info[id].Net(), source))
  {
    hide RandomOk, AddrOk, UntriedOk, TriedOk, IdsOk, CountsOk, Shrink, Victim, Placed, NewBucket;
    var b := NewBucket(env, s.key, s.info[id].Net(), source);
    var s1 := AddRef(s, id);
    if id in s.untried[b] {
      PlacedBefore(s, id, b);
    } else if |s.untried[b]| == NEW_BUCKET_SIZE {
      ShrinkEffect(env, s1, b, now, tape, id);
      PlacedAfter(s, Shrink(env, s1, b, now, tape, id), id, b);
    } else {
      PlacedAfter(s, s1, id, b);
    }
  }

  lemma PlacedBefore(s: State, id: Id, b: nat)
    requires b < |s.untried| && id in s.info && id in s.untried[b]
    ensures Placed(s, s, id, b)
  {
  }

  lemma PlacedAfter(s: State, s2: State, id: Id, b: nat)
    requires b < |s.untried| == |s2.untried| && id in s.info && id !in s.untried[b] && id in s2.info
    requires s2.info[id].refCount == s.info[id].refCount + 1 && s2.info[id].inTried == s.info[id].inTried
    requires forall x :: x in s2.info ==> x in s.info && SameStats(AddRef(s, id).info[x], s2.info[x])
    requires s2.untried[b] <= s.untried[b]
    requires forall c :: 0 <= c < |s.untried| && c != b ==> s2.untried[c] == s.untried[c]
    ensures Placed(s, PutIn(s2, id, b), id, b)
  {
  }

  /** The time of a known record after it is advertised again: that of the advertisement less the penalty, if the
      record has no time or one over an hour (a day for an address not seen today) and the penalty older. */
  ghost function TimeAfter(time: int, advertised: int, penalty: int, now: int): int {
    var interval := if now - advertised < 86400 then 3600 else 86400;
    if advertised != 0 && (time == 0 || advertised - time > interval + penalty)
    then (if advertised > penalty then advertised - penalty else 0) % 0x1_0000_0000
    else time
  }

  /** Whether a known new record with the given time and references may get another one: the advertisement is
      newer, there are fewer than four, and a draw of one in 2, 4 or 8 succeeds. */
  ghost predicate FurtherRef(time: int, inTried: bool, refs: int, advertised: int, coin: nat) {
    && advertised != 0 && (time == 0 || advertised > time) && !inTried
    && (|| (refs == 1 && coin % 2 == 0)
        || (refs == 2 && coin % 4 == 0)
        || (refs == 3 && coin % 8 == 0))
  }

  /** What a repeated advertisement does to a known record. */
  lemma AddKnownRecord(env: Env, s: State, id: Id, a: Address, source: NetAddr, penalty: int, now: int, coin: nat, tape: seq<nat>)
    requires Inv(env, s) && env.routable(a.service.net) && FindId(s, a.service.net) == Some(id)
    ensures id in s.info
    ensures var s' := Add(env, s, a, source, penalty, now, coin, tape).0; var r := s.info[id];
      var b := NewBucket(env, s.key, a.service.net, source);
      var further := FurtherRef(TimeAfter(r.address.time, a.time, penalty, now), r.inTried, r.refCount, a.time, coin);
      && id in s'.info && b < |s.untried| == |s'.untried|
      && s'.info[id].address.service == r.address.service
      && s'.info[id].address.services == MergeServices(r.address.services, a.services)
      && s'.info[id].address.time == TimeAfter(r.address.time, a.time, penalty, now)
      && s'.info[id] == r.(address := s'.info[id].address, refCount := s'.info[id].refCount, randomPos := s'.info[id].randomPos)
      && s'.info[id].refCount == r.refCount + (if further && id !in s.untried[b] then 1 else 0)
      && (id in s'.untried[b] <==> further || id in s.untried[b])
      && (forall c :: 0 <= c < |s.untried| && c != b ==> s'.untried[c] == s.untried[c])
      && (forall x :: x in s'.info && x != id ==> x in s.info && SameStats(s.info[x], s'.info[x]))
      && (!further ==> s' == s.(info := s.info[id := s'.info[id]]))
  {
    hide Inv, InvExcept, Place, Touched, TakesRef, Placed, SetInfo, SameStats, FurtherRef, TimeAfter, MergeServices, NewBucket, AddRef;
    UnknownAddress(env, s, a.service.net);
    var r := Touched(s.info[id], a, penalty, now);
    var s1 := SetInfo(s, id, r);
    TouchKeepsInv(env, s, id, a, penalty, now);
    TouchedRecord(s.info[id], a, penalty, now);
    RefsWhenNew(env, s, id);
    TakesRefExactly(r, a, coin);
    OneRecord(s, id, r);
    SetInfoKeeps(s, id, r);
    if TakesRef(r, a, coin) {
      TakesRefBounds(r, a, coin);
      AddRefKeepsInv(env, s1, id);
      PlaceEffect(env, s1, id, source, now, tape);
      PlacedRecord(s1, Place(env, s1, id, source, now, tape), id, NewBucket(env, s.key, a.service.net, source));
    }
  }

  lemma SetInfoKeeps(s: State, id: Id, r: Info)
    ensures SetInfo(s, id, r) == s.(info := s.info[id := r])
    ensures forall x :: x in SetInfo(s, id, r).info <==> x in s.info || x == id
  {
  }

  lemma PlacedRecord(s: State, s': State, id: Id, b: nat)
    requires Placed(s, s', id, b)
    ensures b < |s.untried| == |s'.untried| && id in s.info && id in s'.info && id in s'.untried[b]
    ensures s'.info[id] == s.info[id].(refCount := s'.info[id].refCount, randomPos := s'.info[id].randomPos)
    ensures s'.info[id].refCount == s.info[id].refCount + (if id in s.untried[b] then 0 else 1)
    ensures forall c :: 0 <= c < |s.untried| && c != b ==> s'.untried[c] == s.untried[c]
    ensures forall x :: x in s'.info ==> x in s.info && SameStats(s.info[x], s'.info[x])
  {
  }

  lemma TouchedRecord(r: Info, a: Address, penalty: int, now: int)
    ensures var r' := Touched(r, a, penalty, now);
      && r' == r.(address := r'.address)
      && r'.address == Address(r.address.service, MergeServices(r.address.services, a.services),
                               TimeAfter(r.address.time, a.time, penalty, now))
  {
    hide MergeServices;
  }

  /** The services become the union of both. */
  lemma ServicesUnite(a: bv64, b: bv64)
    ensures MergeServices(a, b) == a | b
    ensures MergeServices(a, b) & a == a && MergeServices(a, b) & b == b
  {
  }

  lemma RefsWhenNew(env: Env, s: State, id: Id)
    requires Inv(env, s) && id in s.info
    ensures !s.info[id].inTried ==> 1 <= s.info[id].refCount <= 4
    ensures |s.untried| == NEW_BUCKET_COUNT
  {
  }

  lemma TakesRefExactly(r: Info, a: Address, coin: nat)
    requires !r.inTried ==> 1 <= r.refCount <= 4
    ensures TakesRef(r, a, coin) <==> FurtherRef(r.address.time, r.inTried, r.refCount, a.time, coin)
  {
    assert Words.Pow2(1) == 2 && Words.Pow2(2) == 4 && Words.Pow2(3) == 8;
  }

  /** A record made for an unknown address: never tried, with the advertised time less the penalty, in one bucket. */
  lemma AddUnknownRecord(env: Env, s: State, a: Address, source: NetAddr, penalty: int, now: int, coin: nat, tape: seq<nat>)
    requires Inv(env, s) && env.routable(a.service.net) && FindId(s, a.service.net).None?
    ensures var s' := Add(env, s, a, source, penalty, now, coin, tape).0; var id := Id(s.idCount);
      var time := (if a.time > penalty then a.time - penalty else 0) % 0x1_0000_0000;
      && id in s'.info && |s'.untried| == |s.untried| == NEW_BUCKET_COUNT
      && s'.info[id] == Info(Address(a.service, a.services, time), source, 0, 0, 0, 1, false, s'.info[id].randomPos)
      && (forall c :: 0 <= c < NEW_BUCKET_COUNT ==> (id in s'.untried[c] <==> c == NewBucket(env, s.key, a.service.net, source)))
      && (forall x :: x in s'.info && x != id ==> x in s.info && SameStats(s.info[x], s'.info[x]))
  {
    hide Inv, InvExcept, Place, Placed, Create, Penalised, SameStats, NewBucket;
    UnknownAddress(env, s, a.service.net);
    var id := Id(s.idCount);
    var a' := Penalised(a, penalty);
    PenalisedNet(a, penalty);
    NotYetPlaced(env, s, id);
    CreateKeepsInv(env, s, a', source);
    CreatedRecord(s, a, source, penalty);
    var s1 := Create(s, a', source).(nNew := s.nNew + 1);
    BucketCount(env, s);
    PlaceEffect(env, s1, id, source, now, tape);
    PlacedRecord(s1, Place(env, s1, id, source, now, tape), id, NewBucket(env, s.key, a.service.net, source));
  }

  lemma BucketCount(env: Env, s: State)
    requires Inv(env, s)
    ensures |s.untried| == NEW_BUCKET_COUNT
  {
  }

  lemma CreatedRecord(s: State, a: Address, source: NetAddr, penalty: int)
    ensures var s1 := Create(s, Penalised(a, penalty), source); var id := Id(s.idCount);
      var time := (if a.time > penalty then a.time - penalty else 0) % 0x1_0000_0000;
      && s1.untried == s.untried && s1.key == s.key && id in s1.info
      && s1.info[id] == Info(Address(a.service, a.services, time), source, 0, 0, 0, 0, false, |s.random|)
      && (forall x :: x in s1.info && x != id ==> x in s.info && s1.info[x] == s.info[x])
  {
  }

  /** With no negative penalty the time of a known record never goes back, and moves by more than the interval or not at all. */
  lemma TimeForward(time: U32, advertised: U32, penalty: nat, now: int)
    ensures var t := TimeAfter(time, advertised, penalty, now);
      && 0 <= t < 0x1_0000_0000
      && (t == time || time == 0 || t > time + 3600)
      && (t == time || t <= advertised)
  {
  }

  // ---- marking ----

  /** Bucket number `j` of a round through all buckets from `start` on. */
  function Turn(start: nat, j: nat, count: nat): (b: nat)
    requires count > 0
    ensures b < count
  {
    (j + start) % count
  }

  lemma ScanUnfold(untried: seq<set<Id>>, id: Id, start: nat, n: nat)
    requires n < |untried|
    ensures var b := Turn(start, n, |untried|);
      ScanFrom(untried, id, start, n) == if id in untried[b] then Some(b) else ScanFrom(untried, id, start, n + 1)
  {
  }

  /** The scan finds the first bucket holding `id` on such a round. */
  lemma {:induction false} ScanFirst(untried: seq<set<Id>>, id: Id, start: nat, n: nat) returns (m: nat)
    requires ScanFrom(untried, id, start, n).Some?
    ensures n <= m < |untried| && ScanFrom(untried, id, start, n) == Some(Turn(start, m, |untried|))
    ensures id in untried[Turn(start, m, |untried|)]
    ensures forall j :: n <= j < m ==> id !in untried[Turn(start, j, |untried|)]
    decreases |untried| - n
  {
    assert n < |untried|;
    hide ScanFrom, Turn;
    ScanUnfold(untried, id, start, n);
    if id in untried[Turn(start, n, |untried|)] {
      m := n;
    } else {
      m := ScanFirst(untried, id, start, n + 1);
    }
  }

  /** Where a promotion puts the record, and the entry it replaces in a full bucket: that one returns to the new
      bucket its own source gives it, or, if that is full, to the one the promoted record was found in. */
  lemma PromotionPlaces(env: Env, s: State, id: Id, origin: nat, tape: seq<nat>)
    requires Inv(env, s) && origin < NEW_BUCKET_COUNT && id in s.untried[origin]
    ensures id in s.info && |s.tried| == TRIED_BUCKET_COUNT && |s.untried| == NEW_BUCKET_COUNT
    ensures forall b, x :: 0 <= b < |s.tried| && x in s.tried[b] ==> x in s.info
    ensures var s' := MakeTried(env, s, id, origin, tape);
      var k := TriedBucket(env, s.key, s.info[id].address.service);
      var v := s.tried[k];
      && |s'.untried| == |s.untried|
      && (|v| < 64 ==>
            && s'.tried == s.tried[k := v + [id]]
            && (forall c :: 0 <= c < |s.untried| ==> s'.untried[c] == s.untried[c] - {id}))
      && (|v| >= 64 ==>
            var sel := SelectTried(v, s.info, tape);
            && 0 <= sel.pos < |sel.bucket| && sel.bucket[sel.pos] in s.info
            && var victim := sel.bucket[sel.pos];
               var own := NewBucket(env, s.key, s.info[victim].address.service.net, s.info[victim].source);
               var b := if |s.untried[own] - {id}| < 64 then own else origin;
               && s'.tried == s.tried[k := sel.bucket[sel.pos := id]]
               && (forall c :: 0 <= c < |s.untried| ==> s'.untried[c] == s.untried[c] - {id} + (if c == b then {victim} else {})))
  {
    hide Inv, SelectFrom, TriedBucket, NewBucket, Permuted, Append, Replace;
    TriedKnown(env, s, id, origin);
    var k := TriedBucket(env, s.key, s.info[id].address.service);
    var v := s.tried[k];
    if |v| < 64 {
      AppendPlaces(env, s, id);
    } else {
      SelectFromPermutes(v, s.info, tape, 0, NOBODY, -1);
      var sel := SelectTried(v, s.info, tape);
      PermutedEntry(v, sel.bucket, sel.pos);
      ReplacePlaces(env, s, id, origin, sel.bucket, sel.pos);
    }
  }

  lemma AppendPlaces(env: Env, s: State, id: Id)
    requires id in s.info && |s.tried| == TRIED_BUCKET_COUNT
    ensures var s' := Append(env, s, id); var k := TriedBucket(env, s.key, s.info[id].address.service);
      && s'.tried == s.tried[k := s.tried[k] + [id]] && |s'.untried| == |s.untried|
      && (forall c :: 0 <= c < |s.untried| ==> s'.untried[c] == s.untried[c] - {id})
  {
    hide TriedBucket;
  }

  lemma ReplacePlaces(env: Env, s: State, id: Id, origin: nat, v: seq<Id>, pos: nat)
    requires id in s.info && |s.tried| == TRIED_BUCKET_COUNT
    requires |s.untried| == NEW_BUCKET_COUNT && origin < NEW_BUCKET_COUNT
    requires pos < |v| && v[pos] in s.info
    ensures var s' := Replace(env, s, id, origin, v, pos); var k := TriedBucket(env, s.key, s.info[id].address.service);
      var victim := v[pos];
      var own := NewBucket(env, s.key, s.info[victim].address.service.net, s.info[victim].source);
      var b := if |s.untried[own] - {id}| < 64 then own else origin;
      && s'.tried == s.tried[k := v[pos := id]] && |s'.untried| == |s.untried|
      && (forall c :: 0 <= c < |s.untried| ==> s'.untried[c] == s.untried[c] - {id} + (if c == b then {victim} else {}))
  {
    hide TriedBucket, NewBucket;
  }

  lemma TriedKnown(env: Env, s: State, id: Id, origin: nat)
    requires Inv(env, s) && origin < NEW_BUCKET_COUNT && id in s.untried[origin]
    ensures id in s.info && |s.tried| == TRIED_BUCKET_COUNT && |s.untried| == NEW_BUCKET_COUNT && NOBODY !in s.info
    ensures forall b, x :: 0 <= b < |s.tried| && x in s.tried[b] ==> x in s.info
  {
  }

  /** A connection refreshes the time of the exactly matching record when it is over twenty minutes newer, and
      does nothing else. */
  lemma ConnectedEffect(s: State, service: Service, time: int)
    ensures var s' := Connected(s, service, time);
      && (FindExact(s, service).None? ==> s' == s)
      && (forall id :: FindExact(s, service) == Some(id) ==>
            && id in s.info
            && (time > s.info[id].address.time + 1200 ==>
                  s' == s.(info := s.info[id := s.info[id].(address := s.info[id].address.(time := time % 0x1_0000_0000))]))
            && (time <= s.info[id].address.time + 1200 ==> s' == s))
  {
  }

  /** Which record an operation on an address and port is about: the only one with that network address, if its
      port agrees. */
  lemma FindExactly(env: Env, s: State, service: Service, id: Id)
    requires Inv(env, s)
    ensures FindExact(s, service) == Some(id) <==> id in s.info && s.info[id].address.service == service
  {
    hide RandomOk, UntriedOk, TriedOk, CountsOk, SizesOk, IdsOk;
  }
}
