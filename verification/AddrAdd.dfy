/** Adding an address to the new buckets, and making room there. */
module AddrAdd {
  import opened AddrTypes
  import opened AddrState
  import opened AddrOps
  import opened Ids
  import Words

  // ---- choosing the entry that makes room in a new bucket ----

  function Time(info: map<Id, Info>, id: Id): int
    requires id in info
  {
    info[id].address.time
  }

  /** The first deletable record, in identifier order. */
  function FirstTerrible(order: seq<Id>, info: map<Id, Info>, now: int): Option<Id>
    requires forall x :: x in order ==> x in info
  {
    if order == [] then None
    else if Terrible(info[order[0]], now) then Some(order[0])
    else FirstTerrible(order[1..], info, now)
  }

  /** Four positions drawn at random. */
  datatype Picks = Picks(n0: nat, n1: nat, n2: nat, n3: nat) {
    predicate Has(i: nat) { i == n0 || i == n1 || i == n2 || i == n3 }
  }

  function FourPicks(tape: seq<nat>, n: nat): (p: Picks)
    ensures n > 0 ==> p.n0 < n && p.n1 < n && p.n2 < n && p.n3 < n
  {
    Picks(Draw(tape, 0, n), Draw(tape, 1, n), Draw(tape, 2, n), Draw(tape, 3, n))
  }

  /** The least recently seen of the picked records from position `i` on, or `oldest` if none is older. */
  function OldestPicked(order: seq<Id>, info: map<Id, Info>, picks: Picks, i: nat, oldest: Id): Id
    requires forall x :: x in order ==> x in info
    requires i <= |order| && (oldest == NOBODY || oldest in info)
    decreases |order| - i
  {
    if i == |order| then oldest
    else if picks.Has(i) && (oldest == NOBODY || Time(info, order[i]) < Time(info, oldest))
    then OldestPicked(order, info, picks, i + 1, order[i])
    else OldestPicked(order, info, picks, i + 1, oldest)
  }

  /** The record that makes room in a new bucket. */
  function Victim(bucket: set<Id>, info: map<Id, Info>, now: int, tape: seq<nat>): Id
    requires forall x :: x in bucket ==> x in info
  {
    var order := Sorted(bucket);
    match FirstTerrible(order, info, now)
    case Some(id) => id
    case None => OldestPicked(order, info, FourPicks(tape, |order|), 0, NOBODY)
  }

  lemma {:induction false} FirstTerribleIsFirst(order: seq<Id>, info: map<Id, Info>, now: int)
    requires forall x :: x in order ==> x in info
    ensures var r := FirstTerrible(order, info, now);
      && (r.None? ==> forall x :: x in order ==> !Terrible(info[x], now))
      && (r.Some? ==> exists i :: 0 <= i < |order| && order[i] == r.value && Terrible(info[order[i]], now)
                                  && forall j :: 0 <= j < i ==> !Terrible(info[order[j]], now))
  {
    if order != [] && !Terrible(info[order[0]], now) {
      var rest := order[1..];
      FirstTerribleIsFirst(rest, info, now);
      var r := FirstTerrible(rest, info, now);
      if r.Some? {
        var i :| 0 <= i < |rest| && rest[i] == r.value && Terrible(info[rest[i]], now)
                 && forall j :: 0 <= j < i ==> !Terrible(info[rest[j]], now);
        assert order[i + 1] == r.value;
        assert forall j :: 0 < j < i + 1 ==> order[j] == rest[j - 1];
      }
    }
  }

  lemma FirstIsLowest(order: seq<Id>, info: map<Id, Info>, now: int, v: Id)
    requires Increasing(order)
    requires forall x :: x in order ==> x in info
    requires exists i :: 0 <= i < |order| && order[i] == v && Terrible(info[order[i]], now)
                         && forall j :: 0 <= j < i ==> !Terrible(info[order[j]], now)
    ensures v in order && Terrible(info[v], now)
    ensures forall x :: x in order && Terrible(info[x], now) ==> v.n <= x.n
  {
    hide Terrible;
    var i :| 0 <= i < |order| && order[i] == v && Terrible(info[order[i]], now)
             && forall j :: 0 <= j < i ==> !Terrible(info[order[j]], now);
    forall x | x in order && Terrible(info[x], now) ensures v.n <= x.n {
      var k :| 0 <= k < |order| && order[k] == x;
    }
  }

  lemma {:induction false} OldestPickedIsOldest(order: seq<Id>, info: map<Id, Info>, picks: Picks, i: nat, oldest: Id)
    requires forall x :: x in order ==> x in info
    requires i <= |order| && (oldest == NOBODY || oldest in info) && NOBODY !in info
    requires oldest == NOBODY ==> exists p :: i <= p < |order| && picks.Has(p)
    ensures var r := OldestPicked(order, info, picks, i, oldest);
      && r in info
      && (r == oldest || exists p :: i <= p < |order| && picks.Has(p) && order[p] == r)
      && (oldest != NOBODY ==> Time(info, r) <= Time(info, oldest))
      && (forall p :: i <= p < |order| && picks.Has(p) ==> Time(info, r) <= Time(info, order[p]))
    decreases |order| - i
  {
    if i < |order| {
      assert order[i] in order;
      if picks.Has(i) && (oldest == NOBODY || Time(info, order[i]) < Time(info, oldest)) {
        OldestPickedIsOldest(order, info, picks, i + 1, order[i]);
      } else {
        OldestPickedIsOldest(order, info, picks, i + 1, oldest);
      }
    }
  }

  /** Position `p` is one of four drawn at random from `n`. */
  ghost predicate Drawn(tape: seq<nat>, n: nat, p: nat) { exists i :: 0 <= i < 4 && p == Draw(tape, i, n) }

  /** Entry `v` is one of four drawn at random, and none of the four was seen longer ago. */
  ghost predicate OldestOfFour(order: seq<Id>, info: map<Id, Info>, tape: seq<nat>, v: Id) {
    && v in info
    && (exists p :: 0 <= p < |order| && Drawn(tape, |order|, p) && order[p] == v)
    && (forall p :: 0 <= p < |order| && Drawn(tape, |order|, p) ==>
          order[p] in info && info[v].address.time <= info[order[p]].address.time)
  }

  lemma DrawnIsPicked(tape: seq<nat>, n: nat)
    ensures forall p: nat :: Drawn(tape, n, p) <==> FourPicks(tape, n).Has(p)
  {
    hide Draw;
    var k := FourPicks(tape, n);
    assert k.n0 == Draw(tape, 0, n) && k.n1 == Draw(tape, 1, n) && k.n2 == Draw(tape, 2, n) && k.n3 == Draw(tape, 3, n);
  }

  lemma DeletableEntries(bucket: set<Id>, info: map<Id, Info>, now: int)
    requires forall x :: x in bucket ==> x in info
    ensures forall x :: x in bucket ==> (Terrible(info[x], now) <==> Deletable(info[x], now))
  {
    hide Terrible, Deletable;
    forall x | x in bucket ensures Terrible(info[x], now) <==> Deletable(info[x], now) {
      TerribleIsDeletable(info[x], now);
    }
  }

  /** If any entry is deletable the lowest-numbered deletable one goes;
      otherwise one of four random entries goes, and none of the four was seen longer ago. */
  lemma VictimIsRight(bucket: set<Id>, info: map<Id, Info>, now: int, tape: seq<nat>)
    requires bucket != {} && NOBODY !in info
    requires forall x :: x in bucket ==> x in info
    ensures var v := Victim(bucket, info, now, tape);
      && v in bucket
      && ((exists x :: x in bucket && Deletable(info[x], now)) ==>
            Deletable(info[v], now) && forall x :: x in bucket && Deletable(info[x], now) ==> v.n <= x.n)
      && ((forall x :: x in bucket ==> !Deletable(info[x], now)) ==>
            OldestOfFour(Sorted(bucket), info, tape, v))
  {
    hide FirstTerrible, OldestPicked, Terrible, Deletable, FourPicks, Sorted, Drawn;
    var order := Sorted(bucket);
    DeletableEntries(bucket, info, now);
    FirstTerribleIsFirst(order, info, now);
    match FirstTerrible(order, info, now)
    case Some(v) =>
      FirstIsLowest(order, info, now, v);
    case None =>
      var picks := FourPicks(tape, |order|);
      DrawnIsPicked(tape, |order|);
      assert picks.Has(picks.n0);
      OldestPickedIsOldest(order, info, picks, 0, NOBODY);
  }

  // ---- placing a reference ----

  /** Make room in bucket `b`. */
  function Shrink(env: Env, s: State, b: nat, now: int, tape: seq<nat>, extra: Id): (r: State)
    requires InvExcept(env, s, extra) && b < NEW_BUCKET_COUNT && s.untried[b] != {} && extra !in s.untried[b]
    ensures |r.untried| == |s.untried|
  {
    BucketFacts(env, s, b, extra);
    hide InvExcept, Victim, Release, OldestOfFour, Deletable;
    VictimIsRight(s.untried[b], s.info, now, tape);
    Release(s, Victim(s.untried[b], s.info, now, tape), b)
  }

  /** Put a reference to `id` in the bucket chosen by the source that reported it. */
  function Place(env: Env, s: State, id: Id, source: NetAddr, now: int, tape: seq<nat>): State
    requires id in s.info && InvExcept(env, AddRef(s, id), id)
  {
    var b := NewBucket(env, s.key, s.info[id].Net(), source);
    BucketFacts(env, AddRef(s, id), b, id);
    hide InvExcept, NewBucket, Shrink;
    if id in s.untried[b] then s
    else
      var s1 := AddRef(s, id);
      var s2 := if |s.untried[b]| == NEW_BUCKET_SIZE then Shrink(env, s1, b, now, tape, id) else s1;
      PutIn(s2, id, b)
  }

  function MergeServices(a: bv64, b: bv64): bv64 { a | b }

  /** Statistics taken over from a repeated advertisement. */
  function Touched(info: Info, a: Address, penalty: int, now: int): Info {
    var interval := if now - a.time < 24 * 60 * 60 then 60 * 60 else 24 * 60 * 60;
    var time := if a.time != 0 && (info.address.time == 0 || info.address.time < a.time - interval - penalty)
                then Trunc32(Max(0, a.time - penalty)) else info.address.time;
    info.(address := info.address.(time := time, services := MergeServices(info.address.services, a.services)))
  }

  /** Whether a known record gets a further reference. */
  predicate TakesRef(info: Info, a: Address, coin: nat) {
    && a.time != 0
    && (info.address.time == 0 || info.address.time < a.time)
    && !info.inTried
    && info.refCount != NEW_BUCKETS_PER_ADDRESS
    && (info.refCount <= 0 || coin % Words.Pow2(info.refCount) == 0)
  }

  function Penalised(a: Address, penalty: int): Address {
    a.(time := Trunc32(Max(0, a.time - penalty)))
  }

  function Add(env: Env, s: State, a: Address, source: NetAddr, penalty: int, now: int, coin: nat, tape: seq<nat>)
      : (State, bool)
    requires Inv(env, s)
  {
    if !env.routable(a.service.net) then (s, false)
    else match FindId(s, a.service.net)
      case Some(id) =>
        var info := Touched(s.info[id], a, penalty, now);
        var s1 := SetInfo(s, id, info);
        TouchKeepsInv(env, s, id, a, penalty, now);
        if TakesRef(info, a, coin) then
          AddRefKeepsInv(env, s1, id);
          (Place(env, s1, id, source, now, tape), false)
        else (s1, false)
      case None =>
        UnknownAddress(env, s, a.service.net);
        CreateKeepsInv(env, s, Penalised(a, penalty), source);
        var s1 := Create(s, Penalised(a, penalty), source).(nNew := s.nNew + 1);
        (Place(env, s1, Id(s.idCount), source, now, tape), true)
  }

  lemma UnknownAddress(env: Env, s: State, net: NetAddr)
    requires Inv(env, s)
    ensures FindId(s, net).None? <==> net !in s.addr
    ensures FindId(s, net).Some? ==> s.info[FindId(s, net).value].Net() == net
  {
  }

  lemma TouchKeepsInv(env: Env, s: State, id: Id, a: Address, penalty: int, now: int)
    requires Inv(env, s) && id in s.info
    ensures Inv(env, SetInfo(s, id, Touched(s.info[id], a, penalty, now)))
    ensures !s.info[id].inTried ==> 1 <= s.info[id].refCount <= NEW_BUCKETS_PER_ADDRESS
    ensures var r := Touched(s.info[id], a, penalty, now); r.inTried == s.info[id].inTried && r.refCount == s.info[id].refCount
  {
    RecordReplaced(s.info, id, Touched(s.info[id], a, penalty, now));
    InertKeepsInv(env, s, SetInfo(s, id, Touched(s.info[id], a, penalty, now)), NOBODY);
  }

  /** Records before and after an operation that may forget one record, and never a tried one. */
  ghost predicate Forgets(info: map<Id, Info>, info': map<Id, Info>, gone: set<Id>) {
    && |gone| <= 1
    && (forall x :: x in gone ==> x in info && x !in info' && !info[x].inTried && info[x].refCount == 1)
    && (forall x :: x in info && x !in gone ==>
          x in info' && info'[x].inTried == info[x].inTried
          && info'[x].address.service == info[x].address.service
          && info'[x].lastTry == info[x].lastTry && info'[x].lastSuccess == info[x].lastSuccess)
  }

  /** A record of an address that was never tried. */
  ghost predicate Untouched(info: Info) { !info.inTried && info.lastTry == 0 && info.lastSuccess == 0 }

  lemma ShrinkKeepsInv(env: Env, s: State, b: nat, now: int, tape: seq<nat>, extra: Id) returns (gone: set<Id>)
    requires InvExcept(env, s, extra) && b < NEW_BUCKET_COUNT && s.untried[b] != {} && extra !in s.untried[b]
    ensures var s' := Shrink(env, s, b, now, tape, extra);
      && InvExcept(env, s', extra)
      && Forgets(s.info, s'.info, gone) && extra !in gone
      && (forall x :: x in s'.info ==> x in s.info)
      && (extra in s.info ==> extra in s'.info)
      && |s'.untried[b]| == |s.untried[b]| - 1 && extra !in s'.untried[b]
      && s'.tried == s.tried && s'.nTried == s.nTried && s'.idCount == s.idCount && s'.key == s.key
  {
    hide RandomOk, AddrOk, UntriedOk, TriedOk, IdsOk, CountsOk, Victim, Release;
    BucketFacts(env, s, b, extra);
    VictimIsRight(s.untried[b], s.info, now, tape);
    var v := Victim(s.untried[b], s.info, now, tape);
    ReleaseKeepsInv(env, s, v, b, extra);
    gone := ReleaseForgets(s, v, b);
  }

  lemma BucketFacts(env: Env, s: State, b: nat, extra: Id)
    requires InvExcept(env, s, extra) && b < NEW_BUCKET_COUNT
    ensures |s.untried| == NEW_BUCKET_COUNT
    ensures forall x :: x in s.untried[b] ==> x in s.info
    ensures NOBODY !in s.info
    ensures RandomOk(s.info, s.random)
  {
  }

  lemma ReleaseForgets(s: State, v: Id, b: nat) returns (gone: set<Id>)
    requires v in s.info && RandomOk(s.info, s.random) && b < |s.untried| && v in s.untried[b] && !s.info[v].inTried
    ensures var s' := Release(s, v, b);
      && Forgets(s.info, s'.info, gone) && gone <= {v}
      && (forall x :: x in s'.info ==> x in s.info)
      && |s'.untried| == |s.untried| && s'.untried[b] == s.untried[b] - {v}
      && s'.tried == s.tried && s'.nTried == s.nTried && s'.idCount == s.idCount && s'.key == s.key
  {
    hide Release;
    ReleaseEffect(s, v, b);
    gone := ReleaseShrinks(s, v, b);
  }

  lemma PlaceKeepsInv(env: Env, s: State, id: Id, source: NetAddr, now: int, tape: seq<nat>) returns (gone: set<Id>)
    requires id in s.info && InvExcept(env, AddRef(s, id), id)
    requires Inv(env, s) || (forall b :: 0 <= b < |s.untried| ==> id !in s.untried[b])
    ensures var s' := Place(env, s, id, source, now, tape);
      && Inv(env, s')
      && Forgets(s.info, s'.info, gone)
      && (forall x :: x in s'.info ==> x in s.info)
      && id in s'.info
      && id in s'.untried[NewBucket(env, s.key, s.info[id].Net(), source)]
      && s'.tried == s.tried && s'.nTried == s.nTried && s'.idCount == s.idCount && s'.key == s.key
  {
    hide RandomOk, AddrOk, UntriedOk, TriedOk, IdsOk, CountsOk, Shrink, Forgets;
    var b := NewBucket(env, s.key, s.info[id].Net(), source);
    gone := {};
    ForgetsNone(s.info, id, AddRef(s, id).info[id]);
    ForgetsNone(s.info, id, s.info[id]);
    assert s.info[id := s.info[id]] == s.info;
    if id !in s.untried[b] {
      var s1 := AddRef(s, id);
      if |s.untried[b]| == NEW_BUCKET_SIZE {
        gone := ShrinkKeepsInv(env, s1, b, now, tape, id);
        ForgetsTouched(s.info, id, s1.info[id], Shrink(env, s1, b, now, tape, id).info, gone);
        PutInKeepsInv(env, Shrink(env, s1, b, now, tape, id), id, b);
      } else {
        PutInKeepsInv(env, s1, id, b);
      }
    }
  }

  /** Adding keeps the invariant. It reports true exactly for a routable address that was unknown;
      a routable address is known afterwards; tried records stay, and at most one new record goes. */
  lemma AddKeepsInv(env: Env, s: State, a: Address, source: NetAddr, penalty: int, now: int, coin: nat, tape: seq<nat>)
      returns (gone: set<Id>)
    requires Inv(env, s)
    ensures var (s', fresh') := Add(env, s, a, source, penalty, now, coin, tape);
      && Inv(env, s')
      && fresh' == (env.routable(a.service.net) && a.service.net !in s.addr)
      && (env.routable(a.service.net) ==> a.service.net in s'.addr)
      && (!env.routable(a.service.net) ==> s' == s)
      && Forgets(s.info, s'.info, gone)
      && (forall x :: x in s'.info ==> x in s.info || (fresh' && x == Id(s.idCount)))
      && (fresh' ==> Id(s.idCount) in s'.info && Untouched(s'.info[Id(s.idCount)]))
      && s'.tried == s.tried && s'.nTried == s.nTried && s'.key == s.key
  {
    hide RandomOk, UntriedOk, TriedOk, CountsOk, SizesOk, Place, TakesRef, Touched, Penalised;
    gone := {};
    if env.routable(a.service.net) {
      UnknownAddress(env, s, a.service.net);
      match FindId(s, a.service.net)
      case Some(id) =>
        gone := AddKnown(env, s, id, a, source, penalty, now, coin, tape);
      case None =>
        gone := AddUnknown(env, s, a, source, penalty, now, tape);
    }
  }

  lemma AddKnown(env: Env, s: State, id: Id, a: Address, source: NetAddr, penalty: int, now: int, coin: nat, tape: seq<nat>)
      returns (gone: set<Id>)
    requires Inv(env, s) && env.routable(a.service.net) && FindId(s, a.service.net) == Some(id)
    ensures var (s', fresh') := Add(env, s, a, source, penalty, now, coin, tape);
      && Inv(env, s') && !fresh'
      && a.service.net in s'.addr
      && Forgets(s.info, s'.info, gone)
      && (forall x :: x in s'.info ==> x in s.info)
      && s'.tried == s.tried && s'.nTried == s.nTried && s'.key == s.key
  {
    hide RandomOk, UntriedOk, TriedOk, CountsOk, SizesOk, Place, TakesRef, Forgets, AddrOk;
    UnknownAddress(env, s, a.service.net);
    var info := Touched(s.info[id], a, penalty, now);
    var s1 := SetInfo(s, id, info);
    TouchKeepsInv(env, s, id, a, penalty, now);
    gone := {};
    ForgetsNone(s.info, id, info);
    if TakesRef(info, a, coin) {
      TakesRefBounds(info, a, coin);
      AddRefKeepsInv(env, s1, id);
      gone := PlaceKeepsInv(env, s1, id, source, now, tape);
      var s' := Place(env, s1, id, source, now, tape);
      KnownAddress(env, s', id);
      ForgetsTouched(s.info, id, info, s'.info, gone);
    }
  }

  lemma ForgetsNone(info: map<Id, Info>, id: Id, r: Info)
    requires id in info && r.address.service == info[id].address.service && r.inTried == info[id].inTried
    requires r.lastTry == info[id].lastTry && r.lastSuccess == info[id].lastSuccess
    ensures Forgets(info, info[id := r], {})
  {
  }

  lemma ForgetsTouched(info: map<Id, Info>, id: Id, r: Info, info': map<Id, Info>, gone: set<Id>)
    requires id in info && Forgets(info[id := r], info', gone) && id in info'
    requires r.address.service == info[id].address.service && r.inTried == info[id].inTried
    requires r.lastTry == info[id].lastTry && r.lastSuccess == info[id].lastSuccess
    ensures Forgets(info, info', gone)
    ensures info'[id].Net() == info[id].Net()
  {
  }

  lemma ForgetsCreated(info: map<Id, Info>, id: Id, r: Info, info': map<Id, Info>, gone: set<Id>)
    requires id !in info && Forgets(info[id := r], info', gone) && id in info'
    ensures Forgets(info, info', gone)
    ensures info'[id].Net() == r.Net() && info'[id].inTried == r.inTried
    ensures info'[id].lastTry == r.lastTry && info'[id].lastSuccess == r.lastSuccess
  {
  }

  lemma TakesRefBounds(info: Info, a: Address, coin: nat)
    requires TakesRef(info, a, coin)
    ensures !info.inTried && info.refCount != NEW_BUCKETS_PER_ADDRESS
  {
  }

  lemma KnownAddress(env: Env, s: State, id: Id)
    requires Inv(env, s) && id in s.info
    ensures s.info[id].Net() in s.addr
  {
  }

  lemma AddUnknown(env: Env, s: State, a: Address, source: NetAddr, penalty: int, now: int, tape: seq<nat>)
      returns (gone: set<Id>)
    requires Inv(env, s) && env.routable(a.service.net) && FindId(s, a.service.net).None?
    ensures var (s', fresh') := Add(env, s, a, source, penalty, now, 0, tape);
      && Inv(env, s') && fresh'
      && a.service.net in s'.addr
      && Forgets(s.info, s'.info, gone)
      && (forall x :: x in s'.info ==> x in s.info || x == Id(s.idCount))
      && Id(s.idCount) in s'.info && Untouched(s'.info[Id(s.idCount)])
      && s'.tried == s.tried && s'.nTried == s.nTried && s'.key == s.key
  {
    hide RandomOk, UntriedOk, TriedOk, CountsOk, SizesOk, Place, Forgets, AddrOk, Penalised;
    UnknownAddress(env, s, a.service.net);
    var id := Id(s.idCount);
    PenalisedNet(a, penalty);
    CreateKeepsInv(env, s, Penalised(a, penalty), source);
    var s1 := Create(s, Penalised(a, penalty), source).(nNew := s.nNew + 1);
    NotYetPlaced(env, s, id);
    gone := PlaceKeepsInv(env, s1, id, source, now, tape);
    var s' := Place(env, s1, id, source, now, tape);
    KnownAddress(env, s', id);
    ForgetsCreated(s.info, id, s1.info[id], s'.info, gone);
  }

  lemma PenalisedNet(a: Address, penalty: int)
    ensures Penalised(a, penalty).service == a.service
  {
  }

  lemma NotYetPlaced(env: Env, s: State, id: Id)
    requires Inv(env, s) && id == Id(s.idCount)
    ensures id !in s.info
    ensures forall b :: 0 <= b < |s.untried| ==> id !in s.untried[b]
  {
  }
}
