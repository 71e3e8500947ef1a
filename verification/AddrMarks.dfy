/** Marking an address good, attempted or connected, and sampling addresses. */
module AddrMarks {
  import opened AddrTypes
  import opened AddrState
  import opened AddrOps
  import opened AddrPromote
  import opened Ids

  /** The identifier of exactly this address and port. */
  function FindExact(s: State, service: Service): Option<Id> {
    match FindId(s, service.net)
    case Some(id) => if s.info[id].address.service == service then Some(id) else None
    case None => None
  }

  function MarkedGood(info: Info, time: int): Info {
    info.(lastSuccess := time, lastTry := time, attempts := 0,
          address := info.address.(time := Trunc32(time)))
  }

  /** Step `n` and later of the scan for a new bucket holding `id`, starting at a random bucket. */
  function ScanFrom(untried: seq<set<Id>>, id: Id, start: nat, n: nat): (r: Option<nat>)
    ensures r.Some? ==> r.value < |untried| && id in untried[r.value]
    decreases |untried| - n
  {
    if n >= |untried| then None
    else
      var b := (n + start) % |untried|;
      if id in untried[b] then Some(b) else ScanFrom(untried, id, start, n + 1)
  }

  /** The scan wraps around, so it reaches every bucket. */
  lemma {:induction false} ScanReaches(untried: seq<set<Id>>, id: Id, start: nat, n: nat, m: nat)
    requires n <= m < |untried| && id in untried[(m + start) % |untried|]
    ensures ScanFrom(untried, id, start, n).Some?
    decreases m - n
  {
    if n < m && id !in untried[(n + start) % |untried|] {
      ScanReaches(untried, id, start, n + 1, m);
    }
  }

  lemma ScanFinds(untried: seq<set<Id>>, id: Id, start: nat)
    requires Refs(untried, id) > 0 && start < |untried| == NEW_BUCKET_COUNT
    ensures ScanFrom(untried, id, start, 0).Some?
  {
    RefsPositive(untried, id);
    var b :| 0 <= b < |untried| && id in untried[b];
    var m := if b >= start then b - start else b + |untried| - start;
    assert (m + start) % NEW_BUCKET_COUNT == b;
    ScanReaches(untried, id, start, 0, m);
  }

  function Good(env: Env, s: State, service: Service, time: int, rnd: nat, tape: seq<nat>): State
    requires Inv(env, s)
  {
    match FindExact(s, service)
    case None => s
    case Some(id) =>
      var s1 := SetInfo(s, id, MarkedGood(s.info[id], time));
      MarkKeepsInv(env, s, id, MarkedGood(s.info[id], time));
      if s1.info[id].inTried then s1
      else match ScanFrom(s1.untried, id, rnd % NEW_BUCKET_COUNT, 0)
        case None => s1
        case Some(b) => MakeTried(env, s1, id, b, tape)
  }

  /** Changing the statistics of one record keeps the invariant. */
  lemma MarkKeepsInv(env: Env, s: State, id: Id, r: Info)
    requires Inv(env, s) && id in s.info
    requires r.address.service == s.info[id].address.service
    requires r.randomPos == s.info[id].randomPos && r.refCount == s.info[id].refCount && r.inTried == s.info[id].inTried
    ensures Inv(env, SetInfo(s, id, r))
  {
    RecordReplaced(s.info, id, r);
    InertKeepsInv(env, s, SetInfo(s, id, r), NOBODY);
  }

  /** What a promotion attempt does to the records: nothing moves unless an exactly matching
      record was new, and then it is tried afterwards and at most one tried record became new. */
  ghost predicate Moves(info: map<Id, Info>, info': map<Id, Info>, promoted: set<Id>, victims: set<Id>) {
    && (forall x :: x in info' <==> x in info)
    && |promoted| <= 1 && |victims| <= |promoted|
    && (forall x :: x in promoted ==> x in info && !info[x].inTried && info'[x].inTried)
    && (forall x :: x in victims ==> x in info && info[x].inTried && !info'[x].inTried)
    && (forall x :: x in info ==> info'[x].address.service == info[x].address.service)
    && (forall x :: x in info && x !in promoted && x !in victims ==> info'[x].inTried == info[x].inTried)
  }

  /** Marking good keeps the invariant and every record; a new record that matches exactly is promoted
      (the scan never comes back empty), and the number of tried records never drops. */
  lemma GoodKeepsInv(env: Env, s: State, service: Service, time: int, rnd: nat, tape: seq<nat>)
      returns (promoted: set<Id>, victims: set<Id>)
    requires Inv(env, s)
    ensures var s' := Good(env, s, service, time, rnd, tape);
      && Inv(env, s')
      && Moves(s.info, s'.info, promoted, victims)
      && s'.nTried == s.nTried + |promoted| - |victims| && s'.nNew == s.nNew - |promoted| + |victims|
      && (FindExact(s, service).Some? ==> s'.info[FindExact(s, service).value].inTried)
      && (FindExact(s, service).None? ==> s' == s)
      && s'.addr == s.addr && s'.random == s.random && s'.idCount == s.idCount && s'.key == s.key
  {
    hide RandomOk, AddrOk, TriedOk, UntriedOk, IdsOk, SizesOk, CountsOk, MakeTried, ScanFrom;
    promoted, victims := {}, {};
    match FindExact(s, service) {
      case None =>
      case Some(id) =>
        var s1 := SetInfo(s, id, MarkedGood(s.info[id], time));
        MarkKeepsInv(env, s, id, MarkedGood(s.info[id], time));
        if !s1.info[id].inTried {
          var b := ScanSucceeds(env, s1, id, rnd);
          MakeTriedKeepsInv(env, s1, id, b, tape);
          promoted := {id};
          victims := PromotionMoves(env, s, s1, id, b, tape);
        }
    }
  }

  /** The bail-out for a record found in no bucket is never taken. */
  lemma ScanSucceeds(env: Env, s: State, id: Id, rnd: nat) returns (b: nat)
    requires Inv(env, s) && id in s.info && !s.info[id].inTried
    ensures ScanFrom(s.untried, id, rnd % NEW_BUCKET_COUNT, 0) == Some(b)
    ensures b < NEW_BUCKET_COUNT && id in s.untried[b]
  {
    assert id != NOBODY;
    ScanFinds(s.untried, id, rnd % NEW_BUCKET_COUNT);
    b := ScanFrom(s.untried, id, rnd % NEW_BUCKET_COUNT, 0).value;
  }

  lemma PromotionMoves(env: Env, s: State, s1: State, id: Id, b: nat, tape: seq<nat>) returns (victims: set<Id>)
    requires Inv(env, s1) && b < NEW_BUCKET_COUNT && id in s1.untried[b]
    requires id in s.info && s1 == SetInfo(s, id, s1.info[id])
    requires s1.info[id].address.service == s.info[id].address.service && s1.info[id].inTried == s.info[id].inTried
    ensures var s' := MakeTried(env, s1, id, b, tape);
      && Moves(s.info, s'.info, {id}, victims)
      && s'.nTried == s.nTried + 1 - |victims| && s'.nNew == s.nNew - 1 + |victims|
  {
    hide RandomOk, AddrOk, TriedOk, UntriedOk, IdsOk, MakeTried;
    MakeTriedKeepsInv(env, s1, id, b, tape);
    var s' := MakeTried(env, s1, id, b, tape);
    if |s1.tried[Home(env, s1, id)]| < TRIED_BUCKET_SIZE {
      victims := {};
    } else {
      var v :| v in s1.tried[Home(env, s1, id)] && Promotes(s1.info, s'.info, id, {v});
      victims := {v};
    }
    PromoteCounts(s1.info, s'.info, id, victims);
    PromotesMoves(s.info, s1.info, s'.info, id, victims);
  }

  lemma PromotesMoves(info: map<Id, Info>, info1: map<Id, Info>, info': map<Id, Info>, id: Id, victims: set<Id>)
    requires id in info && id in info1 && info1 == info[id := info1[id]]
    requires info1[id].address.service == info[id].address.service && info1[id].inTried == info[id].inTried
    requires Promotes(info1, info', id, victims) && |victims| <= 1
    ensures Moves(info, info', {id}, victims)
  {
  }

  // ---- attempts and connections ----

  function Attempt(s: State, service: Service, time: int): State {
    match FindExact(s, service)
    case None => s
    case Some(id) => SetInfo(s, id, s.info[id].(lastTry := time, attempts := s.info[id].attempts + 1))
  }

  function Connected(s: State, service: Service, time: int): State {
    match FindExact(s, service)
    case None => s
    case Some(id) =>
      if time - s.info[id].address.time > 20 * 60
      then SetInfo(s, id, s.info[id].(address := s.info[id].address.(time := Trunc32(time))))
      else s
  }

  lemma AttemptKeepsInv(env: Env, s: State, service: Service, time: int)
    requires Inv(env, s)
    ensures Inv(env, Attempt(s, service, time))
  {
    hide RandomOk, AddrOk, TriedOk, UntriedOk, IdsOk, SizesOk, CountsOk;
    match FindExact(s, service) {
      case None =>
      case Some(id) =>
        MarkKeepsInv(env, s, id, s.info[id].(lastTry := time, attempts := s.info[id].attempts + 1));
    }
  }

  lemma ConnectedKeepsInv(env: Env, s: State, service: Service, time: int)
    requires Inv(env, s)
    ensures Inv(env, Connected(s, service, time))
  {
    hide RandomOk, AddrOk, TriedOk, UntriedOk, IdsOk, SizesOk, CountsOk;
    match FindExact(s, service) {
      case None =>
      case Some(id) =>
        MarkKeepsInv(env, s, id, s.info[id].(address := s.info[id].address.(time := Trunc32(time))));
    }
  }

  // ---- sampling ----

  /** How many addresses one request may learn. */
  function SampleSize(s: State): (n: nat)
    ensures n <= |s.random|
  {
    var n := GETADDR_MAX_PCT * |s.random| / 100;
    if n > GETADDR_MAX then GETADDR_MAX else n
  }

  /** Fill positions `n`, `n + 1`, ... of the random order with entries drawn from the rest. */
  function ShuffleFrom(s: State, n: nat, count: nat, tape: seq<nat>): State
    requires RandomOk(s.info, s.random) && n <= count <= |s.random|
    decreases count - n
  {
    if n == count then s
    else
      var p := Draw(tape, n, |s.random| - n) + n;
      var s1 := SwapRandom(s, n, p);
      assert RandomOk(s1.info, s1.random) && |s1.random| == |s.random| by { SwapEffect(s, n, p); }
      ShuffleFrom(s1, n + 1, count, tape)
  }

  lemma {:induction false} ShuffleUnfold(s: State, n: nat, count: nat, tape: seq<nat>)
    requires RandomOk(s.info, s.random) && n < count <= |s.random|
    ensures var s1 := SwapRandom(s, n, Draw(tape, n, |s.random| - n) + n);
      && RandomOk(s1.info, s1.random) && |s1.random| == |s.random|
      && ShuffleFrom(s, n, count, tape) == ShuffleFrom(s1, n + 1, count, tape)
  {
    hide RandomOk, SwapRandom, Draw;
    SwapEffect(s, n, Draw(tape, n, |s.random| - n) + n);
  }

  /** Shuffling permutes the random order, leaves the first `n` positions alone,
      and changes no record but for its back-pointer. */
  lemma {:induction false} ShuffleEffect(env: Env, s: State, n: nat, count: nat, tape: seq<nat>)
    requires Inv(env, s) && n <= count <= |s.random|
    ensures var s' := ShuffleFrom(s, n, count, tape);
      && Inv(env, s')
      && Reordered(s, s', n)
    decreases count - n
  {
    hide Inv, SwapRandom, Draw, Reordered, RandomOk;
    RandomFacts(env, s);
    if n == count {
      ReorderedBySwap(s, n, n);
    } else {
      var p := Draw(tape, n, |s.random| - n) + n;
      var s1 := SwapRandom(s, n, p);
      SwapReorders(env, s, n, p);
      ShuffleUnfold(s, n, count, tape);
      ShuffleEffect(env, s1, n + 1, count, tape);
      ReorderedTransitive(s, s1, ShuffleFrom(s1, n + 1, count, tape), n);
    }
  }

  /** The manager changed only in the random order, from position `n` on, with back-pointers in step. */
  ghost predicate Reordered(s: State, s': State, n: nat) {
    && s' == s.(info := s'.info, random := s'.random)
    && |s'.random| == |s.random|
    && multiset(s'.random) == multiset(s.random)
    && (forall i :: 0 <= i < n && i < |s.random| ==> s'.random[i] == s.random[i])
    && (forall id :: id in s'.info <==> id in s.info)
    && (forall id :: id in s.info ==> s'.info[id] == s.info[id].(randomPos := s'.info[id].randomPos))
  }

  lemma ReorderedTransitive(s: State, s1: State, s2: State, n: nat)
    requires Reordered(s, s1, n) && Reordered(s1, s2, n + 1)
    ensures Reordered(s, s2, n)
  {
  }

  lemma ReorderedBySwap(s: State, n: nat, p: nat)
    requires RandomOk(s.info, s.random) && n <= p <= |s.random|
    ensures n == p ==> Reordered(s, s, n)
    ensures p < |s.random| ==> Reordered(s, SwapRandom(s, n, p), n) && |SwapRandom(s, n, p).random| == |s.random|
    ensures p < |s.random| ==> RandomOk(SwapRandom(s, n, p).info, SwapRandom(s, n, p).random)
  {
    if p < |s.random| {
      SwapEffect(s, n, p);
      MultisetSwap(s.random, n, p);
    }
  }

  lemma SwapReorders(env: Env, s: State, n: nat, p: nat)
    requires Inv(env, s) && n <= p < |s.random|
    ensures RandomOk(s.info, s.random)
    ensures var s1 := SwapRandom(s, n, p);
      Inv(env, s1) && Reordered(s, s1, n) && |s1.random| == |s.random| && RandomOk(s1.info, s1.random)
  {
    hide RandomOk, SwapRandom, Inv, Reordered;
    RandomFacts(env, s);
    SwapKeepsInv(env, s, n, p);
    ReorderedBySwap(s, n, p);
  }

  lemma MultisetSwap(v: seq<Id>, i: nat, j: nat)
    requires i < |v| && j < |v|
    ensures multiset(v[i := v[j]][j := v[i]]) == multiset(v)
  {
  }

  lemma RandomFacts(env: Env, s: State)
    requires Inv(env, s)
    ensures NOBODY !in s.info
    ensures RandomOk(s.info, s.random)
    ensures forall i :: 0 <= i < |s.random| ==> s.random[i] in s.info
  {
  }

  /** The addresses at the first `n` positions of the random order. */
  function Sampled(s: State, n: nat): (r: seq<Address>)
    requires n <= |s.random| && forall i :: 0 <= i < |s.random| ==> s.random[i] in s.info
    ensures |r| == n
  {
    seq(n, i requires 0 <= i < n => s.info[s.random[i]].address)
  }

  /** A sample consists of known addresses with pairwise different network addresses. */
  lemma SampleDistinct(env: Env, s: State, n: nat)
    requires Inv(env, s) && n <= |s.random|
    ensures forall i :: 0 <= i < n ==>
      var a := Sampled(s, n)[i]; a.service.net in s.addr && s.addr[a.service.net] in s.info && s.info[s.addr[a.service.net]].address == a
    ensures forall i, j :: 0 <= i < j < n ==> Sampled(s, n)[i].service.net != Sampled(s, n)[j].service.net
  {
    forall i, j | 0 <= i < j < n
      ensures Sampled(s, n)[i].service.net != Sampled(s, n)[j].service.net
    {
      assert s.random[i] != s.random[j];
      assert s.addr[s.info[s.random[i]].Net()] == s.random[i];
      assert s.addr[s.info[s.random[j]].Net()] == s.random[j];
    }
  }
}
