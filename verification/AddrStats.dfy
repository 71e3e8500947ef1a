/** What the statistics recorded by some operations mean for the later decision to drop a record. */
module AddrStats {
  import opened Ids
  import opened AddrTypes
  import opened AddrState
  import opened AddrOps
  import opened AddrPromote
  import opened AddrMarks

  /** The same record but for its place in the tables. */
  ghost predicate SameStats(r: Info, r': Info) {
    r' == r.(refCount := r'.refCount, inTried := r'.inTried, randomPos := r'.randomPos)
  }

  lemma MakeTriedStats(env: Env, s: State, id: Id, b: nat, tape: seq<nat>)
    requires Inv(env, s) && b < NEW_BUCKET_COUNT && id in s.untried[b]
    ensures var s' := MakeTried(env, s, id, b, tape);
      && (forall x :: x in s.info ==> x in s'.info && SameStats(s.info[x], s'.info[x]))
      && s'.info[id] == s.info[id].(inTried := true, refCount := 0)
  {
    assert |s.tried| == TRIED_BUCKET_COUNT;
    MakeTriedKeepsInv(env, s, id, b, tape);
    hide Inv, MakeTried, Promotes, SameStats;
    var s' := MakeTried(env, s, id, b, tape);
    if |s.tried[Home(env, s, id)]| < TRIED_BUCKET_SIZE {
      PromotedStats(s.info, s'.info, id, {});
    } else {
      var victim :| victim in s.tried[Home(env, s, id)] && Promotes(s.info, s'.info, id, {victim});
      PromotedStats(s.info, s'.info, id, {victim});
    }
  }

  /** Marking good stamps the exactly matching record with the success, zeroes its attempts and leaves it tried;
      the rest of that record and the statistics of all others stay. */
  lemma GoodStats(env: Env, s: State, service: Service, time: int, rnd: nat, tape: seq<nat>, id: Id)
    requires Inv(env, s) && FindExact(s, service) == Some(id)
    ensures var s' := Good(env, s, service, time, rnd, tape); var r := s.info[id];
      && id in s'.info
      && s'.info[id] == Info(Address(service, r.address.services, time % 0x1_0000_0000), r.source, time, 0, time, 0, true, r.randomPos)
      && (forall x :: x in s.info && x != id ==> x in s'.info && SameStats(s.info[x], s'.info[x]))
  {
    hide Inv, MakeTried, Good, SameStats, MarkedGood, SetInfo;
    TriedUnreferenced(env, s, id);
    StampedRecord(s, service, time, id);
    var s1, b := GoodSteps(env, s, service, time, rnd, tape, id);
    OneRecord(s, id, MarkedGood(s.info[id], time));
    if !s.info[id].inTried {
      MakeTriedStats(env, s1, id, b, tape);
      forall x | x in s.info && x != id ensures x in Good(env, s, service, time, rnd, tape).info && s1.info[x] == s.info[x] {}
    }
  }

  lemma StampedRecord(s: State, service: Service, time: int, id: Id)
    requires FindExact(s, service) == Some(id)
    ensures id in s.info
    ensures var r := s.info[id];
      MarkedGood(r, time) == Info(Address(service, r.address.services, time % 0x1_0000_0000), r.source, time, 0, time, r.refCount, r.inTried, r.randomPos)
  {
  }

  lemma OneRecord(s: State, id: Id, r: Info)
    requires id in s.info
    ensures id in SetInfo(s, id, r).info && SetInfo(s, id, r).info[id] == r
    ensures forall x :: x in s.info && x != id ==> x in SetInfo(s, id, r).info && SetInfo(s, id, r).info[x] == s.info[x]
    ensures forall x :: x in s.info ==> SameStats(s.info[x], s.info[x])
  {
  }

  /** The record is stamped first, and promoted unless it is tried already. */
  lemma GoodSteps(env: Env, s: State, service: Service, time: int, rnd: nat, tape: seq<nat>, id: Id) returns (s1: State, b: nat)
    requires Inv(env, s) && FindExact(s, service) == Some(id)
    ensures id in s.info && s1 == SetInfo(s, id, MarkedGood(s.info[id], time)) && Inv(env, s1)
    ensures s.info[id].inTried ==> Good(env, s, service, time, rnd, tape) == s1
    ensures !s.info[id].inTried ==>
      && b < NEW_BUCKET_COUNT && id in s1.untried[b]
      && ScanFrom(s1.untried, id, rnd % NEW_BUCKET_COUNT, 0) == Some(b)
      && Good(env, s, service, time, rnd, tape) == MakeTried(env, s1, id, b, tape)
  {
    hide Inv, MakeTried, ScanFrom;
    s1, b := SetInfo(s, id, MarkedGood(s.info[id], time)), 0;
    MarkKeepsInv(env, s, id, MarkedGood(s.info[id], time));
    if !s.info[id].inTried {
      b := ScanSucceeds(env, s1, id, rnd);
    }
  }

  lemma TriedUnreferenced(env: Env, s: State, id: Id)
    requires Inv(env, s) && id in s.info
    ensures s.info[id].inTried ==> s.info[id].refCount == 0
  {
  }

  lemma PromotedStats(info: map<Id, Info>, info': map<Id, Info>, id: Id, victims: set<Id>)
    requires Promotes(info, info', id, victims)
    ensures forall x :: x in info ==> x in info' && SameStats(info[x], info'[x])
    ensures id in info' && info'[id] == info[id].(inTried := true, refCount := 0)
  {
    forall x | x in info ensures x in info' && SameStats(info[x], info'[x]) {
      if x == id {
      } else if x in victims {
      }
    }
  }

  /** A record tried within the last minute is never dropped as terrible, however bad it looks. */
  lemma RecentlyTriedIsSafe(env: Env, s: State, service: Service, time: int, rnd: nat, tape: seq<nat>, id: Id, now: int)
    requires Inv(env, s) && FindExact(s, service) == Some(id) && time != 0 && now <= time + 60
    ensures id in Attempt(s, service, time).info && !Terrible(Attempt(s, service, time).info[id], now)
    ensures var s' := Good(env, s, service, time, rnd, tape); id in s'.info && !Terrible(s'.info[id], now)
  {
    hide Good, Inv;
    GoodStats(env, s, service, time, rnd, tape, id);
  }

  /** Successive failed attempts at one address. */
  function Attempts(s: State, service: Service, times: seq<int>): State {
    if times == [] then s else Attempt(Attempts(s, service, times[..|times| - 1]), service, times[|times| - 1])
  }

  /** Attempts add up in the exactly matching record. */
  lemma {:induction false} AttemptsAddUp(env: Env, s: State, service: Service, times: seq<int>, id: Id)
    requires Inv(env, s) && FindExact(s, service) == Some(id)
    ensures var s' := Attempts(s, service, times);
      && Inv(env, s') && FindExact(s', service) == Some(id)
      && s'.info[id] == s.info[id].(attempts := s.info[id].attempts + |times|,
                                    lastTry := if times == [] then s.info[id].lastTry else times[|times| - 1])
      && s' == s.(info := s.info[id := s'.info[id]])
  {
    hide Inv;
    if times == [] {
      assert s.info[id := s.info[id]] == s.info;
    } else {
      var k := |times| - 1;
      AttemptsAddUp(env, s, service, times[..k], id);
      AttemptKeepsInv(env, Attempts(s, service, times[..k]), service, times[k]);
    }
  }

  /** An address that never worked is dropped a minute after its third failed attempt. */
  lemma ThreeStrikes(env: Env, s: State, service: Service, times: seq<int>, id: Id, now: int)
    requires Inv(env, s) && FindExact(s, service) == Some(id)
    requires s.info[id].attempts >= 0 && s.info[id].lastSuccess == 0 && |times| >= 3
    requires times[|times| - 1] < now - 60
    ensures id in Attempts(s, service, times).info && Terrible(Attempts(s, service, times).info[id], now)
  {
    hide Inv;
    AttemptsAddUp(env, s, service, times, id);
  }
}
