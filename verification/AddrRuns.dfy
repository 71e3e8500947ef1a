/** Whole runs of the manager: what every reachable state satisfies and how states evolve. */
module AddrRuns {
  import opened AddrTypes
  import opened AddrState
  import opened AddrOps
  import opened AddrAdd
  import opened AddrPromote
  import opened AddrMarks
  import opened Ids

  /** An operation with its arguments, the clock reading and the random numbers it draws. */
  datatype Op =
    | OpAdd(address: Address, source: NetAddr, penalty: int, now: int, coin: nat, tape: seq<nat>)
    | OpGood(service: Service, time: int, rnd: nat, tape: seq<nat>)
    | OpAttempt(service: Service, time: int)
    | OpConnected(service: Service, time: int)
    | OpGetAddr(tape: seq<nat>)

  function Apply(env: Env, s: State, op: Op): State
    requires Inv(env, s)
  {
    match op
    case OpAdd(a, source, penalty, now, coin, tape) => Add(env, s, a, source, penalty, now, coin, tape).0
    case OpGood(service, time, rnd, tape) => Good(env, s, service, time, rnd, tape)
    case OpAttempt(service, time) => Attempt(s, service, time)
    case OpConnected(service, time) => Connected(s, service, time)
    case OpGetAddr(tape) => RandomFacts(env, s); ShuffleFrom(s, 0, SampleSize(s), tape)
  }

  /** How the records change from one state to the next. */
  ghost predicate Evolves(s: State, s': State, op: Op) {
    && s'.nTried >= s.nTried
    && (forall id :: id in s.info && id !in s'.info ==> op.OpAdd? && !s.info[id].inTried && s.info[id].refCount == 1)
    && (forall id :: id in s.info && id in s'.info ==> s'.info[id].address.service == s.info[id].address.service)
    && (forall id :: id in s.info && id in s'.info && s'.info[id].inTried != s.info[id].inTried ==> op.OpGood?)
    && (forall id :: id in s'.info && id !in s.info ==> op.OpAdd? && id == Id(s.idCount) && !s'.info[id].inTried)
    && (forall id, id2 :: id in s.info && id !in s'.info && id2 in s.info && id2 !in s'.info ==> id == id2)
  }

  /** Every operation keeps the invariant; only adding forgets a record, one at most, and never a tried one. */
  lemma StepKeepsInv(env: Env, s: State, op: Op)
    requires Inv(env, s)
    ensures Inv(env, Apply(env, s, op))
    ensures Evolves(s, Apply(env, s, op), op)
  {
    hide Inv, Add, Good, ShuffleFrom, Moves, Forgets;
    match op
    case OpAdd(a, source, penalty, now, coin, tape) =>
      var gone := AddKeepsInv(env, s, a, source, penalty, now, coin, tape);
      AddEvolves(s, Add(env, s, a, source, penalty, now, coin, tape).0, op, gone);
    case OpGood(service, time, rnd, tape) =>
      var promoted, victims := GoodKeepsInv(env, s, service, time, rnd, tape);
      GoodEvolves(s, Good(env, s, service, time, rnd, tape), op, promoted, victims);
    case OpAttempt(service, time) =>
      AttemptKeepsInv(env, s, service, time);
    case OpConnected(service, time) =>
      ConnectedKeepsInv(env, s, service, time);
    case OpGetAddr(tape) =>
      RandomFacts(env, s);
      ShuffleEffect(env, s, 0, SampleSize(s), tape);
  }

  lemma AddEvolves(s: State, s': State, op: Op, gone: set<Id>)
    requires op.OpAdd? && Forgets(s.info, s'.info, gone) && s'.nTried == s.nTried
    requires forall x :: x in s'.info ==> x in s.info || (x == Id(s.idCount) && !s'.info[x].inTried)
    ensures Evolves(s, s', op)
  {
    forall id, id2 | id in s.info && id !in s'.info && id2 in s.info && id2 !in s'.info ensures id == id2 {
      assert id in gone && id2 in gone;
      if id != id2 { AtMostOne(gone, id, id2); }
    }
  }

  lemma AtMostOne(a: set<Id>, x: Id, y: Id)
    requires |a| <= 1 && x in a && y in a
    ensures x == y
  {
    assert |a - {x}| == 0;
    assert y in a - {x} || y == x;
  }

  lemma GoodEvolves(s: State, s': State, op: Op, promoted: set<Id>, victims: set<Id>)
    requires op.OpGood? && Moves(s.info, s'.info, promoted, victims)
    requires s'.nTried == s.nTried + |promoted| - |victims|
    ensures Evolves(s, s', op)
  {
  }

  /** The state after a run from the constructor: every reachable state satisfies the invariant. */
  function Run(env: Env, key: seq<int>, ops: seq<Op>): (s: State)
    ensures Inv(env, s)
  {
    if ops == [] then
      EmptyInv(env, key);
      Empty(key)
    else
      var before := Run(env, key, ops[..|ops| - 1]);
      StepKeepsInv(env, before, ops[|ops| - 1]);
      Apply(env, before, ops[|ops| - 1])
  }

  // ---- time stamps ----

  /** Whether the time an operation records is one the consistency check accepts. */
  ghost predicate TimeAccepted(s: State, op: Op) {
    match op
    case OpGood(service, time, _, _) => FindExact(s, service).Some? ==> time > 0
    case OpAttempt(service, time) => FindExact(s, service).Some? ==> time >= 0
    case _ => true
  }

  /** Consistent time stamps stay consistent exactly when the recorded time is accepted. */
  lemma StepTimes(env: Env, s: State, op: Op)
    requires Inv(env, s) && TimesOk(s)
    ensures TimesOk(Apply(env, s, op)) <==> TimeAccepted(s, op)
  {
    hide Inv, Add, Good, ShuffleFrom, Moves;
    match op
    case OpAdd(a, source, penalty, now, coin, tape) =>
      var gone := AddKeepsInv(env, s, a, source, penalty, now, coin, tape);
    case OpGood(service, time, rnd, tape) =>
      GoodTimes(env, s, service, time, rnd, tape);
    case OpAttempt(service, time) =>
      match FindExact(s, service) {
        case None =>
        case Some(id) => assert Attempt(s, service, time).info[id].lastTry == time;
      }
    case OpConnected(service, time) =>
    case OpGetAddr(tape) =>
      RandomFacts(env, s);
      ShuffleEffect(env, s, 0, SampleSize(s), tape);
  }

  lemma GoodTimes(env: Env, s: State, service: Service, time: int, rnd: nat, tape: seq<nat>)
    requires Inv(env, s) && TimesOk(s)
    ensures TimesOk(Good(env, s, service, time, rnd, tape)) <==> (FindExact(s, service).Some? ==> time > 0)
  {
    hide RandomOk, AddrOk, TriedOk, UntriedOk, IdsOk, CountsOk, MakeTried, ScanFrom;
    match FindExact(s, service) {
      case None =>
      case Some(id) =>
        var s1 := SetInfo(s, id, MarkedGood(s.info[id], time));
        MarkKeepsInv(env, s, id, MarkedGood(s.info[id], time));
        if s1.info[id].inTried {
          assert s1.info[id].lastSuccess == time;
        } else {
          var b := ScanSucceeds(env, s1, id, rnd);
          MakeTriedKeepsInv(env, s1, id, b, tape);
          var s' := MakeTried(env, s1, id, b, tape);
          if |s1.tried[Home(env, s1, id)]| < TRIED_BUCKET_SIZE {
            PromotesTimes(s, s1, s', id, {}, time);
          } else {
            var v :| v in s1.tried[Home(env, s1, id)] && Promotes(s1.info, s'.info, id, {v});
            PromotesTimes(s, s1, s', id, {v}, time);
          }
        }
    }
  }

  lemma PromotesTimes(s: State, s1: State, s': State, id: Id, victims: set<Id>, time: int)
    requires TimesOk(s) && id in s.info && s1 == SetInfo(s, id, MarkedGood(s.info[id], time))
    requires Promotes(s1.info, s'.info, id, victims)
    ensures TimesOk(s') <==> time > 0
  {
    assert s'.info[id].lastSuccess == time && s'.info[id].inTried;
  }

  /** Runs that record only positive times pass the consistency check's tests on time stamps. */
  lemma {:induction false} RunTimes(env: Env, key: seq<int>, ops: seq<Op>)
    requires forall i :: 0 <= i < |ops| ==> (ops[i].OpGood? || ops[i].OpAttempt? ==> ops[i].time > 0)
    ensures TimesOk(Run(env, key, ops))
  {
    hide Inv, Apply;
    if ops == [] {
      EmptyInv(env, key);
    } else {
      RunTimes(env, key, ops[..|ops| - 1]);
      StepTimes(env, Run(env, key, ops[..|ops| - 1]), ops[|ops| - 1]);
    }
  }

  // ---- monotonicity along a run ----

  /** The number of tried records never drops. */
  lemma {:induction false} RunTriedMonotone(env: Env, key: seq<int>, ops: seq<Op>, i: nat)
    requires i <= |ops|
    ensures Run(env, key, ops[..i]).nTried <= Run(env, key, ops).nTried
    decreases |ops| - i
  {
    hide Inv, Apply;
    if i == |ops| {
      assert ops[..i] == ops;
    } else {
      assert ops[..i + 1][..i] == ops[..i];
      StepKeepsInv(env, Run(env, key, ops[..i]), ops[i]);
      RunTriedMonotone(env, key, ops, i + 1);
    }
  }

  /** A record that is gone after some operation of a run was a new record with a single reference
      just before it, and the operation was an addition. */
  lemma RunForgets(env: Env, key: seq<int>, ops: seq<Op>, i: nat, id: Id)
    requires i < |ops|
    requires id in Run(env, key, ops[..i]).info && id !in Run(env, key, ops[..i + 1]).info
    ensures ops[i].OpAdd?
    ensures !Run(env, key, ops[..i]).info[id].inTried && Run(env, key, ops[..i]).info[id].refCount == 1
  {
    hide Inv, Apply;
    assert ops[..i + 1][..i] == ops[..i];
    StepKeepsInv(env, Run(env, key, ops[..i]), ops[i]);
  }
}
