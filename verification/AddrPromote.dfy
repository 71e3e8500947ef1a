/** Moving a record from the new buckets to the tried buckets, evicting another one if need be. */
module AddrPromote {
  import opened AddrTypes
  import opened AddrState
  import opened Ids

  // ---- choosing the entry to evict ----

  /** The same entries in another order. */
  ghost predicate Permuted(v: seq<Id>, w: seq<Id>) {
    && |w| == |v|
    && multiset(w) == multiset(v)
    && (forall x :: x in w <==> x in v)
    && (Distinct(v) ==> Distinct(w))
  }

  /** A bucket after inspection, the oldest entry seen, and the position reported for it. */
  datatype Selection = Selection(bucket: seq<Id>, oldest: Id, pos: int)

  function Swap(v: seq<Id>, i: nat, p: nat): seq<Id>
    requires i < |v| && p < |v|
  {
    v[p := v[i]][i := v[p]]
  }

  /** Inspect entries `i`, `i + 1`, ... of the bucket, drawing each at random from the rest. */
  function SelectFrom(v: seq<Id>, info: map<Id, Info>, tape: seq<nat>, i: nat, oldest: Id, pos: int): Selection
    requires forall x :: x in v ==> x in info
    requires oldest == NOBODY || oldest in info
    decreases |v| - i
  {
    if i >= TRIED_ENTRIES_INSPECT_ON_EVICT || i >= |v| then Selection(v, oldest, pos)
    else
      var p := Draw(tape, i, |v| - i) + i;
      var x := v[p];
      SwapSameElements(v, i, p);
      if oldest == NOBODY || info[x].lastSuccess < info[oldest].lastSuccess
      then SelectFrom(Swap(v, i, p), info, tape, i + 1, x, p)
      else SelectFrom(Swap(v, i, p), info, tape, i + 1, oldest, pos)
  }

  function SelectTried(v: seq<Id>, info: map<Id, Info>, tape: seq<nat>): Selection
    requires forall x :: x in v ==> x in info
  {
    SelectFrom(v, info, tape, 0, NOBODY, -1)
  }

  lemma SwapSameElements(v: seq<Id>, i: nat, p: nat)
    requires i < |v| && p < |v|
    ensures Permuted(v, Swap(v, i, p))
  {
    var w := Swap(v, i, p);
    forall x | x in v ensures x in w {
      var k :| 0 <= k < |v| && v[k] == x;
      assert w[if k == i then p else if k == p then i else k] == x;
    }
  }

  lemma SwapKnown(v: seq<Id>, info: map<Id, Info>, i: nat, p: nat)
    requires i < |v| && p < |v| && forall x :: x in v ==> x in info
    ensures Permuted(v, Swap(v, i, p)) && |Swap(v, i, p)| == |v|
    ensures forall x :: x in Swap(v, i, p) ==> x in info
  {
    hide Swap, Distinct;
    SwapSameElements(v, i, p);
  }

  lemma PermutedReflexive(v: seq<Id>)
    ensures Permuted(v, v)
  {
  }

  lemma PermutedTransitive(u: seq<Id>, v: seq<Id>, w: seq<Id>)
    requires Permuted(u, v) && Permuted(v, w)
    ensures Permuted(u, w)
  {
  }

  /** The bucket is permuted and the reported position is one of its positions. */
  lemma {:induction false} SelectFromPermutes(v: seq<Id>, info: map<Id, Info>, tape: seq<nat>, i: nat, oldest: Id, pos: int)
    requires forall x :: x in v ==> x in info
    requires oldest == NOBODY || oldest in info
    requires NOBODY !in info
    requires if oldest == NOBODY then i == 0 else 0 <= pos < |v|
    ensures var sel := SelectFrom(v, info, tape, i, oldest, pos);
      && Permuted(v, sel.bucket)
      && (|v| > 0 ==> 0 <= sel.pos < |v|)
    decreases |v| - i
  {
    hide Permuted, Swap, Draw;
    if i >= TRIED_ENTRIES_INSPECT_ON_EVICT || i >= |v| {
      PermutedReflexive(v);
    } else {
      var p := Draw(tape, i, |v| - i) + i;
      var x := v[p];
      SwapKnown(v, info, i, p);
      if oldest == NOBODY || info[x].lastSuccess < info[oldest].lastSuccess {
        SelectFromPermutes(Swap(v, i, p), info, tape, i + 1, x, p);
      } else {
        SelectFromPermutes(Swap(v, i, p), info, tape, i + 1, oldest, pos);
      }
      PermutedTransitive(v, Swap(v, i, p), SelectFrom(v, info, tape, i, oldest, pos).bucket);
    }
  }

  /** Only the times of last success matter. */
  lemma {:induction false} SelectFromSame(v: seq<Id>, info: map<Id, Info>, info': map<Id, Info>, tape: seq<nat>,
                                          i: nat, oldest: Id, pos: int)
    requires forall x :: x in v ==> x in info && x in info' && info'[x].lastSuccess == info[x].lastSuccess
    requires oldest == NOBODY || (oldest in info && oldest in info' && info'[oldest].lastSuccess == info[oldest].lastSuccess)
    ensures SelectFrom(v, info', tape, i, oldest, pos) == SelectFrom(v, info, tape, i, oldest, pos)
    decreases |v| - i
  {
    if !(i >= TRIED_ENTRIES_INSPECT_ON_EVICT || i >= |v|) {
      var p := Draw(tape, i, |v| - i) + i;
      SwapSameElements(v, i, p);
      if oldest == NOBODY || info[v[p]].lastSuccess < info[oldest].lastSuccess {
        SelectFromSame(Swap(v, i, p), info, info', tape, i + 1, v[p], p);
      } else {
        SelectFromSame(Swap(v, i, p), info, info', tape, i + 1, oldest, pos);
      }
    }
  }

  /** `k` is the inspected entry recorded as oldest, with the position recorded for it. */
  ghost predicate Recorded(v: seq<Id>, info: map<Id, Info>, tape: seq<nat>, i: nat, oldest: Id, pos: int, k: nat) {
    && k < i <= |v|
    && v[k] == oldest
    && pos == Draw(tape, k, |v| - k) + k
    && (forall j :: 0 <= j < i && v[j] in info && oldest in info ==> info[oldest].lastSuccess <= info[v[j]].lastSuccess)
  }

  lemma RecordedNext(v: seq<Id>, info: map<Id, Info>, tape: seq<nat>, i: nat, oldest: Id, pos: int, k: nat)
    requires (forall x :: x in v ==> x in info) && oldest in info
    requires Recorded(v, info, tape, i, oldest, pos, k) && i < |v|
    ensures var p := Draw(tape, i, |v| - i) + i;
      if info[v[p]].lastSuccess < info[oldest].lastSuccess
      then Recorded(Swap(v, i, p), info, tape, i + 1, v[p], p, i)
      else Recorded(Swap(v, i, p), info, tape, i + 1, oldest, pos, k)
  {
    hide Draw;
    var p := Draw(tape, i, |v| - i) + i;
    assert forall j :: 0 <= j < i ==> Swap(v, i, p)[j] == v[j];
  }

  lemma {:induction false} SelectFromRecords(v: seq<Id>, info: map<Id, Info>, tape: seq<nat>,
                                             i: nat, oldest: Id, pos: int, k: nat) returns (k': nat)
    requires forall x :: x in v ==> x in info
    requires NOBODY !in info && oldest in info
    requires Recorded(v, info, tape, i, oldest, pos, k)
    ensures var sel := SelectFrom(v, info, tape, i, oldest, pos);
      && (forall x :: x in sel.bucket ==> x in info)
      && |sel.bucket| == |v| && sel.oldest in info
      && Recorded(sel.bucket, info, tape, InspectEnd(v, i), sel.oldest, sel.pos, k')
    decreases |v| - i
  {
    hide Draw, Swap, Recorded, Permuted;
    if i >= TRIED_ENTRIES_INSPECT_ON_EVICT || i >= |v| {
      k' := k;
    } else {
      var p := Draw(tape, i, |v| - i) + i;
      var x := v[p];
      var w := Swap(v, i, p);
      SwapKnown(v, info, i, p);
      RecordedNext(v, info, tape, i, oldest, pos, k);
      if info[x].lastSuccess < info[oldest].lastSuccess {
        k' := SelectFromRecords(w, info, tape, i + 1, x, p, i);
      } else {
        k' := SelectFromRecords(w, info, tape, i + 1, oldest, pos, k);
      }
    }
  }

  function InspectEnd(v: seq<Id>, i: nat): nat {
    if i >= TRIED_ENTRIES_INSPECT_ON_EVICT || i >= |v| then i
    else if |v| < TRIED_ENTRIES_INSPECT_ON_EVICT then |v| else TRIED_ENTRIES_INSPECT_ON_EVICT
  }

  /** The remembered entry is the least recently successful of the inspected ones. The reported position
      holds that very entry exactly when it was drawn from its own place; when it is the only one as old as
      it is, the reported position holds an entry that old exactly then, too. */
  lemma SelectTriedExact(v: seq<Id>, info: map<Id, Info>, tape: seq<nat>) returns (k: nat)
    requires |v| > 0 && Distinct(v) && NOBODY !in info
    requires forall x :: x in v ==> x in info
    ensures var sel := SelectTried(v, info, tape);
      var inspected := if |v| < TRIED_ENTRIES_INSPECT_ON_EVICT then |v| else TRIED_ENTRIES_INSPECT_ON_EVICT;
      && multiset(sel.bucket) == multiset(v)
      && 0 <= sel.pos < |sel.bucket| == |v|
      && k < inspected && sel.bucket[k] == sel.oldest
      && sel.oldest in info && (forall x :: x in sel.bucket ==> x in info)
      && (forall j :: 0 <= j < inspected ==> info[sel.oldest].lastSuccess <= info[sel.bucket[j]].lastSuccess)
      && (sel.bucket[sel.pos] == sel.oldest <==> Draw(tape, k, |v| - k) == 0)
      && ((forall x :: x in sel.bucket && x != sel.oldest ==> info[sel.oldest].lastSuccess < info[x].lastSuccess) ==>
            (info[sel.bucket[sel.pos]].lastSuccess <= info[sel.oldest].lastSuccess <==> Draw(tape, k, |v| - k) == 0))
  {
    hide Swap;
    var p := Draw(tape, 0, |v|);
    var w := Swap(v, 0, p);
    SwapKnown(v, info, 0, p);
    SwapFirst(v, p);
    k := SelectFromRecords(w, info, tape, 1, v[p], p, 0);
    SelectFromPermutes(v, info, tape, 0, NOBODY, -1);
    assert SelectTried(v, info, tape) == SelectFrom(w, info, tape, 1, v[p], p);
  }

  lemma SwapFirst(v: seq<Id>, p: nat)
    requires p < |v| && Distinct(v)
    ensures |Swap(v, 0, p)| == |v| && Swap(v, 0, p)[0] == v[p] && Distinct(Swap(v, 0, p))
    ensures Swap(v, 0, p)[p] == v[p] <==> p == 0
  {
  }

  /** A draw of zero for an entry that is not older changes nothing. */
  lemma SelectStays(v: seq<Id>, info: map<Id, Info>, tape: seq<nat>, i: nat, oldest: Id, pos: int)
    requires forall x :: x in v ==> x in info
    requires oldest in info && oldest != NOBODY
    requires i < TRIED_ENTRIES_INSPECT_ON_EVICT && i < |v| && Draw(tape, i, |v| - i) == 0
    requires info[oldest].lastSuccess <= info[v[i]].lastSuccess
    ensures SelectFrom(v, info, tape, i, oldest, pos) == SelectFrom(v, info, tape, i + 1, oldest, pos)
  {
    assert Swap(v, i, i) == v;
  }

  lemma FirstDraw(v: seq<Id>, info: map<Id, Info>, tape: seq<nat>)
    requires |v| > 1 && (forall x :: x in v ==> x in info) && Draw(tape, 0, |v|) == 1
    ensures forall x :: x in Swap(v, 0, 1) ==> x in info
    ensures SelectTried(v, info, tape) == SelectFrom(Swap(v, 0, 1), info, tape, 1, v[1], 1)
  {
    SwapSameElements(v, 0, 1);
    assert v[1] in v;
  }

  /** So the entry evicted from a full bucket need not be the oldest one inspected. */
  lemma SelectTriedMisses(v: seq<Id>, info: map<Id, Info>)
    requires |v| == TRIED_BUCKET_SIZE && NOBODY !in info
    requires forall x :: x in v ==> x in info
    requires info[v[1]].lastSuccess < info[v[0]].lastSuccess
    requires info[v[1]].lastSuccess < info[v[2]].lastSuccess && info[v[1]].lastSuccess < info[v[3]].lastSuccess
    ensures var sel := SelectTried(v, info, [1, 0, 0, 0]);
      && sel.oldest == v[1] && sel.pos == 1 && |sel.bucket| == |v| && sel.bucket[1] == v[0]
      && info[sel.oldest].lastSuccess < info[sel.bucket[sel.pos]].lastSuccess
  {
    var tape := [1, 0, 0, 0];
    var w := Swap(v, 0, 1);
    assert Draw(tape, 0, 64) == 1 && Draw(tape, 1, 63) == 0 && Draw(tape, 2, 62) == 0 && Draw(tape, 3, 61) == 0;
    FirstDraw(v, info, tape);
    assert w[1] == v[0] && w[2] == v[2] && w[3] == v[3] && v[1] in v;
    hide Draw, Swap;
    SelectStays(w, info, tape, 1, v[1], 1);
    SelectStays(w, info, tape, 2, v[1], 1);
    SelectStays(w, info, tape, 3, v[1], 1);
  }

  // ---- promotion ----

  function Home(env: Env, s: State, id: Id): nat
    requires id in s.info
  {
    TriedBucket(env, s.key, s.info[id].address.service)
  }

  function Origin(env: Env, s: State, id: Id): nat
    requires id in s.info
  {
    NewBucket(env, s.key, s.info[id].Net(), s.info[id].source)
  }

  /** Room in the tried bucket: `id` leaves the new buckets and is appended. */
  function Append(env: Env, s: State, id: Id): State
    requires id in s.info && |s.tried| == TRIED_BUCKET_COUNT
  {
    var k := Home(env, s, id);
    s.(untried := Without(s.untried, id),
       nNew := s.nNew - 1,
       tried := s.tried[k := s.tried[k] + [id]],
       nTried := s.nTried + 1,
       info := s.info[id := s.info[id].(refCount := 0, inTried := true)])
  }

  /** The new bucket an evicted record returns to: its own, or the one `id` came from. */
  function EvictTo(env: Env, s: State, id: Id, origin: nat, victim: Id): (b: nat)
    requires victim in s.info && |s.untried| == NEW_BUCKET_COUNT && origin < NEW_BUCKET_COUNT
    ensures b < NEW_BUCKET_COUNT
  {
    var own := Origin(env, s, victim);
    if |Without(s.untried, id)[own]| < NEW_BUCKET_SIZE then own else origin
  }

  /** No room: `id` replaces entry `pos` of the reordered bucket `v`, which goes back to a new bucket. */
  function Replace(env: Env, s: State, id: Id, origin: nat, v: seq<Id>, pos: nat): State
    requires id in s.info && |s.tried| == TRIED_BUCKET_COUNT
    requires |s.untried| == NEW_BUCKET_COUNT && origin < NEW_BUCKET_COUNT
    requires pos < |v| && v[pos] in s.info
  {
    var victim := v[pos];
    var untried := Without(s.untried, id);
    var b := EvictTo(env, s, id, origin, victim);
    s.(tried := s.tried[Home(env, s, id) := v[pos := id]],
       untried := untried[b := untried[b] + {victim}],
       info := s.info[victim := s.info[victim].(inTried := false, refCount := 1)]
                     [id := s.info[id].(refCount := 0, inTried := true)])
  }

  function MakeTried(env: Env, s: State, id: Id, origin: nat, tape: seq<nat>): State
    requires Inv(env, s) && origin < NEW_BUCKET_COUNT && id in s.untried[origin]
  {
    var v := s.tried[Home(env, s, id)];
    if |v| < TRIED_BUCKET_SIZE then Append(env, s, id)
    else
      assert forall x :: x in v ==> x in s.info;
      var sel := SelectTried(v, s.info, tape);
      SelectFromPermutes(v, s.info, tape, 0, NOBODY, -1);
      assert sel.bucket[sel.pos] in v;
      Replace(env, s, id, origin, sel.bucket, sel.pos)
  }

  /** The record tables before and after a promotion. */
  ghost predicate Promotes(info: map<Id, Info>, info': map<Id, Info>, id: Id, victims: set<Id>) {
    && SameIndex(info, info')
    && id in info && id in info' && !info[id].inTried && id !in victims
    && info'[id] == info[id].(inTried := true, refCount := 0)
    && (forall x :: x in info && x != id && x !in victims ==> info'[x] == info[x])
    && (forall x :: x in victims ==>
          x in info && x in info' && info[x].inTried && info'[x] == info[x].(inTried := false, refCount := 1))
  }

  lemma PromoteKeepsUntried(info: map<Id, Info>, info': map<Id, Info>, id: Id, untried: seq<set<Id>>)
    requires UntriedOk(info, untried, NOBODY) && Promotes(info, info', id, {}) && NOBODY !in info
    ensures UntriedOk(info', Without(untried, id), NOBODY)
  {
    forall x ensures Refs(Without(untried, id), x) == if x == id then 0 else Refs(untried, x) {
      RefsWithout(untried, id, x);
    }
  }

  lemma EvictKeepsUntried(info: map<Id, Info>, info': map<Id, Info>, id: Id, victim: Id,
                          untried: seq<set<Id>>, b: nat)
    requires UntriedOk(info, untried, NOBODY) && Promotes(info, info', id, {victim}) && NOBODY !in info
    requires b < |untried|
    ensures UntriedOk(info', Without(untried, id)[b := Without(untried, id)[b] + {victim}], NOBODY)
  {
    var u := Without(untried, id);
    RefsPositive(untried, victim);
    forall x
      ensures Refs(u[b := u[b] + {victim}], x) ==
              if x == id then 0 else if x == victim then 1 else Refs(untried, x)
    {
      RefsWithout(untried, id, x);
      RefsStore(u, b, u[b] + {victim}, x);
    }
  }

  /** One tried bucket is replaced: its entries now are those tried records that hash to it. */
  lemma BucketKeepsTried(env: Env, key: seq<int>, info: map<Id, Info>, info': map<Id, Info>, id: Id, victims: set<Id>,
                         tried: seq<seq<Id>>, k: nat, bucket: seq<Id>)
    requires TriedOk(env, key, info, tried) && Promotes(info, info', id, victims)
    requires k == TriedBucket(env, key, info[id].address.service)
    requires Distinct(bucket)
    requires forall x :: x in victims ==> x in tried[k]
    requires forall x :: x in bucket <==> x == id || (x in tried[k] && x !in victims)
    ensures TriedOk(env, key, info', tried[k := bucket])
  {
    var tried' := tried[k := bucket];
    forall b, i | 0 <= b < |tried'| && 0 <= i < |tried'[b]|
      ensures tried'[b][i] in info' && info'[tried'[b][i]].inTried
      ensures TriedBucket(env, key, info'[tried'[b][i]].address.service) == b
    {
      var x := tried'[b][i];
      if b == k { assert x in bucket; } else { assert x == tried[b][i]; }
    }
    forall x | x in info' && info'[x].inTried
      ensures x in tried'[TriedBucket(env, key, info'[x].address.service)]
    {
      if x != id { assert x !in victims; }
    }
  }

  lemma PromoteKeepsTried(env: Env, key: seq<int>, info: map<Id, Info>, info': map<Id, Info>, id: Id, tried: seq<seq<Id>>)
    requires TriedOk(env, key, info, tried) && Promotes(info, info', id, {})
    ensures var k := TriedBucket(env, key, info[id].address.service);
      TriedOk(env, key, info', tried[k := tried[k] + [id]])
  {
    var k := TriedBucket(env, key, info[id].address.service);
    BucketKeepsTried(env, key, info, info', id, {}, tried, k, tried[k] + [id]);
  }

  lemma ReplacedElements(u: seq<Id>, v: seq<Id>, pos: nat, id: Id)
    requires Permuted(u, v) && Distinct(u) && pos < |v| && id !in u
    ensures Distinct(v[pos := id])
    ensures forall x :: x in v[pos := id] <==> x == id || (x in u && x != v[pos])
  {
    var w := v[pos := id];
    assert w[pos] == id;
    forall x | x in u && x != v[pos] ensures x in w {
      assert x in v;
      var i :| 0 <= i < |v| && v[i] == x;
      assert w[i] == x;
    }
  }

  lemma EvictKeepsTried(env: Env, key: seq<int>, info: map<Id, Info>, info': map<Id, Info>, id: Id, victim: Id,
                        tried: seq<seq<Id>>, v: seq<Id>, pos: nat)
    requires TriedOk(env, key, info, tried) && Promotes(info, info', id, {victim})
    requires var k := TriedBucket(env, key, info[id].address.service); Permuted(tried[k], v)
    requires pos < |v| && v[pos] == victim
    ensures var k := TriedBucket(env, key, info[id].address.service);
      TriedOk(env, key, info', tried[k := v[pos := id]])
  {
    var k := TriedBucket(env, key, info[id].address.service);
    assert id !in tried[k];
    ReplacedElements(tried[k], v, pos, id);
    assert victim in v;
    BucketKeepsTried(env, key, info, info', id, {victim}, tried, k, v[pos := id]);
  }

  lemma PromoteCounts(info: map<Id, Info>, info': map<Id, Info>, id: Id, victims: set<Id>)
    requires Promotes(info, info', id, victims)
    ensures |NewIds(info')| == |NewIds(info)| - 1 + |victims|
    ensures |TriedIds(info')| == |TriedIds(info)| + 1 - |victims|
  {
    PromoteSets(info, info', id, victims);
    assert |NewIds(info) - {id}| == |NewIds(info)| - 1;
    assert |(TriedIds(info) + {id}) - victims| == |TriedIds(info) + {id}| - |victims| by {
      assert victims <= TriedIds(info) + {id};
      assert victims * (TriedIds(info) + {id}) == victims;
    }
  }

  lemma PromoteSets(info: map<Id, Info>, info': map<Id, Info>, id: Id, victims: set<Id>)
    requires Promotes(info, info', id, victims)
    ensures NewIds(info') == (NewIds(info) - {id}) + victims
    ensures TriedIds(info') == (TriedIds(info) + {id}) - victims
    ensures victims !! NewIds(info) && victims <= TriedIds(info)
    ensures id in NewIds(info) && id !in TriedIds(info)
  {
  }

  lemma WithoutSizes(untried: seq<set<Id>>, id: Id)
    requires forall b :: 0 <= b < |untried| ==> |untried[b]| <= NEW_BUCKET_SIZE
    ensures forall b :: 0 <= b < |untried| ==> |Without(untried, id)[b]| <= NEW_BUCKET_SIZE
    ensures forall b :: 0 <= b < |untried| && id in untried[b] ==> |Without(untried, id)[b]| < NEW_BUCKET_SIZE
  {
  }

  lemma IdsStable(info: map<Id, Info>, info': map<Id, Info>, idCount: int)
    requires IdsOk(info, idCount) && SameIndex(info, info')
    ensures IdsOk(info', idCount) && NOBODY !in info
  {
  }

  lemma AppendPromotes(info: map<Id, Info>, id: Id)
    requires id in info && !info[id].inTried
    ensures Promotes(info, info[id := info[id].(refCount := 0, inTried := true)], id, {})
    ensures SameIndex(info, info[id := info[id].(refCount := 0, inTried := true)])
  {
  }

  lemma AppendKeepsInv(env: Env, s: State, id: Id)
    requires Inv(env, s) && id in s.info && !s.info[id].inTried
    requires |s.tried[Home(env, s, id)]| < TRIED_BUCKET_SIZE
    ensures Inv(env, Append(env, s, id))
  {
    hide RandomOk, AddrOk, UntriedOk, TriedOk, IdsOk, SameIndex, Promotes, NewIds, TriedIds;
    var s' := Append(env, s, id);
    AppendPromotes(s.info, id);
    IdsStable(s.info, s'.info, s.idCount);
    RandomStable(s.info, s'.info, s.random);
    AddrStable(s.info, s'.info, s.addr);
    PromoteKeepsUntried(s.info, s'.info, id, s.untried);
    PromoteKeepsTried(env, s.key, s.info, s'.info, id, s.tried);
    PromoteCounts(s.info, s'.info, id, {});
    WithoutSizes(s.untried, id);
  }

  lemma ReplacePromotes(info: map<Id, Info>, id: Id, victim: Id)
    requires id in info && !info[id].inTried && victim in info && info[victim].inTried
    ensures var info' := info[victim := info[victim].(inTried := false, refCount := 1)]
                             [id := info[id].(refCount := 0, inTried := true)];
      Promotes(info, info', id, {victim}) && SameIndex(info, info')
  {
  }

  lemma BucketEntry(env: Env, s: State, id: Id, v: seq<Id>, pos: nat)
    requires Inv(env, s) && id in s.info && Permuted(s.tried[Home(env, s, id)], v) && pos < |v|
    ensures v[pos] in s.info && s.info[v[pos]].inTried
  {
    assert v[pos] in v;
  }

  lemma ReplaceKeepsInv(env: Env, s: State, id: Id, origin: nat, v: seq<Id>, pos: nat)
    requires Inv(env, s) && origin < NEW_BUCKET_COUNT && id in s.info && !s.info[id].inTried
    requires id in s.untried[origin]
    requires Permuted(s.tried[Home(env, s, id)], v) && pos < |v|
    ensures v[pos] in s.info && s.info[v[pos]].inTried
    ensures Inv(env, Replace(env, s, id, origin, v, pos))
  {
    hide RandomOk, AddrOk, UntriedOk, TriedOk, IdsOk, SameIndex, Promotes, NewIds, TriedIds, Permuted;
    BucketEntry(env, s, id, v, pos);
    var victim := v[pos];
    var s' := Replace(env, s, id, origin, v, pos);
    ReplacePromotes(s.info, id, victim);
    IdsStable(s.info, s'.info, s.idCount);
    RandomStable(s.info, s'.info, s.random);
    AddrStable(s.info, s'.info, s.addr);
    EvictKeepsUntried(s.info, s'.info, id, victim, s.untried, EvictTo(env, s, id, origin, victim));
    EvictKeepsTried(env, s.key, s.info, s'.info, id, victim, s.tried, v, pos);
    PromoteCounts(s.info, s'.info, id, {victim});
    WithoutSizes(s.untried, id);
    PermutedLength(s.tried[Home(env, s, id)], v);
  }

  lemma PermutedLength(u: seq<Id>, v: seq<Id>)
    requires Permuted(u, v)
    ensures |u| == |v|
  {
  }

  lemma PermutedEntry(u: seq<Id>, v: seq<Id>, pos: int)
    requires Permuted(u, v) && (|u| > 0 ==> 0 <= pos < |u|) && |u| > 0
    ensures 0 <= pos < |v| && v[pos] in u
  {
    assert v[pos] in v;
  }

  lemma NewRecord(env: Env, s: State, id: Id, b: nat)
    requires Inv(env, s) && b < NEW_BUCKET_COUNT && id in s.untried[b]
    ensures id in s.info && !s.info[id].inTried
  {
    RefsPositive(s.untried, id);
  }

  lemma BucketKnown(env: Env, s: State, k: nat)
    requires Inv(env, s) && k < TRIED_BUCKET_COUNT
    ensures forall x :: x in s.tried[k] ==> x in s.info
    ensures NOBODY !in s.info
  {
  }

  /** Promotion keeps the invariant and the set of records; the number of tried records never drops;
      what leaves the tried buckets is at most one record, which is new afterwards. */
  lemma MakeTriedKeepsInv(env: Env, s: State, id: Id, origin: nat, tape: seq<nat>)
    requires Inv(env, s) && origin < NEW_BUCKET_COUNT && id in s.untried[origin]
    ensures var s' := MakeTried(env, s, id, origin, tape);
      && Inv(env, s')
      && id in s.info && !s.info[id].inTried
      && (if |s.tried[Home(env, s, id)]| < TRIED_BUCKET_SIZE
          then Promotes(s.info, s'.info, id, {}) && s'.nTried == s.nTried + 1
          else (exists victim :: victim in s.tried[Home(env, s, id)] && Promotes(s.info, s'.info, id, {victim}))
               && s'.nTried == s.nTried)
      && s' == s.(info := s'.info, tried := s'.tried, untried := s'.untried, nNew := s'.nNew, nTried := s'.nTried)
  {
    hide RandomOk, AddrOk, UntriedOk, TriedOk, IdsOk, SameIndex, Promotes, Permuted;
    NewRecord(env, s, id, origin);
    var v := s.tried[Home(env, s, id)];
    BucketKnown(env, s, Home(env, s, id));
    if |v| < TRIED_BUCKET_SIZE {
      AppendPromotes(s.info, id);
      AppendKeepsInv(env, s, id);
    } else {
      var sel := SelectTried(v, s.info, tape);
      SelectFromPermutes(v, s.info, tape, 0, NOBODY, -1);
      PermutedEntry(v, sel.bucket, sel.pos);
      BucketEntry(env, s, id, sel.bucket, sel.pos);
      ReplacePromotes(s.info, id, sel.bucket[sel.pos]);
      ReplaceKeepsInv(env, s, id, origin, sel.bucket, sel.pos);
    }
  }
}
