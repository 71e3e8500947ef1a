/** Writing the records and the new buckets of a manager to the stream. */
module AddrWrite {
  import opened AddrTypes
  import opened AddrState
  import opened AddrSerial
  import opened Ids

  /** The new records are those with references. */
  ghost predicate RefsMarkNew(info: map<Id, Info>) {
    forall id :: id in info ==> (info[id].refCount != 0 <==> !info[id].inTried)
  }

  /** Write the records that have references, numbering every record passed on the way;
      stop once `nNew` of them are written. */
  method WriteNew(info: map<Id, Info>, nNew: int) returns (ids: map<Id, int>, out: seq<Token>)
    ensures RefsMarkNew(info) && nNew == |NewIds(info)| ==>
      && (forall x :: x in NewOrder(info) ==> x in info)
      && out == Records(info, NewOrder(info))
      && forall x :: x in NewOrder(info) ==> x in ids && ids[x] == Rank(NewOrder(info), x)
  {
    hide Sorted, Increasing, Numbered, RefsMarkNew, NewOrder, Records, Rank;
    var order := Sorted(info.Keys);
    out, ids := [], map[];
    var n := 0;
    var i := 0;
    IncreasingDistinct(order);
    NumberNone(info, order);
    while i < |order|
      invariant 0 <= i <= |order|
      invariant RefsMarkNew(info) ==> Numbered(info, order, i, n, ids, out)
    {
      if n == nNew { break; }
      assert order[i] in order;
      if RefsMarkNew(info) { NumberOne(info, order, i, n, ids, out); }
      ids := ids[order[i] := n];
      if info[order[i]].refCount != 0 {
        out := out + [TRecord(Keep(info[order[i]]))];
        n := n + 1;
      }
      i := i + 1;
    }
    if RefsMarkNew(info) && nNew == |NewIds(info)| {
      NumberedAll(info, order, i, n, ids, out);
    }
  }

  /** The state of the numbering after `i` identifiers. */
  ghost predicate Numbered(info: map<Id, Info>, order: seq<Id>, i: nat, n: int, ids: map<Id, int>, out: seq<Token>) {
    && i <= |order| && (forall x :: x in order ==> x in info)
    && PrefixKnown(info, order, i)
    && n == |Pick(order[..i], info, false)|
    && out == Records(info, Pick(order[..i], info, false))
    && (forall j :: 0 <= j < i ==> order[j] in ids && PrefixKnown(info, order, j) && ids[order[j]] == |Pick(order[..j], info, false)|)
    && Distinct(order)
  }

  ghost predicate PrefixKnown(info: map<Id, Info>, order: seq<Id>, i: nat) {
    && i <= |order|
    && (forall x :: x in order[..i] ==> x in info)
    && (forall x :: x in Pick(order[..i], info, false) ==> x in info)
  }

  lemma PrefixIsKnown(info: map<Id, Info>, order: seq<Id>, i: nat)
    requires i <= |order| && (forall x :: x in order ==> x in info)
    ensures PrefixKnown(info, order, i)
  {
    PickWithin(order[..i], info, false);
  }

  lemma {:induction false} PickWithin(order: seq<Id>, info: map<Id, Info>, tried: bool)
    requires forall x :: x in order ==> x in info
    ensures forall x :: x in Pick(order, info, tried) ==> x in order && info[x].inTried == tried
  {
    if order != [] { PickWithin(order[..|order| - 1], info, tried); }
  }

  lemma NumberNone(info: map<Id, Info>, order: seq<Id>)
    requires Distinct(order) && forall x :: x in order ==> x in info
    ensures Numbered(info, order, 0, 0, map[], [])
  {
    assert order[..0] == [];
  }

  lemma NumberOne(info: map<Id, Info>, order: seq<Id>, i: nat, n: int, ids: map<Id, int>, out: seq<Token>)
    requires i < |order| && Numbered(info, order, i, n, ids, out) && RefsMarkNew(info)
    ensures order[i] in info
    ensures var isNew := info[order[i]].refCount != 0;
      Numbered(info, order, i + 1, if isNew then n + 1 else n, ids[order[i] := n],
               if isNew then out + [TRecord(Keep(info[order[i]]))] else out)
  {
    hide Pick, Records, Distinct;
    assert order[i] in order;
    PrefixIsKnown(info, order, i + 1);
    PickNext(info, order, i);
    if info[order[i]].refCount != 0 { RecordsNext(info, Pick(order[..i], info, false), order[i]); }
    DistinctBefore(order, i);
  }

  lemma PickNext(info: map<Id, Info>, order: seq<Id>, i: nat)
    requires i < |order| && forall x :: x in order ==> x in info
    ensures order[i] in info
    ensures Pick(order[..i + 1], info, false)
         == if info[order[i]].inTried then Pick(order[..i], info, false) else Pick(order[..i], info, false) + [order[i]]
  {
    assert order[..i + 1][..i] == order[..i];
    assert order[..i + 1][i] == order[i];
  }

  lemma RecordsNext(info: map<Id, Info>, ids: seq<Id>, id: Id)
    requires (forall x :: x in ids ==> x in info) && id in info
    ensures forall x :: x in ids + [id] ==> x in info
    ensures Records(info, ids + [id]) == Records(info, ids) + [TRecord(Keep(info[id]))]
  {
  }

  lemma DistinctBefore(order: seq<Id>, i: nat)
    requires Distinct(order) && i < |order|
    ensures forall j :: 0 <= j < i ==> order[j] != order[i]
  {
  }

  lemma NumberedAll(info: map<Id, Info>, order: seq<Id>, i: nat, n: int, ids: map<Id, int>, out: seq<Token>)
    requires order == Sorted(info.Keys) && Numbered(info, order, i, n, ids, out)
    requires i == |order| || n == |NewIds(info)|
    ensures forall x :: x in NewOrder(info) ==> x in info
    ensures out == Records(info, NewOrder(info))
    ensures forall x :: x in NewOrder(info) ==> x in ids && ids[x] == Rank(NewOrder(info), x)
  {
    hide Sorted;
    OrderFacts(info);
    PickPrefix(order, info, false, i);
    if i == |order| { assert order[..i] == order; }
    assert Pick(order[..i], info, false) == NewOrder(info);
    forall x | x in NewOrder(info) ensures x in ids && ids[x] == Rank(NewOrder(info), x) {
      PickWithin(order[..i], info, false);
      var j :| 0 <= j < i && order[j] == x;
      RankInPick(order, info, i, j);
    }
  }

  /** The position of a new record in the order is the number of new records before it. */
  lemma RankInPick(order: seq<Id>, info: map<Id, Info>, i: nat, j: nat)
    requires Distinct(order) && j < i <= |order| && (forall x :: x in order ==> x in info)
    requires !info[order[j]].inTried
    ensures order[j] in Pick(order[..i], info, false)
    ensures Rank(Pick(order[..i], info, false), order[j]) == |Pick(order[..j], info, false)|
  {
    var k := |Pick(order[..j], info, false)|;
    assert order[..j + 1][..j] == order[..j];
    assert order[..i][..j + 1] == order[..j + 1];
    assert order[..j + 1][j] == order[j];
    PickPrefix(order[..i], info, false, j + 1);
    var all := Pick(order[..i], info, false);
    assert all[k] == order[j];
    PickDistinct(order[..i], info, false);
    RankUnique(all, k);
  }

  lemma {:induction false} PickDistinct(order: seq<Id>, info: map<Id, Info>, tried: bool)
    requires Distinct(order) && (forall x :: x in order ==> x in info)
    ensures Distinct(Pick(order, info, tried))
  {
    if order != [] {
      var n := |order| - 1;
      PickDistinct(order[..n], info, tried);
      PickWithin(order[..n], info, tried);
      assert order[n] !in order[..n];
    }
  }

  /** Write the tried records; stop once `nTried` of them are written. */
  method WriteTried(info: map<Id, Info>, nTried: int) returns (out: seq<Token>)
    ensures nTried == |TriedIds(info)| ==>
      && (forall x :: x in TriedOrder(info) ==> x in info)
      && out == Records(info, TriedOrder(info))
  {
    hide Sorted, Increasing, Listed, TriedOrder, Records;
    var order := Sorted(info.Keys);
    out := [];
    var n := 0;
    var i := 0;
    ListNone(info, order);
    while i < |order|
      invariant 0 <= i <= |order|
      invariant Listed(info, order, i, n, out)
    {
      if n == nTried { break; }
      assert order[i] in order;
      ListOne(info, order, i, n, out);
      if info[order[i]].inTried {
        out := out + [TRecord(Keep(info[order[i]]))];
        n := n + 1;
      }
      i := i + 1;
    }
    if nTried == |TriedIds(info)| {
      ListedAll(info, order, i, n, out);
    }
  }

  /** The tried records among the first `i` identifiers are written. */
  ghost predicate Listed(info: map<Id, Info>, order: seq<Id>, i: nat, n: int, out: seq<Token>) {
    && i <= |order| && (forall x :: x in order ==> x in info) && (forall x :: x in order[..i] ==> x in info)
    && (forall x :: x in Pick(order[..i], info, true) ==> x in info)
    && n == |Pick(order[..i], info, true)|
    && out == Records(info, Pick(order[..i], info, true))
  }

  lemma ListNone(info: map<Id, Info>, order: seq<Id>)
    requires forall x :: x in order ==> x in info
    ensures Listed(info, order, 0, 0, [])
  {
    assert order[..0] == [];
  }

  lemma ListOne(info: map<Id, Info>, order: seq<Id>, i: nat, n: int, out: seq<Token>)
    requires i < |order| && Listed(info, order, i, n, out)
    ensures order[i] in info
    ensures var tried := info[order[i]].inTried;
      Listed(info, order, i + 1, if tried then n + 1 else n,
             if tried then out + [TRecord(Keep(info[order[i]]))] else out)
  {
    assert order[i] in order;
    PickWithin(order[..i + 1], info, true);
    assert order[..i + 1][..i] == order[..i];
    assert order[..i + 1][i] == order[i];
  }

  lemma ListedAll(info: map<Id, Info>, order: seq<Id>, i: nat, n: int, out: seq<Token>)
    requires order == Sorted(info.Keys) && Listed(info, order, i, n, out)
    requires i == |order| || n == |TriedIds(info)|
    ensures forall x :: x in TriedOrder(info) ==> x in info
    ensures out == Records(info, TriedOrder(info))
  {
    hide Sorted;
    OrderFacts(info);
    PickPrefix(order, info, true, i);
    if i == |order| { assert order[..i] == order; }
    assert Pick(order[..i], info, true) == TriedOrder(info);
  }

  /** Write each new bucket as its size and the numbers of its records. */
  method WriteBuckets(untried: seq<set<Id>>, ids: map<Id, int>, ghost order: seq<Id>) returns (out: seq<Token>)
    ensures (forall b, x :: 0 <= b < |untried| && x in untried[b] ==> x in order && x in ids && ids[x] == Rank(order, x)) ==>
      out == Buckets(order, untried)
  {
    hide Sorted, Rank;
    out := [];
    ghost var good := forall b, x :: 0 <= b < |untried| && x in untried[b] ==> x in order && x in ids && ids[x] == Rank(order, x);
    var b := 0;
    while b < |untried|
      invariant 0 <= b <= |untried|
      invariant good ==> Buckets(order, untried) == out + Buckets(order, untried[b..])
    {
      var line := WriteBucket(untried[b], ids, order);
      assert good ==> untried[b..][0] == untried[b] && untried[b..][1..] == untried[b + 1..];
      out := out + line;
      b := b + 1;
    }
  }

  method WriteBucket(bucket: set<Id>, ids: map<Id, int>, ghost order: seq<Id>) returns (out: seq<Token>)
    ensures (forall x :: x in bucket ==> x in order && x in ids && ids[x] == Rank(order, x)) ==>
      out == [TInt(|bucket|)] + Indices(order, Sorted(bucket))
  {
    hide Sorted, Rank;
    ghost var good := forall x :: x in bucket ==> x in order && x in ids && ids[x] == Rank(order, x);
    var members := Sorted(bucket);
    out := [TInt(|bucket|)];
    var i := 0;
    while i < |members|
      invariant 0 <= i <= |members| && |out| == i + 1 && out[0] == TInt(|bucket|)
      invariant good ==> forall j :: 0 <= j < i ==> out[j + 1] == Indices(order, members)[j]
    {
      assert members[i] in members;
      var index := if members[i] in ids then ids[members[i]] else 0;
      out := out + [TInt(index)];
      i := i + 1;
    }
    assert good ==> out == [TInt(|bucket|)] + Indices(order, members);
  }
}
