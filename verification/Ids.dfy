/** Identifiers of records, and sets of them in increasing order, as ordered containers are traversed. */
module Ids {

  datatype Id = Id(n: int)

  ghost predicate Increasing(s: seq<Id>) {
    forall i, j :: 0 <= i < j < |s| ==> s[i].n < s[j].n
  }

  /** No identifier occurs twice. */
  ghost predicate Distinct(v: seq<Id>) { forall i, j :: 0 <= i < j < |v| ==> v[i] != v[j] }

  ghost predicate IsLeast(m: Id, s: set<Id>) {
    m in s && forall x | x in s :: m.n <= x.n
  }

  lemma {:induction false} HasLeast(s: set<Id>)
    requires s != {}
    ensures exists m :: IsLeast(m, s)
  {
    var x :| x in s;
    var rest := s - {x};
    if rest == {} {
      assert s == {x};
      assert IsLeast(x, s);
    } else {
      HasLeast(rest);
      var m :| IsLeast(m, rest);
      var least := if m.n <= x.n then m else x;
      forall y | y in s ensures least.n <= y.n {
        if y != x { assert y in rest; }
      }
      assert IsLeast(least, s);
    }
  }

  function Least(s: set<Id>): (m: Id)
    requires s != {}
    ensures IsLeast(m, s)
  {
    HasLeast(s);
    assert exists m :: m in s && forall x | x in s :: m.n <= x.n by {
      var m :| IsLeast(m, s);
    }
    var m :| m in s && forall x | x in s :: m.n <= x.n;
    m
  }

  /** The elements of `s`, each once, in increasing order. */
  function Sorted(s: set<Id>): (r: seq<Id>)
    ensures |r| == |s|
    ensures forall x :: x in r <==> x in s
    ensures Increasing(r)
  {
    if s == {} then []
    else
      var m := Least(s);
      var rest := Sorted(s - {m});
      var r := [m] + rest;
      assert Increasing(r) by {
        forall j | 0 <= j < |rest| ensures m.n < rest[j].n {
          assert rest[j] in s - {m};
        }
      }
      r
  }
}
