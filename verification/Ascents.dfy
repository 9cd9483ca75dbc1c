/** Finite sets of integers listed in ascending order. */
module Ascents {

  ghost predicate IsMax(s: set<int>, m: int)
  {
    m in s && forall x :: x in s ==> x <= m
  }

  lemma Member(s: set<int>) returns (x: int)
    requires s != {}
    ensures x in s
  {
    assert (forall y :: y !in s) ==> s == {};
    x :| x in s;
  }

  lemma {:induction false} MaxExists(s: set<int>)
    requires s != {}
    ensures exists m :: IsMax(s, m)
  {
    var x := Member(s);
    if s == {x} {
      assert IsMax(s, x);
    } else {
      MaxExists(s - {x});
      var m :| IsMax(s - {x}, m);
      assert forall y :: y in s ==> y == x || y in s - {x};
      assert IsMax(s, if x > m then x else m);
    }
  }

  /** The elements of a set, each once, in ascending order. */
  ghost function Ascending(s: set<int>): (r: seq<int>)
  {
    if s == {} then []
    else
      MaxExists(s);
      var m :| IsMax(s, m);
      Ascending(s - {m}) + [m]
  }

  lemma {:induction false} AscendingElements(s: set<int>)
    ensures forall x :: x in Ascending(s) <==> x in s
  {
    if s != {} {
      MaxExists(s);
      var m :| IsMax(s, m) && Ascending(s) == Ascending(s - {m}) + [m];
      AscendingElements(s - {m});
    }
  }

  predicate StrictlyAscending(s: seq<int>)
  {
    forall i, j :: 0 <= i < j < |s| ==> s[i] < s[j]
  }

  lemma {:induction false} AscendingIsStrict(s: set<int>)
    ensures StrictlyAscending(Ascending(s))
  {
    if s != {} {
      MaxExists(s);
      var m :| IsMax(s, m) && Ascending(s) == Ascending(s - {m}) + [m];
      AscendingIsStrict(s - {m});
      AscendingElements(s - {m});
      forall i | 0 <= i < |Ascending(s - {m})|
        ensures Ascending(s - {m})[i] < m
      {
        assert Ascending(s - {m})[i] in s - {m};
      }
    }
  }

  /** Only one list is strictly ascending and has exactly the set's elements. */
  lemma {:induction false} AscendingIsUnique(r: seq<int>, s: set<int>)
    requires StrictlyAscending(r) && forall x :: x in r <==> x in s
    ensures r == Ascending(s)
    decreases |r|
  {
    if r == [] {
      assert forall x :: x in s ==> x in r;
      assert (forall x :: x !in s) ==> s == {};
    } else {
      assert r[0] in r;
      MaxExists(s);
      var m :| IsMax(s, m) && Ascending(s) == Ascending(s - {m}) + [m];
      LastIsMax(r, s, m);
      AscendingIsUnique(r[..|r| - 1], s - {m});
    }
  }

  lemma LastIsMax(r: seq<int>, s: set<int>, m: int)
    requires r != [] && StrictlyAscending(r) && (forall x :: x in r <==> x in s) && IsMax(s, m)
    ensures r == r[..|r| - 1] + [m] && StrictlyAscending(r[..|r| - 1])
    ensures forall x :: x in r[..|r| - 1] <==> x in s - {m}
  {
    var front, last := r[..|r| - 1], r[|r| - 1];
    assert last in r && m in r;
    assert r == front + [last];
  }

  method InsertAscending(s: seq<int>, x: int) returns (r: seq<int>)
    requires StrictlyAscending(s) && x !in s
    ensures StrictlyAscending(r) && forall y :: y in r <==> y in s || y == x
  {
    var i := 0;
    while i < |s| && s[i] < x
      invariant 0 <= i <= |s| && forall j :: 0 <= j < i ==> s[j] < x
    {
      i := i + 1;
    }
    r := s[..i] + [x] + s[i..];
    assert forall j :: i <= j < |s| ==> x < s[j];
    InsertedAscends(s, i, x);
    InsertedMembers(s, i, x);
  }

  lemma InsertedAscends(s: seq<int>, i: nat, x: int)
    requires i <= |s| && StrictlyAscending(s)
    requires (forall j :: 0 <= j < i ==> s[j] < x) && forall j :: i <= j < |s| ==> x < s[j]
    ensures StrictlyAscending(s[..i] + [x] + s[i..])
  {
  }

  lemma InsertedMembers(s: seq<int>, i: nat, x: int)
    requires i <= |s|
    ensures forall y :: y in s[..i] + [x] + s[i..] <==> y in s || y == x
  {
    assert s == s[..i] + s[i..];
  }

  /** Visits the elements in any order; the result does not depend on it. */
  method ListAscending(s: set<int>) returns (r: seq<int>)
    ensures r == Ascending(s)
  {
    r := [];
    var rest := s;
    while rest != {}
      invariant rest <= s && StrictlyAscending(r)
      invariant forall x :: x in r <==> x in s - rest
      decreases |rest|
    {
      assert (forall y :: y !in rest) ==> rest == {};
      var x :| x in rest;
      r := InsertAscending(r, x);
      rest := rest - {x};
    }
    AscendingIsUnique(r, s);
  }
}
