/** Sets as sequences: the order in which a program goes through a set, and how many members the set has. */
module Enumeration {
  ghost predicate Distinct<T>(order: seq<T>) {
    forall i, j :: 0 <= i < j < |order| ==> order[i] != order[j]
  }

  /** Every member of the set, once, in some order. */
  ghost predicate Listing<T(!new)>(order: seq<T>, members: set<T>) {
    Distinct(order) && forall x :: x in order <==> x in members
  }

  /** The members of a set or the keys of an object, one after the other. */
  method InSomeOrder<T(==,!new)>(members: set<T>) returns (order: seq<T>)
    ensures Listing(order, members)
  {
    order := [];
    var rest := members;
    while rest != {}
      invariant rest <= members && Listing(order, members - rest)
      decreases |rest|
    {
      var x :| x in rest;
      order := order + [x];
      rest := rest - {x};
    }
  }

  lemma {:induction false} EnumerationLength<T>(s: seq<T>, elements: set<T>)
    requires forall i, j :: 0 <= i < j < |s| ==> s[i] != s[j]
    requires forall x :: x in s <==> x in elements
    ensures |s| == |elements|
  {
    if s == [] {
      assert elements == {};
    } else {
      var m := |s| - 1;
      assert forall x :: x in s[..m] <==> x in elements - {s[m]};
      EnumerationLength(s[..m], elements - {s[m]});
      assert elements == (elements - {s[m]}) + {s[m]};
    }
  }

  lemma SubsetSize<T>(a: set<T>, b: set<T>)
    requires a <= b
    ensures |a| <= |b|
  {
    assert b == a + (b - a);
  }

  lemma EqualBySize<T>(a: set<T>, b: set<T>)
    requires a <= b && |a| == |b|
    ensures a == b
  {
    assert |b - a| == |b| - |a|;
  }
}
