// The vectors that the graph library hands out: the members of a set, each once, in some order.
module Listing {

  ghost predicate Distinct<T>(list: seq<T>) {
    forall i, j :: 0 <= i < j < |list| ==> list[i] != list[j]
  }

  method Enumerate<T(==)>(members: set<T>) returns (list: seq<T>)
    ensures Distinct(list) && forall x :: x in list <==> x in members
  {
    var rest := members;
    list := [];
    while rest != {}
      invariant rest <= members && Distinct(list)
      invariant forall x :: x in list <==> x in members - rest
      decreases rest
    {
      var x :| x in rest;
      assert x !in list;
      list := list + [x];
      rest := rest - {x};
    }
  }
}
