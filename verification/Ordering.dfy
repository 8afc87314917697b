/** Iteration in ascending order, as `BTreeMap` and `BTreeSet` do it. */
module Ordering {

  /** No element occurs twice. */
  ghost predicate NoRepeats<A>(s: seq<A>) {
    forall i, j :: 0 <= i < j < |s| ==> s[i] != s[j]
  }

  ghost predicate Ascending(s: seq<nat>) {
    forall i, j :: 0 <= i < j < |s| ==> s[i] < s[j]
  }

  lemma {:induction false} LeastOf(s: set<nat>) returns (least: nat)
    requires s != {}
    ensures least in s && forall y :: y in s ==> least <= y
  {
    least :| least in s;
    var rest := s - {least};
    if rest != {} {
      var other := LeastOf(rest);
      assert forall y :: y in s ==> y == least || y in rest;
      if other < least { least := other; }
    } else {
      assert forall y :: y in s ==> y == least || y in rest;
    }
  }

  /** The keys in the order a `BTreeMap` yields them. */
  method AscendingKeys(keys: set<nat>) returns (s: seq<nat>)
    ensures Ascending(s) && forall x :: x in s <==> x in keys
  {
    s := [];
    var left := keys;
    while left != {}
      invariant left <= keys && Ascending(s)
      invariant forall x :: x in s <==> x in keys && x !in left
      invariant forall x, y :: x in s && y in left ==> x < y
    {
      ghost var least := LeastOf(left);
      assert forall i :: 0 <= i < |s| ==> s[i] in s;
      var x :| x in left && forall y :: y in left ==> x <= y;
      s, left := s + [x], left - {x};
    }
  }
}
