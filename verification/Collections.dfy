/** Small facts about built-in collections. */
module Collections {
  lemma SomeElement<T(!new)>(s: set<T>)
    requires s != {}
    ensures exists x :: x in s
  {
    assert (forall x :: x !in s) ==> s == {};
  }

  /** Any element of a set: Go ranges over a map in no particular order. */
  method AnyOf<T(!new, ==)>(s: set<T>) returns (x: T)
    requires s != {}
    ensures x in s
  {
    SomeElement(s);
    x :| x in s;
  }

  predicate Distinct<T(==)>(xs: seq<T>) {
    forall i, j :: 0 <= i < j < |xs| ==> xs[i] != xs[j]
  }

  /** Positions below `n` in ascending order. */
  predicate Positions(at: seq<nat>, n: nat) {
    (forall k :: 0 <= k < |at| ==> at[k] < n) && (forall j, k :: 0 <= j < k < |at| ==> at[j] < at[k])
  }

  lemma PositionsGrow(at: seq<nat>, n: nat)
    requires Positions(at, n)
    ensures Positions(at, n + 1) && Positions(at + [n], n + 1)
    ensures n !in at && forall i :: i in at + [n] <==> i in at || i == n
  {
  }
}
