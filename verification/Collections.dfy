/** Sequences without repetition, and listing sets in some order. */
module Collections {

  predicate Distinct<T(==)>(xs: seq<T>) {
    forall i, j :: 0 <= i < j < |xs| ==> xs[i] != xs[j]
  }

  /** The members of a set in some order, as an iteration over a hash table or a directory yields them. */
  method List<T(==)>(items: set<T>) returns (order: seq<T>)
    ensures (forall x :: x in order <==> x in items) && Distinct(order)
  {
    order := [];
    var rest := items;
    while rest != {}
      invariant forall x :: x in items <==> x in rest || x in order
      invariant forall x :: x in order ==> x !in rest
      invariant Distinct(order)
      decreases |rest|
    {
      var x :| x in rest;
      rest := rest - {x};
      order := order + [x];
    }
  }
}
