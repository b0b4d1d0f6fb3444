/** Reading the elements of a set one after the other, in whatever order they come. */
module Listings {
  import opened Texts

  /** Every element once. */
  ghost predicate Lists<T(!new)>(listing: seq<T>, elements: set<T>) {
    Distinct(listing) && forall x :: x in listing <==> x in elements
  }

  method List<T(==, !new)>(elements: set<T>) returns (listing: seq<T>)
    ensures Lists(listing, elements) && |listing| == |elements|
  {
    listing := [];
    var rest := elements;
    while rest != {}
      invariant rest <= elements && Distinct(listing) && |listing| + |rest| == |elements|
      invariant forall x :: x in listing <==> x in elements && x !in rest
      decreases |rest|
    {
      var x :| x in rest;
      listing := listing + [x];
      rest := rest - {x};
    }
  }
}
