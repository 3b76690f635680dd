/** Facts about finite sets that more than one component needs. */
module Sets {
  lemma {:induction false} SubsetSize<T>(a: set<T>, b: set<T>)
    requires a <= b
    ensures |a| <= |b|
    ensures a != b ==> |a| < |b|
    decreases a
  {
    if a == {} {
      assert a != b ==> exists x :: x in b;
    } else {
      var x :| x in a;
      SubsetSize(a - {x}, b - {x});
      assert a != b ==> a - {x} != b - {x};
    }
  }
}
