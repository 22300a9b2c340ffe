/** Sizes of sets, which bound every worklist, depth and search here. */
module Sizes {

  lemma {:induction false} SubsetSize<T>(few: set<T>, many: set<T>)
    requires few <= many
    ensures |few| <= |many|
    ensures few != many ==> |few| < |many|
    decreases few
  {
    if few != {} {
      var x :| x in few;
      SubsetSize(few - {x}, many - {x});
      assert few == many || few - {x} != many - {x};
    }
  }
}
