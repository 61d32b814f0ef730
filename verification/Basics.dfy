/** What several of the modules use. */
module Basics {

  type Byte = b: int | 0 <= b < 256

  function MinOf(a: int, b: int): int { if a < b then a else b }

  lemma SubsetSize<T>(a: set<T>, b: set<T>)
    requires a <= b
    ensures |a| <= |b| && (|a| == |b| ==> a == b)
  {
    if a != {} {
      var x :| x in a;
      SubsetSize(a - {x}, b - {x});
    }
  }
}
