/** Two counting helpers of the lock protocols. */
module Counting {

  ghost function One(b: bool): nat { if b then 1 else 0 }

  lemma {:induction false} SubsetSize<T>(a: set<T>, b: set<T>)
    requires a <= b
    ensures |a| <= |b|
  {
    if a == {} {
    } else {
      var x :| x in a;
      SubsetSize(a - {x}, b - {x});
    }
  }
}
