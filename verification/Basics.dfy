/** Small notions that several components share. */
module Basics {

  type byte = bv8

  /** Time since an instant, zero if the clock has not reached it. */
  function Age(since: nat, now: nat): nat {
    if now >= since then now - since else 0
  }

  lemma {:induction false} SubsetSize<T>(a: set<T>, b: set<T>)
    requires a <= b
    ensures |a| <= |b|
    ensures |a| == |b| ==> a == b
  {
    if a == {} {
    } else {
      var x :| x in a;
      SubsetSize(a - {x}, b - {x});
    }
  }
}
