/** Quorum arithmetic on finite member sets. */
module Majority {

  function Required(size: nat): nat {
    size / 2 + 1
  }

  lemma SubsetSize<T(!new)>(a: set<T>, b: set<T>)
    requires a <= b
    ensures |a| <= |b|
  {
    assert b == a + (b - a);
  }

  /** Two majorities of the same members share one. */
  lemma MajoritiesMeet<T(!new)>(a: set<T>, b: set<T>, members: set<T>)
    requires a <= members && b <= members
    requires |a| >= Required(|members|) && |b| >= Required(|members|)
    ensures a * b != {}
  {
    if a * b == {} {
      assert |a + b| == |a| + |b|;
      SubsetSize(a + b, members);
    }
  }
}
