/** Finite sets of integers. */
module Sets {

  lemma {:induction false} HasMinimum(s: set<int>) returns (least: int)
    requires s != {}
    ensures least in s && forall i :: i in s ==> least <= i
    decreases |s|
  {
    assert (forall x :: x !in s) ==> s == {};
    least :| least in s;
    var rest := s - {least};
    if rest != {} {
      var other := HasMinimum(rest);
      assert forall i :: i in s ==> i == least || i in rest;
      if other < least {
        least := other;
      }
    } else {
      assert forall i :: i in s ==> i == least || i in rest;
    }
  }

  ghost function Least(s: set<int>): (k: int)
    requires s != {}
    ensures k in s && forall l :: l in s ==> k <= l
  {
    assert exists k :: k in s && forall l :: l in s ==> k <= l by {
      var k := HasMinimum(s);
    }
    var k :| k in s && forall l :: l in s ==> k <= l;
    k
  }

  lemma SubsetSize<T>(small: set<T>, large: set<T>)
    requires small <= large
    ensures |small| <= |large|
  {
    assert large == small + (large - small);
  }

  lemma {:induction false} RangeSize(s: set<int>, low: int, size: nat)
    requires forall i :: i in s ==> low <= i < low + size
    ensures |s| <= size
    decreases size
  {
    if size > 0 {
      RangeSize(s - {low}, low + 1, size - 1);
    } else {
      assert s == {};
    }
  }
}
