/** Cardinalities. */
module Sets {

  /** A list without repetitions has as many elements as entries. */
  lemma {:induction false} DistinctSize<T>(s: seq<T>)
    requires forall i, j | 0 <= i < j < |s| :: s[i] != s[j]
    ensures |set x | x in s| == |s|
  {
    if s == [] {
    } else {
      var k := |s| - 1;
      DistinctSize(s[..k]);
      assert (set x | x in s) == (set x | x in s[..k]) + {s[k]};
    }
  }

  lemma {:induction false} SubsetSize<T>(a: set<T>, b: set<T>)
    requires a <= b
    ensures |a| <= |b|
    decreases a
  {
    if a == {} {
    } else {
      var x :| x in a;
      SubsetSize(a - {x}, b - {x});
    }
  }

  /** The numbers from 1 to n. */
  ghost function UpTo(n: nat): (s: set<int>)
    ensures |s| == n && forall i :: i in s <==> 1 <= i <= n
  {
    if n == 0 then {} else UpTo(n - 1) + {n}
  }

  /** An initial segment of the positive numbers has k elements exactly when it reaches k. */
  lemma InitialSize(ids: set<int>, k: nat)
    requires k >= 1 && forall i, j | i in ids && 1 <= j <= i :: j in ids
    requires forall i | i in ids :: i >= 1
    ensures |ids| >= k <==> k in ids
  {
    if k in ids {
      SubsetSize(UpTo(k), ids);
    } else {
      assert forall i | i in ids :: i < k;
      SubsetSize(ids, UpTo(k - 1));
    }
  }
}
