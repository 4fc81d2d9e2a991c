/** Counting facts shared by the machines. */
module Pigeonhole {

  /** Distinct numbers below n: no more than n of them. */
  lemma {:induction false} DistinctBelow(q: seq<nat>, n: nat)
    requires forall i, j | 0 <= i < j < |q| :: q[i] != q[j]
    requires forall i | 0 <= i < |q| :: q[i] < n
    ensures |q| <= n
  {
    if q != [] {
      assert q[0] < n;
      if k :| 0 <= k < |q| && q[k] == n - 1 {
        var r := q[..k] + q[k + 1..];
        forall i, j | 0 <= i < j < |r| ensures r[i] != r[j] {
          assert r[i] == q[if i < k then i else i + 1] && r[j] == q[if j < k then j else j + 1];
        }
        forall i | 0 <= i < |r| ensures r[i] < n - 1 {
          assert r[i] == q[if i < k then i else i + 1];
        }
        DistinctBelow(r, n - 1);
      } else {
        DistinctBelow(q, n - 1);
      }
    }
  }

  lemma {:induction false} SubsetSize<T>(a: set<T>, b: set<T>)
    requires a <= b
    ensures |a| <= |b|
  {
    if x :| x in a {
      SubsetSize(a - {x}, b - {x});
    }
  }

  ghost predicate IsBelow(i: nat, n: nat) { i < n }

  ghost function Below(n: nat): set<nat> { set i: nat | i < n && IsBelow(i, n) }

  lemma {:induction false} BelowSize(n: nat)
    ensures |Below(n)| == n
  {
    if n > 0 {
      BelowSize(n - 1);
      assert Below(n) == Below(n - 1) + {n - 1};
    }
  }
}
