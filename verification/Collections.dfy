/** Facts about sequences without repetition and about the sizes of sets. */
module Collections {

  ghost predicate Distinct(q: seq<nat>) {
    forall i, j :: 0 <= i < j < |q| ==> q[i] != q[j]
  }

  /** The sequence without its entry i. */
  function Without(q: seq<nat>, i: nat): seq<nat>
    requires i < |q|
  {
    q[..i] + q[i + 1..]
  }

  lemma WithoutContents(q: seq<nat>, i: nat)
    requires i < |q| && Distinct(q)
    ensures Distinct(Without(q, i)) && forall p :: p in Without(q, i) <==> p in q && p != q[i]
  {
    var r := Without(q, i);
    forall p | p in q && p != q[i] ensures p in r {
      var k :| 0 <= k < |q| && q[k] == p;
      assert r[if k < i then k else k - 1] == p;
    }
  }

  lemma {:induction false} DistinctBound(q: seq<nat>, n: nat)
    requires Distinct(q) && forall i :: 0 <= i < |q| ==> q[i] < n
    ensures |q| <= n
    decreases n
  {
    if q != [] {
      assert q[0] < n;
      if i :| 0 <= i < |q| && q[i] == n - 1 {
        WithoutContents(q, i);
        var r := Without(q, i);
        forall k | 0 <= k < |r| ensures r[k] < n - 1 { assert r[k] in r && r[k] in q; }
        DistinctBound(r, n - 1);
      } else {
        DistinctBound(q, n - 1);
      }
    }
  }

  /** A sequence without repetition is no longer than one that has all its elements. */
  lemma DistinctWithin(q: seq<nat>, r: seq<nat>)
    requires Distinct(q) && forall i :: 0 <= i < |q| ==> q[i] in r
    ensures |q| <= |r|
  {
    var at := seq(|q|, i requires 0 <= i < |q| => IndexOf(r, q[i]));
    forall i, j | 0 <= i < j < |at| ensures at[i] != at[j] {
      assert r[at[i]] == q[i] && r[at[j]] == q[j];
    }
    DistinctBound(at, |r|);
  }

  ghost function IndexOf(q: seq<nat>, x: nat): (i: nat)
    requires x in q
    ensures i < |q| && q[i] == x
  {
    var i :| 0 <= i < |q| && q[i] == x; i
  }

  lemma SubsetSize<T>(a: set<T>, b: set<T>)
    requires a <= b
    ensures |a| <= |b| && (|a| == |b| ==> a == b)
  {
    assert b == a + (b - a);
  }

  lemma {:induction false} DistinctSize(q: seq<nat>, all: set<nat>)
    requires Distinct(q) && forall x :: x in all <==> x in q
    ensures |all| == |q|
    decreases |q|
  {
    if q != [] {
      WithoutContents(q, 0);
      assert all == (all - {q[0]}) + {q[0]};
      DistinctSize(Without(q, 0), all - {q[0]});
    } else {
      assert all == {};
    }
  }

  predicate Between(lo: nat, i: nat, hi: nat) {
    lo <= i < hi
  }

  function Range(lo: nat, hi: nat): set<nat> {
    set i: nat | i < hi && Between(lo, i, hi)
  }

  lemma {:induction false} RangeSize(lo: nat, hi: nat)
    requires lo <= hi
    ensures |Range(lo, hi)| == hi - lo
    decreases hi
  {
    if lo < hi {
      RangeSize(lo, hi - 1);
      assert Range(lo, hi) == Range(lo, hi - 1) + {hi - 1};
    } else {
      assert Range(lo, hi) == {};
    }
  }
}
