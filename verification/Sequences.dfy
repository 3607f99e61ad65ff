/** Sequences without repetition and their subsequences. */
module Sequences {

  /** `a` is `b` with some elements left out. */
  ghost predicate Subsequence<T>(a: seq<T>, b: seq<T>)
    decreases |b|
  {
    if a == [] then true
    else if b == [] then false
    else
      var n, m := |a| - 1, |b| - 1;
      (a[n] == b[m] && Subsequence(a[..n], b[..m])) || Subsequence(a, b[..m])
  }

  ghost predicate Distinct<T>(a: seq<T>) {
    forall j, k :: 0 <= j < k < |a| ==> a[j] != a[k]
  }

  /** In `a` every occurrence of `x` lies before every one of `y`. */
  ghost predicate Before<T>(a: seq<T>, x: T, y: T) {
    forall j, k :: 0 <= j < |a| && 0 <= k < |a| && a[j] == x && a[k] == y ==> j < k
  }

  lemma SubsequenceAppend<T>(a: seq<T>, b: seq<T>, x: T)
    requires Subsequence(a, b)
    ensures Subsequence(a + [x], b + [x]) && Subsequence(a, b + [x])
  {
    assert (a + [x])[..|a|] == a && (b + [x])[..|b|] == b;
  }

  lemma {:induction false} SubsequencePrefix<T>(a: seq<T>, b: seq<T>, n: nat)
    requires Subsequence(a, b) && n <= |a|
    ensures Subsequence(a[..n], b)
    decreases |b|
  {
    if n == |a| {
      assert a[..n] == a;
    } else {
      var m := |b| - 1;
      if Subsequence(a, b[..m]) {
        SubsequencePrefix(a, b[..m], n);
      } else {
        SubsequencePrefix(a[..|a| - 1], b[..m], n);
        assert a[..|a| - 1][..n] == a[..n];
      }
      assert b[..m] + [b[m]] == b;
      SubsequenceAppend(a[..n], b[..m], b[m]);
    }
  }

  /** A subsequence as long as the whole is the whole. */
  lemma {:induction false} SubsequenceWhole<T>(a: seq<T>, b: seq<T>)
    requires Subsequence(a, b)
    ensures |a| <= |b| && (|a| == |b| ==> a == b)
    decreases |b|
  {
    if a != [] {
      var n, m := |a| - 1, |b| - 1;
      assert a == a[..n] + [a[n]] && b == b[..m] + [b[m]];
      if Subsequence(a, b[..m]) {
        SubsequenceWhole(a, b[..m]);
      } else {
        SubsequenceWhole(a[..n], b[..m]);
      }
    }
  }

  /** Elements stand in the same order in the subsequence and in the whole. */
  lemma {:induction false} SubsequencePlaces<T>(a: seq<T>, b: seq<T>, p: nat, q: nat) returns (j: nat, k: nat)
    requires Subsequence(a, b) && p < q < |a|
    ensures j < k < |b| && b[j] == a[p] && b[k] == a[q]
    decreases |b|
  {
    var n, m := |a| - 1, |b| - 1;
    if Subsequence(a, b[..m]) {
      j, k := SubsequencePlaces(a, b[..m], p, q);
    } else if q < n {
      j, k := SubsequencePlaces(a[..n], b[..m], p, q);
    } else {
      j := SubsequencePlace(a[..n], b[..m], p);
      k := m;
    }
  }

  lemma {:induction false} SubsequencePlace<T>(a: seq<T>, b: seq<T>, p: nat) returns (j: nat)
    requires Subsequence(a, b) && p < |a|
    ensures j < |b| && b[j] == a[p]
    decreases |b|
  {
    var n, m := |a| - 1, |b| - 1;
    if Subsequence(a, b[..m]) {
      j := SubsequencePlace(a, b[..m], p);
    } else if p < n {
      j := SubsequencePlace(a[..n], b[..m], p);
    } else {
      j := m;
    }
  }

  lemma SubsequenceBefore<T>(a: seq<T>, b: seq<T>, p: nat, q: nat)
    requires Subsequence(a, b) && Distinct(b) && p < q < |a|
    ensures Before(b, a[p], a[q])
  {
    var j, k := SubsequencePlaces(a, b, p, q);
  }
}
