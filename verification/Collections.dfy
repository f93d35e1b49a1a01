/**
 Facts about sequences, finite sets and remainders that several modules use.
 */
module Collections {

  /** `s` with the element at position `i` taken out. */
  function Without<T>(s: seq<T>, i: nat): (r: seq<T>)
    requires i < |s|
    ensures |r| == |s| - 1 && forall k {:trigger r[k]} :: 0 <= k < |r| ==> r[k] == s[if k < i then k else k + 1]
  {
    s[..i] + s[i + 1..]
  }

  /** The numbers from `lo` up to `hi`. */
  function Range(lo: nat, hi: nat): (r: set<nat>)
    requires lo <= hi
    ensures |r| == hi - lo && forall x :: x in r <==> lo <= x < hi
  {
    if lo == hi then {} else Range(lo, hi - 1) + {hi - 1}
  }

  /** There are no more than `n` numbers below `n`. */
  lemma {:induction false} BoundedSize(s: set<nat>, n: nat)
    requires forall x :: x in s ==> x < n
    ensures |s| <= n
  {
    if n == 0 {
      assert s == {};
    } else {
      BoundedSize(s - {n - 1}, n - 1);
    }
  }

  lemma {:induction false} SubsetSize(a: set<nat>, b: set<nat>)
    requires a <= b
    ensures |a| <= |b|
  {
    if x :| x in a {
      SubsetSize(a - {x}, b - {x});
    }
  }

  predicate Distinct(s: seq<nat>) {
    forall i, j :: 0 <= i < j < |s| ==> s[i] != s[j]
  }

  ghost function Elements(s: seq<nat>): set<nat> {
    set x | x in s
  }

  lemma {:induction false} ElementsCount(s: seq<nat>)
    requires Distinct(s)
    ensures |Elements(s)| == |s|
  {
    if |s| > 0 {
      var init, last := s[..|s| - 1], s[|s| - 1];
      assert Elements(s) == Elements(init) + {last};
      ElementsCount(init);
    }
  }

  /** A set inside one no larger is all of it. */
  lemma SameSize(a: set<nat>, b: set<nat>)
    requires a <= b && |b| <= |a|
    ensures a == b
  {
    if x :| x in b && x !in a {
      SubsetSize(a, b - {x});
    }
  }

  /** Two to the power `k`, `1 << k`. */
  function Pow2(k: nat): (p: nat)
    ensures p >= 1
  {
    if k == 0 then 1 else 2 * Pow2(k - 1)
  }

  /** A multiple of `n` other than 0 is at least `n` away from it. */
  lemma MultipleSize(d: int, n: int)
    requires n >= 0
    ensures (d >= 1 ==> d * n >= n) && (d <= -1 ==> d * n <= -n)
  {
  }

  /** Numbers less than `n` apart differ modulo `n`. */
  lemma SlotsDiffer(j: nat, k: nat, n: nat)
    requires 0 < k - j < n
    ensures j % n != k % n
  {
    var d := k / n - j / n;
    assert k - j == d * n + (k % n - j % n);
    MultipleSize(d, n);
  }
}
