/** Sequence facts shared by the codec, the pause filter and the synchroniser. */
module Seqs {

  predicate StrictlyIncreasing(s: seq<int>) {
    forall i, j :: 0 <= i < j < |s| ==> s[i] < s[j]
  }

  predicate NonDecreasing(s: seq<int>) {
    forall i, j :: 0 <= i < j < |s| ==> s[i] <= s[j]
  }

  /** `n` copies of `x`: what a numpy slice assignment of a scalar writes. */
  function Repeat<T>(x: T, n: nat): (r: seq<T>)
    ensures |r| == n
    ensures forall i :: 0 <= i < n ==> r[i] == x
  {
    seq(n, _ => x)
  }

  /** Sum of a sequence, folded from the right end. */
  function Sum(s: seq<int>): int {
    if |s| == 0 then 0 else Sum(s[..|s| - 1]) + s[|s| - 1]
  }

  /** Differences of consecutive entries: the lengths of the runs a timestamp sequence delimits. */
  function Gaps(ts: seq<int>): seq<int>
    requires |ts| > 0
  {
    seq(|ts| - 1, k requires 0 <= k < |ts| - 1 => ts[k + 1] - ts[k])
  }

  /** The indices in [lo, hi) satisfying `p`, in increasing order: numpy's `np.where` of a mask. */
  function IndicesWhere(p: nat -> bool, lo: nat, hi: nat): (r: seq<nat>)
    requires lo <= hi
    ensures StrictlyIncreasing(r)
    ensures forall k :: 0 <= k < |r| ==> lo <= r[k] < hi && p(r[k])
    ensures forall i :: lo <= i < hi && p(i) ==> i in r
    decreases hi - lo
  {
    if lo == hi then []
    else if p(lo) then [lo] + IndicesWhere(p, lo + 1, hi)
    else IndicesWhere(p, lo + 1, hi)
  }

  /** Every point of [ts[0], last) lies in exactly one half-open run [ts[k-1], ts[k]). */
  lemma Locate(ts: seq<int>, j: int) returns (k: nat)
    requires |ts| > 0 && NonDecreasing(ts) && ts[0] <= j < ts[|ts| - 1]
    ensures 1 <= k < |ts| && ts[k - 1] <= j < ts[k]
  {
    k := 1;
    while ts[k] <= j
      invariant 1 <= k < |ts|
      invariant ts[k - 1] <= j
      decreases |ts| - k
    {
      k := k + 1;
    }
  }

  /** The run lengths of a timestamp sequence add up to the span it covers. */
  lemma {:induction false} SumOfGaps(ts: seq<int>)
    requires |ts| > 0
    ensures Sum(Gaps(ts)) == ts[|ts| - 1] - ts[0]
    decreases |ts|
  {
    if |ts| > 1 {
      var front := ts[..|ts| - 1];
      SumOfGaps(front);
      assert Gaps(ts)[..|ts| - 2] == Gaps(front);
    }
  }

  /** A sequence with no step between neighbours in (a, b) is constant on [a, b). */
  lemma {:induction false} ConstantRun<T>(d: seq<T>, a: nat, b: nat)
    requires a < b <= |d|
    requires forall i :: a < i < b ==> d[i - 1] == d[i]
    ensures forall j :: a <= j < b ==> d[j] == d[a]
    decreases b - a
  {
    if b - 1 > a {
      ConstantRun(d, a, b - 1);
      assert d[b - 2] == d[b - 1];
    }
  }

  /** Two increasing sequences holding the same elements are the same sequence. */
  lemma {:induction false} IncreasingByElements(a: seq<int>, b: seq<int>)
    requires StrictlyIncreasing(a) && StrictlyIncreasing(b)
    requires forall x :: x in a <==> x in b
    ensures a == b
    decreases |a|
  {
    assert |a| > 0 ==> a[0] in a;
    assert |b| > 0 ==> b[0] in b;
    if |a| > 0 && |b| > 0 {
      assert a[0] in b && b[0] in a;
      assert a[0] == b[0];
      forall x
        ensures x in a[1..] <==> x in b[1..]
      {
        if x in a[1..] {
          assert x in b;
          assert x > a[0];
        }
        if x in b[1..] {
          assert x in a;
          assert x > b[0];
        }
      }
      IncreasingByElements(a[1..], b[1..]);
      assert a == [a[0]] + a[1..];
      assert b == [b[0]] + b[1..];
    }
  }

  /** How often a value occurs in a constant stretch: its length if it is that value, else never. */
  lemma {:induction false} CountInConstant<T>(s: seq<T>, x: T, y: T)
    requires forall i :: 0 <= i < |s| ==> s[i] == x
    ensures multiset(s)[y] == if x == y then |s| else 0
    decreases |s|
  {
    if |s| > 0 {
      var front := s[..|s| - 1];
      CountInConstant(front, x, y);
      assert s == front + [s[|s| - 1]];
    }
  }

  /** Counting a value over a series cut into constant runs: each run labelled with the value
      contributes its length, every other run nothing. */
  lemma {:induction false} CountOverRuns<T>(d: seq<T>, ts: seq<nat>, labels: seq<T>, w: T, contrib: seq<int>)
    requires |ts| == |labels| + 1 && |contrib| == |labels|
    requires ts[0] == 0 && NonDecreasing(ts) && ts[|labels|] == |d|
    requires forall k {:trigger contrib[k]} :: 0 <= k < |labels| ==>
      contrib[k] == if labels[k] == w then ts[k + 1] - ts[k] else 0
    requires forall k, p :: 0 <= k < |labels| && ts[k] <= p < ts[k + 1] ==> d[p] == labels[k]
    ensures multiset(d)[w] == Sum(contrib)
    decreases |labels|
  {
    var n := |labels|;
    if n > 0 {
      var cut := ts[n - 1];
      var front := d[..cut];
      var last := d[cut..];
      CountOverRuns(front, ts[..n], labels[..n - 1], w, contrib[..n - 1]);
      CountInConstant(last, labels[n - 1], w);
      assert d == front + last;
      assert contrib[..n - 1] == contrib[..|contrib| - 1];
    } else {
      assert d == [];
    }
  }
}
