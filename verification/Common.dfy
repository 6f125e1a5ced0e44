/** Definitions shared by every component of the model. */
module Common {
  datatype Option<+T> = None | Some(value: T)

  datatype Result<+T, +E> = Success(value: T) | Failure(error: E)

  /** The number of values of a 64-bit counter. */
  const WORD: nat := 0x1_0000_0000_0000_0000

  function Min(a: int, b: int): int { if a <= b then a else b }

  function Max(a: int, b: int): int { if a <= b then b else a }

  /** A percentage cap over a fleet, never below one: `(n * percent / 100).max(1)`. */
  function PercentCap(n: nat, percent: nat): nat { Max(1, n * percent / 100) }

  /** The largest number of members that is within the percentage, or one when that would be none. */
  lemma PercentCapIsLargest(n: nat, percent: nat)
    ensures var cap := PercentCap(n, percent);
            && 1 <= cap && n * percent < 100 * (cap + 1)
            && (100 * cap <= n * percent || cap == 1)
  {
  }

  /** A percentage below 100 leaves at least one member of a fleet of two or more outside the cap. */
  lemma PercentCapLeavesOne(n: nat, percent: nat)
    requires n >= 2 && percent < 100
    ensures PercentCap(n, percent) < n
  {
    assert n * percent <= n * 99;
  }

  /** A proper subset of `0..n` misses some index. */
  lemma SmallerSetMisses(s: set<nat>, n: nat) returns (i: nat)
    requires |s| < n
    ensures i < n && i !in s
  {
    if n - 1 in s {
      i := SmallerSetMisses(s - {n - 1}, n - 1);
    } else {
      i := n - 1;
    }
  }

  lemma IndexSetSize(s: set<nat>, n: nat)
    requires forall i | i in s :: i < n
    ensures |s| <= n
  {
    if n > 0 {
      IndexSetSize(s - {n - 1}, n - 1);
    }
  }

  lemma SubsetSize<T>(a: set<T>, b: set<T>)
    requires a <= b
    ensures |a| <= |b|
  {
    assert b == a + (b - a);
  }

  /** Two sets that agree everywhere but at `i` differ in size by what happens at `i`. */
  lemma SizesDiffer<T(!new)>(a: set<T>, b: set<T>, i: T)
    requires forall j | j != i :: j in a <==> j in b
    ensures |b| - |a| == (if i in b then 1 else 0) - (if i in a then 1 else 0)
  {
    assert a - {i} == b - {i};
    assert |a| == |a - {i}| + if i in a then 1 else 0;
    assert |b| == |b - {i}| + if i in b then 1 else 0;
  }

  function Sum(s: seq<nat>): nat { if s == [] then 0 else Sum(s[..|s| - 1]) + s[|s| - 1] }

  lemma SumAppend(s: seq<nat>, x: nat)
    ensures Sum(s + [x]) == Sum(s) + x
  {
    assert (s + [x])[..|s|] == s;
  }

  lemma MultisetCancel<T(!new)>(x: T, a: multiset<T>, b: multiset<T>)
    requires multiset{x} + a == multiset{x} + b
    ensures a == b
  {
    forall e ensures a[e] == b[e] {
      assert (multiset{x} + a)[e] == (multiset{x} + b)[e];
    }
  }
}
