/** Small value types and sequence operations shared by the whole model:
    Option and Result for the program's `Option`/`Result` returns, Rust's
    integer ranges, and the `Vec` operations the program uses
    (`insert`, `remove`, `retain`, `swap_remove`, `rotate_left`). */
module Prelude {

  datatype Option<T> = None | Some(value: T)

  datatype Result<T> = Ok(value: T) | Err(msg: string)

  /** Rust's `lo..hi`: the naturals lo, lo+1, ..., hi-1. */
  function Range(lo: nat, hi: nat): (r: seq<nat>)
    ensures |r| == if lo <= hi then hi - lo else 0
    ensures forall k :: 0 <= k < |r| ==> r[k] == lo + k
    decreases hi - lo
  {
    if lo >= hi then [] else [lo] + Range(lo + 1, hi)
  }

  /** No element occurs twice. */
  predicate Distinct<T(==)>(s: seq<T>)
  {
    forall i, j :: 0 <= i < j < |s| ==> s[i] != s[j]
  }

  /** `s` lists each of 0..n-1 exactly once (the result of shuffling `0..n`). */
  predicate IsPermutation(s: seq<nat>, n: nat)
  {
    multiset(s) == multiset(Range(0, n))
  }

  /** The elements of s in the order perm lists their positions (`shuffle`
      with the drawn permutation). */
  function Permute<T>(s: seq<T>, perm: seq<nat>): (r: seq<T>)
    requires forall k :: 0 <= k < |perm| ==> perm[k] < |s|
    ensures |r| == |perm| && forall k :: 0 <= k < |perm| ==> r[k] == s[perm[k]]
  {
    seq(|perm|, k requires 0 <= k < |perm| => s[perm[k]])
  }

  /** A permutation of 0..n-1 has n distinct entries below n. */
  lemma PermutationFacts(perm: seq<nat>, n: nat)
    requires IsPermutation(perm, n)
    ensures |perm| == n && Distinct(perm) && forall k :: 0 <= k < |perm| ==> perm[k] < n
  {
    assert |perm| == |multiset(perm)| == |Range(0, n)|;
    forall k | 0 <= k < |perm| ensures perm[k] < n {
      assert perm[k] in multiset(Range(0, n));
    }
    RangeDistinct(0, n);
    DistinctPermuted(Range(0, n), perm);
  }

  lemma RangeDistinct(lo: nat, hi: nat)
    ensures Distinct(Range(lo, hi))
  {
  }

  lemma RangeSnoc(lo: nat, hi: nat)
    requires lo < hi
    ensures Range(lo, hi) == Range(lo, hi - 1) + [hi - 1]
  {
  }

  /** Shuffling keeps the elements: permuting the positions leaves the multiset alone. */
  lemma {:induction false} PermuteMultiset<T>(s: seq<T>, perm: seq<nat>)
    requires IsPermutation(perm, |s|)
    ensures forall k :: 0 <= k < |perm| ==> perm[k] < |s|
    ensures multiset(Permute(s, perm)) == multiset(s)
    decreases |s|
  {
    PermutationFacts(perm, |s|);
    var n := |s|;
    if n > 0 {
      assert Range(0, n)[n - 1] == n - 1;
      assert n - 1 in multiset(perm);
      var i :| 0 <= i < |perm| && perm[i] == n - 1;
      var perm' := DropLargest(perm, n, i);
      var s' := s[..n - 1];
      PermuteMultiset(s', perm');
      var p := Permute(s, perm);
      PermuteDropLargest(s, perm, i);
      MultisetRemoveAtSum(p, i);
      SplitLast(s);
      MultisetSnocEqual(p, RemoveAt(p, i), s', s, s[n - 1]);
    }
  }

  /** A list is its part before i, its element i and its part after i. */
  lemma SplitAt<T>(s: seq<T>, i: nat)
    requires i < |s|
    ensures s == s[..i] + [s[i]] + s[i + 1..]
  {
  }

  /** The first i + 1 elements are the first i and element i. */
  lemma TakeSnoc<T>(s: seq<T>, i: nat)
    requires i < |s|
    ensures s[..i + 1] == s[..i] + [s[i]]
  {
  }

  lemma SplitLast<T>(s: seq<T>)
    requires |s| > 0
    ensures s == s[..|s| - 1] + [s[|s| - 1]]
  {
  }

  lemma MultisetLast<T>(s: seq<T>)
    requires |s| > 0
    ensures multiset(s) == multiset(s[..|s| - 1]) + multiset{s[|s| - 1]}
  {
    assert s == s[..|s| - 1] + [s[|s| - 1]];
  }

  /** Removing the entry n-1 from a permutation of 0..n-1 leaves one of 0..n-2. */
  function DropLargest(perm: seq<nat>, n: nat, i: nat): (r: seq<nat>)
    requires IsPermutation(perm, n) && i < |perm| && perm[i] == n - 1
    ensures r == RemoveAt(perm, i) && IsPermutation(r, n - 1)
  {
    MultisetRemoveAt(perm, i);
    RangeSnoc(0, n);
    RemoveAt(perm, i)
  }

  lemma PermuteDropLargest<T>(s: seq<T>, perm: seq<nat>, i: nat)
    requires |s| > 0 && IsPermutation(perm, |s|) && i < |perm| && perm[i] == |s| - 1
    ensures forall k :: 0 <= k < |perm| ==> perm[k] < |s|
    ensures forall k :: 0 <= k < |perm| - 1 ==> DropLargest(perm, |s|, i)[k] < |s| - 1
    ensures Permute(s[..|s| - 1], DropLargest(perm, |s|, i)) == RemoveAt(Permute(s, perm), i)
    ensures Permute(s, perm)[i] == s[|s| - 1]
  {
    PermutationFacts(perm, |s|);
    PermutationFacts(DropLargest(perm, |s|, i), |s| - 1);
  }

  /** The first present value of a list of outcomes (a retry loop that
      stops at the first success). */
  function FirstSome<T>(s: seq<Option<T>>): (r: Option<T>)
    ensures r.None? <==> forall k :: 0 <= k < |s| ==> s[k].None?
  {
    if s == [] then None
    else if s[0].Some? then s[0]
    else
      assert forall k :: 1 <= k < |s| ==> s[k] == s[1..][k - 1];
      FirstSome(s[1..])
  }

  /** The outcome that succeeds first is the result. */
  lemma {:induction false} FirstSomeIsFirst<T>(s: seq<Option<T>>, k: nat)
    requires k < |s| && s[k].Some? && forall q :: 0 <= q < k ==> s[q].None?
    ensures FirstSome(s) == s[k]
  {
    if k > 0 {
      assert s[1..][k - 1] == s[k];
      FirstSomeIsFirst(s[1..], k - 1);
    }
  }

  /** One retry: the outcome from attempt k on is attempt k's when it
      succeeds, and otherwise the outcome from attempt k+1 on. */
  lemma FirstSomeStep<T>(s: seq<Option<T>>, k: nat)
    requires k < |s|
    ensures FirstSome(s[k..]) == if s[k].Some? then s[k] else FirstSome(s[k + 1..])
  {
    assert s[k..][0] == s[k] && s[k..][1..] == s[k + 1..];
  }

  /** A present result is one of the outcomes. */
  lemma {:induction false} FirstSomeIsSome<T>(s: seq<Option<T>>)
    ensures FirstSome(s).Some? ==> exists k :: 0 <= k < |s| && s[k] == FirstSome(s)
  {
    if s != [] && s[0].None? {
      FirstSomeIsSome(s[1..]);
      if FirstSome(s).Some? {
        var k :| 0 <= k < |s[1..]| && s[1..][k] == FirstSome(s[1..]);
        assert s[k + 1] == FirstSome(s);
      }
    }
  }

  /** `Vec::insert(i, x)`. */
  function Insert<T>(s: seq<T>, i: nat, x: T): (r: seq<T>)
    requires i <= |s|
    ensures |r| == |s| + 1 && r[i] == x
    ensures forall k :: 0 <= k < i ==> r[k] == s[k]
    ensures forall k :: i < k < |r| ==> r[k] == s[k - 1]
  {
    s[..i] + [x] + s[i..]
  }

  /** `Vec::remove(i)`, the remaining elements. */
  function RemoveAt<T>(s: seq<T>, i: nat): (r: seq<T>)
    requires i < |s|
    ensures |r| == |s| - 1
    ensures forall k :: 0 <= k < i ==> r[k] == s[k]
    ensures forall k :: i <= k < |r| ==> r[k] == s[k + 1]
  {
    s[..i] + s[i + 1..]
  }

  lemma MultisetInsert<T>(s: seq<T>, i: nat, x: T)
    requires i <= |s|
    ensures multiset(Insert(s, i, x)) == multiset(s) + multiset{x}
  {
    assert s == s[..i] + s[i..];
  }

  lemma MultisetRemoveAt<T>(s: seq<T>, i: nat)
    requires i < |s|
    ensures multiset(RemoveAt(s, i)) == multiset(s) - multiset{s[i]}
  {
    assert s == s[..i] + [s[i]] + s[i + 1..];
  }

  /** The same as a sum: the removed element and the rest make up the whole. */
  lemma MultisetRemoveAtSum<T>(s: seq<T>, i: nat)
    requires i < |s|
    ensures multiset(RemoveAt(s, i)) + multiset{s[i]} == multiset(s)
  {
    assert s == s[..i] + [s[i]] + s[i + 1..];
  }

  /** Growing two lists with the same multiset by the same element. */
  lemma MultisetSnocEqual<T>(s: seq<T>, t: seq<T>, r1: seq<T>, r: seq<T>, x: T)
    requires multiset(s) == multiset(t) + multiset{x}
    requires multiset(t) == multiset(r1)
    requires r == r1 + [x]
    ensures multiset(s) == multiset(r)
  {
  }

  /** `Vec::retain(keep)`: the elements satisfying `keep`, in their order. */
  function Filter<T>(s: seq<T>, keep: T -> bool): (r: seq<T>)
    ensures |r| <= |s|
    ensures forall k :: 0 <= k < |r| ==> keep(r[k])
    ensures multiset(r) <= multiset(s)
  {
    if s == [] then []
    else
      assert s == [s[0]] + s[1..];
      if keep(s[0]) then [s[0]] + Filter(s[1..], keep)
      else Filter(s[1..], keep)
  }

  /** Filtering removes exactly the elements that fail `keep`. */
  lemma {:induction false} FilterMembership<T>(s: seq<T>, keep: T -> bool, x: T)
    ensures x in Filter(s, keep) <==> x in s && keep(x)
  {
    if s != [] {
      FilterMembership(s[1..], keep, x);
      assert s == [s[0]] + s[1..];
    }
  }

  /** Filtering keeps every copy of an element that passes and none of one that fails. */
  lemma {:induction false} FilterCount<T>(s: seq<T>, keep: T -> bool, x: T)
    ensures multiset(Filter(s, keep))[x] == if keep(x) then multiset(s)[x] else 0
  {
    if s != [] {
      FilterCount(s[1..], keep, x);
      var rest := Filter(s[1..], keep);
      assert multiset(s) == multiset{s[0]} + multiset(s[1..]) by {
        assert s == [s[0]] + s[1..];
      }
      if keep(s[0]) {
        assert multiset(Filter(s, keep)) == multiset{s[0]} + multiset(rest);
      } else {
        assert Filter(s, keep) == rest;
      }
    }
  }

  /** `Vec::swap_remove(i)`: the element at i, and the vector with its last
      element moved into position i. */
  function SwapRemove<T>(s: seq<T>, i: nat): (r: (T, seq<T>))
    requires i < |s|
    ensures r.0 == s[i] && |r.1| == |s| - 1
    ensures multiset(r.1) == multiset(s) - multiset{s[i]}
    ensures multiset(r.1) + multiset{r.0} == multiset(s)
  {
    var last := |s| - 1;
    if i == last then
      assert s == s[..last] + [s[i]];
      assert multiset(s) == multiset(s[..last]) + multiset{s[i]};
      (s[i], s[..last])
    else
      assert s == s[..i] + [s[i]] + s[i + 1..last] + [s[last]];
      assert multiset(s) == multiset(s[..i]) + multiset{s[i]} + multiset(s[i + 1..last]) + multiset{s[last]};
      assert multiset(s[..i] + [s[last]] + s[i + 1..last])
          == multiset(s[..i]) + multiset{s[last]} + multiset(s[i + 1..last]);
      (s[i], s[..i] + [s[last]] + s[i + 1..last])
  }

  /** `slice::rotate_left(k)`. */
  function RotateLeft<T>(s: seq<T>, k: nat): (r: seq<T>)
    requires k <= |s|
    ensures |r| == |s| && multiset(r) == multiset(s)
  {
    assert s == s[..k] + s[k..];
    s[k..] + s[..k]
  }

  /** Sum of a sequence of naturals (`Iterator::sum`). */
  function Sum(s: seq<nat>): nat
  {
    if s == [] then 0 else s[0] + Sum(s[1..])
  }

  lemma {:induction false} SumAppend(a: seq<nat>, b: seq<nat>)
    ensures Sum(a + b) == Sum(a) + Sum(b)
  {
    if a == [] {
      assert a + b == b;
    } else {
      assert (a + b)[1..] == a[1..] + b;
      SumAppend(a[1..], b);
    }
  }

  /** The sequences one after the other (`concat`, `join("")`, `flatten`). */
  function Flatten<T>(ss: seq<seq<T>>): seq<T>
  {
    if ss == [] then [] else ss[0] + Flatten(ss[1..])
  }

  /** In a sequence without repeats every element occurs once in its multiset. */
  lemma {:induction false} DistinctCounts<T>(s: seq<T>)
    requires Distinct(s)
    ensures forall x :: multiset(s)[x] <= 1
  {
    if s != [] {
      var t := s[1..];
      assert s == [s[0]] + t;
      assert Distinct(t) by {
        forall i, j | 0 <= i < j < |t| ensures t[i] != t[j] {
          assert t[i] == s[i + 1] && t[j] == s[j + 1];
        }
      }
      DistinctCounts(t);
      assert s[0] !in t;
      assert multiset(s) == multiset{s[0]} + multiset(t);
    }
  }

  /** Rearranging a sequence without repeats leaves none. */
  lemma DistinctPermuted<T>(s: seq<T>, t: seq<T>)
    requires Distinct(s) && multiset(t) == multiset(s)
    ensures Distinct(t)
  {
    DistinctCounts(s);
    CountsDistinct(t);
  }

  lemma CountsDistinct<T>(s: seq<T>)
    requires forall x :: multiset(s)[x] <= 1
    ensures Distinct(s)
  {
    forall i, j | 0 <= i < j < |s| ensures s[i] != s[j] {
      var m := multiset(s[..i]) + multiset{s[i]} + multiset(s[i + 1..j]) + multiset{s[j]} + multiset(s[j + 1..]);
      assert s == s[..i] + [s[i]] + s[i + 1..j] + [s[j]] + s[j + 1..];
      assert multiset(s) == m;
      assert multiset{s[i], s[j]} <= multiset(s);
      assert multiset{s[i], s[j]}[s[i]] == if s[i] == s[j] then 2 else 1;
    }
  }

  /** A multiset added to both sides of an equation cancels. */
  lemma MultisetCancel<T>(x: multiset<T>, y: multiset<T>, m: multiset<T>)
    requires x + m == y + m
    ensures x == y
  {
    forall c ensures x[c] == y[c] {
      assert (x + m)[c] == (y + m)[c];
    }
  }
}
