/** The standard library sorts the program calls (`sort_by_key`, `sort_by`,
    `sort_unstable`, `sort_unstable_by`), modelled by one stable insertion
    sort ascending by a real-valued key. A descending sort (`Reverse(key)`)
    uses the negated key. For the unstable sorts this fixes one of the orders
    the library may produce among equal keys. */
module Sorting {

  /** Keys never decrease along `s`. */
  predicate SortedBy<T>(s: seq<T>, key: T -> real)
  {
    forall i, j :: 0 <= i < j < |s| ==> key(s[i]) <= key(s[j])
  }

  /** Inserts `x` into `s` after every leading element whose key is at most key(x). */
  function InsertBy<T>(s: seq<T>, x: T, key: T -> real): (r: seq<T>)
    ensures |r| == |s| + 1
    ensures multiset(r) == multiset(s) + multiset{x}
  {
    if s == [] then [x]
    else if key(x) < key(s[0]) then [x] + s
    else
      assert s == [s[0]] + s[1..];
      [s[0]] + InsertBy(s[1..], x, key)
  }

  /** Stable insertion sort: the last element is inserted into the sorted rest. */
  function SortBy<T>(s: seq<T>, key: T -> real): (r: seq<T>)
    ensures |r| == |s|
    ensures multiset(r) == multiset(s)
  {
    if s == [] then []
    else
      assert s == s[..|s| - 1] + [s[|s| - 1]];
      InsertBy(SortBy(s[..|s| - 1], key), s[|s| - 1], key)
  }

  lemma {:induction false} InsertBySorted<T>(s: seq<T>, x: T, key: T -> real)
    requires SortedBy(s, key)
    ensures SortedBy(InsertBy(s, x, key), key)
  {
    if s != [] && key(x) >= key(s[0]) {
      InsertBySorted(s[1..], x, key);
      var t := InsertBy(s[1..], x, key);
      forall j | 0 <= j < |t|
        ensures key(s[0]) <= key(t[j])
      {
        assert t[j] in multiset(t);
        if t[j] != x {
          assert t[j] in multiset(s[1..]);
          HeadLeast(s, t[j], key);
        }
      }
      var r := [s[0]] + t;
      forall i, j | 0 <= i < j < |r| ensures key(r[i]) <= key(r[j]) {
        assert r[j] == t[j - 1];
        if i > 0 {
          assert r[i] == t[i - 1];
        }
      }
    }
  }

  /** In a sorted list no later element has a smaller key than the first. */
  lemma HeadLeast<T>(s: seq<T>, y: T, key: T -> real)
    requires SortedBy(s, key) && s != [] && y in s[1..]
    ensures key(s[0]) <= key(y)
  {
    var k :| 0 <= k < |s[1..]| && s[1..][k] == y;
    assert s[k + 1] == y;
  }

  /** The sort yields an ascending arrangement of the same elements. */
  lemma {:induction false} SortBySorted<T>(s: seq<T>, key: T -> real)
    ensures SortedBy(SortBy(s, key), key)
  {
    if s != [] {
      SortBySorted(s[..|s| - 1], key);
      InsertBySorted(SortBy(s[..|s| - 1], key), s[|s| - 1], key);
    }
  }

  /** Keeping the first j elements commutes with inserting into a sorted list. */
  lemma {:induction false} InsertByPrefix<T>(s: seq<T>, x: T, key: T -> real, j: nat)
    requires j <= |s|
    ensures InsertBy(s, x, key)[..j] == InsertBy(s[..j], x, key)[..j]
  {
    var p := s[..j];
    if j > 0 {
      assert p[0] == s[0];
      if key(x) >= key(s[0]) {
        InsertByPrefix(s[1..], x, key, j - 1);
        assert p[1..] == s[1..][..j - 1];
        var a, b := InsertBy(s[1..], x, key), InsertBy(p[1..], x, key);
        assert InsertBy(s, x, key) == [s[0]] + a;
        assert InsertBy(p, x, key) == [s[0]] + b;
        PrefixCons(s[0], a, j);
        PrefixCons(s[0], b, j);
      } else {
        assert InsertBy(s, x, key) == [x] + s;
        assert InsertBy(p, x, key) == [x] + p;
        PrefixCons(x, s, j);
        PrefixCons(x, p, j);
      }
    }
  }

  lemma PrefixCons<T>(x: T, s: seq<T>, j: nat)
    requires 0 < j <= |s| + 1
    ensures ([x] + s)[..j] == [x] + s[..j - 1]
  {
  }

  /** A sorting key on naturals: their own value. */
  function NatKey(): nat -> real
  {
    x => x as real
  }

  /** A sorting key on reals: their own value. */
  function RealKey(): real -> real
  {
    x => x
  }

  /** Inserting into a sorted list and dropping its first j + 1 elements is
      inserting into the list's last part and dropping one. */
  lemma {:induction false} InsertBySuffix<T>(s: seq<T>, x: T, key: T -> real, j: nat)
    requires j <= |s| && SortedBy(s, key)
    ensures InsertBy(s, x, key)[j + 1..] == InsertBy(s[j..], x, key)[1..]
  {
    if j > 0 {
      if key(x) < key(s[0]) {
        if j < |s| {
          assert s[j..][0] == s[j];
          assert InsertBy(s[j..], x, key) == [x] + s[j..];
        }
      } else {
        assert SortedBy(s[1..], key);
        InsertBySuffix(s[1..], x, key, j - 1);
        assert s[1..][j - 1..] == s[j..];
      }
    }
  }

  /** `f` applied to every element in order. */
  function MapSeq<A, B>(s: seq<A>, f: A -> B): (r: seq<B>)
    ensures |r| == |s| && forall j :: 0 <= j < |s| ==> r[j] == f(s[j])
  {
    seq(|s|, j requires 0 <= j < |s| => f(s[j]))
  }

  lemma MapSeqCons<A, B>(x: A, s: seq<A>, f: A -> B)
    ensures MapSeq([x] + s, f) == [f(x)] + MapSeq(s, f)
  {
  }

  lemma MapSeqSnoc<A, B>(s: seq<A>, f: A -> B)
    requires s != []
    ensures MapSeq(s, f) == MapSeq(s[..|s| - 1], f) + [f(s[|s| - 1])]
  {
  }

  lemma {:induction false} InsertByMap<A, B>(s: seq<A>, x: A, f: A -> B, keyA: A -> real, key: B -> real)
    requires keyA(x) == key(f(x)) && forall a :: a in s ==> keyA(a) == key(f(a))
    ensures InsertBy(MapSeq(s, f), f(x), key) == MapSeq(InsertBy(s, x, keyA), f)
  {
    var m := MapSeq(s, f);
    if s == [] {
      MapSeqCons(x, [], f);
    } else if key(f(x)) < key(f(s[0])) {
      assert s[0] in s;
      MapSeqCons(x, s, f);
    } else {
      assert s[0] in s;
      assert m[0] == f(s[0]) && m[1..] == MapSeq(s[1..], f);
      InsertByMap(s[1..], x, f, keyA, key);
      MapSeqCons(s[0], InsertBy(s[1..], x, keyA), f);
    }
  }

  /** Sorting the images of a list by a key is sorting the list by the key
      of its images, then taking images (the order among equal keys agrees). */
  lemma {:induction false} SortByMap<A, B>(s: seq<A>, f: A -> B, keyA: A -> real, key: B -> real)
    requires forall a :: a in s ==> keyA(a) == key(f(a))
    ensures SortBy(MapSeq(s, f), key) == MapSeq(SortBy(s, keyA), f)
  {
    if s != [] {
      var init := s[..|s| - 1];
      assert forall a :: a in init ==> a in s;
      SortByMap(init, f, keyA, key);
      MapSeqSnoc(s, f);
      var sorted := SortBy(init, keyA);
      forall a | a in sorted ensures keyA(a) == key(f(a)) {
        assert a in multiset(sorted);
      }
      assert s[|s| - 1] in s;
      InsertByMap(sorted, s[|s| - 1], f, keyA, key);
    }
  }

  lemma {:induction false} MapInsertByMultiset<A, B>(s: seq<A>, x: A, key: A -> real, f: A -> B)
    ensures multiset(MapSeq(InsertBy(s, x, key), f)) == multiset(MapSeq(s, f)) + multiset{f(x)}
  {
    if s == [] {
      MapSeqCons(x, [], f);
    } else if key(x) < key(s[0]) {
      MapSeqCons(x, s, f);
    } else {
      MapInsertByMultiset(s[1..], x, key, f);
      MapSeqCons(s[0], InsertBy(s[1..], x, key), f);
      MapSeqCons(s[0], s[1..], f);
      assert s == [s[0]] + s[1..];
    }
  }

  /** Sorting does not change the images of a list, counted with repetition. */
  lemma {:induction false} MapSortByMultiset<A, B>(s: seq<A>, key: A -> real, f: A -> B)
    ensures multiset(MapSeq(SortBy(s, key), f)) == multiset(MapSeq(s, f))
  {
    if s != [] {
      var init := s[..|s| - 1];
      MapSortByMultiset(init, key, f);
      MapInsertByMultiset(SortBy(init, key), s[|s| - 1], key, f);
      MapSeqSnoc(s, f);
    }
  }

  /** The first element of an ascending list is its least. */
  lemma SortedHeadLeast(a: seq<real>, x: real)
    requires SortedBy(a, RealKey()) && x in multiset(a)
    ensures a[0] <= x
  {
    var i :| 0 <= i < |a| && a[i] == x;
    if i > 0 {
      assert RealKey()(a[0]) <= RealKey()(a[i]);
    }
  }

  lemma SortedTail(a: seq<real>)
    requires a != [] && SortedBy(a, RealKey())
    ensures SortedBy(a[1..], RealKey())
  {
    forall i, j | 0 <= i < j < |a| - 1 ensures RealKey()(a[1..][i]) <= RealKey()(a[1..][j]) {
      assert a[1..][i] == a[i + 1] && a[1..][j] == a[j + 1];
    }
  }

  /** Two ascending lists of reals with the same elements are equal: the
      ascending arrangement of a collection is unique. */
  lemma {:induction false} SortedUnique(a: seq<real>, b: seq<real>)
    requires SortedBy(a, RealKey()) && SortedBy(b, RealKey()) && multiset(a) == multiset(b)
    ensures a == b
    decreases |a|
  {
    assert |b| == |a| by { assert |multiset(a)| == |multiset(b)|; }
    if a != [] {
      assert a[0] in multiset(a) && b[0] in multiset(b);
      SortedHeadLeast(a, b[0]);
      SortedHeadLeast(b, a[0]);
      assert a[0] == b[0];
      var a', b' := a[1..], b[1..];
      assert a == [a[0]] + a' && b == [b[0]] + b';
      assert multiset(a) == multiset{a[0]} + multiset(a');
      assert multiset(b) == multiset{a[0]} + multiset(b');
      forall y ensures multiset(a')[y] == multiset(b')[y] {
        assert multiset(a)[y] == multiset{a[0]}[y] + multiset(a')[y];
        assert multiset(b)[y] == multiset{a[0]}[y] + multiset(b')[y];
      }
      assert multiset(a') == multiset(b');
      SortedTail(a);
      SortedTail(b);
      SortedUnique(a', b');
    }
  }

  /** A stable sort's first k elements come from the input; none has a
      larger key than an element left behind; with no repeats in the
      input there are none among them. */
  lemma {:induction false} SortedPrefix<T>(s: seq<T>, key: T -> real, k: nat)
    requires k <= |s|
    ensures SortedBy(SortBy(s, key)[..k], key)
    ensures forall p :: p in SortBy(s, key)[..k] ==> p in s
    ensures multiset(SortBy(s, key)[..k]) <= multiset(s)
  {
    var ranked := SortBy(s, key);
    SortBySorted(s, key);
    assert ranked == ranked[..k] + ranked[k..];
    forall p | p in ranked[..k] ensures p in s {
      assert p in multiset(ranked);
    }
  }

  /** An element among a stable sort's first k has a key no larger than
      that of an element outside them. */
  lemma SortedPrefixLeast<T>(s: seq<T>, key: T -> real, k: nat, p: T, c: T)
    requires k <= |s| && p in SortBy(s, key)[..k] && c in s && c !in SortBy(s, key)[..k]
    ensures key(p) <= key(c)
  {
    var ranked := SortBy(s, key);
    SortBySorted(s, key);
    assert c in multiset(ranked);
    var j :| 0 <= j < |ranked| && ranked[j] == c;
    var i :| 0 <= i < k && ranked[..k][i] == p;
    assert ranked[i] == p;
  }
}
