/** What a route means, independently of the cached fields of `Route`:
    a stop list visited from the depot and back, its from-scratch cost and
    its total demand, and the O(1) edge-delta formulas the program uses to
    update the cached cost. */
module Tours {
  import opened Prelude
  import opened VrpInstance

  /** `Stop{cust_no, capacity}`. The program compares stops by customer
      number only; see `SameStop`. */
  datatype Stop = Stop(custNo: nat, capacity: nat)

  /** `impl PartialEq for Stop`: two stops are equal when they serve the same customer. */
  predicate SameStop(a: Stop, b: Stop)
  {
    a.custNo == b.custNo
  }

  /** The customer numbers of a stop list, in order. */
  function CustNos(stops: seq<Stop>): (r: seq<nat>)
    ensures |r| == |stops|
    ensures forall k :: 0 <= k < |stops| ==> r[k] == stops[k].custNo
  {
    seq(|stops|, k requires 0 <= k < |stops| => stops[k].custNo)
  }

  /** Every customer number is a row of the distance matrix. */
  predicate StopsInRange(inst: Instance, stops: seq<Stop>)
  {
    forall k :: 0 <= k < |stops| ==> stops[k].custNo < inst.numCustomers
  }

  /** No customer is visited twice (`check_no_duplicate_stops`). */
  predicate NoDupCusts(stops: seq<Stop>)
  {
    Distinct(CustNos(stops))
  }

  predicate InRange(inst: Instance, p: seq<nat>)
  {
    forall k :: 0 <= k < |p| ==> p[k] < inst.numCustomers
  }

  /** The customers visited, depot first and last. */
  function Tour(c: seq<nat>): seq<nat>
  {
    [0] + c + [0]
  }

  /** Length of a path through the distance matrix. */
  function PathCost(inst: Instance, p: seq<nat>): real
    requires inst.Valid() && InRange(inst, p)
  {
    if |p| <= 1 then 0.0 else inst.dist[p[0]][p[1]] + PathCost(inst, p[1..])
  }

  /** The from-scratch cost of a route: depot, its stops, depot. */
  function RouteCost(inst: Instance, stops: seq<Stop>): real
    requires inst.Valid() && StopsInRange(inst, stops)
  {
    PathCost(inst, Tour(CustNos(stops)))
  }

  /** The total demand of a stop list (`recalculate_capacity`). */
  function SumCap(stops: seq<Stop>): nat
  {
    if stops == [] then 0 else stops[0].capacity + SumCap(stops[1..])
  }

  lemma TourInRange(inst: Instance, stops: seq<Stop>)
    requires inst.Valid() && StopsInRange(inst, stops)
    ensures InRange(inst, Tour(CustNos(stops)))
  {
  }

  /** Joining two paths adds the edge between them. */
  lemma {:induction false} PathCostConcat(inst: Instance, a: seq<nat>, b: seq<nat>)
    requires inst.Valid() && InRange(inst, a) && InRange(inst, b)
    requires |a| >= 1 && |b| >= 1
    ensures InRange(inst, a + b)
    ensures PathCost(inst, a + b) == PathCost(inst, a) + inst.dist[a[|a| - 1]][b[0]] + PathCost(inst, b)
  {
    assert InRange(inst, a + b);
    if |a| > 1 {
      assert (a + b)[1..] == a[1..] + b;
      PathCostConcat(inst, a[1..], b);
    } else {
      assert (a + b)[1..] == b;
    }
  }

  /** Extending a prefix of a path by one customer adds one edge. */
  lemma PathCostPrefixStep(inst: Instance, p: seq<nat>, i: nat)
    requires inst.Valid() && InRange(inst, p) && 1 <= i < |p|
    ensures InRange(inst, p[..i]) && InRange(inst, p[..i + 1])
    ensures PathCost(inst, p[..i + 1]) == PathCost(inst, p[..i]) + inst.dist[p[i - 1]][p[i]]
  {
    assert p[..i + 1] == p[..i] + [p[i]];
    PathCostConcat(inst, p[..i], [p[i]]);
  }

  /** A route's cost is its first edge, the path through its customers and its last edge. */
  lemma RouteCostParts(inst: Instance, stops: seq<Stop>)
    requires inst.Valid() && StopsInRange(inst, stops) && |stops| > 0
    ensures InRange(inst, CustNos(stops))
    ensures RouteCost(inst, stops)
         == inst.dist[0][stops[0].custNo] + PathCost(inst, CustNos(stops)) + inst.dist[stops[|stops| - 1].custNo][0]
  {
    var c := CustNos(stops);
    PathCostConcat(inst, [0], c);
    PathCostConcat(inst, [0] + c, [0]);
  }

  /** Splicing one customer between two paths adds the two edges around it. */
  lemma PathCostSplice(inst: Instance, a: seq<nat>, x: nat, b: seq<nat>)
    requires inst.Valid() && InRange(inst, a) && InRange(inst, b) && x < inst.numCustomers
    requires |a| >= 1 && |b| >= 1
    ensures InRange(inst, a + [x] + b)
    ensures PathCost(inst, a + [x] + b)
         == PathCost(inst, a) + inst.dist[a[|a| - 1]][x] + inst.dist[x][b[0]] + PathCost(inst, b)
  {
    PathCostConcat(inst, [x], b);
    PathCostConcat(inst, a, [x] + b);
    assert a + [x] + b == a + ([x] + b);
  }

  /** The cost of an empty route is d(0, 0), which is zero. */
  lemma EmptyRouteCost(inst: Instance)
    requires inst.Valid()
    ensures RouteCost(inst, []) == 0.0
  {
    assert Tour(CustNos([])) == [0, 0];
    assert inst.dist[0][0] == 0.0;
    assert PathCost(inst, [0, 0]) == inst.dist[0][0] + PathCost(inst, [0]);
  }

  /** The customer number just before position i of the tour, or the depot. */
  function Before(c: seq<nat>, i: nat): nat
    requires i <= |c|
  {
    if i != 0 then c[i - 1] else 0
  }

  /** The customer at position i of the tour, or the depot when i is the end. */
  function After(c: seq<nat>, i: nat): nat
    requires i <= |c|
  {
    if i == |c| then 0 else c[i]
  }

  lemma TourSplit(c: seq<nat>, i: nat)
    requires i <= |c|
    ensures Tour(c) == (Tour(c)[..i + 1]) + Tour(c)[i + 1..]
    ensures Tour(c)[..i + 1] == [0] + c[..i]
    ensures Tour(c)[i + 1..] == c[i..] + [0]
    ensures Tour(c)[i] == Before(c, i) && Tour(c)[i + 1] == After(c, i)
  {
  }

  /** Inserting x at position i replaces the edge (before, after) by the two
      edges through x (the formula of `speculative_add_stop`). */
  lemma InsertCost(inst: Instance, stops: seq<Stop>, i: nat, x: Stop)
    requires inst.Valid() && StopsInRange(inst, stops) && i <= |stops| && x.custNo < inst.numCustomers
    ensures StopsInRange(inst, Insert(stops, i, x))
    ensures var c := CustNos(stops);
      RouteCost(inst, Insert(stops, i, x))
        == RouteCost(inst, stops) - inst.dist[Before(c, i)][After(c, i)]
           + inst.dist[Before(c, i)][x.custNo] + inst.dist[x.custNo][After(c, i)]
  {
    var c := CustNos(stops);
    var t := Tour(c);
    TourSplit(c, i);
    TourInRange(inst, stops);
    var a, b := t[..i + 1], t[i + 1..];
    assert InRange(inst, a) && InRange(inst, b);
    PathCostConcat(inst, a, b);
    CustNosInsert(stops, i, x);
    Regroup(0, c[..i], x.custNo, c[i..], 0);
    PathCostSplice(inst, a, x.custNo, b);
  }

  lemma CustNosInsert(stops: seq<Stop>, i: nat, x: Stop)
    requires i <= |stops|
    ensures CustNos(Insert(stops, i, x)) == CustNos(stops)[..i] + [x.custNo] + CustNos(stops)[i..]
  {
  }

  lemma CustNosUpdate(stops: seq<Stop>, i: nat, y: Stop)
    requires i < |stops|
    ensures CustNos(stops[i := y]) == CustNos(stops)[..i] + [y.custNo] + CustNos(stops)[i + 1..]
  {
  }

  /** The tour through a list with x spliced in, regrouped around x. */
  lemma Regroup(p: nat, q: seq<nat>, x: nat, r: seq<nat>, e: nat)
    ensures [p] + (q + [x] + r) + [e] == ([p] + q) + [x] + (r + [e])
  {
  }

  /** The tour around position i of c: the part up to the customer before
      it, the customer c[i], and the part from the customer after it. */
  lemma TourAround(c: seq<nat>, i: nat)
    requires i < |c|
    ensures Tour(c) == ([0] + c[..i]) + [c[i]] + (c[i + 1..] + [0])
    ensures ([0] + c[..i])[i] == Before(c, i)
    ensures (c[i + 1..] + [0])[0] == After(c, i + 1)
  {
    assert c == c[..i] + [c[i]] + c[i + 1..];
  }

  /** Removing the stop at position i replaces its two edges by the edge
      (before, after) (the formula of `speculative_remove_stop`). */
  lemma RemoveCost(inst: Instance, stops: seq<Stop>, i: nat)
    requires inst.Valid() && StopsInRange(inst, stops) && i < |stops|
    ensures StopsInRange(inst, RemoveAt(stops, i))
    ensures var c := CustNos(stops);
      RouteCost(inst, RemoveAt(stops, i))
        == RouteCost(inst, stops) - inst.dist[Before(c, i)][c[i]] - inst.dist[c[i]][After(c, i + 1)]
           + inst.dist[Before(c, i)][After(c, i + 1)]
  {
    var c := CustNos(stops);
    TourAround(c, i);
    TourInRange(inst, stops);
    var a, b := [0] + c[..i], c[i + 1..] + [0];
    assert InRange(inst, a) && InRange(inst, b);
    PathCostSplice(inst, a, c[i], b);
    CustNosRemoveAt(stops, i);
    assert Tour(CustNos(RemoveAt(stops, i))) == a + b;
    PathCostConcat(inst, a, b);
  }

  /** Replacing the customer at position i replaces its two edges by the two
      edges through the new customer (the formula of `cost_if_cust_no_was`). */
  lemma ReplaceCost(inst: Instance, stops: seq<Stop>, i: nat, y: Stop)
    requires inst.Valid() && StopsInRange(inst, stops) && i < |stops| && y.custNo < inst.numCustomers
    ensures StopsInRange(inst, stops[i := y])
    ensures var c := CustNos(stops);
      RouteCost(inst, stops[i := y])
        == RouteCost(inst, stops) - inst.dist[Before(c, i)][c[i]] - inst.dist[c[i]][After(c, i + 1)]
           + inst.dist[Before(c, i)][y.custNo] + inst.dist[y.custNo][After(c, i + 1)]
  {
    var c := CustNos(stops);
    TourAround(c, i);
    TourInRange(inst, stops);
    var a, b := [0] + c[..i], c[i + 1..] + [0];
    assert InRange(inst, a) && InRange(inst, b);
    PathCostSplice(inst, a, c[i], b);
    CustNosUpdate(stops, i, y);
    Regroup(0, c[..i], y.custNo, c[i + 1..], 0);
    PathCostSplice(inst, a, y.custNo, b);
  }

  /** A path ending in x: the loop of `recalculate_cost` adds one edge per step. */
  lemma PathCostSnoc(inst: Instance, p: seq<nat>, x: nat)
    requires inst.Valid() && InRange(inst, p) && x < inst.numCustomers && |p| >= 1
    ensures InRange(inst, p + [x])
    ensures PathCost(inst, p + [x]) == PathCost(inst, p) + inst.dist[p[|p| - 1]][x]
  {
    PathCostConcat(inst, p, [x]);
  }

  lemma {:induction false} SumCapAppend(a: seq<Stop>, b: seq<Stop>)
    ensures SumCap(a + b) == SumCap(a) + SumCap(b)
  {
    if a == [] {
      assert a + b == b;
    } else {
      assert (a + b)[1..] == a[1..] + b;
      SumCapAppend(a[1..], b);
    }
  }

  /** Inserting a stop adds its demand to the route's total demand. */
  lemma {:induction false} SumCapInsert(s: seq<Stop>, i: nat, x: Stop)
    requires i <= |s|
    ensures SumCap(Insert(s, i, x)) == SumCap(s) + x.capacity
  {
    var a, b := s[..i], s[i..];
    assert s == a + b;
    SumCapAppend(a, b);
    SumCapAppend(a + [x], b);
    SumCapAppend(a, [x]);
    SumCapSingle(x);
  }

  lemma SumCapSingle(x: Stop)
    ensures SumCap([x]) == x.capacity
  {
    assert [x][1..] == [];
  }

  /** Removing a stop takes its demand off the route's total demand. */
  lemma {:induction false} SumCapRemoveAt(s: seq<Stop>, i: nat)
    requires i < |s|
    ensures SumCap(RemoveAt(s, i)) + s[i].capacity == SumCap(s)
  {
    var a, b := s[..i], s[i + 1..];
    SplitAt(s, i);
    SumCapAppend(a + [s[i]], b);
    SumCapAppend(a, [s[i]]);
    SumCapSingle(s[i]);
    SumCapAppend(a, b);
  }

  /** Replacing a stop trades its demand for the new one's. */
  lemma SumCapReplace(s: seq<Stop>, i: nat, y: Stop)
    requires i < |s|
    ensures SumCap(s[i := y]) + s[i].capacity == SumCap(s) + y.capacity
  {
    SumCapRemoveAt(s, i);
    SumCapInsert(RemoveAt(s, i), i, y);
    assert Insert(RemoveAt(s, i), i, y) == s[i := y];
  }

  /** Each stop's demand is at most the route's total demand. */
  lemma {:induction false} SumCapElement(s: seq<Stop>, i: nat)
    requires i < |s|
    ensures s[i].capacity <= SumCap(s)
  {
    if i > 0 {
      SumCapElement(s[1..], i - 1);
    }
  }

  /** A stop list with a stop in front has distinct customers exactly when
      the rest does and the front customer does not occur in it. */
  lemma NoDupCons(x: Stop, t: seq<Stop>)
    ensures NoDupCusts([x] + t) <==> NoDupCusts(t) && forall k :: 0 <= k < |t| ==> t[k].custNo != x.custNo
  {
    var s := [x] + t;
    if NoDupCusts(s) {
      forall i, j | 0 <= i < j < |t| ensures t[i].custNo != t[j].custNo {
        assert t[i] == s[i + 1] && t[j] == s[j + 1];
      }
      forall k | 0 <= k < |t| ensures t[k].custNo != x.custNo {
        assert s[0] == x && s[k + 1] == t[k];
      }
    }
  }

  /** The stops of a route satisfying a predicate (`Vec::retain`) keep
      their customers distinct and in range. */
  lemma {:induction false} FilterKeepsStops(inst: Instance, s: seq<Stop>, keep: Stop -> bool)
    requires StopsInRange(inst, s) && NoDupCusts(s)
    ensures StopsInRange(inst, Filter(s, keep)) && NoDupCusts(Filter(s, keep))
  {
    if s != [] {
      var t := s[1..];
      assert s == [s[0]] + t;
      NoDupCons(s[0], t);
      FilterKeepsStops(inst, t, keep);
      var ft := Filter(t, keep);
      if keep(s[0]) {
        assert Filter(s, keep) == [s[0]] + ft;
        forall k | 0 <= k < |ft| ensures ft[k].custNo != s[0].custNo {
          FilterMembership(t, keep, ft[k]);
        }
        NoDupCons(s[0], ft);
      } else {
        assert Filter(s, keep) == ft;
      }
    }
  }

  /** Stop lists with the same stops have the same customers. */
  lemma {:induction false} CustNosMultiset(a: seq<Stop>, b: seq<Stop>)
    requires multiset(a) == multiset(b)
    ensures multiset(CustNos(a)) == multiset(CustNos(b))
    decreases |a|
  {
    if a == [] {
      assert |b| == |multiset(b)| == 0;
    } else {
      var x := a[0];
      assert x in multiset(b);
      var i :| 0 <= i < |b| && b[i] == x;
      var t := RemoveAt(b, i);
      MultisetRemoveAtSum(b, i);
      assert a == [x] + a[1..];
      assert multiset(a[1..]) + multiset{x} == multiset(t) + multiset{x};
      MultisetCancel(multiset(a[1..]), multiset(t), multiset{x});
      CustNosMultiset(a[1..], t);
      CustNosCons(a);
      CustNosRemoveAt(b, i);
      MultisetRemoveAtSum(CustNos(b), i);
      assert CustNos(b)[i] == x.custNo;
    }
  }

  lemma CustNosCons(a: seq<Stop>)
    requires |a| > 0
    ensures CustNos(a) == [a[0].custNo] + CustNos(a[1..])
  {
  }

  lemma CustNosRemoveAt(b: seq<Stop>, i: nat)
    requires i < |b|
    ensures CustNos(RemoveAt(b, i)) == RemoveAt(CustNos(b), i)
  {
  }

  /** Dropping stops never adds load. */
  lemma {:induction false} FilterSumCap(s: seq<Stop>, keep: Stop -> bool)
    ensures SumCap(Filter(s, keep)) <= SumCap(s)
  {
    if s != [] {
      FilterSumCap(s[1..], keep);
      if keep(s[0]) {
        assert Filter(s, keep)[1..] == Filter(s[1..], keep);
      }
    }
  }

  /** Inserting a customer the route does not visit keeps its customers distinct. */
  lemma NoDupInsert(s: seq<Stop>, i: nat, x: Stop)
    requires i <= |s| && NoDupCusts(s) && x.custNo !in CustNos(s)
    ensures NoDupCusts(Insert(s, i, x))
  {
    var r := Insert(s, i, x);
    forall a, b | 0 <= a < b < |r| ensures r[a].custNo != r[b].custNo {
      if a == i {
        assert r[b] == s[b - 1] && CustNos(s)[b - 1] == s[b - 1].custNo;
      } else if b == i {
        assert r[a] == s[a] && CustNos(s)[a] == s[a].custNo;
      } else {
        var a', b' := if a < i then a else a - 1, if b < i then b else b - 1;
        assert r[a] == s[a'] && r[b] == s[b'] && a' < b';
        assert CustNos(s)[a'] != CustNos(s)[b'];
      }
    }
  }

  /** Removing a stop keeps the route's customers distinct and in range. */
  lemma NoDupRemoveAt(inst: Instance, s: seq<Stop>, i: nat)
    requires i < |s| && NoDupCusts(s) && StopsInRange(inst, s)
    ensures NoDupCusts(RemoveAt(s, i)) && StopsInRange(inst, RemoveAt(s, i))
    ensures s[i].custNo !in CustNos(RemoveAt(s, i))
  {
    var r := RemoveAt(s, i);
    forall a, b | 0 <= a < b < |r| ensures r[a].custNo != r[b].custNo {
      var a', b' := if a < i then a else a + 1, if b < i then b else b + 1;
      assert r[a] == s[a'] && r[b] == s[b'] && a' < b';
      assert CustNos(s)[a'] != CustNos(s)[b'];
    }
    forall k | 0 <= k < |r| ensures r[k].custNo != s[i].custNo {
      var k' := if k < i then k else k + 1;
      assert r[k] == s[k'];
      assert CustNos(s)[k'] != CustNos(s)[i];
    }
  }

  /** The position of the first stop serving `c`, if any (`Iterator::position`). */
  function FirstIndexOf(stops: seq<Stop>, c: nat): (r: Option<nat>)
    ensures r.Some? ==> r.value < |stops| && stops[r.value].custNo == c
                        && forall j :: 0 <= j < r.value ==> stops[j].custNo != c
    ensures r.None? <==> forall j :: 0 <= j < |stops| ==> stops[j].custNo != c
  {
    if stops == [] then None
    else if stops[0].custNo == c then Some(0)
    else match FirstIndexOf(stops[1..], c)
      case None => None
      case Some(k) => Some(k + 1)
  }

  /** `f64 as isize`: truncation toward zero (saturation at the isize bounds is not modelled). */
  function Trunc(x: real): (r: int)
    ensures x >= 0.0 ==> r as real <= x < r as real + 1.0
    ensures x < 0.0 ==> r as real - 1.0 < x <= r as real
  {
    if x >= 0.0 then x.Floor else -((-x).Floor)
  }

  /** The key `speculative_add_best` ranks insertion position i by: the
      truncated cost of the route with x inserted there. */
  function AddKey(inst: Instance, stops: seq<Stop>, x: Stop, i: nat): int
    requires inst.Valid() && StopsInRange(inst, stops) && x.custNo < inst.numCustomers && i <= |stops|
  {
    InsertCost(inst, stops, i, x);
    Trunc(RouteCost(inst, Insert(stops, i, x)))
  }

  /** `max_by_key` over 0..m of the negated key: the LAST position among the
      first m whose truncated cost is minimal. */
  function LastMinAddIndex(inst: Instance, stops: seq<Stop>, x: Stop, m: nat): (r: nat)
    requires inst.Valid() && StopsInRange(inst, stops) && x.custNo < inst.numCustomers
    requires 1 <= m <= |stops|
    ensures r < m
    ensures forall j :: 0 <= j < m ==> AddKey(inst, stops, x, r) <= AddKey(inst, stops, x, j)
    ensures forall j :: r < j < m ==> AddKey(inst, stops, x, r) < AddKey(inst, stops, x, j)
  {
    if m == 1 then 0
    else
      var b := LastMinAddIndex(inst, stops, x, m - 1);
      if AddKey(inst, stops, x, m - 1) <= AddKey(inst, stops, x, b) then m - 1 else b
  }

  /** The position `speculative_add_best` chooses: 0 on an empty route,
      otherwise the last position among 0..len-1 (never the end) whose
      truncated cost is minimal. */
  function BestAddIndex(inst: Instance, stops: seq<Stop>, x: Stop): (r: nat)
    requires inst.Valid() && StopsInRange(inst, stops) && x.custNo < inst.numCustomers
    ensures stops == [] ==> r == 0
    ensures stops != [] ==> r < |stops|
  {
    if stops == [] then 0 else LastMinAddIndex(inst, stops, x, |stops|)
  }
}
