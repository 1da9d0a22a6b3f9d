/** `src/construct.rs`: the three ways the program builds a first
    solution. Greedy and sweep place customers one by one into the first
    vehicle with room, at the end of its route; Clarke-Wright starts from
    one route per customer and merges routes along a list of savings. The
    geometric and random inputs (customer angles, the rotation offset, the
    noisy savings order) are parameters. */
module Construct {
  import opened Prelude
  import opened Sorting
  import opened VrpInstance
  import opened Tours
  import opened Views
  import opened Common

  // ---------------------------------------------------------------------
  // First fit (greedy and sweep)
  // ---------------------------------------------------------------------

  /** A customer with demand d fits a route when the room left,
      `vehicle_capacity - used_capacity`, is at least d. */
  predicate Fits(inst: Instance, route: seq<Stop>, d: nat)
  {
    SumCap(route) + d <= inst.vehicleCapacity
  }

  /** The lowest-indexed route a demand d fits, if any. */
  function FirstFitting(inst: Instance, v: seq<seq<Stop>>, d: nat): (r: Option<nat>)
    ensures r.Some? ==> r.value < |v| && Fits(inst, v[r.value], d)
                        && forall k :: 0 <= k < r.value ==> !Fits(inst, v[k], d)
    ensures r.None? <==> forall k :: 0 <= k < |v| ==> !Fits(inst, v[k], d)
  {
    if v == [] then None
    else if Fits(inst, v[0], d) then Some(0)
    else match FirstFitting(inst, v[1..], d)
      case None =>
        assert forall k :: 1 <= k < |v| ==> v[k] == v[1..][k - 1];
        None
      case Some(k) => Some(k + 1)
  }

  /** The stop the program creates for customer c: its demand from the instance. */
  function StopOf(inst: Instance, c: nat): (s: Stop)
    requires inst.Valid() && c < inst.numCustomers
    ensures s.custNo == c && s.capacity == inst.demand[c]
  {
    Stop(c, inst.demand[c])
  }

  /** Customers numbers all rows of the matrix. */
  predicate InInstance(inst: Instance, order: seq<nat>)
  {
    forall k :: 0 <= k < |order| ==> order[k] < inst.numCustomers
  }

  /** The placement loop of `greedy` and `sweep`: each customer in turn is
      appended to the first route it fits; None when one fits nowhere. */
  function FirstFit(inst: Instance, v: seq<seq<Stop>>, order: seq<nat>): (r: Option<seq<seq<Stop>>>)
    requires inst.Valid() && InInstance(inst, order)
    ensures r.Some? ==> |r.value| == |v|
    decreases |order|
  {
    if order == [] then Some(v)
    else
      var stop := StopOf(inst, order[0]);
      match FirstFitting(inst, v, stop.capacity)
      case None => None
      case Some(k) => FirstFit(inst, v[k := v[k] + [stop]], order[1..])
  }

  /** Appending a new customer of the instance to one route keeps the
      solution well formed, within capacity and with matching demands, and
      adds that customer to the served ones. */
  lemma AppendKeeps(inst: Instance, v: seq<seq<Stop>>, k: nat, c: nat)
    requires inst.Valid() && WellFormed(inst, v) && DemandsMatch(inst, v) && WithinCapacity(inst, v)
    requires k < |v| && 1 <= c < inst.numCustomers && c !in AllCusts(v)
    requires Fits(inst, v[k], inst.demand[c])
    ensures var w := v[k := v[k] + [StopOf(inst, c)]];
            WellFormed(inst, w) && DemandsMatch(inst, w) && WithinCapacity(inst, w)
            && AllCusts(w) == AllCusts(v) + multiset{c}
  {
    var stop := StopOf(inst, c);
    var s := v[k] + [stop];
    var w := v[k := s];
    AllCustsElement(v, k);
    AppendStopKeeps(inst, v[k], c, AllCusts(v));
    AllCustsUpdate(v, k, s);
    var m := multiset(CustNos(v[k]));
    assert multiset(CustNos(s)) == m + multiset{c};
    assert AllCusts(w) + m == (AllCusts(v) + multiset{c}) + m;
    forall x ensures AllCusts(w)[x] == (AllCusts(v) + multiset{c})[x] {
      assert (AllCusts(w) + m)[x] == ((AllCusts(v) + multiset{c}) + m)[x];
    }
    assert WellFormed(inst, w) by {
      forall r | 0 <= r < |w| ensures StopsInRange(inst, w[r]) && NoDupCusts(w[r]) {
        if r != k { assert w[r] == v[r]; }
      }
    }
    assert WithinCapacity(inst, w) by {
      forall r | 0 <= r < |w| ensures SumCap(w[r]) <= inst.vehicleCapacity {
        if r != k { assert w[r] == v[r]; }
      }
    }
    assert DemandsMatch(inst, w) by {
      forall r, j | 0 <= r < |w| && 0 <= j < |w[r]| ensures w[r][j].capacity == inst.demand[w[r][j].custNo] {
        if r != k { assert w[r] == v[r]; }
      }
    }
  }

  /** The one-route part of `AppendKeeps`. */
  lemma AppendStopKeeps(inst: Instance, s: seq<Stop>, c: nat, all: multiset<nat>)
    requires inst.Valid() && StopsInRange(inst, s) && NoDupCusts(s) && SumCap(s) <= inst.vehicleCapacity
    requires forall j :: 0 <= j < |s| ==> s[j].capacity == inst.demand[s[j].custNo]
    requires multiset(CustNos(s)) <= all && 1 <= c < inst.numCustomers && c !in all
    requires Fits(inst, s, inst.demand[c])
    ensures var t := s + [StopOf(inst, c)];
            StopsInRange(inst, t) && NoDupCusts(t) && SumCap(t) <= inst.vehicleCapacity
            && (forall j :: 0 <= j < |t| ==> t[j].capacity == inst.demand[t[j].custNo])
            && CustNos(t) == CustNos(s) + [c]
  {
    var stop := StopOf(inst, c);
    assert c !in CustNos(s);
    assert s + [stop] == Insert(s, |s|, stop);
    NoDupInsert(s, |s|, stop);
    SumCapAppend(s, [stop]);
    assert SumCap([stop]) == stop.capacity;
    assert CustNos(s + [stop]) == CustNos(s) + [c];
  }

  /** What first fit yields on success: every route keeps its stops and
      gets the new customers at its end, the result is well formed, within
      capacity and serves the old customers plus the placed ones. */
  lemma {:induction false} FirstFitKeeps(inst: Instance, v: seq<seq<Stop>>, order: seq<nat>)
    requires inst.Valid() && WellFormed(inst, v) && DemandsMatch(inst, v) && WithinCapacity(inst, v)
    requires Distinct(order) && forall k :: 0 <= k < |order| ==> 1 <= order[k] < inst.numCustomers
    requires forall k :: 0 <= k < |order| ==> order[k] !in AllCusts(v)
    ensures FirstFit(inst, v, order).Some? ==>
              var w := FirstFit(inst, v, order).value;
              WellFormed(inst, w) && DemandsMatch(inst, w) && WithinCapacity(inst, w)
              && AllCusts(w) == AllCusts(v) + multiset(order)
    decreases |order|
  {
    if order != [] && FirstFit(inst, v, order).Some? {
      var c := order[0];
      var stop := StopOf(inst, c);
      var k := FirstFitting(inst, v, stop.capacity).value;
      var v' := v[k := v[k] + [stop]];
      AppendKeeps(inst, v, k, c);
      DistinctTail(order, AllCusts(v));
      FirstFitKeeps(inst, v', order[1..]);
    }
  }

  /** First fit only appends: each route of the result starts with the
      stops it had. */
  lemma {:induction false} FirstFitExtends(inst: Instance, v: seq<seq<Stop>>, order: seq<nat>)
    requires inst.Valid() && InInstance(inst, order)
    ensures FirstFit(inst, v, order).Some? ==>
              forall r :: 0 <= r < |v| ==> v[r] <= FirstFit(inst, v, order).value[r]
    decreases |order|
  {
    if order != [] && FirstFit(inst, v, order).Some? {
      var stop := StopOf(inst, order[0]);
      var k := FirstFitting(inst, v, stop.capacity).value;
      var v' := v[k := v[k] + [stop]];
      FirstFitExtends(inst, v', order[1..]);
      assert forall r :: 0 <= r < |v| ==> v[r] <= v'[r];
    }
  }

  /** The rest of a list of new customers after its head is new once the head is served. */
  lemma DistinctTail(order: seq<nat>, served: multiset<nat>)
    requires |order| > 0 && Distinct(order) && forall k :: 0 <= k < |order| ==> order[k] !in served
    ensures Distinct(order[1..])
    ensures forall k :: 0 <= k < |order| - 1 ==> order[1..][k] !in served + multiset{order[0]}
    ensures multiset(order) == multiset{order[0]} + multiset(order[1..])
  {
    assert order == [order[0]] + order[1..];
    forall k | 0 <= k < |order| - 1 ensures order[1..][k] !in served + multiset{order[0]} {
      assert order[1..][k] == order[k + 1];
    }
  }

  /** The order `greedy` visits customers in: 1..n-1 by non-increasing demand,
      ties in customer order (`sort_by_key` with `Reverse`, a stable sort). */
  function GreedyOrder(inst: Instance): (order: seq<nat>)
    requires inst.Valid()
    ensures multiset(order) == multiset(Range(1, inst.numCustomers))
  {
    SortBy(Range(1, inst.numCustomers), DemandDescKey(inst))
  }

  function DemandDescKey(inst: Instance): nat -> real
  {
    (c: nat) => if c < |inst.demand| then -(inst.demand[c] as real) else 0.0
  }

  /** The customers 1..n-1, each once. */
  lemma CustomerOrder(inst: Instance, order: seq<nat>)
    requires inst.Valid() && multiset(order) == multiset(Range(1, inst.numCustomers))
    ensures Distinct(order) && |order| == inst.numCustomers - 1
    ensures forall k :: 0 <= k < |order| ==> 1 <= order[k] < inst.numCustomers
  {
    DistinctPermuted(Range(1, inst.numCustomers), order);
    assert |order| == |multiset(order)| == |Range(1, inst.numCustomers)|;
    forall k | 0 <= k < |order| ensures 1 <= order[k] < inst.numCustomers {
      assert order[k] in multiset(Range(1, inst.numCustomers));
    }
  }

  /** `greedy` visits the customers by non-increasing demand, each once. */
  lemma GreedyOrderDescending(inst: Instance)
    requires inst.Valid()
    ensures var order := GreedyOrder(inst);
            Distinct(order) && |order| == inst.numCustomers - 1
            && (forall k :: 0 <= k < |order| ==> 1 <= order[k] < inst.numCustomers)
            && forall i, j :: 0 <= i < j < |order| ==> inst.demand[order[i]] >= inst.demand[order[j]]
  {
    var order := GreedyOrder(inst);
    CustomerOrder(inst, order);
    SortBySorted(Range(1, inst.numCustomers), DemandDescKey(inst));
    forall i, j | 0 <= i < j < |order| ensures inst.demand[order[i]] >= inst.demand[order[j]] {
      assert DemandDescKey(inst)(order[i]) <= DemandDescKey(inst)(order[j]);
    }
  }

  /** The result of `greedy`; None when some customer fits no vehicle (the assert panics). */
  function GreedySpec(inst: Instance): Option<seq<seq<Stop>>>
    requires inst.Valid()
  {
    CustomerOrder(inst, GreedyOrder(inst));
    FirstFit(inst, EmptyView(inst.numVehicles), GreedyOrder(inst))
  }

  /** On success first fit from empty routes over the customers 1..n-1
      yields a feasible solution with one route per vehicle. */
  lemma FirstFitFromEmpty(inst: Instance, order: seq<nat>)
    requires inst.Valid() && multiset(order) == multiset(Range(1, inst.numCustomers))
    ensures InInstance(inst, order)
    ensures FirstFit(inst, EmptyView(inst.numVehicles), order).Some? ==>
              var w := FirstFit(inst, EmptyView(inst.numVehicles), order).value;
              Feasible(inst, w) && |w| == inst.numVehicles
  {
    CustomerOrder(inst, order);
    var e := EmptyView(inst.numVehicles);
    AllCustsEmpty(inst.numVehicles);
    forall r | 0 <= r < |e| ensures SumCap(e[r]) == 0 {
      assert e[r] == [];
    }
    FirstFitKeeps(inst, e, order);
  }

  /** A successful `greedy` is feasible and uses every vehicle's route. */
  lemma GreedyFeasible(inst: Instance)
    requires inst.Valid()
    ensures GreedySpec(inst).Some? ==>
              Feasible(inst, GreedySpec(inst).value) && |GreedySpec(inst).value| == inst.numVehicles
  {
    FirstFitFromEmpty(inst, GreedyOrder(inst));
  }

  /** The order `sweep` visits customers in: 1..n-1 by polar angle (a stable
      sort), rotated left by the random offset. */
  function SweepOrder(inst: Instance, angle: seq<real>, offset: nat): (order: seq<nat>)
    requires inst.Valid() && offset <= inst.numCustomers - 1
    ensures multiset(order) == multiset(Range(1, inst.numCustomers))
  {
    RotateLeft(SortBy(Range(1, inst.numCustomers), AngleKey(angle)), offset)
  }

  function AngleKey(angle: seq<real>): nat -> real
  {
    (c: nat) => if c < |angle| then angle[c] else 0.0
  }

  /** The result of `sweep`; None for its `Err`. */
  function SweepSpec(inst: Instance, angle: seq<real>, offset: nat): Option<seq<seq<Stop>>>
    requires inst.Valid() && offset <= inst.numCustomers - 1
  {
    CustomerOrder(inst, SweepOrder(inst, angle, offset));
    FirstFit(inst, EmptyView(inst.numVehicles), SweepOrder(inst, angle, offset))
  }

  /** A successful `sweep` is feasible and uses every vehicle's route. */
  lemma SweepFeasible(inst: Instance, angle: seq<real>, offset: nat)
    requires inst.Valid() && offset <= inst.numCustomers - 1
    ensures SweepSpec(inst, angle, offset).Some? ==>
              Feasible(inst, SweepSpec(inst, angle, offset).value)
              && |SweepSpec(inst, angle, offset).value| == inst.numVehicles
  {
    FirstFitFromEmpty(inst, SweepOrder(inst, angle, offset));
  }

  // ---------------------------------------------------------------------
  // Clarke-Wright savings
  // ---------------------------------------------------------------------

  /** The saving of serving j right after i instead of returning to the
      depot in between: d(i,0) + d(0,j) - d(i,j). */
  function Saving(inst: Instance, i: nat, j: nat): real
    requires inst.Valid() && i < inst.numCustomers && j < inst.numCustomers
  {
    inst.dist[i][0] + inst.dist[0][j] - inst.dist[i][j]
  }

  /** Distances do not depend on the direction (the program's Euclidean matrix). */
  predicate Symmetric(inst: Instance)
    requires inst.Valid()
  {
    forall a, b :: 0 <= a < inst.numCustomers && 0 <= b < inst.numCustomers ==> inst.dist[a][b] == inst.dist[b][a]
  }

  function FirstCust(s: seq<Stop>): nat
    requires |s| > 0
  {
    s[0].custNo
  }

  function LastCust(s: seq<Stop>): nat
    requires |s| > 0
  {
    s[|s| - 1].custNo
  }

  /** Driving route x and then route y costs the two routes less the saving
      at the junction of x's last and y's first customer. */
  lemma RouteCostConcat(inst: Instance, x: seq<Stop>, y: seq<Stop>)
    requires inst.Valid() && StopsInRange(inst, x) && StopsInRange(inst, y) && |x| > 0 && |y| > 0
    ensures StopsInRange(inst, x + y)
    ensures RouteCost(inst, x + y) == RouteCost(inst, x) + RouteCost(inst, y) - Saving(inst, LastCust(x), FirstCust(y))
  {
    var p, q := [0] + CustNos(x), CustNos(y) + [0];
    TourHalves(inst, x, y);
    PathCostConcat(inst, p, q);
    PathCostConcat(inst, p, [0]);
    PathCostConcat(inst, [0], q);
  }

  /** The tour of x + y is the depot and x's customers, then y's customers
      and the depot; the two halves close the tours of x and of y. */
  lemma TourHalves(inst: Instance, x: seq<Stop>, y: seq<Stop>)
    requires inst.Valid() && StopsInRange(inst, x) && StopsInRange(inst, y) && |x| > 0 && |y| > 0
    ensures StopsInRange(inst, x + y)
    ensures var p, q := [0] + CustNos(x), CustNos(y) + [0];
            InRange(inst, p) && InRange(inst, q)
            && Tour(CustNos(x + y)) == p + q && Tour(CustNos(x)) == p + [0] && Tour(CustNos(y)) == [0] + q
            && p[|p| - 1] == LastCust(x) && q[0] == FirstCust(y)
  {
    var a, b := CustNos(x), CustNos(y);
    assert CustNos(x + y) == a + b;
    var p, q := [0] + a, b + [0];
    assert InRange(inst, p) && InRange(inst, q);
    assert Tour(a + b) == p + q && Tour(a) == p + [0] && Tour(b) == [0] + q;
  }

  /** Two stop lists with distinct customers and none in common, one after the other. */
  lemma NoDupConcat(x: seq<Stop>, y: seq<Stop>)
    requires NoDupCusts(x) && NoDupCusts(y)
    requires forall k :: 0 <= k < |x| ==> x[k].custNo !in CustNos(y)
    ensures NoDupCusts(x + y)
  {
    var s := x + y;
    forall a, b | 0 <= a < b < |s| ensures s[a].custNo != s[b].custNo {
      if b < |x| {
        assert CustNos(x)[a] != CustNos(x)[b];
      } else if a >= |x| {
        assert CustNos(y)[a - |x|] != CustNos(y)[b - |x|];
      } else {
        assert s[b] == y[b - |x|] && CustNos(y)[b - |x|] == s[b].custNo;
      }
    }
  }

  /** Route a followed by route b. The two are taken out with `remove`
      (the higher index first) and the merged route is pushed at the end. */
  function Joined(v: seq<seq<Stop>>, a: nat, b: nat): (w: seq<seq<Stop>>)
    requires a < |v| && b < |v| && a != b
    ensures |w| == |v| - 1 && w[|w| - 1] == v[a] + v[b]
  {
    var hi, lo := if a < b then b else a, if a < b then a else b;
    RemoveAt(RemoveAt(v, hi), lo) + [v[a] + v[b]]
  }

  /** One pair (i, j) of the savings loop, as `clarke_wright` writes it.
      Routes ri and rj holding i and j are merged when they differ, their
      loads fit one vehicle and either ri ends with i and rj starts with j,
      or rj ends with j and ri starts with i. Either way the merged route
      is the higher-indexed route followed by the lower-indexed one
      (JoinedAsWritten). */
  function SavingStep(inst: Instance, v: seq<seq<Stop>>, i: nat, j: nat): (w: seq<seq<Stop>>)
    ensures |w| == |v| || |w| == |v| - 1
  {
    match RouteWith(v, i)
    case None => v
    case Some(ri) =>
      match RouteWith(v, j)
      case None => v
      case Some(rj) =>
        if ri == rj then v
        else if LastCust(v[ri]) == i && FirstCust(v[rj]) == j then
          if SumCap(v[ri]) + SumCap(v[rj]) <= inst.vehicleCapacity then JoinedAsWritten(v, ri, rj) else v
        else if LastCust(v[rj]) == j && FirstCust(v[ri]) == i then
          if SumCap(v[ri]) + SumCap(v[rj]) <= inst.vehicleCapacity then JoinedAsWritten(v, ri, rj) else v
        else v
  }

  /** The merge as `clarke_wright` writes it: routes a and b are taken out
      with `remove`, the higher index first, and the route removed first,
      extended by the other one's stops, is pushed at the end. */
  function JoinedAsWritten(v: seq<seq<Stop>>, a: nat, b: nat): (w: seq<seq<Stop>>)
    requires a < |v| && b < |v| && a != b
    ensures |w| == |v| - 1
    ensures w[|w| - 1] == if a < b then v[b] + v[a] else v[a] + v[b]
  {
    Joined(v, if a < b then b else a, if a < b then a else b)
  }

  /** One pair (i, j) of the savings loop as the comment on the merge
      describes it: the route ending in i, then the route starting with j,
      so that the merged route drives from i to j. */
  function SavingStepIntended(inst: Instance, v: seq<seq<Stop>>, i: nat, j: nat): (w: seq<seq<Stop>>)
    ensures |w| == |v| || |w| == |v| - 1
  {
    match RouteWith(v, i)
    case None => v
    case Some(ri) =>
      match RouteWith(v, j)
      case None => v
      case Some(rj) =>
        if ri == rj then v
        else if LastCust(v[ri]) == i && FirstCust(v[rj]) == j then
          if SumCap(v[ri]) + SumCap(v[rj]) <= inst.vehicleCapacity then Joined(v, ri, rj) else v
        else if LastCust(v[rj]) == j && FirstCust(v[ri]) == i then
          if SumCap(v[ri]) + SumCap(v[rj]) <= inst.vehicleCapacity then Joined(v, rj, ri) else v
        else v
  }

  /** The savings loop: pairs in order until the routes fit the fleet. */
  function MergeSavings(inst: Instance, v: seq<seq<Stop>>, savings: seq<(nat, nat)>): (w: seq<seq<Stop>>)
    ensures |w| <= |v|
    ensures |v| > inst.numVehicles ==> |w| >= inst.numVehicles
    decreases |savings|
  {
    if savings == [] || |v| <= inst.numVehicles then v
    else MergeSavings(inst, SavingStep(inst, v, savings[0].0, savings[0].1), savings[1..])
  }

  /** The starting point of `clarke_wright`: one route per customer 1..n-1. */
  function Singletons(inst: Instance): (v: seq<seq<Stop>>)
    requires inst.Valid()
    ensures |v| == inst.numCustomers - 1
    ensures forall k :: 0 <= k < |v| ==> v[k] == [StopOf(inst, k + 1)]
  {
    seq(inst.numCustomers - 1, k requires 0 <= k < inst.numCustomers - 1 => [StopOf(inst, k + 1)])
  }

  /** The result of `clarke_wright` for a given order of the savings pairs:
      None when more routes than vehicles remain, otherwise the merged
      routes followed by empty routes up to the fleet size. */
  function ClarkeWrightSpec(inst: Instance, savings: seq<(nat, nat)>): (r: Option<seq<seq<Stop>>>)
    requires inst.Valid()
    ensures r.Some? ==> |r.value| == inst.numVehicles
    ensures r.None? <==> |MergeSavings(inst, Singletons(inst), savings)| > inst.numVehicles
  {
    var v := MergeSavings(inst, Singletons(inst), savings);
    if |v| > inst.numVehicles then None else Some(v + EmptyView(inst.numVehicles - |v|))
  }

  /** Merging two routes keeps the served customers. */
  lemma JoinedCusts(v: seq<seq<Stop>>, a: nat, b: nat)
    requires a < |v| && b < |v| && a != b
    ensures AllCusts(Joined(v, a, b)) == AllCusts(v)
  {
    var merged := v[a] + v[b];
    assert CustNos(merged) == CustNos(v[a]) + CustNos(v[b]);
    if a < b {
      assert Joined(v, a, b) == RemoveAt(RemoveAt(v, b), a) + [merged];
      RemoveTwoJoin(v, a, b, merged);
    } else {
      assert Joined(v, a, b) == RemoveAt(RemoveAt(v, a), b) + [merged];
      RemoveTwoJoin(v, b, a, merged);
    }
  }

  lemma RemoveTwoJoin(v: seq<seq<Stop>>, lo: nat, hi: nat, merged: seq<Stop>)
    requires lo < hi < |v|
    requires multiset(CustNos(merged)) == multiset(CustNos(v[lo])) + multiset(CustNos(v[hi]))
    ensures AllCusts(RemoveAt(RemoveAt(v, hi), lo) + [merged]) == AllCusts(v)
  {
    var rest := RemoveAt(RemoveAt(v, hi), lo);
    RemoveTwoCusts(v, lo, hi);
    AllCustsAppend(rest, [merged]);
    SingleCusts(merged);
  }

  lemma RemoveTwoCusts(v: seq<seq<Stop>>, lo: nat, hi: nat)
    requires lo < hi < |v|
    ensures AllCusts(RemoveAt(RemoveAt(v, hi), lo)) + (multiset(CustNos(v[lo])) + multiset(CustNos(v[hi]))) == AllCusts(v)
  {
    var u := RemoveAt(v, hi);
    AllCustsRemoveAt(v, hi);
    assert u[lo] == v[lo];
    AllCustsRemoveAt(u, lo);
  }

  lemma SingleCusts(s: seq<Stop>)
    ensures AllCusts([s]) == multiset(CustNos(s))
  {
    assert [s][1..] == [];
  }

  /** Every route of a merge but the last is a route of the original. */
  lemma JoinedRoutes(v: seq<seq<Stop>>, a: nat, b: nat, r: nat)
    requires a < |v| && b < |v| && a != b && r < |v| - 2
    ensures exists q :: 0 <= q < |v| && Joined(v, a, b)[r] == v[q]
  {
    var w := Joined(v, a, b);
    if a < b {
      assert w == RemoveAt(RemoveAt(v, b), a) + [v[a] + v[b]];
      RemoveTwoRoute(v, a, b, r);
    } else {
      assert w == RemoveAt(RemoveAt(v, a), b) + [v[a] + v[b]];
      RemoveTwoRoute(v, b, a, r);
    }
  }

  lemma RemoveTwoRoute(v: seq<seq<Stop>>, lo: nat, hi: nat, r: nat)
    requires lo < hi < |v| && r < |v| - 2
    ensures exists q :: 0 <= q < |v| && RemoveAt(RemoveAt(v, hi), lo)[r] == v[q]
  {
    var q1 := if r < lo then r else r + 1;
    var q := if q1 < hi then q1 else q1 + 1;
    assert RemoveAt(RemoveAt(v, hi), lo)[r] == RemoveAt(v, hi)[q1] == v[q];
  }

  /** Merging two different routes of a solution without repeats keeps it
      well formed and its demands matching; the merged route is within
      capacity when the two loads fit one vehicle. */
  lemma JoinedKeeps(inst: Instance, v: seq<seq<Stop>>, a: nat, b: nat)
    requires inst.Valid() && WellFormed(inst, v) && DemandsMatch(inst, v) && NoRepeats(v)
    requires a < |v| && b < |v| && a != b
    ensures WellFormed(inst, Joined(v, a, b)) && DemandsMatch(inst, Joined(v, a, b))
    ensures WithinCapacity(inst, v) && SumCap(v[a]) + SumCap(v[b]) <= inst.vehicleCapacity ==>
              WithinCapacity(inst, Joined(v, a, b))
  {
    var w := Joined(v, a, b);
    var merged := v[a] + v[b];
    assert w[|w| - 1] == merged;
    forall k | 0 <= k < |v[a]| ensures v[a][k].custNo !in CustNos(v[b]) {
      assert CustNos(v[a])[k] == v[a][k].custNo;
      NoRepeatsDisjoint(v, a, b, v[a][k].custNo);
    }
    NoDupConcat(v[a], v[b]);
    SumCapAppend(v[a], v[b]);
    forall r | 0 <= r < |w| - 1
      ensures StopsInRange(inst, w[r]) && NoDupCusts(w[r])
      ensures forall k :: 0 <= k < |w[r]| ==> w[r][k].capacity == inst.demand[w[r][k].custNo]
      ensures WithinCapacity(inst, v) ==> SumCap(w[r]) <= inst.vehicleCapacity
    {
      JoinedRoutes(v, a, b, r);
    }
    forall k | 0 <= k < |merged| ensures merged[k].capacity == inst.demand[merged[k].custNo] {
      if k >= |v[a]| {
        assert merged[k] == v[b][k - |v[a]|];
      }
    }
  }

  /** Merging route a into route b saves exactly the saving at their junction. */
  lemma JoinedCost(inst: Instance, v: seq<seq<Stop>>, a: nat, b: nat)
    requires inst.Valid() && WellFormed(inst, v) && DemandsMatch(inst, v) && NoRepeats(v)
    requires a < |v| && b < |v| && a != b && |v[a]| > 0 && |v[b]| > 0
    ensures WellFormed(inst, Joined(v, a, b))
    ensures TotalCost(inst, Joined(v, a, b))
            == TotalCost(inst, v) - Saving(inst, LastCust(v[a]), FirstCust(v[b]))
  {
    JoinedKeeps(inst, v, a, b);
    var merged := v[a] + v[b];
    RouteCostConcat(inst, v[a], v[b]);
    if a < b {
      assert Joined(v, a, b) == RemoveAt(RemoveAt(v, b), a) + [merged];
      RemoveTwoCost(inst, v, a, b, merged);
    } else {
      assert Joined(v, a, b) == RemoveAt(RemoveAt(v, a), b) + [merged];
      RemoveTwoCost(inst, v, b, a, merged);
    }
  }

  lemma RemoveTwoCost(inst: Instance, v: seq<seq<Stop>>, lo: nat, hi: nat, merged: seq<Stop>)
    requires inst.Valid() && WellFormed(inst, v) && lo < hi < |v|
    requires StopsInRange(inst, merged) && NoDupCusts(merged)
    ensures WellFormed(inst, RemoveAt(RemoveAt(v, hi), lo) + [merged])
    ensures TotalCost(inst, RemoveAt(RemoveAt(v, hi), lo) + [merged])
            == TotalCost(inst, v) - RouteCost(inst, v[lo]) - RouteCost(inst, v[hi]) + RouteCost(inst, merged)
  {
    var u := RemoveAt(v, hi);
    TotalCostRemoveAt(inst, v, hi);
    assert u[lo] == v[lo];
    TotalCostRemoveAt(inst, u, lo);
    var one := [merged];
    assert one[1..] == [];
    assert TotalCost(inst, one) == RouteCost(inst, merged);
    TotalCostAppend(inst, RemoveAt(u, lo), one);
  }

  /** With symmetric distances, every merge of the intended savings step
      lowers the total cost by the saving of its pair. */
  lemma SavingStepSaves(inst: Instance, v: seq<seq<Stop>>, i: nat, j: nat)
    requires Merging(inst, v) && Symmetric(inst)
    ensures WellFormed(inst, SavingStepIntended(inst, v, i, j))
    ensures |SavingStepIntended(inst, v, i, j)| < |v| ==>
              i < inst.numCustomers && j < inst.numCustomers
              && TotalCost(inst, SavingStepIntended(inst, v, i, j)) == TotalCost(inst, v) - Saving(inst, i, j)
  {
    ExactlyOnceNoRepeats(inst, v);
    var w := SavingStepIntended(inst, v, i, j);
    if |w| < |v| {
      var ri, rj := RouteWith(v, i).value, RouteWith(v, j).value;
      if LastCust(v[ri]) == i && FirstCust(v[rj]) == j {
        JoinedCost(inst, v, ri, rj);
      } else {
        JoinedCost(inst, v, rj, ri);
        assert Saving(inst, j, i) == Saving(inst, i, j);
      }
    } else {
      assert w == v;
    }
  }

  /** Four points on a grid at Manhattan distances: the depot 0, customer 1
      next to it, customer 3 next to 1, customer 2 opposite 3. */
  function GridInstance(): (inst: Instance)
    ensures inst.Valid()
  {
    Instance(4, 1, 10, [0, 1, 1, 1],
             [[0.0, 1.0, 1.0, 2.0], [1.0, 0.0, 2.0, 1.0], [1.0, 2.0, 0.0, 3.0], [2.0, 1.0, 3.0, 0.0]], 3)
  }

  /** Routes 0 -> 1 -> 0 and 0 -> 3 -> 2 -> 0 (total 8) with the pair (1, 3):
      route 0 ends with 1 and route 1 starts with 3, so the merge should drive
      0 -> 1 -> 3 -> 2 -> 0 and cost 8 - Saving(1, 3) = 6. As written the
      higher-indexed route goes first, 0 -> 3 -> 2 -> 1 -> 0, which still
      costs 8. */
  lemma SavingStepMissesSaving()
    ensures SavingStep(GridInstance(), GridView(), 1, 3) == [[Stop(3, 1), Stop(2, 1), Stop(1, 1)]]
    ensures SavingStepIntended(GridInstance(), GridView(), 1, 3) == [[Stop(1, 1), Stop(3, 1), Stop(2, 1)]]
    ensures WellFormed(GridInstance(), GridView())
    ensures WellFormed(GridInstance(), SavingStep(GridInstance(), GridView(), 1, 3))
    ensures WellFormed(GridInstance(), SavingStepIntended(GridInstance(), GridView(), 1, 3))
    ensures TotalCost(GridInstance(), GridView()) == 8.0 && Saving(GridInstance(), 1, 3) == 2.0
    ensures TotalCost(GridInstance(), SavingStep(GridInstance(), GridView(), 1, 3)) == 8.0
    ensures TotalCost(GridInstance(), SavingStepIntended(GridInstance(), GridView(), 1, 3)) == 6.0
  {
    var r1, r32 := [Stop(1, 1)], [Stop(3, 1), Stop(2, 1)];
    var inst, v := GridInstance(), GridView();
    var asWritten, intended := SavingStep(inst, v, 1, 3), SavingStepIntended(inst, v, 1, 3);
    GridSteps(r1, r32);
    GridTotals(r1, r32);
    GridJoins(r1, r32);
  }

  lemma GridJoins(r1: seq<Stop>, r32: seq<Stop>)
    requires r1 == [Stop(1, 1)] && r32 == [Stop(3, 1), Stop(2, 1)]
    ensures [r32 + r1] == [[Stop(3, 1), Stop(2, 1), Stop(1, 1)]]
    ensures [r1 + r32] == [[Stop(1, 1), Stop(3, 1), Stop(2, 1)]]
  {
    assert r32 + r1 == [Stop(3, 1), Stop(2, 1), Stop(1, 1)];
    assert r1 + r32 == [Stop(1, 1), Stop(3, 1), Stop(2, 1)];
  }

  /** The total costs of the example's start and of both merges. */
  lemma GridTotals(r1: seq<Stop>, r32: seq<Stop>)
    requires r1 == [Stop(1, 1)] && r32 == [Stop(3, 1), Stop(2, 1)]
    ensures WellFormed(GridInstance(), [r1, r32]) && TotalCost(GridInstance(), [r1, r32]) == 8.0
    ensures WellFormed(GridInstance(), [r32 + r1]) && TotalCost(GridInstance(), [r32 + r1]) == 8.0
    ensures WellFormed(GridInstance(), [r1 + r32]) && TotalCost(GridInstance(), [r1 + r32]) == 6.0
    ensures Saving(GridInstance(), 1, 3) == 2.0
  {
    var inst := GridInstance();
    GridRouteCosts();
    GridRoutesValid(r1, r32);
    assert r32 + r1 == [Stop(3, 1), Stop(2, 1), Stop(1, 1)];
    assert r1 + r32 == [Stop(1, 1), Stop(3, 1), Stop(2, 1)];
    TotalCostPair(inst, r1, r32);
    TotalCostSingle(inst, r32 + r1);
    TotalCostSingle(inst, r1 + r32);
  }

  /** The two routes of the example. */
  function GridView(): seq<seq<Stop>>
  {
    [[Stop(1, 1)], [Stop(3, 1), Stop(2, 1)]]
  }

  lemma GridSteps(r1: seq<Stop>, r32: seq<Stop>)
    requires r1 == [Stop(1, 1)] && r32 == [Stop(3, 1), Stop(2, 1)]
    ensures GridView() == [r1, r32]
    ensures SavingStep(GridInstance(), [r1, r32], 1, 3) == [r32 + r1]
    ensures SavingStepIntended(GridInstance(), [r1, r32], 1, 3) == [r1 + r32]
  {
    var v := [r1, r32];
    assert CustNos(r1) == [1] && CustNos(r32) == [3, 2];
    assert RouteWith(v, 1) == Some(0);
    assert v[1..] == [r32] && RouteWith(v[1..], 3) == Some(0);
    assert RouteWith(v, 3) == Some(1);
    assert SumCap(r1) == 1 && SumCap(r32) == 2 by {
      assert r32[1..] == [Stop(2, 1)] && r32[1..][1..] == [];
      assert r1[1..] == [];
    }
    assert RemoveAt(RemoveAt(v, 1), 0) == [];
    assert LastCust(r1) == 1 && FirstCust(r32) == 3;
  }

  lemma GridRoutesValid(r1: seq<Stop>, r32: seq<Stop>)
    requires r1 == [Stop(1, 1)] && r32 == [Stop(3, 1), Stop(2, 1)]
    ensures StopsInRange(GridInstance(), r1) && NoDupCusts(r1)
    ensures StopsInRange(GridInstance(), r32) && NoDupCusts(r32)
    ensures StopsInRange(GridInstance(), r1 + r32) && NoDupCusts(r1 + r32)
    ensures StopsInRange(GridInstance(), r32 + r1) && NoDupCusts(r32 + r1)
  {
    assert CustNos(r1) == [1] && CustNos(r32) == [3, 2];
    assert CustNos(r1 + r32) == [1, 3, 2] && CustNos(r32 + r1) == [3, 2, 1];
  }

  lemma GridRouteCosts()
    ensures var inst := GridInstance();
            Saving(inst, 1, 3) == 2.0
            && RouteCost(inst, [Stop(1, 1)]) == 2.0
            && RouteCost(inst, [Stop(3, 1), Stop(2, 1)]) == 6.0
            && RouteCost(inst, [Stop(3, 1), Stop(2, 1), Stop(1, 1)]) == 8.0
            && RouteCost(inst, [Stop(1, 1), Stop(3, 1), Stop(2, 1)]) == 6.0
  {
    GridCostOne();
    GridCostTwo();
    GridCostJoinedAsWritten();
    GridCostJoined();
  }

  lemma GridCostOne()
    ensures RouteCost(GridInstance(), [Stop(1, 1)]) == 2.0
  {
    var inst := GridInstance();
    assert CustNos([Stop(1, 1)]) == [1];
    assert PathCost(inst, [1, 0]) == 1.0;
  }

  lemma GridCostTwo()
    ensures RouteCost(GridInstance(), [Stop(3, 1), Stop(2, 1)]) == 6.0
  {
    var inst := GridInstance();
    assert CustNos([Stop(3, 1), Stop(2, 1)]) == [3, 2];
    assert PathCost(inst, [2, 0]) == 1.0;
    assert PathCost(inst, [3, 2, 0]) == 4.0;
  }

  lemma GridCostJoinedAsWritten()
    ensures RouteCost(GridInstance(), [Stop(3, 1), Stop(2, 1), Stop(1, 1)]) == 8.0
  {
    var inst := GridInstance();
    assert CustNos([Stop(3, 1), Stop(2, 1), Stop(1, 1)]) == [3, 2, 1];
    assert PathCost(inst, [1, 0]) == 1.0;
    assert PathCost(inst, [2, 1, 0]) == 3.0;
    assert PathCost(inst, [3, 2, 1, 0]) == 6.0;
  }

  lemma GridCostJoined()
    ensures RouteCost(GridInstance(), [Stop(1, 1), Stop(3, 1), Stop(2, 1)]) == 6.0
  {
    var inst := GridInstance();
    assert CustNos([Stop(1, 1), Stop(3, 1), Stop(2, 1)]) == [1, 3, 2];
    assert PathCost(inst, [2, 0]) == 1.0;
    assert PathCost(inst, [3, 2, 0]) == 4.0;
    assert PathCost(inst, [1, 3, 2, 0]) == 5.0;
  }

  /** The solution invariants the savings loop keeps. */
  predicate Merging(inst: Instance, v: seq<seq<Stop>>)
  {
    inst.Valid() && WellFormed(inst, v) && DemandsMatch(inst, v) && ExactlyOnce(inst, v)
  }

  /** One savings pair keeps every customer in exactly one route, keeps
      routes well formed, and keeps them within capacity. */
  lemma SavingStepKeeps(inst: Instance, v: seq<seq<Stop>>, i: nat, j: nat)
    requires Merging(inst, v)
    ensures Merging(inst, SavingStep(inst, v, i, j))
    ensures WithinCapacity(inst, v) ==> WithinCapacity(inst, SavingStep(inst, v, i, j))
  {
    ExactlyOnceNoRepeats(inst, v);
    var w := SavingStep(inst, v, i, j);
    if |w| != |v| {
      var ri, rj := RouteWith(v, i).value, RouteWith(v, j).value;
      var hi, lo := if ri < rj then rj else ri, if ri < rj then ri else rj;
      assert w == Joined(v, hi, lo);
      JoinedKeeps(inst, v, hi, lo);
      JoinedCusts(v, hi, lo);
    }
  }

  /** The whole savings loop keeps the invariants. */
  lemma {:induction false} MergeSavingsKeeps(inst: Instance, v: seq<seq<Stop>>, savings: seq<(nat, nat)>)
    requires Merging(inst, v)
    ensures Merging(inst, MergeSavings(inst, v, savings))
    ensures WithinCapacity(inst, v) ==> WithinCapacity(inst, MergeSavings(inst, v, savings))
    decreases |savings|
  {
    if savings != [] && |v| > inst.numVehicles {
      SavingStepKeeps(inst, v, savings[0].0, savings[0].1);
      MergeSavingsKeeps(inst, SavingStep(inst, v, savings[0].0, savings[0].1), savings[1..]);
    }
  }

  /** The singleton routes serve every customer once; they are within
      capacity exactly when no single demand exceeds the capacity. */
  lemma SingletonsStart(inst: Instance)
    requires inst.Valid()
    ensures Merging(inst, Singletons(inst))
    ensures (forall c :: 1 <= c < inst.numCustomers ==> inst.demand[c] <= inst.vehicleCapacity)
            ==> WithinCapacity(inst, Singletons(inst))
  {
    var v := Singletons(inst);
    SingletonsCusts(inst, inst.numCustomers - 1);
    assert v == Singletons(inst)[..inst.numCustomers - 1];
    forall r | 0 <= r < |v| ensures SumCap(v[r]) == inst.demand[r + 1] {
      assert v[r] == [StopOf(inst, r + 1)];
    }
    forall r | 0 <= r < |v| ensures NoDupCusts(v[r]) && StopsInRange(inst, v[r]) {
      assert v[r] == [StopOf(inst, r + 1)];
    }
  }

  lemma {:induction false} SingletonsCusts(inst: Instance, m: nat)
    requires inst.Valid() && m <= inst.numCustomers - 1
    ensures AllCusts(Singletons(inst)[..m]) == multiset(Range(1, m + 1))
  {
    var v := Singletons(inst);
    if m > 0 {
      SingletonsCusts(inst, m - 1);
      var p, x := v[..m - 1], v[m - 1];
      assert v[..m] == p + [x];
      AllCustsSnoc(p, x);
      assert CustNos(x) == [m] by {
        assert x == [StopOf(inst, m)];
      }
      RangeSnoc(1, m + 1);
      assert multiset(Range(1, m + 1)) == multiset(Range(1, m)) + multiset{m};
    } else {
      assert v[..0] == [] && Range(1, 1) == [];
    }
  }

  /** A successful `clarke_wright` serves every customer exactly once, keeps
      the stops well formed with their demands, has one route per vehicle
      whose tail is empty routes, and is within capacity when every single
      demand fits a vehicle. */
  lemma ClarkeWrightFeasible(inst: Instance, savings: seq<(nat, nat)>)
    requires inst.Valid()
    ensures ClarkeWrightSpec(inst, savings).Some? ==>
              var w := ClarkeWrightSpec(inst, savings).value;
              WellFormed(inst, w) && DemandsMatch(inst, w) && ExactlyOnce(inst, w)
              && |w| == inst.numVehicles
              && ((forall c :: 1 <= c < inst.numCustomers ==> inst.demand[c] <= inst.vehicleCapacity)
                  ==> Feasible(inst, w))
  {
    SingletonsStart(inst);
    var v := MergeSavings(inst, Singletons(inst), savings);
    MergeSavingsKeeps(inst, Singletons(inst), savings);
    if |v| <= inst.numVehicles {
      PaddedKeeps(inst, v, inst.numVehicles - |v|);
    }
  }

  /** Padding merged routes with empty ones keeps the merge invariants
      and, within capacity, gives a feasible solution. */
  lemma PaddedKeeps(inst: Instance, v: seq<seq<Stop>>, n: nat)
    requires Merging(inst, v)
    ensures Merging(inst, v + EmptyView(n))
    ensures WithinCapacity(inst, v) ==> Feasible(inst, v + EmptyView(n))
  {
    var e := EmptyView(n);
    var w := v + e;
    AllCustsAppend(v, e);
    AllCustsEmpty(n);
    forall r | 0 <= r < |w| ensures StopsInRange(inst, w[r]) && NoDupCusts(w[r]) {
      if r >= |v| { assert w[r] == e[r - |v|] == []; }
    }
    forall r | |v| <= r < |w| ensures w[r] == [] && SumCap(w[r]) == 0 {
      assert w[r] == e[r - |v|];
    }
  }

  // ---------------------------------------------------------------------
  // The constructors as the program runs them
  // ---------------------------------------------------------------------

  /** The placement loop of `greedy` and `sweep`: for each customer in
      order, the vehicles are tried in index order and the customer is
      appended to the first one with `vehicle_capacity - used_capacity`
      at least its demand. False as soon as one fits nowhere (the routes
      then hold the customers placed so far). */
  method PlaceFirstFit(inst: Instance, sol: VRPSolution, order: seq<nat>) returns (ok: bool)
    requires sol.Valid(inst) && |sol.routes| == inst.numVehicles
    requires DemandsMatch(inst, sol.View()) && WithinCapacity(inst, sol.View())
    requires Distinct(order) && forall k :: 0 <= k < |order| ==> 1 <= order[k] < inst.numCustomers
    requires forall k :: 0 <= k < |order| ==> order[k] !in AllCusts(sol.View())
    modifies sol.routes
    ensures sol.routes == old(sol.routes) && sol.Valid(inst)
    ensures InInstance(inst, order)
    ensures ok <==> FirstFit(inst, old(sol.View()), order).Some?
    ensures ok ==> sol.View() == FirstFit(inst, old(sol.View()), order).value
  {
    ghost var v0 := sol.View();
    var t := 0;
    while t < |order|
      invariant t <= |order| && sol.routes == old(sol.routes) && sol.Valid(inst)
      invariant Pending(inst, sol.View(), order[t..])
      invariant FirstFit(inst, v0, order) == FirstFit(inst, sol.View(), order[t..])
    {
      var placed := PlaceOne(inst, sol, order[t..]);
      if !placed {
        return false;
      }
      assert order[t..][1..] == order[t + 1..];
      t := t + 1;
    }
    assert order[t..] == [];
    return true;
  }

  /** One step of the placement loop: the next customer goes to the first
      vehicle with room for it, if there is one. */
  method PlaceOne(inst: Instance, sol: VRPSolution, rest: seq<nat>) returns (placed: bool)
    requires sol.Valid(inst) && |sol.routes| == inst.numVehicles
    requires Pending(inst, sol.View(), rest) && |rest| > 0
    modifies sol.routes
    ensures sol.routes == old(sol.routes) && sol.Valid(inst)
    ensures !placed ==> FirstFit(inst, old(sol.View()), rest).None?
    ensures placed ==> Pending(inst, sol.View(), rest[1..])
                       && FirstFit(inst, old(sol.View()), rest) == FirstFit(inst, sol.View(), rest[1..])
  {
    ghost var v := sol.View();
    var stop := StopOf(inst, rest[0]);
    var found := FirstWithRoom(inst, sol, v, stop.capacity);
    if found.None? {
      return false;
    }
    var r := found.value;
    FirstFitStep(inst, v, rest, r);
    sol.AddStopToRoute(inst, r, stop, |sol.routes[r].stops|);
    assert sol.View() == v[r := v[r] + [stop]];
    return true;
  }

  /** The inner loop of the placement: the first vehicle whose spare
      capacity `vehicle_capacity - used_capacity` is at least d. */
  method FirstWithRoom(inst: Instance, sol: VRPSolution, ghost v: seq<seq<Stop>>, d: nat) returns (found: Option<nat>)
    requires sol.Valid(inst) && |sol.routes| == inst.numVehicles && v == sol.View() && WithinCapacity(inst, v)
    ensures found == FirstFitting(inst, v, d)
  {
    var r := 0;
    while r < inst.numVehicles
      invariant r <= inst.numVehicles
      invariant forall q :: 0 <= q < r ==> !Fits(inst, v[q], d)
    {
      if inst.vehicleCapacity - sol.routes[r].usedCap >= d {
        FirstFittingAt(inst, v, d, r);
        return Some(r);
      }
      r := r + 1;
    }
    return None;
  }

  /** The lowest index a demand fits is the first fitting route. */
  lemma FirstFittingAt(inst: Instance, v: seq<seq<Stop>>, d: nat, r: nat)
    requires r < |v| && Fits(inst, v[r], d) && forall q :: 0 <= q < r ==> !Fits(inst, v[q], d)
    ensures FirstFitting(inst, v, d) == Some(r)
  {
    var f := FirstFitting(inst, v, d);
    if f.Some? {
      assert !(f.value < r) && !(r < f.value);
    }
  }

  /** What the placement loop keeps for the customers still to place: the
      routes are well formed, within capacity, carry their demands, and the
      remaining customers are distinct and not yet served. */
  ghost predicate Pending(inst: Instance, v: seq<seq<Stop>>, rest: seq<nat>)
  {
    inst.Valid() && WellFormed(inst, v) && DemandsMatch(inst, v) && WithinCapacity(inst, v)
    && Distinct(rest) && (forall k :: 0 <= k < |rest| ==> 1 <= rest[k] < inst.numCustomers)
    && forall k :: 0 <= k < |rest| ==> rest[k] !in AllCusts(v)
  }

  /** Placing the next customer into the first route it fits keeps the
      pending invariant for the others and advances first fit by one step. */
  lemma FirstFitStep(inst: Instance, v: seq<seq<Stop>>, rest: seq<nat>, r: nat)
    requires Pending(inst, v, rest) && |rest| > 0
    requires FirstFitting(inst, v, inst.demand[rest[0]]) == Some(r)
    ensures rest[0] !in CustNos(v[r])
    ensures Insert(v[r], |v[r]|, StopOf(inst, rest[0])) == v[r] + [StopOf(inst, rest[0])]
    ensures var w := v[r := v[r] + [StopOf(inst, rest[0])]];
            Pending(inst, w, rest[1..]) && FirstFit(inst, v, rest) == FirstFit(inst, w, rest[1..])
  {
    var c := rest[0];
    AllCustsElement(v, r);
    AppendKeeps(inst, v, r, c);
    DistinctTail(rest, AllCusts(v));
  }

  /** `greedy`: first fit over the customers by non-increasing demand into
      `num_vehicles` empty routes; None where the program panics because a
      customer fits no vehicle. */
  method Greedy(inst: Instance) returns (r: Option<VRPSolution>)
    requires inst.Valid()
    ensures r.Some? <==> GreedySpec(inst).Some?
    ensures r.Some? ==> fresh(r.value) && r.value.Valid(inst) && r.value.View() == GreedySpec(inst).value
                        && Feasible(inst, r.value.View())
  {
    var order := GreedyOrder(inst);
    var sol := new VRPSolution(inst);
    PlaceFromEmpty(inst, sol.View(), order);
    var ok := PlaceFirstFit(inst, sol, order);
    GreedyFeasible(inst);
    r := if ok then Some(sol) else None;
  }

  /** The starting point of first fit: empty routes serve nobody and carry nothing. */
  lemma PlaceFromEmpty(inst: Instance, v: seq<seq<Stop>>, order: seq<nat>)
    requires inst.Valid() && v == EmptyView(inst.numVehicles)
    requires multiset(order) == multiset(Range(1, inst.numCustomers))
    ensures DemandsMatch(inst, v) && WithinCapacity(inst, v)
    ensures Distinct(order) && forall k :: 0 <= k < |order| ==> 1 <= order[k] < inst.numCustomers
    ensures forall k :: 0 <= k < |order| ==> order[k] !in AllCusts(v)
    ensures Pending(inst, v, order)
  {
    CustomerOrder(inst, order);
    AllCustsEmpty(inst.numVehicles);
    forall r | 0 <= r < |v| ensures SumCap(v[r]) == 0 {
      assert v[r] == [];
    }
  }

  /** `sweep` with the customers' polar angles and the drawn rotation
      `random_range(0..n-1)`, which needs at least one customer. None is
      its `Err`. */
  method Sweep(inst: Instance, angle: seq<real>, offset: nat) returns (r: Option<VRPSolution>)
    requires inst.Valid() && offset < inst.numCustomers - 1
    ensures r.Some? <==> SweepSpec(inst, angle, offset).Some?
    ensures r.Some? ==> fresh(r.value) && r.value.Valid(inst) && r.value.View() == SweepSpec(inst, angle, offset).value
  {
    var sol := new VRPSolution(inst);
    var order := SweepOrder(inst, angle, offset);
    PlaceFromEmpty(inst, sol.View(), order);
    var ok := PlaceFirstFit(inst, sol, order);
    r := if ok then Some(sol) else None;
  }

  /** "merge head <- tail": the stops of `back` appended one by one to the
      end of `front`. */
  method AppendStops(front: Route, back: Route)
    requires front.Valid() && back.Valid() && front != back && front.inst == back.inst
    requires forall k :: 0 <= k < |back.stops| ==> back.stops[k].custNo !in CustNos(front.stops)
    modifies front
    ensures front.Valid() && front.inst == old(front.inst) && front.id == old(front.id)
    ensures front.stops == old(front.stops) + back.stops
  {
    ghost var s0 := front.stops;
    var t := 0;
    while t < |back.stops|
      invariant t <= |back.stops| && front.Valid() && front.inst == old(front.inst) && front.id == old(front.id)
      invariant front.stops == s0 + back.stops[..t]
    {
      var stop := back.stops[t];
      AppendNext(s0, back.stops, t);
      front.AddStopToIndex(stop, |front.stops|);
      t := t + 1;
    }
    assert back.stops[..t] == back.stops;
  }

  /** The next stop of `back` is not on the route yet, and appending it
      extends the prefix taken by one. */
  lemma AppendNext(s0: seq<Stop>, back: seq<Stop>, t: nat)
    requires t < |back| && NoDupCusts(back)
    requires forall k :: 0 <= k < |back| ==> back[k].custNo !in CustNos(s0)
    ensures back[t].custNo !in CustNos(s0 + back[..t])
    ensures Insert(s0 + back[..t], |s0 + back[..t]|, back[t]) == s0 + back[..t + 1]
  {
    var c := CustNos(back);
    assert CustNos(s0 + back[..t]) == CustNos(s0) + c[..t];
    forall k | 0 <= k < t ensures c[..t][k] != c[t] {
      assert c[k] != c[t];
    }
    assert back[..t + 1] == back[..t] + [back[t]];
  }

  /** The route objects of `Joined`: route a's object, extended by b's stops, at the end. */
  method JoinRoutes(ghost inst: Instance, rs: seq<Route>, a: nat, b: nat) returns (out: seq<Route>)
    requires RoutesValid(inst, rs) && a < |rs| && b < |rs| && a != b
    requires NoRepeats(RoutesView(rs))
    modifies rs[a]
    ensures RoutesValid(inst, out) && RoutesView(out) == Joined(old(RoutesView(rs)), a, b)
    ensures forall q :: 0 <= q < |out| ==> out[q] in rs
  {
    ghost var v := RoutesView(rs);
    var hi, lo := if a < b then b else a, if a < b then a else b;
    var front, back := rs[a], rs[b];
    var rest := RemoveAt(RemoveAt(rs, hi), lo);
    JoinPrep(inst, rs, a, b);
    ghost var restView := RoutesView(rest);
    AppendStops(front, back);
    assert RoutesView(rest) == restView;
    RoutesSnoc(inst, rest, front);
    out := rest + [front];
  }

  /** What joining routes a and b needs before route a changes: the other
      routes keep their order and validity and do not include route a, and
      route b's customers are not on route a. */
  lemma JoinPrep(inst: Instance, rs: seq<Route>, a: nat, b: nat)
    requires RoutesValid(inst, rs) && a < |rs| && b < |rs| && a != b
    requires NoRepeats(RoutesView(rs))
    ensures var hi, lo := if a < b then b else a, if a < b then a else b;
            var rest := RemoveAt(RemoveAt(rs, hi), lo);
            && RoutesValid(inst, rest)
            && RoutesView(rest) + [rs[a].stops + rs[b].stops] == Joined(RoutesView(rs), a, b)
            && (forall q :: 0 <= q < |rest| ==> rest[q] != rs[a] && rest[q] in rs)
            && (forall k :: 0 <= k < |rs[b].stops| ==> rs[b].stops[k].custNo !in CustNos(rs[a].stops))
  {
    var v := RoutesView(rs);
    var hi, lo := if a < b then b else a, if a < b then a else b;
    var rest := RemoveAt(RemoveAt(rs, hi), lo);
    RoutesRemoveAt(inst, rs, hi);
    assert RemoveAt(rs, hi)[lo] == rs[lo];
    RoutesRemoveAt(inst, RemoveAt(rs, hi), lo);
    forall q | 0 <= q < |rest| ensures rest[q] != rs[a] && rest[q] in rs {
      assert rest[q] in RemoveAt(rs, hi);
    }
    forall k | 0 <= k < |rs[b].stops| ensures rs[b].stops[k].custNo !in CustNos(rs[a].stops) {
      assert CustNos(v[b])[k] == rs[b].stops[k].custNo;
      NoRepeatsDisjoint(v, b, a, rs[b].stops[k].custNo);
    }
  }

  /** One pair of the savings loop on the route objects. */
  method MergeStep(inst: Instance, rs: seq<Route>, ghost v: seq<seq<Stop>>, i: nat, j: nat) returns (out: seq<Route>)
    requires RoutesValid(inst, rs) && v == RoutesView(rs) && NoRepeats(v)
    modifies rs
    ensures RoutesValid(inst, out) && RoutesView(out) == SavingStep(inst, v, i, j)
    ensures forall q :: 0 <= q < |out| ==> out[q] in rs
  {
    out := rs;
    assert forall q :: 0 <= q < |out| ==> out[q] in rs;
    var ri := RouteIndexOf(rs, i);
    if ri.None? {
      return;
    }
    var rj := RouteIndexOf(rs, j);
    if rj.None? {
      return;
    }
    var a, b := ri.value, rj.value;
    if a == b {
      return;
    }
    out := MergeFound(inst, rs, v, i, j, a, b);
  }

  /** The rest of a savings step once routes a and b hold i and j. */
  method MergeFound(inst: Instance, rs: seq<Route>, ghost v: seq<seq<Stop>>, i: nat, j: nat, a: nat, b: nat)
    returns (out: seq<Route>)
    requires RoutesValid(inst, rs) && v == RoutesView(rs) && NoRepeats(v)
    requires RouteWith(v, i) == Some(a) && RouteWith(v, j) == Some(b) && a != b
    modifies rs
    ensures RoutesValid(inst, out) && RoutesView(out) == SavingStep(inst, v, i, j)
    ensures forall q :: 0 <= q < |out| ==> out[q] in rs
  {
    out := rs;
    assert forall q :: 0 <= q < |out| ==> out[q] in rs;
    TourEnds(v[a]);
    TourEnds(v[b]);
    assert |v[a]| > 0 && |v[b]| > 0;
    var tailToHead := rs[a].Last() == i && rs[b].First() == j;
    var headToTail := rs[b].Last() == j && rs[a].First() == i;
    var fits := rs[a].usedCap + rs[b].usedCap <= inst.vehicleCapacity;
    assert tailToHead == (LastCust(v[a]) == i && FirstCust(v[b]) == j);
    assert headToTail == (LastCust(v[b]) == j && FirstCust(v[a]) == i);
    assert fits == (SumCap(v[a]) + SumCap(v[b]) <= inst.vehicleCapacity);
    SavingStepAt(inst, v, i, j, a, b);
    var hi, lo := if a < b then b else a, if a < b then a else b;
    if tailToHead {
      if fits {
        out := JoinRoutes(inst, rs, hi, lo);
      } else {
        assert SavingStep(inst, v, i, j) == v;
      }
    } else if headToTail {
      if fits {
        out := JoinRoutes(inst, rs, hi, lo);
      } else {
        assert SavingStep(inst, v, i, j) == v;
      }
    } else {
      assert SavingStep(inst, v, i, j) == v;
    }
  }

  /** `SavingStep` once both routes are found and differ. */
  lemma SavingStepAt(inst: Instance, v: seq<seq<Stop>>, i: nat, j: nat, a: nat, b: nat)
    requires RouteWith(v, i) == Some(a) && RouteWith(v, j) == Some(b) && a != b
    ensures |v[a]| > 0 && |v[b]| > 0
    ensures SavingStep(inst, v, i, j)
            == if LastCust(v[a]) == i && FirstCust(v[b]) == j then
                 if SumCap(v[a]) + SumCap(v[b]) <= inst.vehicleCapacity then JoinedAsWritten(v, a, b) else v
               else if LastCust(v[b]) == j && FirstCust(v[a]) == i then
                 if SumCap(v[a]) + SumCap(v[b]) <= inst.vehicleCapacity then JoinedAsWritten(v, a, b) else v
               else v
  {
  }

  /** The first and last customer of a route are the second and the
      next-to-last entries of its tour. */
  lemma TourEnds(s: seq<Stop>)
    requires |s| > 0
    ensures Tour(CustNos(s))[1] == FirstCust(s) && Tour(CustNos(s))[|s|] == LastCust(s)
  {
  }

  /** `clarke_wright` for a given order of the savings pairs (the program
      sorts the pairs i < j by their saving plus Normal(1, 1) noise). The
      capacity that `Vec::with_capacity((n - 1) * (n - 2) / 2)` computes
      underflows for a single location, hence the precondition. The
      singleton routes are made with ids 1..n-1, and on success a fresh
      solution takes clones of the merged routes in its first slots. */
  method ClarkeWright(inst: Instance, savings: seq<(nat, nat)>) returns (r: Option<VRPSolution>)
    requires inst.Valid() && inst.numCustomers >= 2
    ensures r.Some? <==> ClarkeWrightSpec(inst, savings).Some?
    ensures r.Some? ==> fresh(r.value) && r.value.Valid(inst)
                        && r.value.View() == ClarkeWrightSpec(inst, savings).value
  {
    var routes := SingletonRoutes(inst);
    routes := MergeAll(inst, routes, savings);
    if |routes| > inst.numVehicles {
      return None;
    }
    var sol := SolutionOf(inst, routes, RoutesView(routes));
    return Some(sol);
  }

  /** One fresh route per customer 1..n-1 holding just that customer, with
      the customer number as its id. */
  method SingletonRoutes(inst: Instance) returns (routes: seq<Route>)
    requires inst.Valid()
    ensures RoutesValid(inst, routes) && forall q :: 0 <= q < |routes| ==> fresh(routes[q])
    ensures RoutesView(routes) == Singletons(inst)
  {
    var n := inst.numCustomers;
    routes := [];
    var c := 1;
    while c < n
      invariant 1 <= c <= n && |routes| == c - 1
      invariant RoutesValid(inst, routes) && forall q :: 0 <= q < |routes| ==> fresh(routes[q])
      invariant forall q :: 0 <= q < |routes| ==> routes[q].stops == [StopOf(inst, q + 1)]
    {
      routes := PushSingleton(inst, routes, c);
      c := c + 1;
    }
    assert RoutesView(routes) == Singletons(inst);
  }

  /** One more singleton route, pushed at the end. */
  method PushSingleton(inst: Instance, rs: seq<Route>, c: nat) returns (rs': seq<Route>)
    requires RoutesValid(inst, rs) && c < inst.numCustomers
    ensures RoutesValid(inst, rs') && |rs'| == |rs| + 1
    ensures forall k :: 0 <= k < |rs| ==> rs'[k] == rs[k]
    ensures fresh(rs'[|rs|]) && rs'[|rs|].stops == [StopOf(inst, c)]
  {
    var route := SingletonRoute(inst, c);
    RoutesSnoc(inst, rs, route);
    rs' := rs + [route];
  }

  /** `Route::new(vrp, c)` followed by `add_stop_to_index(Stop(c, demand), 0)`. */
  method SingletonRoute(inst: Instance, c: nat) returns (route: Route)
    requires inst.Valid() && c < inst.numCustomers
    ensures fresh(route) && route.Valid() && route.inst == inst && route.id == c
    ensures route.stops == [StopOf(inst, c)]
  {
    route := new Route(inst, c);
    assert Insert([], 0, StopOf(inst, c)) == [StopOf(inst, c)];
    route.AddStopToIndex(StopOf(inst, c), 0);
  }

  /** The savings loop on fresh route objects: stop once the routes fit
      the fleet, otherwise try the next pair. */
  method MergeAll(inst: Instance, start: seq<Route>, savings: seq<(nat, nat)>) returns (routes: seq<Route>)
    requires RoutesValid(inst, start) && RoutesView(start) == Singletons(inst)
    modifies start
    ensures RoutesValid(inst, routes) && RoutesView(routes) == MergeSavings(inst, Singletons(inst), savings)
  {
    SingletonsStart(inst);
    routes := start;
    var k := 0;
    while k < |savings|
      invariant k <= |savings|
      invariant RoutesValid(inst, routes) && forall q :: 0 <= q < |routes| ==> routes[q] in start
      invariant Merging(inst, RoutesView(routes))
      invariant MergeSavings(inst, Singletons(inst), savings) == MergeSavings(inst, RoutesView(routes), savings[k..])
    {
      if |routes| <= inst.numVehicles {
        break;
      }
      var (i, j) := savings[k];
      assert savings[k..][0] == (i, j) && savings[k..][1..] == savings[k + 1..];
      ghost var v := RoutesView(routes);
      SavingStepKeeps(inst, v, i, j);
      ExactlyOnceNoRepeats(inst, v);
      routes := MergeStep(inst, routes, v, i, j);
      k := k + 1;
    }
  }

  /** A fresh solution whose first routes are clones of the given routes
      and whose other routes are empty. */
  method SolutionOf(inst: Instance, routes: seq<Route>, ghost v: seq<seq<Stop>>) returns (sol: VRPSolution)
    requires RoutesValid(inst, routes) && |routes| <= inst.numVehicles && v == RoutesView(routes)
    ensures fresh(sol) && sol.Valid(inst)
    ensures sol.View() == v + EmptyView(inst.numVehicles - |routes|)
  {
    ghost var n := inst.numVehicles;
    sol := new VRPSolution(inst);
    assert v[..0] + EmptyView(n) == EmptyView(n);
    var t := 0;
    while t < |routes|
      invariant t <= |routes| && |sol.routes| == n && sol.Valid(inst)
      invariant sol.View() == v[..t] + EmptyView(n - t)
    {
      PutClone(inst, sol, t, routes[t], v, n);
      t := t + 1;
    }
    assert v[..|routes|] == v;
  }

  /** `routes[t] = route.clone()`. */
  method PutClone(ghost inst: Instance, sol: VRPSolution, t: nat, route: Route, ghost v: seq<seq<Stop>>, ghost n: nat)
    requires sol.Valid(inst) && route.Valid() && route.inst == inst
    requires t < |v| <= n == |sol.routes| && route.stops == v[t] && sol.View() == v[..t] + EmptyView(n - t)
    modifies sol
    ensures sol.Valid(inst) && |sol.routes| == n
    ensures sol.View() == v[..t + 1] + EmptyView(n - (t + 1))
  {
    var copy := route.Clone();
    sol.SetRoute(inst, t, copy);
    FillStep(v, t, n);
  }

  /** Filling position t of a partly filled view with route t. */
  lemma FillStep(v: seq<seq<Stop>>, t: nat, n: nat)
    requires t < |v| <= n
    ensures (v[..t] + EmptyView(n - t))[t := v[t]] == v[..t + 1] + EmptyView(n - (t + 1))
  {
    var a := (v[..t] + EmptyView(n - t))[t := v[t]];
    var b := v[..t + 1] + EmptyView(n - (t + 1));
    assert |a| == |b|;
    forall q | 0 <= q < |a| ensures a[q] == b[q] {
      if q > t {
        assert a[q] == EmptyView(n - t)[q - t];
        assert b[q] == EmptyView(n - (t + 1))[q - (t + 1)];
      }
    }
  }

  // ---------------------------------------------------------------------
  // The retry cascade
  // ---------------------------------------------------------------------

  /** How often `clarke_wright_and_then_sweep` tries each randomised constructor. */
  const CW_ATTEMPTS: nat := 5
  const SWEEP_ATTEMPTS: nat := 50

  /** The first successful Clarke-Wright attempt, one savings order per attempt. */
  function FirstClarkeWright(inst: Instance, tries: seq<seq<(nat, nat)>>): (r: Option<seq<seq<Stop>>>)
    requires inst.Valid()
    ensures r.None? <==> forall k :: 0 <= k < |tries| ==> ClarkeWrightSpec(inst, tries[k]).None?
  {
    if tries == [] then None
    else if ClarkeWrightSpec(inst, tries[0]).Some? then ClarkeWrightSpec(inst, tries[0])
    else
      assert forall k :: 1 <= k < |tries| ==> tries[k] == tries[1..][k - 1];
      FirstClarkeWright(inst, tries[1..])
  }

  /** The first successful sweep, one rotation offset per attempt. */
  function FirstSweep(inst: Instance, angle: seq<real>, offsets: seq<nat>): (r: Option<seq<seq<Stop>>>)
    requires inst.Valid() && forall k :: 0 <= k < |offsets| ==> offsets[k] < inst.numCustomers - 1
    ensures r.None? <==> forall k :: 0 <= k < |offsets| ==> SweepSpec(inst, angle, offsets[k]).None?
  {
    if offsets == [] then None
    else if SweepSpec(inst, angle, offsets[0]).Some? then SweepSpec(inst, angle, offsets[0])
    else
      assert forall k :: 1 <= k < |offsets| ==> offsets[k] == offsets[1..][k - 1];
      FirstSweep(inst, angle, offsets[1..])
  }

  /** `clarke_wright_and_then_sweep`: the first Clarke-Wright success, else
      the first sweep success, else greedy (None where greedy panics). */
  function CascadeSpec(inst: Instance, tries: seq<seq<(nat, nat)>>, angle: seq<real>, offsets: seq<nat>)
    : Option<seq<seq<Stop>>>
    requires inst.Valid() && forall k :: 0 <= k < |offsets| ==> offsets[k] < inst.numCustomers - 1
  {
    if FirstClarkeWright(inst, tries).Some? then FirstClarkeWright(inst, tries)
    else if FirstSweep(inst, angle, offsets).Some? then FirstSweep(inst, angle, offsets)
    else GreedySpec(inst)
  }

  /** The attempt that succeeds first decides the Clarke-Wright stage. */
  lemma {:induction false} FirstClarkeWrightIsFirst(inst: Instance, tries: seq<seq<(nat, nat)>>, k: nat)
    requires inst.Valid() && k < |tries| && ClarkeWrightSpec(inst, tries[k]).Some?
    requires forall q :: 0 <= q < k ==> ClarkeWrightSpec(inst, tries[q]).None?
    ensures FirstClarkeWright(inst, tries) == ClarkeWrightSpec(inst, tries[k])
  {
    if k > 0 {
      assert tries[1..][k - 1] == tries[k];
      forall q | 0 <= q < k - 1 ensures ClarkeWrightSpec(inst, tries[1..][q]).None? {
        assert tries[1..][q] == tries[q + 1];
      }
      FirstClarkeWrightIsFirst(inst, tries[1..], k - 1);
    }
  }

  /** The Clarke-Wright attempts from k on: attempt k if it succeeds, else the rest. */
  lemma FirstClarkeWrightStep(inst: Instance, tries: seq<seq<(nat, nat)>>, k: nat)
    requires inst.Valid() && k < |tries|
    ensures FirstClarkeWright(inst, tries[k..])
         == if ClarkeWrightSpec(inst, tries[k]).Some? then ClarkeWrightSpec(inst, tries[k])
            else FirstClarkeWright(inst, tries[k + 1..])
  {
    assert tries[k..][0] == tries[k] && tries[k..][1..] == tries[k + 1..];
  }

  /** The sweep attempts from k on: attempt k if it succeeds, else the rest. */
  lemma FirstSweepStep(inst: Instance, angle: seq<real>, offsets: seq<nat>, k: nat)
    requires inst.Valid() && forall q :: 0 <= q < |offsets| ==> offsets[q] < inst.numCustomers - 1
    requires k < |offsets|
    ensures forall q :: 0 <= q < |offsets[k..]| ==> offsets[k..][q] < inst.numCustomers - 1
    ensures FirstSweep(inst, angle, offsets[k..])
         == if SweepSpec(inst, angle, offsets[k]).Some? then SweepSpec(inst, angle, offsets[k])
            else FirstSweep(inst, angle, offsets[k + 1..])
  {
    assert offsets[k..][0] == offsets[k] && offsets[k..][1..] == offsets[k + 1..];
  }

  /** The attempt that succeeds first decides the sweep stage. */
  lemma {:induction false} FirstSweepIsFirst(inst: Instance, angle: seq<real>, offsets: seq<nat>, k: nat)
    requires inst.Valid() && forall q :: 0 <= q < |offsets| ==> offsets[q] < inst.numCustomers - 1
    requires k < |offsets| && SweepSpec(inst, angle, offsets[k]).Some?
    requires forall q :: 0 <= q < k ==> SweepSpec(inst, angle, offsets[q]).None?
    ensures FirstSweep(inst, angle, offsets) == SweepSpec(inst, angle, offsets[k])
  {
    if k > 0 {
      var tail := offsets[1..];
      assert SweepSpec(inst, angle, offsets[0]).None?;
      assert FirstSweep(inst, angle, offsets) == FirstSweep(inst, angle, tail);
      assert tail[k - 1] == offsets[k];
      forall q | 0 <= q < k - 1 ensures SweepSpec(inst, angle, tail[q]).None? {
        assert tail[q] == offsets[q + 1];
      }
      FirstSweepIsFirst(inst, angle, tail, k - 1);
    }
  }

  /** Whatever stage succeeds, the cascade's solution has one route per
      vehicle and serves every customer exactly once; it is feasible as soon
      as every single demand fits a vehicle (only Clarke-Wright, which never
      tests the singleton routes, can otherwise overload one). */
  lemma {:induction false} CascadeFeasible(inst: Instance, tries: seq<seq<(nat, nat)>>, angle: seq<real>, offsets: seq<nat>)
    requires inst.Valid() && forall k :: 0 <= k < |offsets| ==> offsets[k] < inst.numCustomers - 1
    ensures CascadeSpec(inst, tries, angle, offsets).Some? ==>
              var w := CascadeSpec(inst, tries, angle, offsets).value;
              WellFormed(inst, w) && DemandsMatch(inst, w) && ExactlyOnce(inst, w)
              && |w| == inst.numVehicles
              && ((forall c :: 1 <= c < inst.numCustomers ==> inst.demand[c] <= inst.vehicleCapacity)
                  ==> Feasible(inst, w))
  {
    if FirstClarkeWright(inst, tries).Some? {
      FirstClarkeWrightFeasible(inst, tries);
    } else if FirstSweep(inst, angle, offsets).Some? {
      FirstSweepFeasible(inst, angle, offsets);
    } else {
      GreedyFeasible(inst);
    }
  }

  lemma {:induction false} FirstClarkeWrightFeasible(inst: Instance, tries: seq<seq<(nat, nat)>>)
    requires inst.Valid()
    ensures FirstClarkeWright(inst, tries).Some? ==>
              var w := FirstClarkeWright(inst, tries).value;
              WellFormed(inst, w) && DemandsMatch(inst, w) && ExactlyOnce(inst, w)
              && |w| == inst.numVehicles
              && ((forall c :: 1 <= c < inst.numCustomers ==> inst.demand[c] <= inst.vehicleCapacity)
                  ==> Feasible(inst, w))
  {
    if tries != [] {
      ClarkeWrightFeasible(inst, tries[0]);
      FirstClarkeWrightFeasible(inst, tries[1..]);
    }
  }

  lemma {:induction false} FirstSweepFeasible(inst: Instance, angle: seq<real>, offsets: seq<nat>)
    requires inst.Valid() && forall k :: 0 <= k < |offsets| ==> offsets[k] < inst.numCustomers - 1
    ensures FirstSweep(inst, angle, offsets).Some? ==>
              Feasible(inst, FirstSweep(inst, angle, offsets).value)
              && |FirstSweep(inst, angle, offsets).value| == inst.numVehicles
  {
    if offsets != [] {
      SweepFeasible(inst, angle, offsets[0]);
      FirstSweepFeasible(inst, angle, offsets[1..]);
    }
  }

  /** `clarke_wright_and_then_sweep` with the random draws of each attempt:
      five savings orders, then fifty sweep rotations. */
  method ClarkeWrightAndThenSweep(inst: Instance, tries: seq<seq<(nat, nat)>>, angle: seq<real>, offsets: seq<nat>)
    returns (r: Option<VRPSolution>)
    requires inst.Valid() && inst.numCustomers >= 2
    requires |tries| == CW_ATTEMPTS && |offsets| == SWEEP_ATTEMPTS
    requires forall k :: 0 <= k < |offsets| ==> offsets[k] < inst.numCustomers - 1
    ensures r.Some? <==> CascadeSpec(inst, tries, angle, offsets).Some?
    ensures r.Some? ==> fresh(r.value) && r.value.Valid(inst)
                        && r.value.View() == CascadeSpec(inst, tries, angle, offsets).value
  {
    r := TryClarkeWright(inst, tries);
    if r.None? {
      r := TrySweep(inst, angle, offsets);
      if r.None? {
        r := Greedy(inst);
      }
    }
  }

  /** The Clarke-Wright attempts in order, returning the first success. */
  method TryClarkeWright(inst: Instance, tries: seq<seq<(nat, nat)>>) returns (r: Option<VRPSolution>)
    requires inst.Valid() && inst.numCustomers >= 2
    ensures r.Some? <==> FirstClarkeWright(inst, tries).Some?
    ensures r.Some? ==> fresh(r.value) && r.value.Valid(inst) && r.value.View() == FirstClarkeWright(inst, tries).value
  {
    var k := 0;
    assert tries[0..] == tries;
    while k < |tries|
      invariant k <= |tries|
      invariant FirstClarkeWright(inst, tries) == FirstClarkeWright(inst, tries[k..])
    {
      var attempt := ClarkeWright(inst, tries[k]);
      FirstClarkeWrightStep(inst, tries, k);
      if attempt.Some? {
        return attempt;
      }
      k := k + 1;
    }
    return None;
  }

  /** The sweep attempts in order, returning the first success. */
  method TrySweep(inst: Instance, angle: seq<real>, offsets: seq<nat>) returns (r: Option<VRPSolution>)
    requires inst.Valid() && forall k :: 0 <= k < |offsets| ==> offsets[k] < inst.numCustomers - 1
    ensures r.Some? <==> FirstSweep(inst, angle, offsets).Some?
    ensures r.Some? ==> fresh(r.value) && r.value.Valid(inst) && r.value.View() == FirstSweep(inst, angle, offsets).value
  {
    var k := 0;
    assert offsets[0..] == offsets;
    while k < |offsets|
      invariant k <= |offsets|
      invariant FirstSweep(inst, angle, offsets) == FirstSweep(inst, angle, offsets[k..])
    {
      var attempt := Sweep(inst, angle, offsets[k]);
      FirstSweepStep(inst, angle, offsets, k);
      if attempt.Some? {
        return attempt;
      }
      k := k + 1;
    }
    return None;
  }
}
