/** `src/jump.rs`: the restart move. `random_drop` takes a share of the
    customers out of every route and puts them back one by one, heaviest
    first, into the first route (in a shuffled route order) with room, at
    that route's best position; `random_jump` retries it on fresh copies.
    The shuffles and the drop count are parameters. */
module Jump {
  import opened Prelude
  import opened Sorting
  import opened VrpInstance
  import opened Tours
  import opened Views
  import opened Common
  import opened Construct

  // ---------------------------------------------------------------------
  // The dropped customers
  // ---------------------------------------------------------------------

  /** `to_remove`, the float product `num_customers * frac_dropped` cast to
      an unsigned integer: the cast truncates towards zero and saturates at
      zero, so the count is the floor of n * frac for a positive fraction
      and 0 otherwise (float rounding of the product is not modelled). */
  function DropCount(n: nat, frac: real): (k: nat)
    ensures frac <= 0.0 ==> k == 0
    ensures frac >= 0.0 ==> k as real <= n as real * frac < k as real + 1.0
  {
    if frac <= 0.0 then 0
    else
      var x := n as real * frac;
      assert x >= 0.0 by { ProductNonneg(n as real, frac); }
      x.Floor
  }

  lemma ProductNonneg(x: real, y: real)
    requires x >= 0.0 && y >= 0.0
    ensures x * y >= 0.0
  {
  }

  /** `truncate(to_remove)` of the shuffled customer list. */
  function Truncated(shuffled: seq<nat>, toRemove: nat): (removed: seq<nat>)
  {
    if toRemove < |shuffled| then shuffled[..toRemove] else shuffled
  }

  /** The `retain_stops` predicate: the stop's customer was not drawn. */
  function NotRemoved(removed: seq<nat>): Stop -> bool
  {
    (s: Stop) => s.custNo !in removed
  }

  /** Every route with the drawn customers taken out. */
  function Dropped(v: seq<seq<Stop>>, removed: seq<nat>): (w: seq<seq<Stop>>)
    ensures |w| == |v|
    ensures forall r :: 0 <= r < |v| ==> w[r] == Filter(v[r], NotRemoved(removed))
  {
    seq(|v|, r requires 0 <= r < |v| => Filter(v[r], NotRemoved(removed)))
  }

  /** The stops the drawn customers are re-created as, in draw order. */
  function RemovedStops(inst: Instance, removed: seq<nat>): (s: seq<Stop>)
    requires inst.Valid() && InInstance(inst, removed)
    ensures |s| == |removed| && forall k :: 0 <= k < |s| ==> s[k] == StopOf(inst, removed[k])
  {
    seq(|removed|, k requires 0 <= k < |removed| => StopOf(inst, removed[k]))
  }

  /** `Reverse(capacity)` as an ascending sort key. */
  function CapacityDescKey(): Stop -> real
  {
    (s: Stop) => -(s.capacity as real)
  }

  /** `to_add` after `sort_by_key(Reverse(capacity))` (a stable sort). */
  function ToAdd(inst: Instance, removed: seq<nat>): seq<Stop>
    requires inst.Valid() && InInstance(inst, removed)
  {
    SortBy(RemovedStops(inst, removed), CapacityDescKey())
  }

  /** The customers of every route are rows of the matrix. */
  predicate AllInRange(inst: Instance, v: seq<seq<Stop>>)
  {
    forall r :: 0 <= r < |v| ==> StopsInRange(inst, v[r])
  }

  predicate StopsOfInstance(inst: Instance, stops: seq<Stop>)
  {
    forall k :: 0 <= k < |stops| ==> stops[k].custNo < inst.numCustomers
  }

  // ---------------------------------------------------------------------
  // Reinsertion
  // ---------------------------------------------------------------------

  /** The reinsertion loop: each stop in turn goes to the first route with
      `used_capacity + capacity <= vehicle_capacity`, at the position
      `speculative_add_best` picks there; None ("didn't work") as soon as a
      stop fits no route. */
  function BestFit(inst: Instance, v: seq<seq<Stop>>, stops: seq<Stop>): (r: Option<seq<seq<Stop>>>)
    requires inst.Valid() && AllInRange(inst, v) && StopsOfInstance(inst, stops)
    ensures r.Some? ==> |r.value| == |v|
    decreases |stops|
  {
    if stops == [] then Some(v)
    else
      var s := stops[0];
      match FirstFitting(inst, v, s.capacity)
      case None => None
      case Some(k) =>
        var w := v[k := Insert(v[k], BestAddIndex(inst, v[k], s), s)];
        assert AllInRange(inst, w) by {
          assert StopsInRange(inst, w[k]);
          forall r | 0 <= r < |w| ensures StopsInRange(inst, w[r]) {
            if r != k { assert w[r] == v[r]; }
          }
        }
        BestFit(inst, w, stops[1..])
  }

  /** The result of `random_drop` on the solution v, given the shuffled
      customer list, the drop count and the drawn route permutation; the
      result lists the routes in the permuted order. */
  function JumpSpec(inst: Instance, v: seq<seq<Stop>>, shuffled: seq<nat>, toRemove: nat, perm: seq<nat>)
    : Option<seq<seq<Stop>>>
    requires inst.Valid() && WellFormed(inst, v) && IsShuffle(inst, shuffled) && IsPermutation(perm, |v|)
  {
    RemovedFacts(inst, shuffled, toRemove);
    var removed := Truncated(shuffled, toRemove);
    DroppedWellFormed(inst, v, removed);
    PermutationFacts(perm, |v|);
    ToAddInInstance(inst, removed);
    BestFit(inst, Permute(Dropped(v, removed), perm), ToAdd(inst, removed))
  }

  lemma DroppedWellFormed(inst: Instance, v: seq<seq<Stop>>, removed: seq<nat>)
    requires WellFormed(inst, v)
    ensures WellFormed(inst, Dropped(v, removed)) && AllInRange(inst, Dropped(v, removed))
  {
    forall r | 0 <= r < |v| ensures StopsInRange(inst, Dropped(v, removed)[r]) && NoDupCusts(Dropped(v, removed)[r]) {
      FilterKeepsStops(inst, v[r], NotRemoved(removed));
    }
  }

  /** A shuffle of the customers 1..n-1 (`(1..n).collect()` then `shuffle`). */
  predicate IsShuffle(inst: Instance, shuffled: seq<nat>)
  {
    multiset(shuffled) == multiset(Range(1, inst.numCustomers))
  }

  lemma ToAddInInstance(inst: Instance, removed: seq<nat>)
    requires inst.Valid() && InInstance(inst, removed)
    ensures StopsOfInstance(inst, ToAdd(inst, removed))
  {
    var t := ToAdd(inst, removed);
    forall k | 0 <= k < |t| ensures t[k].custNo < inst.numCustomers {
      assert t[k] in multiset(RemovedStops(inst, removed));
    }
  }

  // ---------------------------------------------------------------------
  // What the drop takes out
  // ---------------------------------------------------------------------

  /** `truncate` keeps the first `to_remove` drawn customers, or all of
      them when there are fewer. */
  lemma TruncatedPrefix(shuffled: seq<nat>, toRemove: nat)
    ensures Truncated(shuffled, toRemove) <= shuffled
    ensures |Truncated(shuffled, toRemove)| == if toRemove < |shuffled| then toRemove else |shuffled|
  {
  }

  /** One route with the drawn customers taken out: a customer stays
      exactly when it was there and was not drawn. */
  lemma {:induction false} FilterCustCount(s: seq<Stop>, removed: seq<nat>, c: nat)
    ensures multiset(CustNos(Filter(s, NotRemoved(removed))))[c]
            == if c in removed then 0 else multiset(CustNos(s))[c]
  {
    if s != [] {
      FilterCustCount(s[1..], removed, c);
      CustNosCons(s);
      var f := Filter(s[1..], NotRemoved(removed));
      if NotRemoved(removed)(s[0]) {
        assert Filter(s, NotRemoved(removed)) == [s[0]] + f;
        CustNosCons([s[0]] + f);
        assert ([s[0]] + f)[1..] == f;
      }
    }
  }

  /** Across the solution: a drawn customer is served by no route, every
      other customer as often as before. */
  lemma {:induction false} DroppedCusts(v: seq<seq<Stop>>, removed: seq<nat>, c: nat)
    ensures AllCusts(Dropped(v, removed))[c] == if c in removed then 0 else AllCusts(v)[c]
  {
    if v != [] {
      var d := Dropped(v, removed);
      assert d[1..] == Dropped(v[1..], removed);
      DroppedCusts(v[1..], removed, c);
      FilterCustCount(v[0], removed, c);
    }
  }

  /** Dropping keeps the routes within capacity and their demands matching. */
  lemma DroppedKeeps(inst: Instance, v: seq<seq<Stop>>, removed: seq<nat>)
    requires inst.Valid() && WellFormed(inst, v) && DemandsMatch(inst, v) && WithinCapacity(inst, v)
    ensures WellFormed(inst, Dropped(v, removed))
    ensures DemandsMatch(inst, Dropped(v, removed)) && WithinCapacity(inst, Dropped(v, removed))
  {
    var d := Dropped(v, removed);
    DroppedWellFormed(inst, v, removed);
    forall r | 0 <= r < |d| ensures SumCap(d[r]) <= inst.vehicleCapacity {
      FilterSumCap(v[r], NotRemoved(removed));
    }
    forall r, k | 0 <= r < |d| && 0 <= k < |d[r]| ensures d[r][k].capacity == inst.demand[d[r][k].custNo] {
      FilterMembership(v[r], NotRemoved(removed), d[r][k]);
      var j :| 0 <= j < |v[r]| && v[r][j] == d[r][k];
    }
  }

  /** Under the instance's customer list: dropping the drawn customers
      from a solution serving each once leaves exactly the others served,
      once each. */
  lemma DroppedServed(inst: Instance, v: seq<seq<Stop>>, removed: seq<nat>)
    requires inst.Valid() && ExactlyOnce(inst, v)
    requires Distinct(removed) && forall k :: 0 <= k < |removed| ==> 1 <= removed[k] < inst.numCustomers
    ensures AllCusts(Dropped(v, removed)) + multiset(removed) == AllCusts(v)
    ensures forall k :: 0 <= k < |removed| ==> removed[k] !in AllCusts(Dropped(v, removed))
  {
    var d := Dropped(v, removed);
    var all := multiset(Range(1, inst.numCustomers));
    DistinctCounts(removed);
    forall c ensures (AllCusts(d) + multiset(removed))[c] == AllCusts(v)[c] {
      DroppedCusts(v, removed, c);
      if c in removed {
        var k :| 0 <= k < |removed| && removed[k] == c;
        assert Range(1, inst.numCustomers)[c - 1] == c;
        RangeCount(1, inst.numCustomers, c);
      }
    }
    forall k | 0 <= k < |removed| ensures removed[k] !in AllCusts(d) {
      DroppedCusts(v, removed, removed[k]);
    }
  }

  /** Each customer of the range 1..n-1 occurs in it once. */
  lemma RangeCount(lo: nat, hi: nat, c: nat)
    requires lo <= c < hi
    ensures multiset(Range(lo, hi))[c] == 1
  {
    RangeDistinct(lo, hi);
    DistinctCounts(Range(lo, hi));
    assert Range(lo, hi)[c - lo] == c;
  }

  /** The stops put back: every drawn customer once, with its demand from
      the instance, heaviest first. */
  lemma ToAddFacts(inst: Instance, removed: seq<nat>)
    requires inst.Valid() && InInstance(inst, removed)
    ensures StopsOfInstance(inst, ToAdd(inst, removed))
    ensures var t := ToAdd(inst, removed);
            multiset(CustNos(t)) == multiset(removed)
            && (forall k :: 0 <= k < |t| ==> t[k] == StopOf(inst, t[k].custNo))
            && forall i, j :: 0 <= i < j < |t| ==> t[i].capacity >= t[j].capacity
  {
    ToAddInInstance(inst, removed);
    var rs := RemovedStops(inst, removed);
    var t := ToAdd(inst, removed);
    CustNosMultiset(t, rs);
    assert CustNos(rs) == removed;
    forall k | 0 <= k < |t| ensures t[k] == StopOf(inst, t[k].custNo) {
      assert t[k] in multiset(rs);
    }
    SortBySorted(rs, CapacityDescKey());
    forall i, j | 0 <= i < j < |t| ensures t[i].capacity >= t[j].capacity {
      assert CapacityDescKey()(t[i]) <= CapacityDescKey()(t[j]);
    }
  }

  // ---------------------------------------------------------------------
  // What the reinsertion keeps
  // ---------------------------------------------------------------------

  /** What the reinsertion loop keeps for the stops still to place: the
      routes are well formed, within capacity and carry their demands, and
      the remaining stops are distinct customers of the instance, with their
      demands, served by no route yet. */
  ghost predicate Placing(inst: Instance, v: seq<seq<Stop>>, rest: seq<Stop>)
  {
    inst.Valid() && WellFormed(inst, v) && DemandsMatch(inst, v) && WithinCapacity(inst, v)
    && NoDupCusts(rest)
    && (forall k :: 0 <= k < |rest| ==> 1 <= rest[k].custNo < inst.numCustomers
                                        && rest[k] == StopOf(inst, rest[k].custNo))
    && forall k :: 0 <= k < |rest| ==> rest[k].custNo !in AllCusts(v)
  }

  /** Inserting a new customer of the instance into a route it fits keeps
      the solution well formed, within capacity and with matching demands,
      and adds that customer to the served ones. */
  lemma InsertKeeps(inst: Instance, v: seq<seq<Stop>>, k: nat, i: nat, c: nat)
    requires inst.Valid() && WellFormed(inst, v) && DemandsMatch(inst, v) && WithinCapacity(inst, v)
    requires k < |v| && i <= |v[k]| && 1 <= c < inst.numCustomers && c !in AllCusts(v)
    requires Fits(inst, v[k], inst.demand[c])
    ensures c !in CustNos(v[k])
    ensures var w := v[k := Insert(v[k], i, StopOf(inst, c))];
            WellFormed(inst, w) && DemandsMatch(inst, w) && WithinCapacity(inst, w)
            && AllCusts(w) == AllCusts(v) + multiset{c}
  {
    var stop := StopOf(inst, c);
    var s := Insert(v[k], i, stop);
    var w := v[k := s];
    AllCustsElement(v, k);
    assert c !in CustNos(v[k]);
    NoDupInsert(v[k], i, stop);
    SumCapInsert(v[k], i, stop);
    AllCustsInsert(v, k, i, stop);
    InsertKeepsRoutes(inst, v, k, s);
  }

  /** The per-route part of `InsertKeeps`: only route k changed. */
  lemma InsertKeepsRoutes(inst: Instance, v: seq<seq<Stop>>, k: nat, s: seq<Stop>)
    requires inst.Valid() && WellFormed(inst, v) && DemandsMatch(inst, v) && WithinCapacity(inst, v)
    requires k < |v| && StopsInRange(inst, s) && NoDupCusts(s) && SumCap(s) <= inst.vehicleCapacity
    requires forall j :: 0 <= j < |s| ==> s[j].capacity == inst.demand[s[j].custNo]
    ensures var w := v[k := s];
            WellFormed(inst, w) && DemandsMatch(inst, w) && WithinCapacity(inst, w)
  {
    var w := v[k := s];
    assert WellFormed(inst, w) by {
      forall r | 0 <= r < |w| ensures StopsInRange(inst, w[r]) && NoDupCusts(w[r]) {
        if r != k { assert w[r] == v[r]; }
      }
    }
    forall r | 0 <= r < |w| ensures SumCap(w[r]) <= inst.vehicleCapacity {
      if r != k { assert w[r] == v[r]; }
    }
    forall r, j | 0 <= r < |w| && 0 <= j < |w[r]| ensures w[r][j].capacity == inst.demand[w[r][j].custNo] {
      if r != k { assert w[r] == v[r]; }
    }
  }

  /** The stops after the first are still pending once it is served. */
  lemma PlacingTail(inst: Instance, v: seq<seq<Stop>>, rest: seq<Stop>, w: seq<seq<Stop>>)
    requires Placing(inst, v, rest) && |rest| > 0
    requires WellFormed(inst, w) && DemandsMatch(inst, w) && WithinCapacity(inst, w)
    requires AllCusts(w) == AllCusts(v) + multiset{rest[0].custNo}
    ensures Placing(inst, w, rest[1..])
  {
    var t := rest[1..];
    assert rest == [rest[0]] + t;
    NoDupCons(rest[0], t);
    forall k | 0 <= k < |t| ensures t[k].custNo !in AllCusts(w) {
      assert t[k] == rest[k + 1];
      assert CustNos(rest)[0] != CustNos(rest)[k + 1];
    }
  }

  /** Placing the next stop into the first route it fits, at the best
      position there, keeps the loop's invariant for the others and
      advances the reinsertion by one step. */
  lemma BestFitStep(inst: Instance, v: seq<seq<Stop>>, rest: seq<Stop>, r: nat)
    requires Placing(inst, v, rest) && |rest| > 0
    requires FirstFitting(inst, v, rest[0].capacity) == Some(r)
    ensures rest[0].custNo !in CustNos(v[r])
    ensures var w := v[r := Insert(v[r], BestAddIndex(inst, v[r], rest[0]), rest[0])];
            Placing(inst, w, rest[1..]) && BestFit(inst, v, rest) == BestFit(inst, w, rest[1..])
  {
    var s := rest[0];
    var i := BestAddIndex(inst, v[r], s);
    InsertKeeps(inst, v, r, i, s.custNo);
    var w := v[r := Insert(v[r], i, s)];
    PlacingTail(inst, v, rest, w);
  }

  /** On success the reinsertion yields a solution that is well formed,
      within capacity, with matching demands, serving the old customers
      plus the reinserted ones. */
  lemma {:induction false} BestFitKeeps(inst: Instance, v: seq<seq<Stop>>, stops: seq<Stop>)
    requires Placing(inst, v, stops)
    ensures StopsOfInstance(inst, stops) && AllInRange(inst, v)
    ensures BestFit(inst, v, stops).Some? ==>
              var w := BestFit(inst, v, stops).value;
              WellFormed(inst, w) && DemandsMatch(inst, w) && WithinCapacity(inst, w)
              && AllCusts(w) == AllCusts(v) + multiset(CustNos(stops))
    decreases |stops|
  {
    if stops != [] && BestFit(inst, v, stops).Some? {
      var r := FirstFitting(inst, v, stops[0].capacity).value;
      var w := v[r := Insert(v[r], BestAddIndex(inst, v[r], stops[0]), stops[0])];
      BestFitStep(inst, v, stops, r);
      BestFitKeeps(inst, w, stops[1..]);
      CustNosCons(stops);
      assert multiset(CustNos(stops)) == multiset{stops[0].custNo} + multiset(CustNos(stops[1..]));
      assert AllCusts(w) == AllCusts(v) + multiset{stops[0].custNo} by {
        InsertKeeps(inst, v, r, BestAddIndex(inst, v[r], stops[0]), stops[0].custNo);
      }
    }
  }

  /** The solution the jump starts its reinsertion from: the input with the
      drawn customers dropped and the routes permuted. */
  lemma JumpStart(inst: Instance, v: seq<seq<Stop>>, shuffled: seq<nat>, toRemove: nat, perm: seq<nat>)
    requires Feasible(inst, v) && IsShuffle(inst, shuffled) && IsPermutation(perm, |v|)
    ensures var removed := Truncated(shuffled, toRemove);
            InInstance(inst, removed)
            && forall k :: 0 <= k < |perm| ==> perm[k] < |v|
    ensures var removed := Truncated(shuffled, toRemove);
            var u := Permute(Dropped(v, removed), perm);
            Placing(inst, u, ToAdd(inst, removed))
            && AllCusts(u) + multiset(removed) == AllCusts(v)
  {
    RemovedFacts(inst, shuffled, toRemove);
    var removed := Truncated(shuffled, toRemove);
    DroppedPermuted(inst, v, removed, perm);
    ToAddPlacing(inst, Permute(Dropped(v, removed), perm), removed);
  }

  /** The drawn customers: distinct customers of the range 1..n-1. */
  lemma RemovedFacts(inst: Instance, shuffled: seq<nat>, toRemove: nat)
    requires inst.Valid() && IsShuffle(inst, shuffled)
    ensures var removed := Truncated(shuffled, toRemove);
            InInstance(inst, removed) && Distinct(removed) && forall k :: 0 <= k < |removed| ==> 1 <= removed[k] < inst.numCustomers
  {
    CustomerOrder(inst, shuffled);
    var removed := Truncated(shuffled, toRemove);
    forall k | 0 <= k < |removed| ensures removed[k] == shuffled[k] && 1 <= removed[k] < inst.numCustomers {
    }
    forall i, j | 0 <= i < j < |removed| ensures removed[i] != removed[j] {
      assert removed[i] == shuffled[i] && removed[j] == shuffled[j];
    }
  }

  /** Dropping the drawn customers and shuffling the routes: the routes
      stay well formed, within capacity and with their demands, and serve
      exactly the customers that were not drawn. */
  lemma DroppedPermuted(inst: Instance, v: seq<seq<Stop>>, removed: seq<nat>, perm: seq<nat>)
    requires Feasible(inst, v) && IsPermutation(perm, |v|)
    requires Distinct(removed) && forall k :: 0 <= k < |removed| ==> 1 <= removed[k] < inst.numCustomers
    ensures forall k :: 0 <= k < |perm| ==> perm[k] < |v|
    ensures var u := Permute(Dropped(v, removed), perm);
            WellFormed(inst, u) && DemandsMatch(inst, u) && WithinCapacity(inst, u)
            && AllCusts(u) + multiset(removed) == AllCusts(v)
            && forall k :: 0 <= k < |removed| ==> removed[k] !in AllCusts(u)
  {
    var d := Dropped(v, removed);
    DroppedKeeps(inst, v, removed);
    DroppedServed(inst, v, removed);
    PermuteMultiset(d, perm);
    AllCustsMultiset(Permute(d, perm), d);
    PermuteKeeps(inst, d, perm);
  }

  /** The stops to put back are pending in any solution that serves
      none of the drawn customers. */
  lemma ToAddPlacing(inst: Instance, u: seq<seq<Stop>>, removed: seq<nat>)
    requires inst.Valid() && WellFormed(inst, u) && DemandsMatch(inst, u) && WithinCapacity(inst, u)
    requires Distinct(removed) && forall k :: 0 <= k < |removed| ==> 1 <= removed[k] < inst.numCustomers
    requires forall k :: 0 <= k < |removed| ==> removed[k] !in AllCusts(u)
    ensures InInstance(inst, removed) && Placing(inst, u, ToAdd(inst, removed))
  {
    ToAddFacts(inst, removed);
    var t := ToAdd(inst, removed);
    DistinctCounts(removed);
    CountsDistinct(CustNos(t));
    forall k | 0 <= k < |t| ensures 1 <= t[k].custNo < inst.numCustomers && t[k].custNo !in AllCusts(u) {
      assert CustNos(t)[k] in multiset(removed);
    }
  }

  /** Shuffling the routes keeps each one's properties. */
  lemma PermuteKeeps(inst: Instance, v: seq<seq<Stop>>, perm: seq<nat>)
    requires inst.Valid() && WellFormed(inst, v) && DemandsMatch(inst, v) && WithinCapacity(inst, v)
    requires forall k :: 0 <= k < |perm| ==> perm[k] < |v|
    ensures var u := Permute(v, perm);
            WellFormed(inst, u) && DemandsMatch(inst, u) && WithinCapacity(inst, u)
  {
  }

  /** On success the jump leaves a feasible solution with the same number
      of routes: every customer served exactly once, no route over
      capacity. */
  lemma JumpFeasible(inst: Instance, v: seq<seq<Stop>>, shuffled: seq<nat>, toRemove: nat, perm: seq<nat>)
    requires Feasible(inst, v) && IsShuffle(inst, shuffled) && IsPermutation(perm, |v|)
    ensures JumpSpec(inst, v, shuffled, toRemove, perm).Some? ==>
              var w := JumpSpec(inst, v, shuffled, toRemove, perm).value;
              Feasible(inst, w) && |w| == |v|
  {
    JumpStart(inst, v, shuffled, toRemove, perm);
    var removed := Truncated(shuffled, toRemove);
    var u := Permute(Dropped(v, removed), perm);
    var t := ToAdd(inst, removed);
    PermutationFacts(perm, |v|);
    assert |u| == |v|;
    assert JumpSpec(inst, v, shuffled, toRemove, perm) == BestFit(inst, u, t);
    BestFitKeeps(inst, u, t);
    ToAddFacts(inst, removed);
    if BestFit(inst, u, t).Some? {
      var w := BestFit(inst, u, t).value;
      calc {
        AllCusts(w);
        AllCusts(u) + multiset(CustNos(t));
        AllCusts(u) + multiset(removed);
        AllCusts(v);
      }
    }
  }

  // ---------------------------------------------------------------------
  // The methods
  // ---------------------------------------------------------------------

  /** The reinsertion loop of `random_drop`: for each stop the routes are
      tried in order, and the stop goes into the first one with
      `used_capacity + capacity <= vehicle_capacity`, at the index
      `speculative_add_best` returns. False as soon as one fits nowhere. */
  method PlaceBestFit(inst: Instance, sol: VRPSolution, ghost v0: seq<seq<Stop>>, stops: seq<Stop>) returns (ok: bool)
    requires sol.Valid(inst) && sol.View() == v0 && Placing(inst, v0, stops)
    modifies sol.routes
    ensures sol.routes == old(sol.routes) && sol.Valid(inst)
    ensures StopsOfInstance(inst, stops) && AllInRange(inst, v0)
    ensures ok <==> BestFit(inst, v0, stops).Some?
    ensures ok ==> sol.View() == BestFit(inst, v0, stops).value
  {
    PlacingInRange(inst, v0, stops);
    var t := 0;
    while t < |stops|
      invariant t <= |stops| && sol.routes == old(sol.routes) && sol.Valid(inst)
      invariant Placing(inst, sol.View(), stops[t..])
      invariant AllInRange(inst, sol.View()) && StopsOfInstance(inst, stops[t..])
      invariant BestFit(inst, v0, stops) == BestFit(inst, sol.View(), stops[t..])
    {
      assert stops[t..][0] == stops[t] && stops[t..][1..] == stops[t + 1..];
      var placed := PlaceStop(inst, sol, stops[t], stops[t..]);
      if !placed {
        return false;
      }
      PlacingInRange(inst, sol.View(), stops[t + 1..]);
      t := t + 1;
    }
    assert stops[t..] == [];
    return true;
  }

  /** One round of the reinsertion loop: the first stop of `rest` goes to
      the first route with room, at `speculative_add_best`'s index there. */
  method PlaceStop(inst: Instance, sol: VRPSolution, s: Stop, ghost rest: seq<Stop>) returns (ok: bool)
    requires sol.Valid(inst) && Placing(inst, sol.View(), rest) && |rest| > 0 && rest[0] == s
    modifies sol.routes
    ensures sol.routes == old(sol.routes) && sol.Valid(inst)
    ensures AllInRange(inst, old(sol.View())) && StopsOfInstance(inst, rest)
    ensures !ok ==> BestFit(inst, old(sol.View()), rest).None?
    ensures ok ==> Placing(inst, sol.View(), rest[1..]) && AllInRange(inst, sol.View())
                   && StopsOfInstance(inst, rest[1..])
                   && BestFit(inst, old(sol.View()), rest) == BestFit(inst, sol.View(), rest[1..])
  {
    ghost var v := sol.View();
    PlacingInRange(inst, v, rest);
    var found, r := FirstWithRoom(inst, sol, s.capacity);
    if !found {
      return false;
    }
    BestFitStep(inst, v, rest, r);
    ghost var w := v[r := Insert(v[r], BestAddIndex(inst, v[r], s), s)];
    PlacingInRange(inst, w, rest[1..]);
    InsertBest(inst, sol, v, r, s);
    return true;
  }

  /** `add_stop_to_route` at the position `speculative_add_best` picks. */
  method InsertBest(ghost inst: Instance, sol: VRPSolution, ghost v: seq<seq<Stop>>, r: nat, s: Stop)
    requires sol.Valid(inst) && v == sol.View() && r < |v| && s.custNo < inst.numCustomers
    requires s.custNo !in CustNos(v[r])
    modifies sol.routes
    ensures sol.routes == old(sol.routes) && sol.Valid(inst)
    ensures sol.View() == v[r := Insert(v[r], BestAddIndex(inst, v[r], s), s)]
  {
    var _, _, index := sol.routes[r].SpeculativeAddBest(s);
    sol.AddStopToRoute(inst, r, s, index);
  }

  lemma PlacingInRange(inst: Instance, v: seq<seq<Stop>>, stops: seq<Stop>)
    requires Placing(inst, v, stops)
    ensures AllInRange(inst, v) && StopsOfInstance(inst, stops)
  {
  }

  /** The inner loop: the first route whose `used_capacity + capacity` is
      within the vehicle capacity, if any. */
  method FirstWithRoom(inst: Instance, sol: VRPSolution, capacity: nat) returns (found: bool, r: nat)
    requires sol.Valid(inst)
    ensures found <==> FirstFitting(inst, sol.View(), capacity).Some?
    ensures found ==> FirstFitting(inst, sol.View(), capacity) == Some(r)
  {
    ghost var v := sol.View();
    found := false;
    r := 0;
    while r < |sol.routes|
      invariant r <= |sol.routes|
      invariant forall q :: 0 <= q < r ==> !Fits(inst, v[q], capacity)
    {
      if sol.routes[r].usedCap + capacity <= inst.vehicleCapacity {
        found := true;
        return;
      }
      r := r + 1;
    }
  }

  /** `random_drop` with the shuffled customers 1..n-1, the drop count
      `(num_customers * frac_dropped) as usize` and the drawn route
      permutation. The customer list is built with `u16::try_from(..).unwrap()`,
      which needs fewer than 65536 customers. False is its `Err`; the
      solution is then left part-way. */
  method RandomDrop(inst: Instance, existing: VRPSolution, ghost v0: seq<seq<Stop>>,
                    shuffled: seq<nat>, toRemove: nat, perm: seq<nat>)
    returns (ok: bool)
    requires existing.Valid(inst) && existing.View() == v0 && Feasible(inst, v0) && inst.numCustomers < 65536
    requires IsShuffle(inst, shuffled) && IsPermutation(perm, |v0|)
    modifies existing, existing.routes
    ensures existing.Valid(inst)
    ensures forall k :: 0 <= k < |perm| ==> perm[k] < |old(existing.routes)|
    ensures existing.routes == Permute(old(existing.routes), perm)
    ensures ok <==> JumpSpec(inst, v0, shuffled, toRemove, perm).Some?
    ensures ok ==> existing.View() == JumpSpec(inst, v0, shuffled, toRemove, perm).value
  {
    var toAdd := DropAndPermute(inst, existing, v0, shuffled, toRemove, perm);
    ghost var u := Permute(Dropped(v0, Truncated(shuffled, toRemove)), perm);
    JumpStart(inst, v0, shuffled, toRemove, perm);
    JumpSpecIs(inst, v0, shuffled, toRemove, perm);
    ok := PlaceBestFit(inst, existing, u, toAdd);
  }

  /** The first half of `random_drop`: the drawn customers leave their
      routes, the routes are permuted, and the stops to put back are
      sorted by decreasing demand. */
  method DropAndPermute(inst: Instance, existing: VRPSolution, ghost v0: seq<seq<Stop>>,
                        shuffled: seq<nat>, toRemove: nat, perm: seq<nat>)
    returns (toAdd: seq<Stop>)
    requires existing.Valid(inst) && existing.View() == v0 && IsShuffle(inst, shuffled) && IsPermutation(perm, |v0|)
    modifies existing, existing.routes
    ensures existing.Valid(inst) && InInstance(inst, Truncated(shuffled, toRemove))
    ensures forall k :: 0 <= k < |perm| ==> perm[k] < |old(existing.routes)|
    ensures existing.routes == Permute(old(existing.routes), perm)
    ensures existing.View() == Permute(Dropped(v0, Truncated(shuffled, toRemove)), perm)
    ensures toAdd == ToAdd(inst, Truncated(shuffled, toRemove))
  {
    RemovedFacts(inst, shuffled, toRemove);
    var removed := if toRemove < |shuffled| then shuffled[..toRemove] else shuffled;
    assert removed == Truncated(shuffled, toRemove);
    DropFromRoutes(inst, existing, v0, removed);
    var created := seq(|removed|, k requires 0 <= k < |removed| => Stop(removed[k], inst.demand[removed[k]]));
    assert created == RemovedStops(inst, removed);
    toAdd := SortBy(created, CapacityDescKey());
    existing.PermuteRoutes(inst, perm);
  }

  /** The jump is the reinsertion into the dropped, permuted solution. */
  lemma JumpSpecIs(inst: Instance, v: seq<seq<Stop>>, shuffled: seq<nat>, toRemove: nat, perm: seq<nat>)
    requires Feasible(inst, v) && IsShuffle(inst, shuffled) && IsPermutation(perm, |v|)
    ensures var removed := Truncated(shuffled, toRemove);
            InInstance(inst, removed) && (forall k :: 0 <= k < |perm| ==> perm[k] < |v|)
            && AllInRange(inst, Permute(Dropped(v, removed), perm)) && StopsOfInstance(inst, ToAdd(inst, removed))
            && JumpSpec(inst, v, shuffled, toRemove, perm)
               == BestFit(inst, Permute(Dropped(v, removed), perm), ToAdd(inst, removed))
  {
    RemovedFacts(inst, shuffled, toRemove);
    var removed := Truncated(shuffled, toRemove);
    DroppedWellFormed(inst, v, removed);
    PermutationFacts(perm, |v|);
    ToAddInInstance(inst, removed);
  }

  /** `retain_stops` on every route with the drawn customers left out. */
  method DropFromRoutes(inst: Instance, sol: VRPSolution, ghost v0: seq<seq<Stop>>, removed: seq<nat>)
    requires sol.Valid(inst) && sol.View() == v0
    modifies sol.routes
    ensures sol.routes == old(sol.routes) && sol.Valid(inst)
    ensures sol.View() == Dropped(v0, removed)
  {
    var keep := NotRemoved(removed);
    var r := 0;
    while r < |sol.routes|
      invariant r <= |sol.routes| && sol.routes == old(sol.routes) && sol.Valid(inst)
      invariant forall q :: 0 <= q < r ==> sol.View()[q] == Filter(v0[q], keep)
      invariant forall q :: r <= q < |sol.routes| ==> sol.View()[q] == v0[q]
    {
      sol.RetainInRoute(inst, r, keep);
      r := r + 1;
    }
  }

  /** How often `random_jump` tries `random_drop`. */
  const JUMP_ATTEMPTS: nat := 5

  /** One draw per attempt: shuffles of the customers and permutations of
      the m route positions. */
  predicate Draws(inst: Instance, m: nat, shuffles: seq<seq<nat>>, perms: seq<seq<nat>>)
  {
    |shuffles| == |perms|
    && (forall k :: 0 <= k < |shuffles| ==> IsShuffle(inst, shuffles[k]))
    && forall k :: 0 <= k < |perms| ==> IsPermutation(perms[k], m)
  }

  /** The outcome of each attempt, each on a copy of v with its own draws. */
  function Attempts(inst: Instance, v: seq<seq<Stop>>, toRemove: nat, shuffles: seq<seq<nat>>, perms: seq<seq<nat>>)
    : (r: seq<Option<seq<seq<Stop>>>>)
    requires Feasible(inst, v) && Draws(inst, |v|, shuffles, perms)
    ensures |r| == |shuffles|
    ensures forall k :: 0 <= k < |shuffles| ==> r[k] == JumpSpec(inst, v, shuffles[k], toRemove, perms[k])
  {
    seq(|shuffles|, k requires 0 <= k < |shuffles| => JumpSpec(inst, v, shuffles[k], toRemove, perms[k]))
  }

  /** The first attempt that succeeds; there is none exactly when every
      attempt fails. */
  function FirstJump(inst: Instance, v: seq<seq<Stop>>, toRemove: nat, shuffles: seq<seq<nat>>, perms: seq<seq<nat>>)
    : (r: Option<seq<seq<Stop>>>)
    requires Feasible(inst, v) && Draws(inst, |v|, shuffles, perms)
    ensures r.None? <==> forall k :: 0 <= k < |shuffles| ==> JumpSpec(inst, v, shuffles[k], toRemove, perms[k]).None?
  {
    FirstSome(Attempts(inst, v, toRemove, shuffles, perms))
  }

  /** Whatever attempt succeeds, the jumped solution is feasible with as
      many routes as before. */
  lemma FirstJumpFeasible(inst: Instance, v: seq<seq<Stop>>, toRemove: nat,
                          shuffles: seq<seq<nat>>, perms: seq<seq<nat>>)
    requires Feasible(inst, v) && Draws(inst, |v|, shuffles, perms)
    ensures FirstJump(inst, v, toRemove, shuffles, perms).Some? ==>
              Feasible(inst, FirstJump(inst, v, toRemove, shuffles, perms).value)
              && |FirstJump(inst, v, toRemove, shuffles, perms).value| == |v|
  {
    var a := Attempts(inst, v, toRemove, shuffles, perms);
    FirstSomeIsSome(a);
    if FirstSome(a).Some? {
      var k :| 0 <= k < |a| && a[k] == FirstSome(a);
      JumpFeasible(inst, v, shuffles[k], toRemove, perms[k]);
    }
  }

  /** `random_jump`: up to five `random_drop` attempts, each on a fresh
      clone of `existing` with its own draws; the first success is
      returned. None is the panic when all five fail. The input solution
      is left alone. */
  method RandomJump(inst: Instance, existing: VRPSolution, toRemove: nat, shuffles: seq<seq<nat>>, perms: seq<seq<nat>>)
    returns (r: Option<VRPSolution>)
    requires existing.Valid(inst) && Feasible(inst, existing.View()) && inst.numCustomers < 65536
    requires |shuffles| == JUMP_ATTEMPTS && Draws(inst, |existing.routes|, shuffles, perms)
    ensures r.Some? <==> FirstJump(inst, existing.View(), toRemove, shuffles, perms).Some?
    ensures r.Some? ==> fresh(r.value) && r.value.Valid(inst)
                        && r.value.View() == FirstJump(inst, existing.View(), toRemove, shuffles, perms).value
    ensures r.Some? ==> forall k :: 0 <= k < |r.value.routes| ==> fresh(r.value.routes[k])
  {
    ghost var v := existing.View();
    r := TryDrops(inst, existing, v, toRemove, shuffles, perms, Attempts(inst, v, toRemove, shuffles, perms));
  }

  /** The retry loop of `random_jump`, against the outcome list `a`. */
  method TryDrops(inst: Instance, existing: VRPSolution, ghost v: seq<seq<Stop>>, toRemove: nat,
                  shuffles: seq<seq<nat>>, perms: seq<seq<nat>>, ghost a: seq<Option<seq<seq<Stop>>>>)
    returns (r: Option<VRPSolution>)
    requires existing.Valid(inst) && v == existing.View() && Feasible(inst, v) && inst.numCustomers < 65536
    requires Draws(inst, |v|, shuffles, perms) && a == Attempts(inst, v, toRemove, shuffles, perms)
    ensures r.Some? <==> FirstSome(a).Some?
    ensures r.Some? ==> fresh(r.value) && r.value.Valid(inst) && r.value.View() == FirstSome(a).value
    ensures r.Some? ==> forall k :: 0 <= k < |r.value.routes| ==> fresh(r.value.routes[k])
  {
    var k := 0;
    while k < |shuffles|
      invariant k <= |shuffles| && existing.Valid(inst) && existing.View() == v
      invariant FirstSome(a) == FirstSome(a[k..])
    {
      FirstSomeStep(a, k);
      r := TryDrop(inst, existing, v, toRemove, shuffles[k], perms[k], a[k]);
      if r.Some? {
        return;
      }
      k := k + 1;
    }
    assert a[k..] == [];
    return None;
  }

  /** One attempt of `random_jump`: `random_drop` on a fresh clone. */
  method TryDrop(inst: Instance, existing: VRPSolution, ghost v: seq<seq<Stop>>, toRemove: nat,
                 shuffled: seq<nat>, perm: seq<nat>, ghost expected: Option<seq<seq<Stop>>>)
    returns (r: Option<VRPSolution>)
    requires existing.Valid(inst) && v == existing.View() && Feasible(inst, v) && inst.numCustomers < 65536
    requires IsShuffle(inst, shuffled) && IsPermutation(perm, |v|)
    requires expected == JumpSpec(inst, v, shuffled, toRemove, perm)
    ensures r.Some? <==> expected.Some?
    ensures r.Some? ==> fresh(r.value) && r.value.Valid(inst) && r.value.View() == expected.value
    ensures r.Some? ==> forall k :: 0 <= k < |r.value.routes| ==> fresh(r.value.routes[k])
  {
    var attempt := existing.Clone(inst);
    ghost var rs := attempt.routes;
    assert forall j :: 0 <= j < |rs| ==> fresh(rs[j]);
    var ok := RandomDrop(inst, attempt, v, shuffled, toRemove, perm);
    if !ok {
      return None;
    }
    forall k | 0 <= k < |attempt.routes| ensures fresh(attempt.routes[k]) {
      assert attempt.routes[k] == rs[perm[k]];
    }
    r := Some(attempt);
  }
}
