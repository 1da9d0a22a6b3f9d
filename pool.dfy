/** What both LNS solvers share between `destroy`, `update_tabu` and
    `repair`: the customers a removal may take come from the free list of
    the tabu pool, the removal followed by `update_tabu` leaves the pool a
    partition of the customers again, and the routes the removal leaves
    behind are what the reinsertion heuristics need to put every removed
    stop back. */
module Pool {
  import opened Prelude
  import opened VrpInstance
  import opened Tours
  import opened Views
  import opened Construct
  import opened Jump
  import opened Lns
  import opened Regret
  import opened Tabu

  /** Each destroy step takes out this many customers (`remove_n_…(5)`). */
  const REMOVE_COUNT: nat := 5

  /** The random outcomes one `find_new_solution` consumes: the coin choosing
      the destroy operator, the Shaw seed draw, the draws of the random
      removal, the coin choosing the repair operator, and the coins and
      draws of the best-spot reinsertions. */
  datatype Dice = Dice(destroyCoin: real, shawDraw: nat, removeDraws: seq<nat>,
                       repairCoin: real, slotCoins: seq<real>, slotDraws: seq<nat>)

  /** Enough draws for one destroy/repair round of REMOVE_COUNT customers. */
  predicate Enough(d: Dice)
  {
    |d.removeDraws| >= REMOVE_COUNT && |d.slotCoins| >= REMOVE_COUNT && |d.slotDraws| >= REMOVE_COUNT
  }

  /** A pool that partitions the customers lists each of them once, so its
      free list holds distinct customers 1..n-1 and the two parts together
      have n-1 entries. */
  lemma PoolFacts(inst: Instance, tabu: seq<nat>, notTabu: seq<nat>)
    requires inst.Valid() && TabuPartition(inst, tabu, notTabu)
    ensures |tabu| + |notTabu| == inst.numCustomers - 1
    ensures Distinct(notTabu)
    ensures forall c :: c in notTabu ==> 1 <= c < inst.numCustomers
  {
    var full := tabu + notTabu;
    assert |multiset(full)| == |multiset(Range(1, inst.numCustomers))|;
    RangeDistinct(1, inst.numCustomers);
    DistinctPermuted(Range(1, inst.numCustomers), full);
    forall i, j | 0 <= i < j < |notTabu| ensures notTabu[i] != notTabu[j] {
      assert notTabu[i] == full[|tabu| + i] && notTabu[j] == full[|tabu| + j];
    }
    forall c | c in notTabu ensures 1 <= c < inst.numCustomers {
      assert c in multiset(full);
      assert c in multiset(Range(1, inst.numCustomers));
      var k :| 0 <= k < |Range(1, inst.numCustomers)| && Range(1, inst.numCustomers)[k] == c;
    }
  }

  /** With at least six customers and the queue within its bound, the free
      list has the five customers a destroy step draws
      (n - 1 - n/10 >= 5 for n >= 6). */
  lemma PoolLargeEnough(inst: Instance, tabu: seq<nat>, notTabu: seq<nat>)
    requires inst.Valid() && TabuPartition(inst, tabu, notTabu)
    requires |tabu| <= TabuLimit(inst) && inst.numCustomers >= 6
    ensures |notTabu| >= REMOVE_COUNT
  {
    PoolFacts(inst, tabu, notTabu);
  }

  /** The routes between destroy and repair: well formed and within
      capacity, the removed stops are distinct customers with their
      demands that no route serves, the served and removed customers
      together are 1..n-1, and each removed stop still fits the route it
      left. */
  ghost predicate Detached(inst: Instance, w: seq<seq<Stop>>, removed: seq<(Stop, nat)>)
  {
    Placing(inst, w, TakenStops(removed))
    && AllCusts(w) + multiset(CustNos(TakenStops(removed))) == multiset(Range(1, inst.numCustomers))
    && forall j :: 0 <= j < |removed| ==> removed[j].1 < |w| && Fits(inst, w[removed[j].1], removed[j].0.capacity)
  }

  /** A removal that takes distinct free customers `custs` out of the pool,
      leaving `rest`, and out of a feasible solution: it finds every one of
      them on a route, leaves the routes detached as repair expects, and
      once `update_tabu` has queued the removed customers the pool is a
      partition again. */
  lemma {:induction false} RemovalKeepsPool(inst: Instance, tabu: seq<nat>, notTabu: seq<nat>,
                                            custs: seq<nat>, rest: seq<nat>, v: seq<seq<Stop>>, limit: nat)
    requires TabuPartition(inst, tabu, notTabu) && Feasible(inst, v)
    requires multiset(custs) + multiset(rest) == multiset(notTabu)
    ensures Detached(inst, TakeOutAll(v, custs).0, TakeOutAll(v, custs).1)
    ensures CustNos(TakenStops(TakeOutAll(v, custs).1)) == custs
    ensures |TakeOutAll(v, custs).0| == |v|
    ensures multiset(tabu + rest) + multiset(custs) == multiset(Range(1, inst.numCustomers))
    ensures TabuPartition(inst, TabuUpdated(tabu, rest, custs, limit).0, TabuUpdated(tabu, rest, custs, limit).1)
  {
    PoolFacts(inst, tabu, notTabu);
    DistinctCounts(notTabu);
    forall x ensures multiset(custs)[x] <= 1 {
      assert multiset(custs)[x] + multiset(rest)[x] == multiset(notTabu)[x];
    }
    CountsDistinct(custs);
    forall j | 0 <= j < |custs| ensures 1 <= custs[j] < inst.numCustomers {
      assert custs[j] in multiset(custs);
      assert custs[j] in multiset(notTabu);
      assert custs[j] in notTabu;
    }
    TakeOutAllFacts(inst, v, custs);
    assert multiset(tabu + rest) + multiset(custs) == multiset(tabu + notTabu);
    TabuUpdatedPartition(inst, tabu, rest, custs, limit);
  }

  /** Every removed stop has somewhere to go back to: the route it left. */
  lemma DetachedHasSlots(inst: Instance, w: seq<seq<Stop>>, removed: seq<(Stop, nat)>)
    requires Detached(inst, w, removed)
    ensures forall j :: 0 <= j < |removed| ==> Slots(inst, w, removed[j].0) != []
  {
    forall j | 0 <= j < |removed| ensures Slots(inst, w, removed[j].0) != [] {
      HasSlot(inst, w, removed[j].0, removed[j].1);
    }
  }

  /** A repair that reinserts the removed stops in any order and succeeds
      yields a feasible solution with as many routes. */
  lemma RepairFeasible(inst: Instance, w: seq<seq<Stop>>, removed: seq<(Stop, nat)>, order: seq<Stop>,
                       coins: seq<real>, draws: seq<nat>)
    requires Detached(inst, w, removed) && Placing(inst, w, order)
    requires multiset(order) == multiset(TakenStops(removed))
    requires |coins| >= |order| && |draws| >= |order|
    requires ReinsertAllSpec(inst, w, order, coins, draws).1.Some?
    ensures Feasible(inst, ReinsertAllSpec(inst, w, order, coins, draws).0)
    ensures |ReinsertAllSpec(inst, w, order, coins, draws).0| == |w|
  {
    CustNosMultiset(order, TakenStops(removed));
    ReinsertAllFeasible(inst, w, order, coins, draws);
  }
}
