/** The multi-neighbour LNS solver (`MultiLNSSolver`): every destroy step
    removes five random customers from the free part of the tabu pool, and
    every repair puts them back by decreasing demand, each into its best
    spot. */
module MultiNeighbor {
  import opened Prelude
  import opened VrpInstance
  import opened Tours
  import opened Views
  import opened Common
  import opened Jump
  import opened Lns
  import opened Tabu
  import opened Pool

  /** A random removal of five customers from a feasible solution over a
      pool that partitions the customers: it leaves the routes detached
      from five removed stops, the drawn customers are the ones removed,
      and once `update_tabu` has queued them the pool is a partition again. */
  lemma RandomRemovalKeeps(inst: Instance, tabu: seq<nat>, notTabu: seq<nat>, v: seq<seq<Stop>>, draws: seq<nat>,
                           w: seq<seq<Stop>>, removed: seq<(Stop, nat)>, tabu': seq<nat>, notTabu': seq<nat>)
    requires TabuPartition(inst, tabu, notTabu) && Feasible(inst, v)
    requires REMOVE_COUNT <= |notTabu| && REMOVE_COUNT <= |draws|
    requires w == TakeOutAll(v, Drawn(notTabu, draws[..REMOVE_COUNT]).0).0
    requires removed == TakeOutAll(v, Drawn(notTabu, draws[..REMOVE_COUNT]).0).1
    requires tabu' == TabuUpdated(tabu, Drawn(notTabu, draws[..REMOVE_COUNT]).1,
                                  CustNos(TakenStops(removed)), TabuLimit(inst)).0
    requires notTabu' == TabuUpdated(tabu, Drawn(notTabu, draws[..REMOVE_COUNT]).1,
                                     CustNos(TakenStops(removed)), TabuLimit(inst)).1
    ensures Detached(inst, w, removed) && |w| == |v| && |removed| == REMOVE_COUNT
    ensures CustNos(TakenStops(removed)) == Drawn(notTabu, draws[..REMOVE_COUNT]).0
    ensures TabuPartition(inst, tabu', notTabu')
  {
    var r := Drawn(notTabu, draws[..REMOVE_COUNT]);
    RemovalKeepsPool(inst, tabu, notTabu, r.0, r.1, v, TabuLimit(inst));
  }

  /** Reinsertion by demand on detached routes v puts back exactly the
      removed stops, never changes the number of routes, and when it
      succeeds the solution is feasible again. */
  lemma ByDemandOutcome(inst: Instance, v: seq<seq<Stop>>, removed: seq<(Stop, nat)>,
                        coins: seq<real>, draws: seq<nat>, u: seq<seq<Stop>>, ok: bool)
    requires Detached(inst, v, removed) && |coins| >= |removed| && |draws| >= |removed|
    requires Placing(inst, v, ByDemand(removed))
    requires u == ReinsertAllSpec(inst, v, ByDemand(removed), coins, draws).0
    requires ok <==> ReinsertAllSpec(inst, v, ByDemand(removed), coins, draws).1.Some?
    ensures |u| == |v| && (ok ==> Feasible(inst, u))
  {
    ByDemandOrder(removed);
    ReinsertAllKeeps(inst, v, ByDemand(removed), coins, draws);
    if ok {
      RepairFeasible(inst, v, removed, ByDemand(removed), coins, draws);
    }
  }

  class MultiLNSSolver {
    const inst: Instance
    var stopTabu: seq<nat>
    var stopNotTabu: seq<nat>
    const current: VRPSolution

    /** The solution is valid over the instance. */
    ghost predicate Valid()
      reads current, current.routes
    {
      inst.Valid() && current.Valid(inst)
    }

    /** Between two iterations: the solution is feasible and the pool is a
        partition of the customers with the queue within its bound. */
    ghost predicate Steady()
      reads this, current, current.routes
    {
      Valid() && Feasible(inst, current.View())
      && TabuPartition(inst, stopTabu, stopNotTabu) && |stopTabu| <= TabuLimit(inst)
    }

    /** `MultiLNSSolver::new`: an empty queue and every customer free. */
    constructor (inst: Instance, initial: VRPSolution)
      requires inst.Valid() && initial.Valid(inst)
      ensures this.inst == inst && current == initial && Valid()
      ensures stopTabu == [] && stopNotTabu == Range(1, inst.numCustomers)
      ensures Feasible(inst, initial.View()) ==> Steady()
    {
      this.inst := inst;
      current := initial;
      stopTabu := [];
      stopNotTabu := Range(1, inst.numCustomers);
      new;
      assert [] + Range(1, inst.numCustomers) == Range(1, inst.numCustomers);
    }

    /** `remove_n_random_stops`: n > 0 customers drawn from the free list
        with swap_remove, then each taken out of the first route holding it. */
    method RemoveNRandomStops(n: nat, draws: seq<nat>, ghost v: seq<seq<Stop>>, ghost free: seq<nat>)
      returns (removed: seq<(Stop, nat)>)
      requires Valid() && current.View() == v && stopNotTabu == free
      requires 0 < n <= |free| && n <= |draws|
      modifies this`stopNotTabu, current.routes
      ensures Valid() && current.routes == old(current.routes)
      ensures stopNotTabu == Drawn(free, draws[..n]).1
      ensures current.View() == TakeOutAll(v, Drawn(free, draws[..n]).0).0
      ensures removed == TakeOutAll(v, Drawn(free, draws[..n]).0).1
    {
      var custs, rest := DrawCustomers(stopNotTabu, n, draws);
      stopNotTabu := rest;
      removed := TakeOutCustomers(inst, current, v, custs);
    }

    /** `destroy`: always the random removal of five customers. */
    method Destroy(draws: seq<nat>, ghost v: seq<seq<Stop>>, ghost free: seq<nat>) returns (removed: seq<(Stop, nat)>)
      requires Valid() && current.View() == v && stopNotTabu == free
      requires REMOVE_COUNT <= |free| && REMOVE_COUNT <= |draws|
      modifies this`stopNotTabu, current.routes
      ensures Valid() && current.routes == old(current.routes)
      ensures stopNotTabu == Drawn(free, draws[..REMOVE_COUNT]).1
      ensures current.View() == TakeOutAll(v, Drawn(free, draws[..REMOVE_COUNT]).0).0
      ensures removed == TakeOutAll(v, Drawn(free, draws[..REMOVE_COUNT]).0).1
    {
      removed := RemoveNRandomStops(REMOVE_COUNT, draws, v, free);
    }

    /** `update_tabu`: the removed customers join the queue, and the oldest
        return to the free list until the queue holds at most n/10. */
    method UpdateTabu(removed: seq<(Stop, nat)>)
      requires Valid()
      modifies this`stopTabu, this`stopNotTabu
      ensures Valid() && current.View() == old(current.View())
      ensures stopTabu == TabuUpdated(old(stopTabu), old(stopNotTabu), CustNos(TakenStops(removed)), TabuLimit(inst)).0
      ensures stopNotTabu == TabuUpdated(old(stopTabu), old(stopNotTabu), CustNos(TakenStops(removed)), TabuLimit(inst)).1
      ensures |stopTabu| <= TabuLimit(inst)
    {
      var custs := CustNos(TakenStops(removed));
      TabuUpdatedFacts(stopTabu, stopNotTabu, custs, TabuLimit(inst));
      stopTabu, stopNotTabu := Tabu.UpdateTabu(stopTabu, stopNotTabu, custs, inst.numCustomers / 10);
    }

    /** `repair`: the removed stops go back by decreasing demand, each into
        its best spot; it fails at the first stop that fits nowhere. */
    method Repair(removed: seq<(Stop, nat)>, coins: seq<real>, draws: seq<nat>) returns (ok: bool)
      requires Valid() && Placing(inst, current.View(), TakenStops(removed))
      requires |coins| >= |removed| && |draws| >= |removed|
      modifies current.routes
      ensures Valid() && current.routes == old(current.routes)
      ensures Placing(inst, old(current.View()), ByDemand(removed))
      ensures current.View() == ReinsertAllSpec(inst, old(current.View()), ByDemand(removed), coins, draws).0
      ensures ok <==> ReinsertAllSpec(inst, old(current.View()), ByDemand(removed), coins, draws).1.Some?
    {
      var res := ReinsertByDemand(inst, current, removed, coins, draws);
      ok := res.Some?;
    }

    /** `jump_to_solution`: the solution is copied in route by route, every
        customer is free again and the queue is empty. */
    method JumpToSolution(sol: VRPSolution)
      requires Valid() && sol.Valid(inst) && |sol.routes| == |current.routes|
      requires forall i, j :: 0 <= i < |current.routes| && 0 <= j < |sol.routes| ==> current.routes[i] != sol.routes[j]
      modifies this`stopTabu, this`stopNotTabu, current.routes
      ensures Valid() && current.View() == old(sol.View())
      ensures stopTabu == [] && stopNotTabu == Range(1, inst.numCustomers)
    {
      current.CloneFrom(inst, sol);
      stopNotTabu := Range(1, inst.numCustomers);
      stopTabu := [];
    }

    /** The first half of `find_new_solution`: destroy, then update_tabu.
        The routes are left detached from the five removed stops, the pool
        is a partition again with the queue within its bound, and the
        number of routes is unchanged. */
    method DestroyAndQueue(draws: seq<nat>) returns (removed: seq<(Stop, nat)>)
      requires Valid() && Feasible(inst, current.View()) && TabuPartition(inst, stopTabu, stopNotTabu)
      requires REMOVE_COUNT <= |stopNotTabu| && REMOVE_COUNT <= |draws|
      modifies this`stopTabu, this`stopNotTabu, current.routes
      ensures Valid() && current.routes == old(current.routes)
      ensures Detached(inst, current.View(), removed) && |removed| == REMOVE_COUNT
      ensures TabuPartition(inst, stopTabu, stopNotTabu) && |stopTabu| <= TabuLimit(inst)
      ensures |current.View()| == |old(current.View())|
    {
      ghost var v, tabu, free := current.View(), stopTabu, stopNotTabu;
      removed := Destroy(draws, v, free);
      UpdateTabu(removed);
      RandomRemovalKeeps(inst, tabu, free, v, draws, current.View(), removed, stopTabu, stopNotTabu);
    }

    /** `find_new_solution`: destroy, update_tabu, repair. Whatever the
        outcome, the pool is a partition with the queue within its bound
        and the number of routes is unchanged; on success the solution is
        feasible. */
    method FindNewSolution(d: Dice) returns (ok: bool)
      requires Steady() && inst.numCustomers >= 6 && Enough(d)
      modifies this`stopTabu, this`stopNotTabu, current.routes
      ensures Valid() && current.routes == old(current.routes)
      ensures TabuPartition(inst, stopTabu, stopNotTabu) && |stopTabu| <= TabuLimit(inst)
      ensures |current.View()| == |old(current.View())|
      ensures ok ==> Feasible(inst, current.View())
    {
      PoolLargeEnough(inst, stopTabu, stopNotTabu);
      var removed := DestroyAndQueue(d.removeDraws);
      ghost var w := current.View();
      ok := Repair(removed, d.slotCoins, d.slotDraws);
      ByDemandOutcome(inst, w, removed, d.slotCoins, d.slotDraws, current.View(), ok);
    }
  }
}
