/** The driver `solve`: iterate `find_new_solution` of the adaptive LNS
    solver, keep the best solution found and the best since the last jump,
    count stagnant iterations, undo most non-improving moves (simulated
    annealing), and after too many stagnant iterations restart from a
    random jump of one of the two best solutions. Termination is by an
    iteration count; every coin and draw is an input. */
module Solver {
  import opened Prelude
  import opened VrpInstance
  import opened Tours
  import opened Views
  import opened Common
  import opened Jump
  import opened Tabu
  import opened Pool
  import opened Adaptive

  /** A candidate must beat a cost by more than this to count as better. */
  const MARGIN: real := 0.1

  /** The chance of undoing a candidate that is not an improvement. */
  const REVERT_CHANCE: real := 0.9

  /** The chance that a restart jumps from the best solution since the
      last jump rather than from the best overall. */
  const RECENT_CHANCE: real := 0.2

  /** An improvement on the best cost larger than this is recorded. */
  const RECORD_THRESHOLD: real := 0.01

  // ---------------------------------------------------------------------
  // Statistics
  // ---------------------------------------------------------------------

  /** `SolveStats`: the iteration count, the recorded improvements
      (iteration, cost) and the iterations at which the search restarted. */
  class SolveStats {
    var iterations: nat
    var improvements: seq<(nat, real)>
    var restarts: seq<nat>

    /** `SolveStats::new`: nothing counted yet. */
    constructor ()
      ensures iterations == 0 && improvements == [] && restarts == []
    {
      iterations := 0;
      improvements := [];
      restarts := [];
    }

    /** `update_on_iter`: one more iteration, and the candidate's cost is
        recorded when it improves on the best cost by more than 0.01. */
    method UpdateOnIter(iter: nat, cost: real, improvementOnBest: real)
      modifies this
      ensures iterations == old(iterations) + 1 && restarts == old(restarts)
      ensures improvementOnBest > RECORD_THRESHOLD ==> improvements == old(improvements) + [(iter, cost)]
      ensures improvementOnBest <= RECORD_THRESHOLD ==> improvements == old(improvements)
    {
      if improvementOnBest > RECORD_THRESHOLD {
        improvements := improvements + [(iter, cost)];
      }
      iterations := iterations + 1;
    }

    /** `on_restart`: the iteration is appended to the restarts. */
    method OnRestart(iter: nat)
      modifies this
      ensures restarts == old(restarts) + [iter]
      ensures iterations == old(iterations) && improvements == old(improvements)
    {
      restarts := restarts + [iter];
    }
  }

  // ---------------------------------------------------------------------
  // The cost bookkeeping
  // ---------------------------------------------------------------------

  /** The driver's costs between iterations: the best cost overall, the
      best since the last jump, the last candidate's cost, and the number
      of stagnant iterations. */
  datatype Track = Track(bestCost: real, jumpCost: real, lastCost: real, stagnant: nat)

  /** The bookkeeping after a successful candidate of cost c: each best
      cost is replaced only by a candidate beating it by more than the
      margin, so neither ever increases; the stagnation count starts over
      exactly on such an improvement over the last candidate and grows by
      one otherwise; the last cost becomes c. */
  function Observe(t: Track, c: real): (r: Track)
    ensures r.bestCost <= t.bestCost && r.jumpCost <= t.jumpCost && r.lastCost == c
    ensures r.bestCost == t.bestCost || (r.bestCost == c && c + MARGIN < t.bestCost)
    ensures r.jumpCost == t.jumpCost || (r.jumpCost == c && c + MARGIN < t.jumpCost)
    ensures c + MARGIN < t.bestCost ==> r.bestCost < t.bestCost
    ensures c + MARGIN < t.jumpCost ==> r.jumpCost < t.jumpCost
    ensures r.stagnant == 0 <==> c + MARGIN < t.lastCost
    ensures r.stagnant == 0 || r.stagnant == t.stagnant + 1
  {
    Track(if c + MARGIN < t.bestCost then c else t.bestCost,
          if c + MARGIN < t.jumpCost then c else t.jumpCost,
          c,
          if c + MARGIN < t.lastCost then 0 else t.stagnant + 1)
  }

  /** A candidate is undone when it does not improve on the last one and
      the 0.9 coin comes up: exactly when Observe counts the iteration as
      stagnant and the coin comes up. */
  predicate Reverts(t: Track, c: real, coin: real)
    ensures Reverts(t, c, coin) <==> Observe(t, c).stagnant > 0 && coin < REVERT_CHANCE
  {
    !(c + MARGIN < t.lastCost) && coin < REVERT_CHANCE
  }

  /** Only a candidate that did not improve is ever undone, and an
      improving candidate is always kept. */
  lemma RevertsOnlyStagnant(t: Track, c: real, coin: real)
    ensures Reverts(t, c, coin) ==> Observe(t, c).stagnant == t.stagnant + 1
    ensures c + MARGIN < t.lastCost ==> !Reverts(t, c, coin) && Observe(t, c).stagnant == 0
  {
  }

  /** The bookkeeping of a restart to a jumped solution of cost c: the
      stagnation count starts over and the jumped solution is the new best
      since the last jump; the best cost overall is untouched. */
  function Restarted(t: Track, c: real): (r: Track)
    ensures r.stagnant == 0 && r.jumpCost == c
    ensures r.bestCost == t.bestCost && r.lastCost == t.lastCost
  {
    t.(stagnant := 0, jumpCost := c)
  }

  /** Observe, then restart when the count has passed the patience: either
      way the count is back within the patience. */
  lemma StagnationBounded(t: Track, c: real, jumped: real, patience: nat)
    requires t.stagnant <= patience
    ensures var o := Observe(t, c);
            (if o.stagnant > patience then Restarted(o, jumped) else o).stagnant <= patience
    ensures Observe(t, c).stagnant > patience ==> Observe(t, c).stagnant == patience + 1
  {
  }

  // ---------------------------------------------------------------------
  // The driver
  // ---------------------------------------------------------------------


  /** The random draws of one iteration: the destroy/repair dice, the
      annealing coin, the coin choosing the restart point, and the draws of
      the jumper's attempts. */
  datatype Roll = Roll(dice: Dice, revertCoin: real, recentCoin: real,
                       shuffles: seq<seq<nat>>, perms: seq<seq<nat>>)

  /** Every roll has enough draws for an iteration over m routes. */
  predicate RollsFit(inst: Instance, m: nat, rolls: seq<Roll>)
  {
    forall i :: 0 <= i < |rolls| ==>
      Enough(rolls[i].dice) && |rolls[i].shuffles| == JUMP_ATTEMPTS
      && Draws(inst, m, rolls[i].shuffles, rolls[i].perms)
  }

  /** No route object of a is among those of b. */
  ghost predicate Apart(a: seq<Route>, b: seq<Route>)
  {
    forall i :: 0 <= i < |a| ==> a[i] !in b
  }

  /** Apart, stated for every pair of positions. */
  lemma ApartIndices(a: seq<Route>, b: seq<Route>)
    requires Apart(a, b)
    ensures forall i, j :: 0 <= i < |b| && 0 <= j < |a| ==> b[i] != a[j]
  {
    forall i, j | 0 <= i < |b| && 0 <= j < |a| ensures b[i] != a[j] {
      assert b[i] in b;
    }
  }

  /** The solver is valid over inst and its solution holds the route
      objects rc. */
  ghost predicate Running(inst: Instance, solver: ALNSSolver, rc: seq<Route>)
    reads solver, solver.current, solver.current.routes
  {
    solver.Valid() && solver.inst == inst && solver.current.routes == rc
  }

  /** The solver is steady over inst and its solution holds the route
      objects rc. */
  ghost predicate Ready(inst: Instance, solver: ALNSSolver, rc: seq<Route>)
    reads solver, solver.current, solver.current.routes
  {
    solver.Steady() && solver.inst == inst && solver.current.routes == rc
  }

  /** Just after a jump to a feasible solution the solver is ready: its
      queue is empty and every customer is free. */
  lemma Settled(inst: Instance, solver: ALNSSolver, rc: seq<Route>)
    requires Running(inst, solver, rc) && Feasible(inst, solver.current.View())
    requires solver.stopTabu == [] && solver.stopNotTabu == Range(1, inst.numCustomers)
    ensures Ready(inst, solver, rc)
  {
    FreePool(inst);
  }

  /** A saved solution: feasible, with m routes. */
  predicate Fits(inst: Instance, v: seq<seq<Stop>>, m: nat)
  {
    |v| == m && Feasible(inst, v)
  }

  /** The two best solutions fit and cost what the bookkeeping says. */
  predicate Standing(inst: Instance, m: nat, best: seq<seq<Stop>>, bestCost: real,
                     forJump: seq<seq<Stop>>, jumpCost: real)
  {
    Fits(inst, best, m) && TotalCost(inst, best) == bestCost
    && Fits(inst, forJump, m) && TotalCost(inst, forJump) == jumpCost
  }

  /** A fresh solution whose routes hold v, route k with id k: the copy
      of a saved solution that is handed to the solver or the jumper, or
      returned. */
  method Build(inst: Instance, v: seq<seq<Stop>>) returns (x: VRPSolution)
    requires inst.Valid() && WellFormed(inst, v)
    ensures fresh(x) && x.Valid(inst) && x.View() == v
    ensures forall k :: 0 <= k < |x.routes| ==> fresh(x.routes[k])
  {
    var rs: seq<Route> := [];
    for k := 0 to |v|
      invariant |rs| == k && RoutesValid(inst, rs) && RoutesView(rs) == v[..k]
      invariant forall r :: r in rs ==> fresh(r)
    {
      rs := PushRoute(inst, rs, v[k]);
      TakeSnoc(v, k);
    }
    forall i | 0 <= i < |rs| ensures fresh(rs[i]) {
      assert rs[i] in rs;
    }
    assert v[..|v|] == v;
    x := new VRPSolution.FromRoutes(inst, rs);
  }

  /** The routes rs followed by a fresh route with id |rs| holding stops. */
  method PushRoute(inst: Instance, rs: seq<Route>, stops: seq<Stop>) returns (rs': seq<Route>)
    requires RoutesValid(inst, rs) && StopsInRange(inst, stops) && NoDupCusts(stops)
    ensures RoutesValid(inst, rs') && RoutesView(rs') == old(RoutesView(rs)) + [stops]
    ensures |rs'| == |rs| + 1 && rs' == rs + [rs'[|rs|]] && fresh(rs'[|rs|])
  {
    var r := BuildRoute(inst, |rs|, stops);
    RoutesSnoc(inst, rs, r);
    rs' := rs + [r];
  }

  /** A fresh route with id k holding stops, its cost and load computed
      from scratch. */
  method BuildRoute(inst: Instance, k: nat, stops: seq<Stop>) returns (r: Route)
    requires inst.Valid() && StopsInRange(inst, stops) && NoDupCusts(stops)
    ensures fresh(r) && r.Valid() && r.inst == inst && r.id == k && r.stops == stops
  {
    r := new Route(inst, k);
    r.stops := stops;
    r.cost := r.RecalculateCost();
    r.usedCap := r.RecalculateCapacity();
  }

  /** Line 146: `find_new_solution`; on success the solver is steady again. */
  method Find(inst: Instance, solver: ALNSSolver, ghost rc: seq<Route>, d: Dice) returns (ok: bool)
    requires Ready(inst, solver, rc) && inst.numCustomers >= 6 && Enough(d)
    modifies solver`stopTabu, solver`stopNotTabu, solver`lastUsedRepairOp, solver`lastUsedDestroyOp, solver.current.routes
    ensures Running(inst, solver, rc) && (ok ==> solver.Steady())
  {
    ok := solver.FindNewSolution(d);
  }

  /** Lines 150 and 181: `solver.jump_to_solution(&old_solution)`, here
      with a solution built from the saved contents v. The solver is
      steady again and holds v. */
  method JumpTo(inst: Instance, solver: ALNSSolver, ghost rc: seq<Route>, v: seq<seq<Stop>>)
    requires Running(inst, solver, rc) && Fits(inst, v, |rc|)
    modifies solver`stopTabu, solver`stopNotTabu, solver.current.routes
    ensures Ready(inst, solver, rc) && solver.current.View() == v
  {
    var x := Build(inst, v);
    assert Apart(x.routes, solver.current.routes);
    Switch(inst, solver, rc, x);
  }

  /** `jump_to_solution` to a feasible solution that shares no route with
      the solver's: the solver holds its contents and is steady again. */
  method Switch(inst: Instance, solver: ALNSSolver, ghost rc: seq<Route>, sol: VRPSolution)
    requires Running(inst, solver, rc) && sol.Valid(inst) && Fits(inst, sol.View(), |rc|)
    requires Apart(sol.routes, solver.current.routes)
    modifies solver`stopTabu, solver`stopNotTabu, solver.current.routes
    ensures Ready(inst, solver, rc) && solver.current.View() == old(sol.View())
  {
    ghost var v := sol.View();
    ApartIndices(sol.routes, solver.current.routes);
    solver.JumpToSolution(sol);
    assert solver.current.View() == v;
    Settled(inst, solver, rc);
  }

  /** Lines 194-195: `random_jump` on a copy of the saved solution `from`.
      It succeeds exactly when one of the attempts does, and then yields a
      fresh solution holding the first successful attempt's result. */
  method Jumped(inst: Instance, from: seq<seq<Stop>>, ghost m: nat, toRemove: nat, roll: Roll)
    returns (r: Option<VRPSolution>)
    requires inst.numCustomers < 65536 && Fits(inst, from, m)
    requires |roll.shuffles| == JUMP_ATTEMPTS && Draws(inst, m, roll.shuffles, roll.perms)
    ensures r.Some? <==> FirstJump(inst, from, toRemove, roll.shuffles, roll.perms).Some?
    ensures r.Some? ==> fresh(r.value) && r.value.Valid(inst) && Fits(inst, r.value.View(), m)
                        && r.value.View() == FirstJump(inst, from, toRemove, roll.shuffles, roll.perms).value
    ensures r.Some? ==> forall k :: 0 <= k < |r.value.routes| ==> fresh(r.value.routes[k])
  {
    var existing := Build(inst, from);
    FirstJumpFeasible(inst, from, toRemove, roll.shuffles, roll.perms);
    r := RandomJump(inst, existing, toRemove, roll.shuffles, roll.perms);
  }

  /** Lines 197-207: the jumped solution's cost and contents are kept,
      and the solver jumps to it and is steady again. */
  method Adopt(inst: Instance, solver: ALNSSolver, ghost rc: seq<Route>, sol: VRPSolution)
    returns (contents: seq<seq<Stop>>, cost: real)
    requires Running(inst, solver, rc) && sol.Valid(inst) && Fits(inst, sol.View(), |rc|)
    requires Apart(sol.routes, solver.current.routes)
    modifies solver`stopTabu, solver`stopNotTabu, solver.current.routes
    ensures Ready(inst, solver, rc)
    ensures contents == old(sol.View()) && solver.current.View() == contents
    ensures cost == TotalCost(inst, contents)
  {
    cost := sol.Cost(inst);
    contents := sol.View();
    Switch(inst, solver, rc, sol);
  }

  /** Lines 191-208: a restart from the saved solution `from`. When the
      jumper succeeds, the restart is counted and its result, returned with
      its cost, becomes the solver's solution. None is the panic of
      `random_jump` when all its attempts fail. */
  method Restart(inst: Instance, solver: ALNSSolver, ghost rc: seq<Route>, from: seq<seq<Stop>>,
                 toRemove: nat, roll: Roll) returns (r: Option<(seq<seq<Stop>>, real)>)
    requires Running(inst, solver, rc) && inst.numCustomers < 65536 && Fits(inst, from, |rc|)
    requires |roll.shuffles| == JUMP_ATTEMPTS && Draws(inst, |rc|, roll.shuffles, roll.perms)
    modifies solver`stopTabu, solver`stopNotTabu, solver.current.routes
    ensures r.Some? <==> FirstJump(inst, from, toRemove, roll.shuffles, roll.perms).Some?
    ensures r.Some? ==> r.value.0 == FirstJump(inst, from, toRemove, roll.shuffles, roll.perms).value
    ensures r.Some? ==> Ready(inst, solver, rc) && solver.current.View() == r.value.0
                        && Fits(inst, r.value.0, |rc|) && r.value.1 == TotalCost(inst, r.value.0)
  {
    var jumped := Jumped(inst, from, |rc|, toRemove, roll);
    if jumped.None? {
      return None;
    }
    assert Apart(jumped.value.routes, rc);
    var contents, cost := Adopt(inst, solver, rc, jumped.value);
    r := Some((contents, cost));
  }

  /** What `solve` keeps beside the solver between iterations: the best
      solution overall, the best since the last jump, and their costs with
      the last cost and the stagnation count. */
  datatype Books = Books(best: seq<seq<Stop>>, forJump: seq<seq<Stop>>, t: Track)

  /** The books are sound: both saved solutions fit and cost what the
      track says. */
  predicate Sound(inst: Instance, m: nat, b: Books)
  {
    Standing(inst, m, b.best, b.t.bestCost, b.forJump, b.t.jumpCost)
  }

  /** Lines 143-155: the solver's solution is saved and
      `find_new_solution` runs; on failure the solver jumps back to the
      saved solution and r is None. On success r holds the candidate, now
      the solver's solution, with its cost. Either way the solver is steady
      and the saved solution fits. */
  method Candidate(inst: Instance, solver: ALNSSolver, ghost rc: seq<Route>, d: Dice)
    returns (oldSolution: seq<seq<Stop>>, r: Option<(seq<seq<Stop>>, real)>)
    requires Ready(inst, solver, rc) && 6 <= inst.numCustomers && Enough(d)
    modifies solver`stopTabu, solver`stopNotTabu, solver`lastUsedRepairOp, solver`lastUsedDestroyOp
    modifies solver.current.routes
    ensures Ready(inst, solver, rc)
    ensures oldSolution == old(solver.current.View()) && Fits(inst, oldSolution, |rc|)
    ensures r.None? ==> solver.current.View() == oldSolution
    ensures r.Some? ==> solver.current.View() == r.value.0 && Fits(inst, r.value.0, |rc|)
                        && r.value.1 == TotalCost(inst, r.value.0)
  {
    oldSolution := solver.current.View();
    var ok := Find(inst, solver, rc, d);
    if !ok {
      JumpTo(inst, solver, rc, oldSolution);
      return oldSolution, None;
    }
    var newSolution := solver.current.View();
    var newCost := solver.current.Cost(inst);
    r := Some((newSolution, newCost));
  }

  /** Lines 160-189: the books after a candidate of cost c that fits. Each
      saved solution is replaced by the candidate exactly when the track
      lowers its cost, so the books stay sound, and the costs follow
      Observe. */
  function Recorded(inst: Instance, ghost m: nat, b: Books, candidate: seq<seq<Stop>>, c: real): (r: Books)
    requires Sound(inst, m, b) && Fits(inst, candidate, m) && c == TotalCost(inst, candidate)
    ensures Sound(inst, m, r) && r.t == Observe(b.t, c)
    ensures r.best == (if r.t.bestCost < b.t.bestCost then candidate else b.best)
    ensures r.forJump == (if r.t.jumpCost < b.t.jumpCost then candidate else b.forJump)
  {
    Books(if c + MARGIN < b.t.bestCost then candidate else b.best,
          if c + MARGIN < b.t.jumpCost then candidate else b.forJump,
          Observe(b.t, c))
  }

  /** Lines 143-208: one iteration of `solve`, from the books b and the
      solver's solution v0 to the books r and the solver's solution v1.
      newCost is the cost of the candidate `find_new_solution` produced,
      None when it failed, and cand its contents. Without a candidate the
      solver is back on v0 and the books are untouched. With one, the books
      become Recorded, the last cost included, and while the stagnation
      count is within the patience the solver is back on v0 exactly when
      the candidate Reverts, and stays on the candidate otherwise; past the
      patience the search restarts (Restarting). */
  predicate Iteration(inst: Instance, m: nat, b: Books, patience: nat, toRemove: nat, roll: Roll,
                      v0: seq<seq<Stop>>, cand: seq<seq<Stop>>, newCost: Option<real>,
                      r: Option<Books>, restarted: bool, v1: seq<seq<Stop>>)
    requires Sound(inst, m, b) && Draws(inst, m, roll.shuffles, roll.perms)
  {
    if newCost.None? then r == Some(b) && !restarted && v1 == v0
    else
      Fits(inst, cand, m) && newCost.value == TotalCost(inst, cand)
      && var next := Recorded(inst, m, b, cand, newCost.value);
         if next.t.stagnant <= patience then
           r == Some(next) && !restarted
           && v1 == (if Reverts(b.t, newCost.value, roll.revertCoin) then v0 else cand)
         else Restarting(inst, m, next, toRemove, roll, r, restarted, v1)
  }

  /** Lines 191-208: a restart past the patience from the books next. The
      jumper starts from the best since the last jump when the 0.2 coin
      comes up and from the best overall otherwise; when it succeeds its
      result becomes the best since the last jump and the solver's
      solution v1, with the track Restarted at its cost, and when it fails
      (the panic of `random_jump`) there are no books. */
  predicate Restarting(inst: Instance, m: nat, next: Books, toRemove: nat, roll: Roll,
                       r: Option<Books>, restarted: bool, v1: seq<seq<Stop>>)
    requires Sound(inst, m, next) && Draws(inst, m, roll.shuffles, roll.perms)
  {
    var from := if roll.recentCoin < RECENT_CHANCE then next.forJump else next.best;
    var jump := FirstJump(inst, from, toRemove, roll.shuffles, roll.perms);
    FirstJumpFeasible(inst, from, toRemove, roll.shuffles, roll.perms);
    restarted == jump.Some? && r.Some? == jump.Some?
    && (jump.Some? ==>
          r.value == next.(forJump := jump.value, t := Restarted(next.t, TotalCost(inst, jump.value)))
          && v1 == jump.value)
  }

  /** Lines 143-208 except the statistics: one iteration of the loop,
      moving the books and the solver's solution as Iteration says. It
      keeps the solver steady and the books sound, never lets the best cost
      rise, and leaves the stagnation count within the patience. */
  method Iterate(inst: Instance, solver: ALNSSolver, ghost rc: seq<Route>, b: Books,
                 patience: nat, toRemove: nat, roll: Roll)
    returns (r: Option<Books>, newCost: Option<real>, restarted: bool, ghost cand: seq<seq<Stop>>)
    requires Ready(inst, solver, rc) && Sound(inst, |rc|, b) && b.t.stagnant <= patience
    requires 6 <= inst.numCustomers < 65536 && Enough(roll.dice)
    requires |roll.shuffles| == JUMP_ATTEMPTS && Draws(inst, |rc|, roll.shuffles, roll.perms)
    modifies solver`stopTabu, solver`stopNotTabu, solver`lastUsedRepairOp, solver`lastUsedDestroyOp
    modifies solver.current.routes
    ensures Iteration(inst, |rc|, b, patience, toRemove, roll, old(solver.current.View()), cand,
                      newCost, r, restarted, solver.current.View())
    ensures r.Some? ==> Ready(inst, solver, rc) && Sound(inst, |rc|, r.value)
    ensures r.Some? ==> r.value.t.bestCost <= b.t.bestCost && r.value.t.stagnant <= patience
    ensures restarted ==> newCost.Some?
  {
    var oldSolution, candidate := Candidate(inst, solver, rc, roll.dice);
    if candidate.None? {
      return Some(b), None, false, [];
    }
    var newSolution := candidate.value.0;
    cand := newSolution;
    newCost := Some(candidate.value.1);
    var next := Recorded(inst, |rc|, b, newSolution, candidate.value.1);
    if Reverts(b.t, candidate.value.1, roll.revertCoin) {
      JumpTo(inst, solver, rc, oldSolution);
    }
    StagnationBounded(b.t, candidate.value.1, 0.0, patience);
    if next.t.stagnant <= patience {
      return Some(next), newCost, false, cand;
    }
    var from := if roll.recentCoin < RECENT_CHANCE then next.forJump else next.best;
    var jumped := Restart(inst, solver, rc, from, toRemove, roll);
    restarted := jumped.Some?;
    if jumped.None? {
      return None, newCost, false, cand;
    }
    r := Some(next.(forJump := jumped.value.0, t := Restarted(next.t, jumped.value.1)));
  }

  /** Lines 156-158 and 196: the statistics of an iteration. With a
      candidate, the iteration is counted and the candidate's cost is
      recorded when it beats the best cost by more than 0.01, and a restart
      is counted when there was one. */
  method Tally(stats: SolveStats, iter: nat, bestCost: real, newCost: Option<real>, restarted: bool)
    modifies stats
    ensures stats.iterations == old(stats.iterations) + (if newCost.Some? then 1 else 0)
    ensures stats.improvements
            == old(stats.improvements)
               + (if newCost.Some? && bestCost - newCost.value > RECORD_THRESHOLD then [(iter, newCost.value)] else [])
    ensures stats.restarts == old(stats.restarts) + (if newCost.Some? && restarted then [iter] else [])
  {
    if newCost.Some? {
      stats.UpdateOnIter(iter, newCost.value, bestCost - newCost.value);
      if restarted {
        stats.OnRestart(iter);
      }
    }
  }

  /** One iteration with its statistics: Iterate, then Tally. */
  method Step(inst: Instance, solver: ALNSSolver, ghost rc: seq<Route>, b: Books, stats: SolveStats,
              iter: nat, patience: nat, toRemove: nat, roll: Roll)
    returns (r: Option<Books>, newCost: Option<real>, restarted: bool, ghost cand: seq<seq<Stop>>)
    requires Ready(inst, solver, rc) && Sound(inst, |rc|, b) && b.t.stagnant <= patience
    requires 6 <= inst.numCustomers < 65536 && Enough(roll.dice)
    requires |roll.shuffles| == JUMP_ATTEMPTS && Draws(inst, |rc|, roll.shuffles, roll.perms)
    modifies solver`stopTabu, solver`stopNotTabu, solver`lastUsedRepairOp, solver`lastUsedDestroyOp
    modifies solver.current.routes, stats
    ensures Iteration(inst, |rc|, b, patience, toRemove, roll, old(solver.current.View()), cand,
                      newCost, r, restarted, solver.current.View())
    ensures r.Some? ==> Ready(inst, solver, rc) && Sound(inst, |rc|, r.value)
    ensures r.Some? ==> r.value.t.bestCost <= b.t.bestCost && r.value.t.stagnant <= patience
    ensures r.Some? ==> stats.iterations == old(stats.iterations) + (if newCost.Some? then 1 else 0)
    ensures r.Some? ==>
              stats.improvements
              == old(stats.improvements)
                 + (if newCost.Some? && b.t.bestCost - newCost.value > RECORD_THRESHOLD
                    then [(iter, newCost.value)] else [])
    ensures r.Some? ==> stats.restarts == old(stats.restarts) + (if restarted then [iter] else [])
  {
    r, newCost, restarted, cand := Iterate(inst, solver, rc, b, patience, toRemove, roll);
    if r.Some? {
      ghost var v1 := solver.current.View();
      Tally(stats, iter, b.t.bestCost, newCost, restarted);
      assert solver.current.View() == v1;
    }
  }
}
