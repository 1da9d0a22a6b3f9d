/** The loop of `solve`. */
module Driver {
  import opened Prelude
  import opened VrpInstance
  import opened Tours
  import opened Views
  import opened Common
  import opened Jump
  import opened Adaptive
  import opened Solver

  /** Lines 114-116: the solver starts from a copy of the initial
      solution, steady. */
  method Start(inst: Instance, initial: VRPSolution) returns (solver: ALNSSolver, ghost rc: seq<Route>)
    requires inst.Valid() && initial.Valid(inst) && Feasible(inst, initial.View())
    ensures fresh(solver) && Ready(inst, solver, rc)
    ensures solver.current.View() == initial.View() && |rc| == |initial.routes|
    ensures forall k :: 0 <= k < |rc| ==> fresh(rc[k])
  {
    var copy := initial.Clone(inst);
    rc := copy.routes;
    solver := new ALNSSolver(inst, copy);
  }

  /** Lines 135-209 with `MaxIters(maxIters)`: the loop, one roll per
      iteration. The books stay sound and the best cost never rises. */
  method Loop(inst: Instance, solver: ALNSSolver, ghost rc: seq<Route>, b: Books,
             maxIters: nat, patience: nat, toRemove: nat, rolls: seq<Roll>) returns (r: Option<Books>)
    requires Ready(inst, solver, rc) && Sound(inst, |rc|, b) && b.t.stagnant <= patience
    requires 6 <= inst.numCustomers < 65536 && |rolls| >= maxIters && RollsFit(inst, |rc|, rolls)
    modifies solver`stopTabu, solver`stopNotTabu, solver`lastUsedRepairOp, solver`lastUsedDestroyOp
    modifies solver.current.routes
    ensures r.Some? ==> Sound(inst, |rc|, r.value) && r.value.t.bestCost <= b.t.bestCost
  {
    var stats := new SolveStats();
    var books := b;
    for iter := 0 to maxIters
      invariant Ready(inst, solver, rc) && Sound(inst, |rc|, books)
      invariant books.t.bestCost <= b.t.bestCost && books.t.stagnant <= patience
    {
      var next, _, _, _ := Step(inst, solver, rc, books, stats, iter, patience, toRemove, rolls[iter]);
      if next.None? {
        return None;
      }
      books := next.value;
    }
    r := Some(books);
  }

  /** Lines 114-209 with `MaxIters(maxIters)`: the solver starts from a
      copy of the initial solution, whose contents and cost open the books,
      and the loop runs one roll per iteration. The books stay sound and the
      best cost never rises above the initial cost. The statistics of each
      iteration are updated once it is over; they never influence the
      search. */
  method Run(inst: Instance, initial: VRPSolution, maxIters: nat, patience: nat, toRemove: nat,
             rolls: seq<Roll>) returns (r: Option<seq<seq<Stop>>>)
    requires 6 <= inst.numCustomers < 65536
    requires initial.Valid(inst) && Feasible(inst, initial.View())
    requires |rolls| >= maxIters && RollsFit(inst, |initial.routes|, rolls)
    ensures r.Some? ==> Fits(inst, r.value, |initial.routes|)
    ensures r.Some? ==> TotalCost(inst, r.value) <= TotalCost(inst, old(initial.View()))
  {
    var v0 := initial.View();
    var cost0 := initial.Cost(inst);
    var solver, rc := Start(inst, initial);
    var books := Loop(inst, solver, rc, Books(v0, v0, Track(cost0, cost0, cost0, 0)), maxIters, patience, toRemove, rolls);
    if books.None? {
      return None;
    }
    r := Some(books.value.best);
  }

  /** `solve` with `MaxIters(maxIters)`, over the adaptive solver, from
      the initial solution the constructor built. The result is the best
      solution: feasible, with as many routes as the initial one and no
      costlier. None is a panic of `random_jump` during a restart. */
  method Solve(inst: Instance, initial: VRPSolution, maxIters: nat, patience: nat, fracDropped: real,
               rolls: seq<Roll>) returns (r: Option<VRPSolution>)
    requires inst.Valid() && 6 <= inst.numCustomers < 65536
    requires initial.Valid(inst) && Feasible(inst, initial.View())
    requires |rolls| >= maxIters && RollsFit(inst, |initial.routes|, rolls)
    ensures r.Some? ==> fresh(r.value) && r.value.Valid(inst) && Feasible(inst, r.value.View())
    ensures r.Some? ==> |r.value.routes| == |initial.routes|
    ensures r.Some? ==> TotalCost(inst, r.value.View()) <= TotalCost(inst, initial.View())
  {
    var books := Run(inst, initial, maxIters, patience, DropCount(inst.numCustomers, fracDropped), rolls);
    if books.None? {
      return None;
    }
    var result := Build(inst, books.value);
    r := Some(result);
  }
}
