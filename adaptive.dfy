/** The adaptive LNS solver (`ALNSSolver`): two destroy operators (random
    removal and Shaw removal of five customers) and two repair operators
    (best-spot reinsertion by demand and by 2-regret), each picked by a coin
    weighted with the operators' adaptive weights, over a tabu pool of
    recently removed customers. */
module Adaptive {
  import opened Prelude
  import opened Sorting
  import opened VrpInstance
  import opened Tours
  import opened Views
  import opened Common
  import opened Jump
  import opened Lns
  import opened Regret
  import opened Tabu
  import opened Pool

  /** The learning rate `update_weights` hands every operator. */
  const LEARNING_RATE: real := 0.01

  // ---------------------------------------------------------------------
  // Operators and their weights
  // ---------------------------------------------------------------------

  /** The new weight `update_weight` computes: the old weight moved towards
      the score by the learning rate. For a rate in [0, 1] it lies between
      the old weight and the score, and a positive weight stays positive
      for a rate below 1. */
  function Smoothed(weight: real, score: nat, rate: real): (w: real)
    ensures 0.0 <= rate <= 1.0 && weight <= score as real ==> weight <= w <= score as real
    ensures 0.0 <= rate <= 1.0 && score as real <= weight ==> score as real <= w <= weight
    ensures 0.0 <= rate < 1.0 && weight > 0.0 ==> w > 0.0
  {
    var w := (1.0 - rate) * weight + rate * (score as real);
    SmoothedBetween(weight, score as real, rate, w);
    w
  }

  /** A convex combination w of two reals lies between them. */
  lemma SmoothedBetween(a: real, b: real, rate: real, w: real)
    requires w == (1.0 - rate) * a + rate * b
    ensures 0.0 <= rate <= 1.0 && a <= b ==> a <= w <= b
    ensures 0.0 <= rate <= 1.0 && b <= a ==> b <= w <= a
    ensures 0.0 <= rate < 1.0 && a > 0.0 && b >= 0.0 ==> w > 0.0
  {
    if 0.0 <= rate <= 1.0 {
      if a <= b {
        Convex(a, b, rate, w);
      } else {
        assert w == (1.0 - (1.0 - rate)) * b + (1.0 - rate) * a;
        Convex(b, a, 1.0 - rate, w);
      }
    }
    if 0.0 <= rate < 1.0 && a > 0.0 && b >= 0.0 {
      MulPos(1.0 - rate, a);
      MulNonneg(rate, b);
    }
  }

  /** Moving from a towards a larger b by a fraction in [0, 1] stays in [a, b]. */
  lemma Convex(a: real, b: real, rate: real, w: real)
    requires 0.0 <= rate <= 1.0 && a <= b && w == (1.0 - rate) * a + rate * b
    ensures a <= w <= b
  {
    assert w == a + rate * (b - a);
    assert b - w == (1.0 - rate) * (b - a);
    MulNonneg(rate, b - a);
    MulNonneg(1.0 - rate, b - a);
  }

  lemma MulNonneg(x: real, y: real)
    requires x >= 0.0 && y >= 0.0
    ensures x * y >= 0.0
  {
  }

  lemma MulPos(x: real, y: real)
    requires x > 0.0 && y > 0.0
    ensures x * y > 0.0
  {
  }

  /** Scaling by a positive factor keeps the order. */
  lemma ScaleLess(x: real, y: real, s: real)
    requires s > 0.0
    ensures x * s < y * s <==> x < y
  {
    assert y * s - x * s == (y - x) * s;
    if x < y {
      MulPos(y - x, s);
    } else {
      MulNonneg(x - y, s);
    }
  }

  /** An operator weight: always positive, so the coin shares below are
      proper probabilities. */
  type Weight = w: real | w > 0.0 witness 1.0

  /** The index of one of the two operators of a kind. */
  type OpIndex = k: nat | k < 2

  /** One destroy or repair operator with its adaptive score and weight. */
  class Operator {
    const id: nat
    var score: nat
    var weight: Weight
    var usageCount: nat

    /** The state `Operator::new` leaves: score 0, weight 1 and no uses yet. */
    predicate Initial(id: nat)
      reads this
    {
      this.id == id && score == 0 && weight == 1.0 && usageCount == 0
    }

    /** `Operator::new`. */
    constructor (id: nat)
      ensures Initial(id)
    {
      this.id := id;
      score := 0;
      weight := 1.0;
      usageCount := 0;
    }

    /** `update_score`: credits delta and counts one more use. */
    method UpdateScore(delta: nat)
      modifies this
      ensures score == old(score) + delta && usageCount == old(usageCount) + 1
      ensures weight == old(weight)
    {
      score := score + delta;
      usageCount := usageCount + 1;
    }

    /** `update_weight`: the weight moves towards the score, which starts
        over from 0. */
    method UpdateWeight(rate: real)
      requires 0.0 <= rate < 1.0
      modifies this
      ensures weight == Smoothed(old(weight), old(score), rate) && score == 0
      ensures usageCount == old(usageCount)
    {
      var w := (1.0 - rate) * weight + rate * (score as real);
      SmoothedBetween(weight, score as real, rate, w);
      weight := w;
      score := 0;
    }
  }

  /** The probability `random_bool` receives when one operator of a pair is
      weighed against the other: its weight over their total. It is a
      proper probability, and below one half exactly when the operator is
      the lighter of the two. */
  function Chance(mine: real, other: real): (p: real)
    requires mine > 0.0 && other > 0.0
    ensures 0.0 < p < 1.0
    ensures p < 0.5 <==> mine < other
  {
    var p := mine / (mine + other);
    ChanceFacts(mine, other, p);
    p
  }

  /** A weight share is strictly between 0 and 1, and below one half
      exactly for the lighter weight. */
  lemma ChanceFacts(mine: real, other: real, p: real)
    requires mine > 0.0 && other > 0.0 && p == mine / (mine + other)
    ensures 0.0 < p < 1.0
    ensures p < 0.5 <==> mine < other
  {
    var s := mine + other;
    var half := 0.5 * s;
    assert p * s == mine;
    ScaleLess(0.0, p, s);
    ScaleLess(p, 1.0, s);
    ScaleLess(p, 0.5, s);
    assert p * s < 0.5 * s <==> p < 0.5;
    assert mine < half <==> mine < other;
    assert p * s < half <==> p < 0.5;
    assert mine < half <==> p < 0.5;
  }

  /** The probability of repair operator 0 as `repair` computes it: repair
      operator 0's weight against destroy operator 1's. Still a proper
      probability, so `random_bool` never panics. */
  function RepairChanceAsWritten(repair0: real, destroy1: real): (p: real)
    requires repair0 > 0.0 && destroy1 > 0.0
    ensures 0.0 < p < 1.0
  {
    var p := repair0 / (repair0 + destroy1);
    ChanceFacts(repair0, destroy1, p);
    p
  }

  /** Two repair operators of equal weight should each be picked half the
      time, but as written destroy operator 1's weight decides: with repair
      weights 1 and 1 and destroy weight 3 operator 0 gets chance 1/4, so a
      coin of 0.3 picks operator 1 where the intended chance 1/2 picks
      operator 0. */
  lemma RepairChanceAsWrittenIsWrong()
    ensures RepairChanceAsWritten(1.0, 3.0) == 0.25 && Chance(1.0, 1.0) == 0.5
    ensures !(0.3 < RepairChanceAsWritten(1.0, 3.0)) && 0.3 < Chance(1.0, 1.0)
  {
  }

  // ---------------------------------------------------------------------
  // Shaw removal
  // ---------------------------------------------------------------------

  function Abs(x: int): nat
  {
    if x < 0 then -x else x
  }

  /** How related customer c is to the seed (lower is closer): half the
      distance plus half the demand difference (alpha = beta = 0.5). The
      seed scores 0 against itself. */
  function ShawScore(inst: Instance, seed: nat, c: nat): (s: real)
    requires inst.Valid() && seed < inst.numCustomers && c < inst.numCustomers
    ensures c == seed ==> s == 0.0
  {
    0.5 * inst.dist[seed][c] + 0.5 * (Abs(inst.demand[seed] as int - inst.demand[c] as int) as real)
  }

  /** The score as a sort key over customer numbers (0 outside the instance). */
  function ShawKey(inst: Instance, seed: nat): nat -> real
  {
    (c: nat) => if inst.Valid() && seed < inst.numCustomers && c < inst.numCustomers
                then ShawScore(inst, seed, c) else 0.0
  }

  /** The seed customer `random_range(1..n)` draws. */
  function ShawSeed(inst: Instance, draw: nat): (seed: nat)
    requires inst.numCustomers >= 2
    ensures 1 <= seed < inst.numCustomers
  {
    1 + draw % (inst.numCustomers - 1)
  }

  /** The first k candidates after a stable sort by relatedness to the seed. */
  function ShawPick(inst: Instance, seed: nat, candidates: seq<nat>, k: nat): (picks: seq<nat>)
    requires k <= |candidates|
    ensures |picks| == k
  {
    SortBy(candidates, ShawKey(inst, seed))[..k]
  }

  /** Shaw picks k of the candidates, each at most once, in order of
      relatedness, and none is less related than a candidate left behind. */
  lemma ShawPickLeast(inst: Instance, seed: nat, candidates: seq<nat>, k: nat)
    requires k <= |candidates|
    ensures forall p :: p in ShawPick(inst, seed, candidates, k) ==> p in candidates
    ensures Distinct(candidates) ==> Distinct(ShawPick(inst, seed, candidates, k))
    ensures SortedBy(ShawPick(inst, seed, candidates, k), ShawKey(inst, seed))
    ensures forall p, c :: p in ShawPick(inst, seed, candidates, k) && c in candidates
                           && c !in ShawPick(inst, seed, candidates, k)
                           ==> ShawKey(inst, seed)(p) <= ShawKey(inst, seed)(c)
  {
    var key := ShawKey(inst, seed);
    var picks := ShawPick(inst, seed, candidates, k);
    SortedPrefix(candidates, key, k);
    if Distinct(candidates) {
      DistinctCounts(candidates);
      forall x ensures multiset(picks)[x] <= 1 {
        assert multiset(picks)[x] <= multiset(candidates)[x];
      }
      CountsDistinct(picks);
    }
    forall p, c | p in picks && c in candidates && c !in picks ensures key(p) <= key(c) {
      SortedPrefixLeast(candidates, key, k, p, c);
    }
  }

  /** The customers a Shaw removal restricted to the free list takes, and
      the free list without them (`retain`, keeping its order). */
  function ShawRemoval(inst: Instance, notTabu: seq<nat>, seed: nat, k: nat): (r: (seq<nat>, seq<nat>))
    requires k <= |notTabu|
    ensures |r.0| == k && r.0 == ShawPick(inst, seed, notTabu, k)
  {
    var picks := ShawPick(inst, seed, notTabu, k);
    (picks, Filter(notTabu, Outside(picks)))
  }

  /** Keeps the numbers not in `picks`. */
  function Outside(picks: seq<nat>): nat -> bool
  {
    (c: nat) => c !in picks
  }

  /** A Shaw removal from a free list without repeats splits it: the picks
      and what stays are the free list again. */
  lemma ShawRemovalSplits(inst: Instance, notTabu: seq<nat>, seed: nat, k: nat)
    requires k <= |notTabu| && Distinct(notTabu)
    ensures multiset(ShawRemoval(inst, notTabu, seed, k).0) + multiset(ShawRemoval(inst, notTabu, seed, k).1)
            == multiset(notTabu)
  {
    var picks := ShawPick(inst, seed, notTabu, k);
    var rest := Filter(notTabu, Outside(picks));
    ShawPickLeast(inst, seed, notTabu, k);
    DistinctCounts(notTabu);
    DistinctCounts(picks);
    forall x ensures multiset(picks)[x] + multiset(rest)[x] == multiset(notTabu)[x] {
      FilterCount(notTabu, Outside(picks), x);
      if x in picks {
        assert x in notTabu;
      }
    }
  }

  /** The customers `remove_n_shaw` as written takes: it ranks every
      customer 1..n-1, tabu or not, and leaves the pool as it is. */
  function ShawPicksAsWritten(inst: Instance, draw: nat, k: nat): (picks: seq<nat>)
    requires inst.numCustomers >= 2 && k <= inst.numCustomers - 1
    ensures |picks| == k
  {
    ShawPick(inst, ShawSeed(inst, draw), Range(1, inst.numCustomers), k)
  }

  /** As written, a Shaw removal followed by `update_tabu` always breaks the
      tabu partition: the five customers taken out join the queue while
      they are still in the pool, so the pool then lists n - 1 + 5 entries. */
  lemma ShawAsWrittenBreaksPartition(inst: Instance, tabu: seq<nat>, notTabu: seq<nat>,
                                     v: seq<seq<Stop>>, draw: nat)
    requires TabuPartition(inst, tabu, notTabu) && Feasible(inst, v) && inst.numCustomers >= 6
    ensures CustNos(TakenStops(TakeOutAll(v, ShawPicksAsWritten(inst, draw, REMOVE_COUNT)).1))
            == ShawPicksAsWritten(inst, draw, REMOVE_COUNT)
    ensures !TabuPartition(inst,
              TabuUpdated(tabu, notTabu, ShawPicksAsWritten(inst, draw, REMOVE_COUNT), TabuLimit(inst)).0,
              TabuUpdated(tabu, notTabu, ShawPicksAsWritten(inst, draw, REMOVE_COUNT), TabuLimit(inst)).1)
  {
    var all := Range(1, inst.numCustomers);
    var picks := ShawPicksAsWritten(inst, draw, REMOVE_COUNT);
    RangeDistinct(1, inst.numCustomers);
    ShawPickLeast(inst, ShawSeed(inst, draw), all, REMOVE_COUNT);
    forall j | 0 <= j < |picks| ensures 1 <= picks[j] < inst.numCustomers {
      assert picks[j] in all;
    }
    TakeOutAllFacts(inst, v, picks);
    TabuUpdatedFacts(tabu, notTabu, picks, TabuLimit(inst));
    var t := TabuUpdated(tabu, notTabu, picks, TabuLimit(inst));
    assert |multiset(t.0 + t.1)| == |multiset(all)| + REMOVE_COUNT;
  }

  /** The customers a destroy step takes and the free list it leaves:
      operator 0 draws at random, operator 1 takes the free customers most
      related to the Shaw seed. */
  function Removal(inst: Instance, notTabu: seq<nat>, op: nat, shawDraw: nat, draws: seq<nat>)
    : (r: (seq<nat>, seq<nat>))
    requires REMOVE_COUNT <= |notTabu| && REMOVE_COUNT <= |draws| && inst.numCustomers >= 2
    ensures |r.0| == REMOVE_COUNT
  {
    if op == 0 then Drawn(notTabu, draws[..REMOVE_COUNT])
    else ShawRemoval(inst, notTabu, ShawSeed(inst, shawDraw), REMOVE_COUNT)
  }

  /** The reinsertion order of repair operator 0 (by demand) and 1 (by 2-regret). */
  function RepairOrder(inst: Instance, v: seq<seq<Stop>>, removed: seq<(Stop, nat)>, op: nat): seq<Stop>
  {
    if op == 0 then ByDemand(removed) else ByRegret(inst, v, removed)
  }

  /** Both repair operators reinsert the removed stops themselves, in some order. */
  lemma RepairOrderPermutes(inst: Instance, v: seq<seq<Stop>>, removed: seq<(Stop, nat)>, op: nat)
    ensures multiset(RepairOrder(inst, v, removed, op)) == multiset(TakenStops(removed))
    ensures |RepairOrder(inst, v, removed, op)| == |removed|
  {
    if op == 0 {
      ByDemandOrder(removed);
    }
    assert |multiset(RepairOrder(inst, v, removed, op))| == |multiset(TakenStops(removed))|;
  }

  /** The pool `new` starts from: nobody queued, every customer free. */
  lemma FreePool(inst: Instance)
    ensures TabuPartition(inst, [], Range(1, inst.numCustomers))
  {
    assert [] + Range(1, inst.numCustomers) == Range(1, inst.numCustomers);
  }

  /** Whichever repair operator runs on detached routes v, it puts back
      exactly the removed stops, the number of routes u it leaves never
      changes, and when it succeeds (ok) the solution is feasible again. */
  lemma RepairOutcome(inst: Instance, v: seq<seq<Stop>>, removed: seq<(Stop, nat)>, op: nat,
                      coins: seq<real>, draws: seq<nat>, u: seq<seq<Stop>>, ok: bool)
    requires Detached(inst, v, removed) && |coins| >= |removed| && |draws| >= |removed|
    requires Placing(inst, v, RepairOrder(inst, v, removed, op))
    requires u == ReinsertAllSpec(inst, v, RepairOrder(inst, v, removed, op), coins, draws).0
    requires ok <==> ReinsertAllSpec(inst, v, RepairOrder(inst, v, removed, op), coins, draws).1.Some?
    ensures multiset(RepairOrder(inst, v, removed, op)) == multiset(TakenStops(removed))
    ensures |u| == |v| && (ok ==> Feasible(inst, u))
  {
    var order := RepairOrder(inst, v, removed, op);
    RepairOrderPermutes(inst, v, removed, op);
    ReinsertAllKeeps(inst, v, order, coins, draws);
    if ok {
      RepairFeasible(inst, v, removed, order, coins, draws);
    }
  }

  /** One destroy step from a feasible solution over a pool that partitions
      the customers, with the queue within its bound: the removal finds
      every customer it takes on a route, leaves the routes detached as
      repair expects, and once `update_tabu` has queued the taken customers
      the pool is a partition again with the queue within its bound. */
  lemma DestroyKeeps(inst: Instance, tabu: seq<nat>, notTabu: seq<nat>, v: seq<seq<Stop>>,
                     op: OpIndex, shawDraw: nat, draws: seq<nat>,
                     w: seq<seq<Stop>>, removed: seq<(Stop, nat)>, tabu': seq<nat>, notTabu': seq<nat>)
    requires inst.Valid() && TabuPartition(inst, tabu, notTabu) && Feasible(inst, v)
    requires inst.numCustomers >= 6 && REMOVE_COUNT <= |notTabu| && REMOVE_COUNT <= |draws|
    requires w == TakeOutAll(v, Removal(inst, notTabu, op, shawDraw, draws).0).0
    requires removed == TakeOutAll(v, Removal(inst, notTabu, op, shawDraw, draws).0).1
    requires tabu' == TabuUpdated(tabu, Removal(inst, notTabu, op, shawDraw, draws).1,
                                  CustNos(TakenStops(removed)), TabuLimit(inst)).0
    requires notTabu' == TabuUpdated(tabu, Removal(inst, notTabu, op, shawDraw, draws).1,
                                     CustNos(TakenStops(removed)), TabuLimit(inst)).1
    ensures Detached(inst, w, removed) && |w| == |v| && |removed| == REMOVE_COUNT
    ensures TabuPartition(inst, tabu', notTabu')
  {
    var r := Removal(inst, notTabu, op, shawDraw, draws);
    if op == 1 {
      PoolFacts(inst, tabu, notTabu);
      ShawRemovalSplits(inst, notTabu, ShawSeed(inst, shawDraw), REMOVE_COUNT);
    }
    RemovalKeepsPool(inst, tabu, notTabu, r.0, r.1, v, TabuLimit(inst));
  }

  /** The route work of `repair`: operator 0 reinserts the removed stops by
      demand, operator 1 by 2-regret, each into its best spot. */
  method RepairRoutes(inst: Instance, sol: VRPSolution, removed: seq<(Stop, nat)>, op: OpIndex,
                      coins: seq<real>, draws: seq<nat>) returns (res: Option<seq<nat>>)
    requires sol.Valid(inst) && Placing(inst, sol.View(), TakenStops(removed))
    requires op == 1 ==> forall j :: 0 <= j < |removed| ==> Slots(inst, sol.View(), removed[j].0) != []
    requires |coins| >= |removed| && |draws| >= |removed|
    modifies sol.routes
    ensures sol.routes == old(sol.routes) && sol.Valid(inst)
    ensures Placing(inst, old(sol.View()), RepairOrder(inst, old(sol.View()), removed, op))
    ensures (sol.View(), res)
            == ReinsertAllSpec(inst, old(sol.View()), RepairOrder(inst, old(sol.View()), removed, op), coins, draws)
  {
    if op == 0 {
      res := ReinsertByDemand(inst, sol, removed, coins, draws);
    } else {
      res := ReinsertTwoRegret(inst, sol, removed, coins, draws);
    }
  }

  // ---------------------------------------------------------------------
  // The solver
  // ---------------------------------------------------------------------

  class ALNSSolver {
    const inst: Instance
    var stopTabu: seq<nat>
    var stopNotTabu: seq<nat>
    const current: VRPSolution
    const repairOps: seq<Operator>
    const destroyOps: seq<Operator>
    var lastUsedRepairOp: OpIndex
    var lastUsedDestroyOp: OpIndex

    /** The solution is valid over the instance; there are two repair and
        two destroy operators, four distinct objects. */
    ghost predicate Valid()
      reads current, current.routes
    {
      inst.Valid() && current.Valid(inst)
      && |repairOps| == 2 && |destroyOps| == 2
      && repairOps[0] != repairOps[1] && destroyOps[0] != destroyOps[1]
      && repairOps[0] != destroyOps[0] && repairOps[0] != destroyOps[1]
      && repairOps[1] != destroyOps[0] && repairOps[1] != destroyOps[1]
    }

    /** Between two iterations: the solution is feasible and the pool is a
        partition of the customers with the queue within its bound. */
    ghost predicate Steady()
      reads this, current, current.routes
    {
      Valid() && Feasible(inst, current.View())
      && TabuPartition(inst, stopTabu, stopNotTabu) && |stopTabu| <= TabuLimit(inst)
    }

    /** `ALNSSolver::new`: an empty queue, every customer free, four fresh
        operators. */
    constructor (inst: Instance, initial: VRPSolution)
      requires inst.Valid() && initial.Valid(inst)
      ensures this.inst == inst && current == initial && Valid()
      ensures stopTabu == [] && stopNotTabu == Range(1, inst.numCustomers)
      ensures lastUsedRepairOp == 0 && lastUsedDestroyOp == 0
      ensures fresh(repairOps[0]) && fresh(repairOps[1]) && fresh(destroyOps[0]) && fresh(destroyOps[1])
      ensures repairOps[0].Initial(0) && repairOps[1].Initial(1)
      ensures destroyOps[0].Initial(0) && destroyOps[1].Initial(1)
      ensures Feasible(inst, initial.View()) ==> Steady()
    {
      var r0 := new Operator(0);
      var r1 := new Operator(1);
      var d0 := new Operator(0);
      var d1 := new Operator(1);
      this.inst := inst;
      current := initial;
      stopTabu := [];
      stopNotTabu := Range(1, inst.numCustomers);
      repairOps := [r0, r1];
      destroyOps := [d0, d1];
      lastUsedRepairOp := 0;
      lastUsedDestroyOp := 0;
      new;
      FreePool(inst);
    }

    /** `remove_n_random_stops`: n customers drawn from the free list with
        swap_remove, then each taken out of the first route holding it. */
    method RemoveNRandomStops(n: nat, draws: seq<nat>, ghost v: seq<seq<Stop>>, ghost free: seq<nat>)
      returns (removed: seq<(Stop, nat)>)
      requires Valid() && current.View() == v && stopNotTabu == free && n <= |free| && n <= |draws|
      modifies this`stopNotTabu, current.routes
      ensures Valid() && current.routes == old(current.routes)
      ensures stopNotTabu == Drawn(free, draws[..n]).1
      ensures current.View() == TakeOutAll(v, Drawn(free, draws[..n]).0).0
      ensures removed == TakeOutAll(v, Drawn(free, draws[..n]).0).1
    {
      var custs, rest := DrawCustomers(stopNotTabu, n, draws);
      stopNotTabu := rest;
      removed := TakeOutCustomers(inst, current, v, custs);
    }

    /** `remove_n_shaw`, restricted to the free list: the n free customers
        most related to a random seed, by a stable sort on the score, each
        taken out of the first route holding it and out of the free list. */
    method RemoveNShaw(n: nat, draw: nat, ghost v: seq<seq<Stop>>, ghost free: seq<nat>)
      returns (removed: seq<(Stop, nat)>)
      requires Valid() && current.View() == v && stopNotTabu == free && n <= |free| && inst.numCustomers >= 2
      modifies this`stopNotTabu, current.routes
      ensures Valid() && current.routes == old(current.routes)
      ensures stopNotTabu == ShawRemoval(inst, free, ShawSeed(inst, draw), n).1
      ensures current.View() == TakeOutAll(v, ShawRemoval(inst, free, ShawSeed(inst, draw), n).0).0
      ensures removed == TakeOutAll(v, ShawRemoval(inst, free, ShawSeed(inst, draw), n).0).1
    {
      var seed := 1 + draw % (inst.numCustomers - 1);
      var ranked := SortBy(stopNotTabu, ShawKey(inst, seed));
      var custs: seq<nat> := [];
      for i := 0 to n
        invariant custs == ranked[..i]
      {
        assert ranked[..i + 1] == ranked[..i] + [ranked[i]];
        custs := custs + [ranked[i]];
      }
      assert seed == ShawSeed(inst, draw) && custs == ShawPick(inst, seed, stopNotTabu, n);
      stopNotTabu := Filter(stopNotTabu, Outside(custs));
      removed := TakeOutCustomers(inst, current, v, custs);
    }

    /** `destroy`: operator 0 (random removal of five) exactly when the
        coin falls below its share of the destroy weights, otherwise
        operator 1 (Shaw removal of five); the choice is recorded. */
    method Destroy(coin: real, shawDraw: nat, draws: seq<nat>) returns (removed: seq<(Stop, nat)>)
      requires Valid() && inst.numCustomers >= 2
      requires REMOVE_COUNT <= |stopNotTabu| && REMOVE_COUNT <= |draws|
      modifies this`stopNotTabu, this`lastUsedDestroyOp, current.routes
      ensures Valid() && current.routes == old(current.routes)
      ensures lastUsedDestroyOp == if coin < old(Chance(destroyOps[0].weight, destroyOps[1].weight)) then 0 else 1
      ensures stopNotTabu == Removal(inst, old(stopNotTabu), lastUsedDestroyOp, shawDraw, draws).1
      ensures current.View()
              == TakeOutAll(old(current.View()), Removal(inst, old(stopNotTabu), lastUsedDestroyOp, shawDraw, draws).0).0
      ensures removed
              == TakeOutAll(old(current.View()), Removal(inst, old(stopNotTabu), lastUsedDestroyOp, shawDraw, draws).0).1
    {
      ghost var v, free := current.View(), stopNotTabu;
      var op: OpIndex := if coin < Chance(destroyOps[0].weight, destroyOps[1].weight) then 0 else 1;
      lastUsedDestroyOp := op;
      ghost var picks := Removal(inst, free, op, shawDraw, draws);
      if op == 0 {
        assert picks == Drawn(free, draws[..REMOVE_COUNT]);
        removed := RemoveNRandomStops(REMOVE_COUNT, draws, v, free);
      } else {
        assert picks == ShawRemoval(inst, free, ShawSeed(inst, shawDraw), REMOVE_COUNT);
        removed := RemoveNShaw(REMOVE_COUNT, shawDraw, v, free);
      }
    }

    /** `update_tabu`: the removed customers join the queue, and the oldest
        return to the free list until the queue holds at most n/10. */
    method UpdateTabu(removed: seq<(Stop, nat)>)
      requires Valid()
      modifies this`stopTabu, this`stopNotTabu
      ensures Valid() && current.View() == old(current.View())
      ensures stopTabu == TabuUpdated(old(stopTabu), old(stopNotTabu), CustNos(TakenStops(removed)), TabuLimit(inst)).0
      ensures stopNotTabu == TabuUpdated(old(stopTabu), old(stopNotTabu), CustNos(TakenStops(removed)), TabuLimit(inst)).1
      ensures |stopTabu| <= TabuLimit(inst)
    {
      var custs := CustNos(TakenStops(removed));
      TabuUpdatedFacts(stopTabu, stopNotTabu, custs, TabuLimit(inst));
      stopTabu, stopNotTabu := Tabu.UpdateTabu(stopTabu, stopNotTabu, custs, inst.numCustomers / 10);
    }

    /** `repair`: operator 0 (best spots by demand) exactly when the coin
        falls below repair operator 0's share of the repair weights,
        otherwise operator 1 (best spots by 2-regret); the choice is
        recorded. It succeeds unless some stop fits nowhere. */
    method Repair(removed: seq<(Stop, nat)>, coin: real, coins: seq<real>, draws: seq<nat>) returns (ok: bool)
      requires Valid() && Placing(inst, current.View(), TakenStops(removed))
      requires coin >= Chance(repairOps[0].weight, repairOps[1].weight)
               ==> forall j :: 0 <= j < |removed| ==> Slots(inst, current.View(), removed[j].0) != []
      requires |coins| >= |removed| && |draws| >= |removed|
      modifies this`lastUsedRepairOp, current.routes
      ensures Valid() && current.routes == old(current.routes)
      ensures stopTabu == old(stopTabu) && stopNotTabu == old(stopNotTabu)
      ensures lastUsedRepairOp == if coin < old(Chance(repairOps[0].weight, repairOps[1].weight)) then 0 else 1
      ensures Placing(inst, old(current.View()), RepairOrder(inst, old(current.View()), removed, lastUsedRepairOp))
      ensures current.View()
              == ReinsertAllSpec(inst, old(current.View()),
                                 RepairOrder(inst, old(current.View()), removed, lastUsedRepairOp), coins, draws).0
      ensures ok <==> ReinsertAllSpec(inst, old(current.View()),
                                      RepairOrder(inst, old(current.View()), removed, lastUsedRepairOp), coins, draws).1.Some?
    {
      var op: OpIndex := if coin < Chance(repairOps[0].weight, repairOps[1].weight) then 0 else 1;
      lastUsedRepairOp := op;
      ghost var tabu, free := stopTabu, stopNotTabu;
      var res := RepairRoutes(inst, current, removed, op, coins, draws);
      assert stopTabu == tabu && stopNotTabu == free;
      ok := res.Some?;
    }

    /** `jump_to_solution`: the solution is copied in route by route, every
        customer is free again and the queue is empty. */
    method JumpToSolution(sol: VRPSolution)
      requires Valid() && sol.Valid(inst) && |sol.routes| == |current.routes|
      requires forall i, j :: 0 <= i < |current.routes| && 0 <= j < |sol.routes| ==> current.routes[i] != sol.routes[j]
      modifies this`stopTabu, this`stopNotTabu, current.routes
      ensures Valid() && current.View() == old(sol.View())
      ensures stopTabu == [] && stopNotTabu == Range(1, inst.numCustomers)
    {
      current.CloneFrom(inst, sol);
      stopNotTabu := Range(1, inst.numCustomers);
      stopTabu := [];
    }

    /** `update_scores`: only the operators used last are credited. */
    method UpdateScores(delta: nat)
      requires Valid()
      modifies repairOps[lastUsedRepairOp], destroyOps[lastUsedDestroyOp]
      ensures repairOps[lastUsedRepairOp].score == old(repairOps[lastUsedRepairOp].score) + delta
      ensures repairOps[lastUsedRepairOp].usageCount == old(repairOps[lastUsedRepairOp].usageCount) + 1
      ensures destroyOps[lastUsedDestroyOp].score == old(destroyOps[lastUsedDestroyOp].score) + delta
      ensures destroyOps[lastUsedDestroyOp].usageCount == old(destroyOps[lastUsedDestroyOp].usageCount) + 1
    {
      repairOps[lastUsedRepairOp].UpdateScore(delta);
      destroyOps[lastUsedDestroyOp].UpdateScore(delta);
    }

    /** `update_weights`: every operator's weight moves towards its score
        at the learning rate 0.01 and its score starts over. */
    method UpdateWeights()
      requires Valid()
      modifies repairOps, destroyOps
      ensures forall k :: 0 <= k < 2 ==>
                repairOps[k].weight == Smoothed(old(repairOps[k].weight), old(repairOps[k].score), LEARNING_RATE)
                && repairOps[k].score == 0 && repairOps[k].usageCount == old(repairOps[k].usageCount)
      ensures forall k :: 0 <= k < 2 ==>
                destroyOps[k].weight == Smoothed(old(destroyOps[k].weight), old(destroyOps[k].score), LEARNING_RATE)
                && destroyOps[k].score == 0 && destroyOps[k].usageCount == old(destroyOps[k].usageCount)
    {
      for i := 0 to |repairOps|
        invariant forall k :: 0 <= k < i ==>
                    repairOps[k].weight == Smoothed(old(repairOps[k].weight), old(repairOps[k].score), LEARNING_RATE)
                    && repairOps[k].score == 0 && repairOps[k].usageCount == old(repairOps[k].usageCount)
        invariant forall k :: i <= k < 2 ==> unchanged(repairOps[k])
        invariant forall k :: 0 <= k < 2 ==> unchanged(destroyOps[k])
      {
        repairOps[i].UpdateWeight(LEARNING_RATE);
      }
      for i := 0 to |destroyOps|
        invariant forall k :: 0 <= k < 2 ==>
                    repairOps[k].weight == Smoothed(old(repairOps[k].weight), old(repairOps[k].score), LEARNING_RATE)
                    && repairOps[k].score == 0 && repairOps[k].usageCount == old(repairOps[k].usageCount)
        invariant forall k :: 0 <= k < i ==>
                    destroyOps[k].weight == Smoothed(old(destroyOps[k].weight), old(destroyOps[k].score), LEARNING_RATE)
                    && destroyOps[k].score == 0 && destroyOps[k].usageCount == old(destroyOps[k].usageCount)
        invariant forall k :: i <= k < 2 ==> unchanged(destroyOps[k])
      {
        destroyOps[i].UpdateWeight(LEARNING_RATE);
      }
    }

    /** The first half of `find_new_solution`: destroy, then update_tabu.
        The routes are left detached from the five removed stops, the pool
        is a partition again with the queue within its bound, and the
        number of routes is unchanged. */
    method DestroyAndQueue(d: Dice) returns (removed: seq<(Stop, nat)>)
      requires Valid() && Feasible(inst, current.View()) && TabuPartition(inst, stopTabu, stopNotTabu)
      requires inst.numCustomers >= 6 && Enough(d) && |stopNotTabu| >= REMOVE_COUNT
      modifies this`stopTabu, this`stopNotTabu, this`lastUsedDestroyOp, current.routes
      ensures Valid() && current.routes == old(current.routes)
      ensures Detached(inst, current.View(), removed) && |removed| == REMOVE_COUNT
      ensures TabuPartition(inst, stopTabu, stopNotTabu) && |stopTabu| <= TabuLimit(inst)
      ensures |current.View()| == |old(current.View())|
    {
      ghost var v, tabu, free := current.View(), stopTabu, stopNotTabu;
      removed := Destroy(d.destroyCoin, d.shawDraw, d.removeDraws);
      ghost var op := lastUsedDestroyOp;
      UpdateTabu(removed);
      DestroyKeeps(inst, tabu, free, v, op, d.shawDraw, d.removeDraws, current.View(), removed, stopTabu, stopNotTabu);
    }

    /** `find_new_solution`: destroy, update_tabu, repair. Whatever the
        outcome, the pool is a partition with the queue within its bound
        and the number of routes is unchanged; on success the solution is
        feasible. */
    method FindNewSolution(d: Dice) returns (ok: bool)
      requires Steady() && inst.numCustomers >= 6 && Enough(d)
      modifies this`stopTabu, this`stopNotTabu, this`lastUsedRepairOp, this`lastUsedDestroyOp, current.routes
      ensures Valid() && current.routes == old(current.routes)
      ensures TabuPartition(inst, stopTabu, stopNotTabu) && |stopTabu| <= TabuLimit(inst)
      ensures |current.View()| == |old(current.View())|
      ensures ok ==> Feasible(inst, current.View())
    {
      PoolLargeEnough(inst, stopTabu, stopNotTabu);
      var removed := DestroyAndQueue(d);
      ghost var w := current.View();
      DetachedHasSlots(inst, w, removed);
      ok := Repair(removed, d.repairCoin, d.slotCoins, d.slotDraws);
      RepairOutcome(inst, w, removed, lastUsedRepairOp, d.slotCoins, d.slotDraws, current.View(), ok);
    }
  }
}
