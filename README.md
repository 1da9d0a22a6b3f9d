# A verified model of a CVRP large-neighbourhood-search solver

This project models the core of a capacitated vehicle routing (CVRP) solver.
The system's terms are:

- **Instance.** There are `num_customers` customers, and customer 0 is the depot. Each customer has a demand. There are `num_vehicles` vehicles of equal capacity and a distance matrix.
- **Route.** A route is a class holding its stop list, cost and used capacity. Its invariant is that cost and load match the stops, computed from scratch, and that no customer appears twice.
- **Solution.** A solution (`VRPSolution`) holds one route per vehicle.

The model covers these parts of the system:

- **Construction heuristics.** Greedy first fit in non-increasing demand order. The angular sweep. Clarke–Wright savings merging. The cascade that tries Clarke–Wright, then sweep, then greedy.
- **Two large-neighbourhood-search solvers.**
  - Both keep a tabu queue and a free pool of customers.
  - Both destroy a solution by removing five customers.
  - Both repair it by reinsertion at the cheapest feasible slot.
  - The adaptive solver also has Shaw removal, two-regret reinsertion and operator weights.
- **Random jump.** Restarts use drop-and-reinsert.
- **First-improvement swap.** It exchanges customers between two routes.
- **The `solve` driver.** It keeps the best solution, the best since the last jump and the stagnation counter, and reverts, anneals and restarts.
- **Route-length bound.** `max_route_len` bounds how many customers a route can hold.
- **Solution checker.** It parses the printed solution and checks coverage and capacity.

Each source file becomes one Dafny module:

| source | module |
|---|---|
| `src/common.rs` | `Common` |
| `src/construct.rs` | `Construct` |
| `src/solvers/adaptive.rs` | `Adaptive` |
| `src/solvers/multineighbor.rs` | `MultiNeighbor` |
| `src/jump.rs` | `Jump` |
| `src/swap.rs` | `Swap` |
| `src/solver.rs` | `Solver` and `Driver` |
| `max_route_len` in `src/vrp_instance.rs` | `VrpInstance` |
| `check_sol.rs` | `CheckSol` |

Logic shared by the two solvers sits in its own modules:

- `Tabu`: the tabu queue and the free pool.
- `Pool`: facts about the pool that both solvers use.
- `Lns`: take-out and cheapest reinsertion.
- `Regret`: the regret computation.

The supporting modules are:

- `Tours`: stops, route cost as a path cost over the depot-closed tour, and the incremental cost formulas.
- `Views`: solutions as values (`seq<seq<Stop>>`) with feasibility and total cost.
- `Prelude`, `Sorting` and `Text`: generic helpers.

The code takes the source's own form:

- **Classes for state that changes in place.** `Route`, `VRPSolution`, `Operator`, both solvers and `SolveStats` are classes whose methods update their fields.
- **Methods proved against functions.** Every loop of the source is a method whose postcondition ties its result or new state to a specification function, such as `FirstFit`, `BestFit`, `ReinsertAllSpec`, `TakeOutAll`, `Drawn` or `TabuUpdated`.
- **Lemmas for the promises.** The properties the source relies on are proved as lemmas about those functions: feasibility, the partition of customers, cost bookkeeping and the parse round trip.
- **Randomness as parameters.** Coins are reals in `[0, 1)`. A range draw is an arbitrary natural reduced modulo the range size. Shuffles are given permutations.

## Model

| member | source | states |
|---|---|---|
| Common.Dist | src/common.rs:36-48 | the distance between two customers is the cost of the one-edge path between them, and it is zero from a customer to itself |
| Common.Route.constructor | src/common.rs:311-319 | a new route with the given id is empty, costs 0, carries no load and satisfies the route invariant |
| Common.Route.Clone | src/common.rs:266-276 | the clone is a fresh route with the same instance, id, stops, cost and load, and it keeps the invariant |
| Common.Route.CopyFrom | src/common.rs:91-116 | copying one source route into a distinct route leaves the target with the source's instance, id and stops, and with the invariant |
| Common.Route.First | src/common.rs:325-327 | the first customer is the one visited right after the depot, and it is a valid customer number |
| Common.Route.Last | src/common.rs:329-331 | the last customer is the one visited right before returning to the depot |
| Common.Route.IndexOfStop | src/common.rs:347-349 | returns the first position holding the customer, and None exactly when the customer is not on the route |
| Common.Route.ContainsStop | src/common.rs:343-345 | true exactly when the customer is on the route |
| Common.Route.SpeculativeAddStop | src/common.rs:436-470 | the predicted cost equals the from-scratch cost of the route with the stop inserted, and the flag holds exactly when that route's load fits the vehicle |
| Common.Route.SpeculativeRemoveStop | src/common.rs:472-499 | the predicted cost equals the from-scratch cost of the route without the stop at the index, and the flag says whether the remaining load fits |
| Common.Route.CostIfCustNoWas | src/common.rs:502-527 | the incremental replacement formula equals the from-scratch cost of the route with the stop at the index replaced |
| Common.Route.SpeculativeReplaceStop | src/common.rs:379-412 | corrected version: the prediction equals the from-scratch cost of the route with the stop replaced, and the flag says whether the new load fits |
| Common.ReplaceStopAsWritten | src/common.rs:379-412 | the code as written: the capacity flag is computed as in the source (the cost is the wrong-neighbour formula) |
| Common.ReplaceStopAsWrittenIsWrong | src/common.rs:390-394 | on a unit-distance route 0→1→2→0, replacing customer 1 by 3 is predicted to cost 4 while the route really costs 3 |
| Common.Route.SpeculativeAddBest | src/common.rs:414-434 | the index is 0 on an empty route and never the append position otherwise; it minimises the truncated cost key, keeping the last index on ties; cost and flag are those of the insertion at that index |
| Common.Route.AddStopToIndex | src/common.rs:351-362 | the stop is inserted at the index with the others shifted in order, the load grows by its demand, the cost becomes the speculative_add_stop prediction, and the invariant is kept |
| Common.Route.RemoveStopAtIndex | src/common.rs:364-376 | returns the stop that was at the index, removes it keeping the order, lowers the load by its demand, sets the cost to the speculative_remove_stop prediction, and keeps the invariant |
| Common.Route.RetainStops | src/common.rs:290-300 | exactly the stops satisfying the predicate remain, in their original order, with cost and load recomputed (the invariant holds) |
| Common.Route.RecalculateCost | src/common.rs:576-595 | the loop's sum equals the path cost of the depot-closed tour |
| Common.Route.RecalculateCapacity | src/common.rs:601-604 | the result is the sum of the stops' demands |
| Common.Route.CheckNoDuplicateStops | src/common.rs:606-615 | true exactly when no customer appears twice on the route |
| Common.Route.AssertSanity | src/common.rs:559-574 | passes exactly when the stored cost is within 0.5 of the from-scratch cost, the load is the demand sum, and there are no duplicates |
| Common.ValidRoutePassesSanity | src/common.rs:559-574 | every route that keeps the invariant passes the sanity check |
| Common.RouteTokens | src/common.rs:174-182 | a route prints as "0", its customer numbers in order, then "0", each a single word |
| Common.RouteTextIsJoin | src/common.rs:174-182 | the printed route is its tokens joined by single spaces |
| Common.SolutionTextWords | src/common.rs:170-189 | the words of to_string are the leading "0" followed by every route's tokens in route order |
| Common.FileTextWords | src/common.rs:191-209 | the words of to_file_string are the cost, "0", and then every route's tokens in route order |
| Common.RouteIndexOf | src/solvers/adaptive.rs:230-237 | the index of the first route serving the customer, None when none does |
| Common.VRPSolution.constructor | src/common.rs:131-137 | num_vehicles fresh empty routes with ids 0..num_vehicles-1 |
| Common.VRPSolution.Cost | src/common.rs:165-167 | the sum of the route costs equals the total from-scratch cost of the solution |
| Common.VRPSolution.IsValidSolution | src/common.rs:140-163 | true exactly when every route is within capacity and every customer 1..n-1 is on some route |
| Common.VRPSolution.ToString | src/common.rs:170-189 | the printed text splits into the leading "0" and the route tokens in route order |
| Common.VRPSolution.ToFileString | src/common.rs:191-209 | the first word of the file text is the printed total cost of the solution (its from-scratch cost, as `cost()` returns it), followed by "0" and every route's tokens in route order |
| Common.VRPSolution.Clone | src/common.rs:82-86 | a fresh solution with fresh routes holding the same contents and ids |
| Common.VRPSolution.FromRoutes | src/common.rs:131-137 | a solution built from a list of valid routes views exactly those routes |
| Common.VRPSolution.CloneFrom | src/common.rs:88-118 | with equal route counts and disjoint route objects, every route becomes equal to its source route, and the route objects stay the same |
| Common.VRPSolution.SetRoute | src/construct.rs:212-216 | replacing route k by a valid route changes only position k of the view |
| Common.VRPSolution.PermuteRoutes | src/jump.rs:58 | the routes are reordered by the given permutation, and the view is permuted in the same way |
| Common.VRPSolution.AddStopToRoute | src/common.rs:351-362 | inserting a stop into route k changes only route k, which gets the stop at the index |
| Common.VRPSolution.RemoveStopFromRoute | src/common.rs:364-376 | removing from route k returns the stop at the index and changes only route k |
| Common.VRPSolution.RetainInRoute | src/jump.rs:48-50 | filtering route k keeps its stops that satisfy the predicate and changes no other route |
| Tours.InsertCost | src/common.rs:436-470 | inserting x at i costs the old route minus the edge before→after plus the edges before→x→after, measured from scratch |
| Tours.RemoveCost | src/common.rs:472-499 | removing the stop at i costs the old route minus its two edges plus the edge that bridges the gap |
| Tours.ReplaceCost | src/common.rs:502-527 | replacing the stop at i swaps its two edges for the two edges of the new customer |
| Tours.RouteCostParts | src/common.rs:576-595 | a non-empty route costs depot→first, plus the path through its customers, plus last→depot |
| Tours.SumCapInsert | src/common.rs:351-362 | inserting a stop raises the demand sum by its demand |
| Tours.SumCapRemoveAt | src/common.rs:364-376 | removing a stop lowers the demand sum by its demand |
| Tours.FirstIndexOf | src/common.rs:347-349 | the first position holding the customer, None exactly when it is absent |
| Tours.Trunc | src/common.rs:422-428 | truncation toward zero, as an f64-to-int cast does, for both signs |
| Tours.LastMinAddIndex | src/common.rs:414-434 | over positions 0..m-1, the index of the minimal truncated insertion cost, the last one among equals |
| Tours.BestAddIndex | src/common.rs:414-434 | 0 on an empty route, otherwise a position strictly before the end |
| Views.RouteWith | src/solvers/adaptive.rs:197-206 | the first route serving the customer, None exactly when no route does |
| Views.AllCustsMember | src/common.rs:150-160 | a customer is in the solution's customer multiset exactly when some route serves it |
| Views.TotalCostUpdate | src/common.rs:165-167 | replacing one route changes the total cost by the difference of the two route costs |
| Construct.FirstFitting | src/construct.rs:19-28 | the lowest-indexed route whose remaining capacity holds the demand, None exactly when no route has room |
| Construct.FirstFit | src/construct.rs:17-31 | placing customers in order keeps the number of routes |
| Construct.FirstFitKeeps | src/construct.rs:17-31 | first-fit placement keeps every route within capacity and adds each placed customer exactly once |
| Construct.FirstFitExtends | src/construct.rs:17-31 | first fit only appends: every route of the input is a prefix of the same route of the output |
| Construct.GreedyOrderDescending | src/construct.rs:13 | greedy visits every customer 1..n-1 once, in non-increasing demand order |
| Construct.FirstFitFromEmpty | src/construct.rs:11-33 | first fit from num_vehicles empty routes over all customers yields a feasible solution with num_vehicles routes |
| Construct.GreedyFeasible | src/construct.rs:11-33 | when greedy does not panic, it yields a feasible solution with num_vehicles routes |
| Construct.PlaceFirstFit | src/construct.rs:17-31 | the loop succeeds exactly when first fit succeeds, and then the solution is the first-fit result |
| Construct.FirstWithRoom | src/construct.rs:19-28 | the route scan returns exactly the first route with room |
| Construct.Greedy | src/construct.rs:11-33 | the result is present exactly when the first-fit specification succeeds (otherwise the source panics), and it is that feasible specification result |
| Construct.SweepOrder | src/construct.rs:76-82 | the angle-sorted customer list rotated by the offset is an arrangement of all customers 1..n-1 |
| Construct.SweepFeasible | src/construct.rs:72-102 | when sweep returns Ok, its solution is feasible with num_vehicles routes |
| Construct.Sweep | src/construct.rs:72-102 | returns Ok exactly when the sweep specification succeeds, and then a fresh valid solution equal to it |
| Construct.RouteCostConcat | src/construct.rs:133-140 | joining two routes saves exactly the Clarke–Wright saving of the last customer of the first and the first customer of the second |
| Construct.Joined | src/construct.rs:171-183 | merging two distinct routes removes both and appends their concatenation at the end, one route fewer |
| Construct.JoinedKeeps | src/construct.rs:164-205 | a merge keeps every customer exactly once, and it keeps capacity when the two loads fit together |
| Construct.JoinedCost | src/construct.rs:164-205 | the merged solution costs the old total minus the saving of the joined edge |
| Construct.SavingStep | src/construct.rs:148-205 | one savings entry, as written, either merges two routes (one route fewer) or changes nothing |
| Construct.SavingStepSaves | src/construct.rs:164-205 | with a symmetric matrix, every merge of the intended step (route ending in i, then route starting with j) lowers the total cost by exactly the saving of (i, j) |
| Construct.SavingStepKeeps | src/construct.rs:142-207 | each as-written savings step keeps every customer exactly once and keeps capacity |
| Construct.MergeSavings | src/construct.rs:142-146 | merging never adds routes, and starting above num_vehicles routes it never goes below num_vehicles |
| Construct.MergeSavingsKeeps | src/construct.rs:142-207 | the whole merge loop, as written, keeps every customer exactly once and keeps capacity |
| Construct.Singletons | src/construct.rs:119-127 | one single-customer route per customer 1..n-1, in customer order |
| Construct.SingletonsStart | src/construct.rs:119-127 | the singleton routes serve every customer once, and fit when every demand fits a vehicle |
| Construct.ClarkeWrightSpec | src/construct.rs:116-217 | Err exactly when more routes than vehicles remain after merging; Ok has exactly num_vehicles routes |
| Construct.ClarkeWrightFeasible | src/construct.rs:116-217 | an Ok result serves every customer exactly once with num_vehicles routes, and it is feasible when every demand fits a vehicle |
| Construct.JoinedAsWritten | src/construct.rs:171-183 | the merge as written: one route fewer, and the route pushed at the end is the higher-indexed route followed by the lower-indexed one, whichever of them ends in i |
| Construct.SavingStepIntended | src/construct.rs:164-205 | the step the comment on the merge describes: one savings entry either merges two routes (one route fewer) or changes nothing |
| Construct.SavingStepMissesSaving | src/construct.rs:171-183 | on a four-point grid with routes [1] and [3, 2], the as-written step for (1, 3) yields the route 3, 2, 1 at cost 8, while the intended step yields 1, 3, 2 at cost 6 = 8 minus the saving 2 |
| Construct.AppendStops | src/construct.rs:171-183 | appending one route's stops to another yields their concatenation and keeps the invariant |
| Construct.JoinRoutes | src/construct.rs:171-183 | on the route objects, removing routes a and b and pushing a's object extended by b's stops gives exactly the merged solution, and every remaining object was one of the old ones |
| Construct.MergeStep | src/construct.rs:148-205 | one pair of the savings loop on the route objects computes exactly the as-written savings step |
| Construct.MergeFound | src/construct.rs:164-205 | once the routes holding i and j are found and differ, the tail-to-head checks, the capacity test and the merge compute exactly the as-written savings step |
| Construct.ClarkeWright | src/construct.rs:116-217 | returns Ok exactly when the specification does, and then a fresh valid solution equal to it |
| Construct.MergeAll | src/construct.rs:142-207 | the merge loop over route objects produces exactly the specified merged routes |
| Construct.FirstClarkeWright | src/construct.rs:221-226 | None exactly when every Clarke–Wright attempt fails |
| Construct.FirstClarkeWrightIsFirst | src/construct.rs:221-226 | the first successful attempt is the one returned |
| Construct.FirstSweep | src/construct.rs:227-231 | None exactly when every sweep attempt fails |
| Construct.FirstSweepIsFirst | src/construct.rs:227-231 | the first successful sweep offset is the one returned |
| Construct.CascadeFeasible | src/construct.rs:219-234 | the cascade's result serves every customer exactly once with num_vehicles routes, and it is feasible when every demand fits |
| Construct.ClarkeWrightAndThenSweep | src/construct.rs:219-234 | returns a result exactly when the cascade specification does, and then equal to it |
| Construct.TryClarkeWright | src/construct.rs:221-226 | the retry loop returns the first successful Clarke–Wright attempt |
| Construct.TrySweep | src/construct.rs:227-231 | the retry loop returns the first successful sweep |
| Tabu.TabuSane | src/solvers/adaptive.rs:242-251 | passes exactly when tabu and free pool together hold each customer 1..n-1 once |
| Tabu.CoveringIsArrangement | src/solvers/adaptive.rs:242-251 | n-1 entries that include every customer 1..n-1 are an arrangement of them |
| Tabu.TabuUpdatedFacts | src/solvers/adaptive.rs:136-149 | no customer is lost or duplicated; the queue is the newest entries, at most the limit; the free list keeps its old entries in front |
| Tabu.TabuUpdatedPartition | src/solvers/adaptive.rs:136-149 | if the removed customers complete the partition, the updated queue and pool partition the customers |
| Tabu.UpdateTabu | src/solvers/adaptive.rs:136-149 | the push-back and pop-front loop computes the specified queue and pool |
| Tabu.Drawn | src/solvers/adaptive.rs:220-224 | drawing k customers by swap_remove yields k picks and a pool k smaller, together the old pool |
| Tabu.DrawnDistinct | src/solvers/adaptive.rs:220-224 | draws from a pool without repeats give distinct picks and a pool without repeats |
| Tabu.DrawCustomers | src/solvers/adaptive.rs:220-224 | the draw loop computes the specified picks and remaining pool |
| Pool.PoolFacts | src/solvers/adaptive.rs:242-251 | under the partition, queue and pool sizes sum to n-1, and the pool is distinct customers 1..n-1 |
| Pool.PoolLargeEnough | src/solvers/adaptive.rs:136-149 | with the queue bounded by n/10 and n >= 6, at least five customers are free to remove |
| Pool.RemovalKeepsPool | src/solvers/adaptive.rs:210-240 | removing free customers detaches exactly them from a feasible solution, and the tabu update restores the partition |
| Pool.DetachedHasSlots | src/solvers/adaptive.rs:263-286 | each removed stop still fits its old route, so repair always has a feasible slot |
| Pool.RepairFeasible | src/solvers/adaptive.rs:253-261 | when reinsertion of all removed stops succeeds, the solution is feasible again with the same route count |
| Lns.TakeOut | src/solvers/adaptive.rs:227-238 | None exactly when no route serves the customer; otherwise the stop comes from the first route serving it |
| Lns.TakeOutAllFacts | src/solvers/adaptive.rs:227-238 | taking out distinct customers returns their stops in order, and the rest plus the stops is the old solution |
| Lns.TakeOutCustomers | src/solvers/adaptive.rs:227-238 | the removal loop computes the specified solution and the (stop, route) list |
| Lns.Slots | src/solvers/adaptive.rs:264-283 | every candidate slot is a position 0..=len of a route with room for the stop |
| Lns.SlotsComplete | src/solvers/adaptive.rs:264-283 | every position of every route with room is a candidate slot |
| Lns.SlotsOrdered | src/solvers/adaptive.rs:264-283 | slots are listed by route, then position |
| Lns.Cheapest | src/solvers/adaptive.rs:264-283 | None exactly when there is no slot; otherwise one of the slots |
| Lns.CheapestIsFirstMinimum | src/solvers/adaptive.rs:264-283 | the chosen slot has minimal cost increase and is the first slot reaching it (strict comparison) |
| Lns.Chosen | src/solvers/adaptive.rs:284-291 | None exactly when no slot exists; otherwise a candidate slot (the cheapest, or a random one with probability 0.02) |
| Lns.Reinserted | src/solvers/adaptive.rs:263-297 | Err exactly when no route has room; otherwise the stop goes into a route that had room and the route count is unchanged |
| Lns.SearchSlots | src/solvers/adaptive.rs:264-283 | the nested loop collects exactly the candidate slots and the first cheapest one |
| Lns.ReinsertInBestSpot | src/solvers/adaptive.rs:263-297 | on Err nothing changes; otherwise the solution and returned route are the specified reinsertion (the same code is src/solvers/multineighbor.rs:146-179) |
| Lns.ReinsertAllKeeps | src/solvers/adaptive.rs:253-261 | reinsertion keeps the route count and capacity, and on success adds every stop once and returns one route per stop |
| Lns.ReinsertAllFeasible | src/solvers/adaptive.rs:253-261 | when the stops complete the customers and all are placed, the result is feasible |
| Lns.ReinsertAll | src/solvers/adaptive.rs:253-261 | the loop that stops at the first Err computes the specified solution and route list, keeping earlier insertions |
| Lns.ByDemandOrder | src/solvers/multineighbor.rs:139 | the repair order is a permutation of the removed stops in non-increasing demand |
| Lns.PlacingPermuted | src/solvers/multineighbor.rs:138-139 | reordering the removed stops keeps them placeable |
| Lns.ReinsertByDemand | src/solvers/multineighbor.rs:133-144 | reinsertion in non-increasing demand order computes the specified result |
| Regret.Increases | src/solvers/adaptive.rs:318-326 | the cost increase of each candidate slot, in slot order |
| Regret.KeptAsWritten | src/solvers/adaptive.rs:316-330 | the code as written: the bounded heap keeps at most k costs |
| Regret.KeptAsWrittenDearest | src/solvers/adaptive.rs:327-329 | popping the heap's minimum keeps the k dearest costs, in ascending order |
| Regret.Kept | src/solvers/adaptive.rs:316-330 | corrected: the bounded heap keeps at most k costs |
| Regret.KeptCheapest | src/solvers/adaptive.rs:316-330 | the corrected heap keeps the k cheapest costs, in ascending order |
| Regret.RegretAsWritten | src/solvers/adaptive.rs:332-340 | the value of regret_k as written: non-negative when there are at least k costs, and with fewer the cheapest of them |
| Regret.KeptAsWrittenSorted | src/solvers/adaptive.rs:316-330 | the heap as written pops in ascending order, and while fewer than k costs were pushed it holds all of them |
| Regret.RegretAsWrittenGap | src/solvers/adaptive.rs:313-341 | as written, the result is the largest minus the second largest cost (or the single cost when fewer than k) |
| Regret.RegretGap | src/solvers/adaptive.rs:313-341 | corrected, the regret is the k-th cheapest minus the cheapest, non-negative, or the cheapest when fewer than k |
| Regret.RegretAsWrittenIsWrong | src/solvers/adaptive.rs:327-340 | on costs 1, 2, 10 the code returns 8 where the 2-regret is 1 |
| Regret.PushCost | src/solvers/adaptive.rs:318-330 | one push, and one pop of the cheapest when the heap holds more than k, keeps the heap equal to the as-written kept costs of the slots seen so far |
| Regret.RegretRoute | src/solvers/adaptive.rs:318-330 | scanning one route keeps the heap equal to the as-written kept costs of the slots seen so far |
| Regret.RegretK | src/solvers/adaptive.rs:313-341 | with at least one feasible slot and k >= 2, the result is the as-written value of regret_k on the feasible cost increases in loop order |
| Regret.TwoRegret | src/solvers/adaptive.rs:303-305 | with two or more feasible positions, a stop's key is the dearest feasible cost increase minus the second dearest, and never negative |
| Regret.ByRegret | src/solvers/adaptive.rs:299-306 | the repair order is a permutation of the removed stops, sorted by non-increasing two-regret |
| Regret.RegretsOf | src/solvers/adaptive.rs:301-305 | each removed stop is paired with its two-regret on the pre-insertion solution |
| Regret.KeyedOrder | src/solvers/adaptive.rs:301-306 | sorting the keyed stops gives the regret order, which stays placeable |
| Regret.RegretOrder | src/solvers/adaptive.rs:301-306 | the computed order is exactly the regret order |
| Regret.ReinsertTwoRegret | src/solvers/adaptive.rs:299-311 | reinsertion in regret order computes the specified result, keeping earlier insertions on Err |
| Adaptive.Smoothed | src/solvers/adaptive.rs:39-42 | the new weight lies between the old weight and the score, and stays positive when the rate is below 1 |
| Adaptive.SmoothedBetween | src/solvers/adaptive.rs:39-42 | a convex combination lies between its ends and is positive when the first end is |
| Adaptive.Convex | src/solvers/adaptive.rs:39-42 | a convex combination of a <= b lies in [a, b] |
| Adaptive.Operator.constructor | src/solvers/adaptive.rs:25-32 | a new operator has its id, score 0, weight 1 and usage 0 |
| Adaptive.Operator.UpdateScore | src/solvers/adaptive.rs:34-37 | the score grows by delta, usage by one, and the weight is unchanged |
| Adaptive.Operator.UpdateWeight | src/solvers/adaptive.rs:39-42 | the weight becomes the smoothed value, the score resets to 0, and usage is unchanged |
| Adaptive.Chance | src/solvers/adaptive.rs:87 | the selection probability is strictly between 0 and 1, and below one half exactly when the first weight is the smaller |
| Adaptive.ChanceFacts | src/solvers/adaptive.rs:87 | w0/(w0+w1) is in (0, 1), and below one half exactly when w0 < w1 |
| Adaptive.RepairChanceAsWritten | src/solvers/adaptive.rs:112 | the code as written: the repair probability mixes a repair weight with a destroy weight |
| Adaptive.RepairChanceAsWrittenIsWrong | src/solvers/adaptive.rs:112 | with equal repair weights and destroy weight 3, the coin gives 0.25 instead of 0.5, so coin 0.3 picks the wrong operator |
| Adaptive.ShawScore | src/solvers/adaptive.rs:184-191 | the relatedness score of the seed to itself is 0 |
| Adaptive.ShawSeed | src/solvers/adaptive.rs:177 | the seed is a customer in 1..n-1 |
| Adaptive.ShawPick | src/solvers/adaptive.rs:184-195 | exactly k customers are picked |
| Adaptive.ShawPickLeast | src/solvers/adaptive.rs:184-195 | the picks come from the candidates, are distinct and sorted by score, and none scores higher than a candidate left out |
| Adaptive.ShawRemoval | src/solvers/adaptive.rs:176-208 | corrected: the k picks are the least-scored free customers |
| Adaptive.ShawRemovalSplits | src/solvers/adaptive.rs:176-208 | the picks and the new pool together are exactly the old pool |
| Adaptive.ShawPicksAsWritten | src/solvers/adaptive.rs:184-195 | the code as written: picks k customers ranked over all customers 1..n-1 |
| Adaptive.ShawAsWrittenBreaksPartition | src/solvers/adaptive.rs:176-208 | as written, Shaw removal followed by update_tabu never leaves a partition of the customers |
| Adaptive.Removal | src/solvers/adaptive.rs:85-93 | the chosen destroy operator picks exactly five customers |
| Adaptive.RepairOrderPermutes | src/solvers/adaptive.rs:111-118 | either repair operator reinserts a permutation of the removed stops |
| Adaptive.FreePool | src/solvers/adaptive.rs:128-134 | the reset pool (empty queue, all customers free) is a partition |
| Adaptive.RepairOutcome | src/solvers/adaptive.rs:111-126 | repair keeps the route count, and success leaves a feasible solution |
| Adaptive.DestroyKeeps | src/solvers/adaptive.rs:85-105 | destroy followed by update_tabu detaches exactly five stops and restores the partition |
| Adaptive.RepairRoutes | src/solvers/adaptive.rs:111-118 | the chosen repair operator computes the specified reinsertion |
| Adaptive.ALNSSolver.constructor | src/solvers/adaptive.rs:66-79 | empty tabu queue, all customers free, fresh operators with initial values, last used ops 0; steady when the initial solution is feasible |
| Adaptive.ALNSSolver.RemoveNRandomStops | src/solvers/adaptive.rs:210-240 | the pool loses the drawn customers and the solution loses exactly their stops, returned with their routes |
| Adaptive.ALNSSolver.RemoveNShaw | src/solvers/adaptive.rs:176-208 | corrected: the pool loses the Shaw picks and the solution loses exactly their stops |
| Adaptive.ALNSSolver.Destroy | src/solvers/adaptive.rs:85-105 | records which operator the weighted coin chose and applies exactly that removal |
| Adaptive.ALNSSolver.UpdateTabu | src/solvers/adaptive.rs:136-149 | the queue and pool become the specified update, the queue is at most n/10 long, and the solution is unchanged |
| Adaptive.ALNSSolver.Repair | src/solvers/adaptive.rs:111-126 | records the coin's operator (corrected weights), computes the specified reinsertion, and succeeds exactly when it does; the pool is unchanged |
| Adaptive.ALNSSolver.JumpToSolution | src/solvers/adaptive.rs:128-134 | the current solution becomes the given one, the queue empties and all customers are free |
| Adaptive.ALNSSolver.UpdateScores | src/solvers/adaptive.rs:151-154 | only the last-used repair and destroy operators gain delta and one use |
| Adaptive.ALNSSolver.UpdateWeights | src/solvers/adaptive.rs:156-163 | all four operators are smoothed with rate 0.01 and their scores reset |
| Adaptive.ALNSSolver.DestroyAndQueue | src/solver.rs:241-242 | destroy then update_tabu detaches five stops, keeps the route count, and restores the bounded partition |
| Adaptive.ALNSSolver.FindNewSolution | src/solver.rs:239-252 | keeps the partition and route count, and on success the solution is feasible |
| MultiNeighbor.RandomRemovalKeeps | src/solvers/multineighbor.rs:89-114 | random removal then update_tabu detaches exactly the drawn customers and restores the partition |
| MultiNeighbor.ByDemandOutcome | src/solvers/multineighbor.rs:58-65 | demand-order repair keeps the route count, and success is feasible |
| MultiNeighbor.MultiLNSSolver.constructor | src/solvers/multineighbor.rs:25-34 | empty tabu queue and all customers free; steady when the initial solution is feasible |
| MultiNeighbor.MultiLNSSolver.RemoveNRandomStops | src/solvers/multineighbor.rs:89-114 | with n > 0, the pool loses the drawn customers and the solution loses exactly their stops |
| MultiNeighbor.MultiLNSSolver.Destroy | src/solvers/multineighbor.rs:40-52 | always random removal of five |
| MultiNeighbor.MultiLNSSolver.UpdateTabu | src/solvers/multineighbor.rs:73-85 | the specified queue and pool, queue at most n/10, solution unchanged |
| MultiNeighbor.MultiLNSSolver.Repair | src/solvers/multineighbor.rs:58-65 | reinsertion in demand order, success exactly when every stop is placed |
| MultiNeighbor.MultiLNSSolver.JumpToSolution | src/solvers/multineighbor.rs:67-71 | the current solution becomes the given one and the pool resets |
| MultiNeighbor.MultiLNSSolver.DestroyAndQueue | src/solver.rs:241-242 | detaches five stops and restores the bounded partition |
| MultiNeighbor.MultiLNSSolver.FindNewSolution | src/solver.rs:239-252 | keeps the partition and route count, and on success the solution is feasible |
| Jump.DropCount | src/jump.rs:41 | the number dropped is the floor of n times the fraction, and 0 for a non-positive fraction |
| Jump.Dropped | src/jump.rs:48-50 | every route keeps exactly its stops not dropped, in order |
| Jump.TruncatedPrefix | src/jump.rs:45-46 | the dropped customers are the first to_remove of the shuffled list |
| Jump.RemovedStops | src/jump.rs:52-56 | the dropped customers are re-created with their instance demand |
| Jump.DroppedCusts | src/jump.rs:48-50 | dropping removes exactly the dropped customers' occurrences |
| Jump.DroppedServed | src/jump.rs:48-50 | from a solution serving each customer once, the dropped customers are gone and the rest served once |
| Jump.ToAddFacts | src/jump.rs:52-56 | the stops to add are exactly the dropped customers, in non-increasing demand |
| Jump.BestFit | src/jump.rs:60-74 | placement keeps the number of routes |
| Jump.BestFitKeeps | src/jump.rs:60-74 | placement keeps capacity and adds each stop exactly once |
| Jump.JumpStart | src/jump.rs:41-58 | after dropping and permuting, the stops to add are placeable and together with the rest form the old customers |
| Jump.DroppedPermuted | src/jump.rs:48-58 | dropping and permuting keeps capacity and removes exactly the dropped customers |
| Jump.JumpFeasible | src/jump.rs:25-77 | on Ok the jumped solution is feasible with the same number of routes |
| Jump.PlaceBestFit | src/jump.rs:60-74 | the placement loop succeeds exactly when the specification does, and then equals it |
| Jump.PlaceStop | src/jump.rs:61-73 | one stop goes to the first route with room at its best index, or the placement fails |
| Jump.FirstWithRoom | src/jump.rs:61-68 | the route scan finds the first route with room |
| Jump.RandomDrop | src/jump.rs:25-77 | the routes are permuted and the result is Ok exactly when the jump specification succeeds, and then equals it |
| Jump.DropAndPermute | src/jump.rs:41-58 | the solution becomes the permuted dropped routes, and the stops to add are returned |
| Jump.JumpSpecIs | src/jump.rs:25-77 | the jump is best-fit placement of the dropped stops into the permuted routes |
| Jump.DropFromRoutes | src/jump.rs:48-50 | the retain loop leaves every route with exactly its stops not dropped |
| Jump.Attempts | src/jump.rs:17-21 | one jump outcome per attempt's shuffle and permutation |
| Jump.FirstJump | src/jump.rs:12-23 | None exactly when every one of the five drop attempts fails |
| Jump.FirstJumpFeasible | src/jump.rs:12-23 | the first successful attempt is feasible with the same route count |
| Jump.RandomJump | src/jump.rs:12-23 | returns the first successful attempt, as fresh objects, and None where the source panics |
| Jump.TryDrops | src/jump.rs:17-21 | the retry loop returns the first successful attempt |
| Jump.TryDrop | src/jump.rs:18-20 | one attempt on a fresh clone returns exactly the specified outcome |
| Swap.Improves | src/swap.rs:69-72 | a swap counts exactly when it lowers the two routes' cost by at least 0.01 |
| Swap.FirstSwapUnique | src/swap.rs:48-88 | there is at most one first improving swap |
| Swap.EarlierPairRejected | src/swap.rs:48-88 | no route pair scanned earlier has a candidate |
| Swap.EarlierStopsRejected | src/swap.rs:48-88 | no earlier stop pair of the chosen route pair is a candidate |
| Swap.NoSwapIff | src/swap.rs:104-106 | None exactly when no pair of stops in distinct routes is a candidate |
| Swap.ExchangeFeasible | src/swap.rs:90-103 | a candidate exchange keeps feasibility and lowers the total cost by at least 0.01 |
| Swap.ExchangeCapacity | src/swap.rs:57-64 | a candidate exchange keeps both routes within capacity |
| Swap.ExchangeCost | src/swap.rs:66-68 | the exchange changes the total by the two cost_if_cust_no_was predictions minus the two old costs |
| Swap.FirstSwapImproves | src/swap.rs:38-109 | the first swap keeps feasibility and the customers, and lowers the cost by at least 0.01 |
| Swap.SearchPair | src/swap.rs:53-86 | the inner loops find the first candidate of a route pair, or report that none exists |
| Swap.FoundIsFirst | src/swap.rs:48-88 | a candidate found after clear earlier pairs is the first swap |
| Swap.FindSwap | src/swap.rs:48-88 | the search returns the first swap, or None exactly when there is none |
| Swap.NaiveGreedy | src/swap.rs:38-109 | the routes are permuted, then the first improving swap is applied, or nothing when none exists |
| Swap.SwapFirst | src/swap.rs:48-106 | finds and applies the first swap on the given routes |
| Swap.ApplySwap | src/swap.rs:90-103 | route a holds b's stop at a's index and route b holds a's stop at b's index, with nothing else changed |
| Swap.RemovalsThenInsertions | src/swap.rs:99-103 | the two removals and two insertions amount to the exchange |
| Solver.SolveStats.constructor | src/solver.rs:80-89 | no iterations, improvements or restarts recorded |
| Solver.SolveStats.UpdateOnIter | src/solver.rs:91-101 | counts the iteration and records (iter, cost) exactly when the improvement exceeds 0.01 |
| Solver.SolveStats.OnRestart | src/solver.rs:103-105 | records the restart iteration and nothing else |
| Solver.Observe | src/solver.rs:160-189 | the best costs only fall, each by taking the candidate that beats it by more than 0.1; the counter resets exactly on a 0.1 improvement over the last cost and otherwise grows by one |
| Solver.Reverts | src/solver.rs:173-184 | a candidate is undone exactly when Observe counts it as stagnant and the 0.9 coin comes up |
| Solver.RevertsOnlyStagnant | src/solver.rs:173-184 | a revert happens only on a non-improving candidate, and an improving one is never reverted |
| Solver.Restarted | src/solver.rs:192-207 | a restart resets the counter and sets the best-since-jump cost, leaving the best cost alone |
| Solver.StagnationBounded | src/solver.rs:173-194 | the counter never exceeds patience after a possible restart |
| Solver.Build | src/solver.rs:153 | a fresh valid solution with fresh routes holding the given contents |
| Solver.Find | src/solver.rs:146 | find_new_solution keeps the solver valid, and steady on success |
| Solver.JumpTo | src/solver.rs:150 | the solver is steady again and holds the saved solution |
| Solver.Switch | src/solver.rs:207 | the solver takes over a jumped solution and is steady |
| Solver.Jumped | src/solver.rs:196-202 | the jumper's result is the first successful attempt, feasible with the same route count |
| Solver.Adopt | src/solver.rs:205-207 | the solver holds the jumped solution and its cost is returned |
| Solver.Restart | src/solver.rs:191-208 | a restart succeeds exactly when the jump does, and then the solver holds the feasible jumped solution with its cost |
| Solver.Candidate | src/solver.rs:143-155 | on failure the solver holds the saved solution; on success a feasible candidate and its cost |
| Solver.Recorded | src/solver.rs:160-189 | the books stay sound, and best and best_for_jump take the candidate exactly when their costs fell |
| Solver.Iterate | src/solver.rs:143-208 | one iteration (Iteration): without a candidate the books and the solution are unchanged; with one the books follow Observe, the solver is back on the old solution exactly when the candidate Reverts, and past the patience the jumper restarts from the best since the last jump on the 0.2 coin and from the best otherwise, its result becoming the solution and the best since the jump with the count reset; the books stay sound, the best cost never rises and the count stays within patience |
| Solver.Tally | src/solver.rs:156-158 | with a candidate, the iteration is counted, its cost is recorded exactly when it beats the best cost by more than 0.01, and a restart is recorded exactly when there was one; without a candidate nothing changes |
| Solver.Step | src/solver.rs:142-208 | one iteration moves the books and the solution as Iteration says, and with books left the statistics grow by that iteration, its improvement and its restart as in Tally |
| Solver.ApartIndices | src/solver.rs:133-134 | separate solutions share no route object |
| Solver.Settled | src/solvers/adaptive.rs:128-134 | a feasible solution with a reset pool is a steady solver |
| Driver.Start | src/solver.rs:114-116 | a fresh solver holding the initial solution, steady |
| Driver.Loop | src/solver.rs:135-209 | the books stay sound and the best cost never rises |
| Driver.Run | src/solver.rs:114-209 | the returned best solution is feasible, has the initial route count, and costs at most the initial solution |
| Driver.Solve | src/solver.rs:113-221 | solve returns a fresh, valid, feasible solution with the initial route count, costing at most the initial solution (None is the random_jump panic) |
| VrpInstance.CustomerDemandsAscending | src/vrp_instance.rs:104-106 | the customer demands without the depot's, in ascending order |
| VrpInstance.MaxRouteLen | src/vrp_instance.rs:103-119 | at most n-1, 0 for capacity 0, counted while the running total of the smallest demands is below capacity |
| VrpInstance.CountBelow | src/vrp_instance.rs:108-118 | the count loop stops at the first prefix whose sum reaches capacity |
| VrpInstance.PrefixSumMonotone | src/vrp_instance.rs:110-116 | prefix sums of demands never decrease |
| VrpInstance.MaxRouteLenMeaning | src/vrp_instance.rs:103-119 | the count-1 smallest demands sum to less than capacity, and when the count is below n-1 every prefix of at least count smallest demands reaches capacity |
| CheckSol.ParseFrom | check_sol.rs:40-54 | parsing only adds customers and routes, and recorded routes are never empty |
| CheckSol.ParseSound | check_sol.rs:40-54 | a parsed result records only non-empty routes of seen customers |
| CheckSol.ParsePrinted | check_sol.rs:45-53 | non-depot tokens extend the open route and the seen set |
| CheckSol.RoundTrip | check_sol.rs:40-54 | parsing to_string yields exactly the non-empty routes in order, and every visited customer |
| CheckSol.VisitedServed | check_sol.rs:55-59 | a customer is seen exactly when some route serves it |
| CheckSol.FirstMissing | check_sol.rs:55-59 | the first unseen customer, None exactly when all are seen |
| CheckSol.FirstUnknown | check_sol.rs:61-66 | a customer number on the route that has no demand entry, None exactly when every one has |
| CheckSol.CheckRoutesPasses | check_sol.rs:61-66 | the route check passes exactly when every route is within capacity |
| CheckSol.CheckPasses | check_sol.rs:19-84 | the checker passes exactly when the text parses, every customer is seen, and every route fits |
| CheckSol.FeasiblePasses | check_sol.rs:19-84 | the printed text of every feasible solution passes the checker |
| CheckSol.CheckSolution | check_sol.rs:40-66 | the checking loops compute exactly the specified verdict |
| CheckSol.CheckCapacities | check_sol.rs:61-66 | the capacity loop computes the specified verdict |

## Left out

- Wall-clock termination (`TimeElapsed`), timing and printing in `solve` are not modelled. Only `MaxIters` termination is.
- The solver statistics' frequency maps (`cust_change_freq`, `route_remove_freq`, `route_add_freq`) are telemetry and are not kept. The route indices that repair returns for them are computed but not recorded.
- `dbg_println!`, Debug formatting and the `#[cfg(debug_assertions)]` sanity checks are not part of the model. The sanity checks are modelled as checking methods (`TabuSane`, `AssertSanity`) and as class invariants instead.
- Randomness (`rng()`, `shuffle`, `random_range`, `random_bool`) becomes parameters.
  - A coin is a real in `[0, 1)` that succeeds when it is below the probability.
  - A range draw is an arbitrary natural reduced modulo the range size.
  - A shuffle is a given permutation.
- Floating point is modelled as exact reals:
  - the distance matrix is an input with a zero diagonal, and its `sqrt` construction is not modelled;
  - the `atan2` polar angles are an input;
  - the Normal(1, 1) noise on the savings is replaced by taking the savings order as an input;
  - the drop-count truncation is exact;
  - rounding error in cost sums is not modelled.
- Common.Route.AssertSanity keeps the 0.5 cost tolerance. The route invariant itself uses exact equality, which is stronger than the source's check.
- Common.VRPSolution.CloneFrom copies values. The in-place reuse of the target's allocations and the Vec capacity assertion at src/common.rs:99 are not modelled. `VRPSolution::clone` is modelled by `Clone`.
- Common.VRPSolution.IsValidSolution returns false where the source panics with an assertion.
- `VRPSolution::distance` and `make_vector` (src/common.rs:212-254) are a debug metric that ends in `sqrt`, and are not modelled.
- `cost_at_index` (src/common.rs:529-553) and `construct::cheapest_insertion` are dead code, and are not modelled.
- Construct.Greedy returns None where greedy panics because a customer fits nowhere.
- Construct.ClarkeWright requires at least two locations, because `(n - 1) * (n - 2)` underflows when n is 1.
- Construct.Sweep requires the rotation offset to be a valid index (`offset < n - 1`). That is how the random rotation is drawn.
- Jump.RandomJump returns None where `random_jump` panics after five failed attempts. Driver.Solve passes that None on.
- Jump.RandomDrop requires fewer than 65536 customers, because customer numbers are converted to `u16` with `unwrap`.
- Jump.DropCount takes the product `n * frac` exactly, without f64 rounding.
- Regret.RegretK requires at least one feasible slot, because the source unwraps an empty heap and panics there. It also requires k >= 2. The only caller passes 2, and with k = 1 the second `peek` unwraps an empty heap.
- Adaptive.DestroyKeeps: the partition it restores is proved for the corrected Shaw removal (the first Findings row), because Shaw removal as written breaks the tabu partition (Adaptive.ShawAsWrittenBreaksPartition).
- Adaptive.ALNSSolver.DestroyAndQueue uses the corrected Shaw removal (the first Findings row), because Shaw removal as written breaks the tabu partition (Adaptive.ShawAsWrittenBreaksPartition).
- Adaptive.ALNSSolver.FindNewSolution uses the corrected Shaw removal and the corrected repair coin (the first two Findings rows), because Shaw removal as written breaks the tabu partition (Adaptive.ShawAsWrittenBreaksPartition). The as-written coin is stated by Adaptive.RepairChanceAsWrittenIsWrong.
- Solver.Find keeps the solver steady only with the corrected operators of Adaptive.ALNSSolver.FindNewSolution.
- Driver.Solve runs the solve loop with the corrected Shaw removal and the corrected repair coin. The savings merge and the two-regret value are as written.
- Text.ParseNat accepts digit strings of any length. The source's `usize` parse fails on overflow, and that failure is not modelled.
- Common.VRPSolution.ToFileString takes the f64 `Display` formatting of the cost as the parameter `show`. Only the cost word's being `show` of the total cost is stated.
- The solver loop requires at least 6 customers. That ensures five free customers exist to remove under the tabu bound n/10.
- `update_scores` and `update_weights` are modelled but are never called by `solve`. They are not part of the `LNSSolver` interface either, so the operator weights never change during a solve, as in the source.
- Solver.Tally updates the statistics after the iteration's bookkeeping. The source does it between the copy and the best-solution updates. Both orders give the same counters, because nothing in between reads them.
- The saved solutions of `solve` (best, best_for_jump, old and new) are held as values. A fresh solution object is built when the solver or the jumper needs one, with route ids 0..m-1. Route ids are not read by any modelled operation.
- `stagnant_iterations` is converted with `f64::from`, which implies a `u32`. Its wrap-around is not modelled, and the counter is an unbounded natural that never exceeds patience + 1.
- Driver.Solve is instantiated with the adaptive solver, as the program's entry point uses it. The initial solution is a parameter, and the constructor is run by the caller.
- File reading, instance parsing, JSON handling in check_sol.rs and its Euclidean distance check (check_sol.rs:68-79) are not modelled. The checker starts from the solution text.
- src/main.rs, src/solvers/mod.rs, the nested src/rust prototype and the Python baselines are not part of this model.
- Stop equality (src/common.rs:1-5) is the predicate `Tours.SameStop`: stops are equal when their customer numbers are.

## Findings

The model follows the program as written for the third and fourth rows.
- The savings loop and the cascade use Construct.SavingStep.
- Two-regret reinsertion uses Regret.RegretK.

Their invariants (feasibility, the partition of customers, the route count) hold either way. The corrected member beside each states the intended property. The solve loop uses the corrected member for the first two rows, as the Left out section says. No modelled caller uses `speculative_replace_stop`. The swap uses `cost_if_cust_no_was`.

| source | as written | input that shows it | evidently intended | confidence | as-written member | corrected member |
|---|---|---|---|---|---|---|
| src/solvers/adaptive.rs:184-195 | Shaw removal ranks and removes customers from all of 1..n-1 without consulting the tabu pool, and update_tabu then pushes them onto the tabu queue while they also stay in the free pool | any feasible solution with a valid tabu partition and n >= 6: afterwards the removed customers are counted twice, so no partition holds | rank and remove only free customers, taking them out of the free pool as random removal does | not executed | Adaptive.ShawAsWrittenBreaksPartition | Adaptive.ShawRemovalSplits |
| src/solvers/adaptive.rs:112 | the repair coin is repair_ops[0].weight / (repair_ops[0].weight + destroy_ops[1].weight) | repair weights 1 and 1 with destroy weight 3 give probability 0.25 instead of 0.5, and coin 0.3 picks operator 1 | repair_ops[0].weight / (repair_ops[0].weight + repair_ops[1].weight) | not executed | Adaptive.RepairChanceAsWrittenIsWrong | Adaptive.ChanceFacts |
| src/solvers/adaptive.rs:327-340 | the size-bounded BinaryHeap of costs pops its maximum-priority element, which is the cheapest, so it keeps the k dearest costs and returns the largest minus the second largest | costs 1, 2, 10 with k = 2 give 8 | keep the k cheapest and return the k-th cheapest minus the cheapest (1 here) | not executed | Regret.RegretAsWrittenIsWrong | Regret.RegretGap |
| src/construct.rs:171-183, 186-205 | the merged route is always the higher-indexed route followed by the lower-indexed one, so when the route ending in i has the lower index, the saving edge i→j is not created | on a unit grid with routes [1] and [3, 2], the saving 2 for (1, 3) leaves the cost at 8 | join the route ending in i before the route starting with j, which gives 6 and saves exactly the saving | not executed | Construct.SavingStepMissesSaving | Construct.SavingStepSaves |
| src/common.rs:390-394 | speculative_replace_stop takes `after` from stops[index] (the stop being replaced) rather than the following stop | route 0→1→2→0 with unit distances, replacing 1 by 3: predicted 4, real 3 | use stops[index + 1], or the depot at the end | not executed | Common.ReplaceStopAsWrittenIsWrong | Common.Route.SpeculativeReplaceStop |
