/** `src/swap.rs`: `single_swap::naive_greedy`, the local search move that
    exchanges one stop of a route with one stop of an earlier route (in the
    shuffled route order) when that lowers the cost of the two routes by at
    least 0.01, taking the first such exchange in loop order. */
module Swap {
  import opened Prelude
  import opened VrpInstance
  import opened Tours
  import opened Views
  import opened Common

  /** `SwapResult`: stop `aStop` was at `aIndex` of route `aRoute`, stop
      `bStop` at `bIndex` of route `bRoute`; they have traded places. */
  datatype SwapResult = SwapResult(aRoute: nat, aIndex: nat, aStop: Stop, bRoute: nat, bIndex: nat, bStop: Stop)

  /** Gains smaller than this are treated as rounding noise and skipped. */
  const MIN_GAIN: real := 0.01

  function Abs(x: real): (r: real)
    ensures r >= 0.0 && (r == x || r == -x)
  {
    if x < 0.0 then -x else x
  }

  /** `new_cost < initial_cost` and not `(initial_cost - new_cost).abs() < 0.01`:
      the new cost is lower by at least the minimum gain. */
  predicate Improves(initial: real, next: real)
    ensures Improves(initial, next) <==> initial - next >= MIN_GAIN
  {
    next < initial && !(Abs(initial - next) < MIN_GAIN)
  }

  /** The view after the exchange: route ar holds route br's stop at ai,
      route br holds route ar's stop at bi, every other route is as it was. */
  function Exchanged(v: seq<seq<Stop>>, ar: nat, ai: nat, br: nat, bi: nat): (w: seq<seq<Stop>>)
    requires ar < |v| && br < |v| && ar != br && ai < |v[ar]| && bi < |v[br]|
  {
    v[ar := v[ar][ai := v[br][bi]]][br := v[br][bi := v[ar][ai]]]
  }

  /** What the innermost loop body accepts: route ar comes after route br,
      both indices are stops, both routes stay within capacity after the
      exchange, and the two routes' cost drops by at least the minimum gain.
      The load tests subtract before adding, as the source does; a stop's
      demand never exceeds its route's load, so nothing underflows. */
  predicate Candidate(inst: Instance, v: seq<seq<Stop>>, ar: nat, br: nat, ai: nat, bi: nat)
    requires inst.Valid() && WellFormed(inst, v)
  {
    br < ar < |v| && ai < |v[ar]| && bi < |v[br]|
    && var a, b := v[ar][ai], v[br][bi];
       SumCap(v[ar]) - a.capacity + b.capacity <= inst.vehicleCapacity
       && SumCap(v[br]) - b.capacity + a.capacity <= inst.vehicleCapacity
       && Improves(RouteCost(inst, v[ar]) + RouteCost(inst, v[br]),
                   RouteCost(inst, v[ar][ai := b]) + RouteCost(inst, v[br][bi := a]))
  }

  /** No exchange between route ar and route br is a candidate. */
  ghost predicate PairNone(inst: Instance, v: seq<seq<Stop>>, ar: nat, br: nat)
    requires inst.Valid() && WellFormed(inst, v)
  {
    forall i: nat, j: nat :: !Candidate(inst, v, ar, br, i, j)
  }

  /** No exchange between routes ar and br at stop indices before (ai, bi),
      in the order the two inner loops visit them, is a candidate. */
  ghost predicate PairClear(inst: Instance, v: seq<seq<Stop>>, ar: nat, br: nat, ai: nat, bi: nat)
    requires inst.Valid() && WellFormed(inst, v)
  {
    forall i: nat, j: nat :: (i < ai || (i == ai && j < bi)) ==> !Candidate(inst, v, ar, br, i, j)
  }

  /** No route pair before (ar, br), in the order the two outer loops visit
      them, has a candidate. */
  ghost predicate RoutesClear(inst: Instance, v: seq<seq<Stop>>, ar: nat, br: nat)
    requires inst.Valid() && WellFormed(inst, v)
  {
    forall p: nat, q: nat :: (p < ar || (p == ar && q < br)) ==> PairNone(inst, v, p, q)
  }

  /** No exchange at all qualifies. */
  ghost predicate NoSwap(inst: Instance, v: seq<seq<Stop>>)
    requires inst.Valid() && WellFormed(inst, v)
  {
    forall p: nat, q: nat :: PairNone(inst, v, p, q)
  }

  /** The exchange `break 'full_loop` stops at: a candidate, with the stops
      it names, and every exchange the loops visit earlier rejected. */
  ghost predicate IsFirstSwap(inst: Instance, v: seq<seq<Stop>>, s: SwapResult)
    requires inst.Valid() && WellFormed(inst, v)
  {
    Candidate(inst, v, s.aRoute, s.bRoute, s.aIndex, s.bIndex)
    && s.aStop == v[s.aRoute][s.aIndex] && s.bStop == v[s.bRoute][s.bIndex]
    && RoutesClear(inst, v, s.aRoute, s.bRoute)
    && PairClear(inst, v, s.aRoute, s.bRoute, s.aIndex, s.bIndex)
  }

  /** At most one exchange is the first one. */
  lemma FirstSwapUnique(inst: Instance, v: seq<seq<Stop>>, s: SwapResult, t: SwapResult)
    requires inst.Valid() && WellFormed(inst, v)
    requires IsFirstSwap(inst, v, s) && IsFirstSwap(inst, v, t)
    ensures s == t
  {
    if s.aRoute < t.aRoute || (s.aRoute == t.aRoute && s.bRoute < t.bRoute) {
      EarlierPairRejected(inst, v, t.aRoute, t.bRoute, s.aRoute, s.bRoute, s.aIndex, s.bIndex);
      assert false;
    } else if t.aRoute < s.aRoute || (s.aRoute == t.aRoute && t.bRoute < s.bRoute) {
      EarlierPairRejected(inst, v, s.aRoute, s.bRoute, t.aRoute, t.bRoute, t.aIndex, t.bIndex);
      assert false;
    } else if s.aIndex < t.aIndex || (s.aIndex == t.aIndex && s.bIndex < t.bIndex) {
      EarlierStopsRejected(inst, v, t.aRoute, t.bRoute, t.aIndex, t.bIndex, s.aIndex, s.bIndex);
      assert false;
    } else if t.aIndex < s.aIndex || (s.aIndex == t.aIndex && t.bIndex < s.bIndex) {
      EarlierStopsRejected(inst, v, s.aRoute, s.bRoute, s.aIndex, s.bIndex, t.aIndex, t.bIndex);
      assert false;
    }
  }

  lemma EarlierPairRejected(inst: Instance, v: seq<seq<Stop>>, ar: nat, br: nat, p: nat, q: nat, i: nat, j: nat)
    requires inst.Valid() && WellFormed(inst, v)
    requires RoutesClear(inst, v, ar, br) && (p < ar || (p == ar && q < br))
    ensures !Candidate(inst, v, p, q, i, j)
  {
    assert PairNone(inst, v, p, q);
  }

  lemma EarlierStopsRejected(inst: Instance, v: seq<seq<Stop>>, ar: nat, br: nat, ai: nat, bi: nat, i: nat, j: nat)
    requires inst.Valid() && WellFormed(inst, v)
    requires PairClear(inst, v, ar, br, ai, bi) && (i < ai || (i == ai && j < bi))
    ensures !Candidate(inst, v, ar, br, i, j)
  {
  }

  /** The first exchange exists exactly when some exchange qualifies. */
  lemma NoSwapIff(inst: Instance, v: seq<seq<Stop>>, s: SwapResult)
    requires inst.Valid() && WellFormed(inst, v)
    ensures NoSwap(inst, v) ==> !IsFirstSwap(inst, v, s)
    ensures NoSwap(inst, v) <==> forall p: nat, q: nat, i: nat, j: nat :: !Candidate(inst, v, p, q, i, j)
  {
    if NoSwap(inst, v) {
      assert PairNone(inst, v, s.aRoute, s.bRoute);
      forall p: nat, q: nat, i: nat, j: nat ensures !Candidate(inst, v, p, q, i, j) {
        assert PairNone(inst, v, p, q);
      }
    }
  }

  /** Replacing a stop by one of a customer not yet on the route keeps the
      stop list well formed, and trades the old customer for the new one. */
  lemma ReplaceStopFacts(inst: Instance, s: seq<Stop>, i: nat, x: Stop)
    requires inst.Valid() && StopsInRange(inst, s) && NoDupCusts(s) && i < |s|
    requires x.custNo < inst.numCustomers && x.custNo !in CustNos(s)
    ensures StopsInRange(inst, s[i := x]) && NoDupCusts(s[i := x])
    ensures multiset(CustNos(s[i := x])) + multiset{s[i].custNo} == multiset(CustNos(s)) + multiset{x.custNo}
  {
    var r := s[i := x];
    forall a, b | 0 <= a < b < |r| ensures CustNos(r)[a] != CustNos(r)[b] {
      if a == i {
        assert CustNos(s)[b] == r[b].custNo;
      } else if b == i {
        assert CustNos(s)[a] == r[a].custNo;
      } else {
        assert CustNos(s)[a] == r[a].custNo && CustNos(s)[b] == r[b].custNo;
      }
    }
    assert CustNos(r) == CustNos(s)[i := x.custNo];
  }

  /** The customers of the two exchanged stops are on no other route, so
      both new stop lists are well formed and the served customers are the
      same multiset. */
  lemma ExchangeCusts(inst: Instance, v: seq<seq<Stop>>, ar: nat, ai: nat, br: nat, bi: nat)
    requires inst.Valid() && WellFormed(inst, v) && NoRepeats(v)
    requires ar < |v| && br < |v| && ar != br && ai < |v[ar]| && bi < |v[br]|
    ensures WellFormed(inst, Exchanged(v, ar, ai, br, bi))
    ensures AllCusts(Exchanged(v, ar, ai, br, bi)) == AllCusts(v)
  {
    var a, b := v[ar][ai], v[br][bi];
    assert a.custNo in CustNos(v[ar]) by { assert CustNos(v[ar])[ai] == a.custNo; }
    assert b.custNo in CustNos(v[br]) by { assert CustNos(v[br])[bi] == b.custNo; }
    NoRepeatsDisjoint(v, br, ar, b.custNo);
    NoRepeatsDisjoint(v, ar, br, a.custNo);
    var sa, sb := v[ar][ai := b], v[br][bi := a];
    ReplaceStopFacts(inst, v[ar], ai, b);
    ReplaceStopFacts(inst, v[br], bi, a);
    var w1 := v[ar := sa];
    var w := w1[br := sb];
    assert w == Exchanged(v, ar, ai, br, bi);
    AllCustsUpdate(v, ar, sa);
    assert w1[br] == v[br];
    AllCustsUpdate(w1, br, sb);
    var ma, mb := multiset{a.custNo}, multiset{b.custNo};
    MultisetTrade(AllCusts(w1), AllCusts(v), multiset(CustNos(v[ar])), multiset(CustNos(sa)), ma, mb);
    MultisetTrade(AllCusts(w), AllCusts(w1), multiset(CustNos(v[br])), multiset(CustNos(sb)), mb, ma);
    MultisetCancel(AllCusts(w), AllCusts(v), mb);
  }

  /** Multiset bookkeeping: trading p for q on the one side and q for p on
      the other cancels out. */
  lemma MultisetTrade(x: multiset<nat>, y: multiset<nat>, p: multiset<nat>, q: multiset<nat>,
                      ma: multiset<nat>, mb: multiset<nat>)
    requires x + p == y + q && q + ma == p + mb
    ensures x + ma == y + mb
  {
    forall c ensures (x + ma)[c] == (y + mb)[c] {
      assert (x + p)[c] == (y + q)[c] && (q + ma)[c] == (p + mb)[c];
    }
  }

  /** An accepted exchange keeps both routes within capacity and every
      stop's demand, so a feasible solution stays feasible, and the total
      cost drops by exactly the two-route gain the search computed. */
  lemma ExchangeFeasible(inst: Instance, v: seq<seq<Stop>>, ar: nat, ai: nat, br: nat, bi: nat)
    requires Feasible(inst, v) && Candidate(inst, v, ar, br, ai, bi)
    ensures Feasible(inst, Exchanged(v, ar, ai, br, bi))
    ensures |Exchanged(v, ar, ai, br, bi)| == |v|
    ensures TotalCost(inst, Exchanged(v, ar, ai, br, bi))
            == TotalCost(inst, v) - (RouteCost(inst, v[ar]) + RouteCost(inst, v[br]))
               + (RouteCost(inst, v[ar][ai := v[br][bi]]) + RouteCost(inst, v[br][bi := v[ar][ai]]))
    ensures TotalCost(inst, Exchanged(v, ar, ai, br, bi)) <= TotalCost(inst, v) - MIN_GAIN
  {
    ExactlyOnceNoRepeats(inst, v);
    ExchangeCusts(inst, v, ar, ai, br, bi);
    ExchangeCapacity(inst, v, ar, ai, br, bi);
    ExchangeDemands(inst, v, ar, ai, br, bi);
    ExchangeCost(inst, v, ar, ai, br, bi);
  }

  /** An exchange that passes both load tests leaves every route within capacity. */
  lemma ExchangeCapacity(inst: Instance, v: seq<seq<Stop>>, ar: nat, ai: nat, br: nat, bi: nat)
    requires inst.Valid() && WellFormed(inst, v) && WithinCapacity(inst, v)
    requires Candidate(inst, v, ar, br, ai, bi)
    ensures WithinCapacity(inst, Exchanged(v, ar, ai, br, bi))
  {
    SumCapReplace(v[ar], ai, v[br][bi]);
    SumCapReplace(v[br], bi, v[ar][ai]);
  }

  /** The exchanged stops keep their demands, so demands still match the instance. */
  lemma ExchangeDemands(inst: Instance, v: seq<seq<Stop>>, ar: nat, ai: nat, br: nat, bi: nat)
    requires inst.Valid() && WellFormed(inst, v) && DemandsMatch(inst, v)
    requires ar < |v| && br < |v| && ar != br && ai < |v[ar]| && bi < |v[br]|
    requires WellFormed(inst, Exchanged(v, ar, ai, br, bi))
    ensures DemandsMatch(inst, Exchanged(v, ar, ai, br, bi))
  {
    var w: seq<seq<Stop>> := Exchanged(v, ar, ai, br, bi);
    forall r: int, k: int | 0 <= r < |w| && 0 <= k < |w[r]| ensures w[r][k].capacity == inst.demand[w[r][k].custNo] {
      if r == ar && k == ai {
        assert w[r][k] == v[br][bi];
      } else if r == br && k == bi {
        assert w[r][k] == v[ar][ai];
      } else {
        assert w[r][k] == v[r][k];
      }
    }
  }

  /** The total cost changes by the change of the two routes' costs. */
  lemma ExchangeCost(inst: Instance, v: seq<seq<Stop>>, ar: nat, ai: nat, br: nat, bi: nat)
    requires inst.Valid() && WellFormed(inst, v)
    requires ar < |v| && br < |v| && ar != br && ai < |v[ar]| && bi < |v[br]|
    requires WellFormed(inst, Exchanged(v, ar, ai, br, bi))
    ensures TotalCost(inst, Exchanged(v, ar, ai, br, bi))
            == TotalCost(inst, v) - (RouteCost(inst, v[ar]) + RouteCost(inst, v[br]))
               + (RouteCost(inst, v[ar][ai := v[br][bi]]) + RouteCost(inst, v[br][bi := v[ar][ai]]))
  {
    var w := Exchanged(v, ar, ai, br, bi);
    var sa, sb := v[ar][ai := v[br][bi]], v[br][bi := v[ar][ai]];
    assert w[ar] == sa && w[br] == sb;
    TotalCostUpdate(inst, v, ar, sa);
    var w1 := v[ar := sa];
    assert w1[br] == v[br] && w == w1[br := sb];
    TotalCostUpdate(inst, w1, br, sb);
  }

  /** The first exchange, applied to a feasible solution, gives a feasible
      solution with as many routes, at least the minimum gain cheaper. */
  lemma FirstSwapImproves(inst: Instance, v: seq<seq<Stop>>, s: SwapResult)
    requires Feasible(inst, v) && IsFirstSwap(inst, v, s)
    ensures s.aRoute != s.bRoute && s.aRoute < |v| && s.bRoute < |v|
    ensures s.aIndex < |v[s.aRoute]| && s.bIndex < |v[s.bRoute]|
    ensures var w := Exchanged(v, s.aRoute, s.aIndex, s.bRoute, s.bIndex);
            Feasible(inst, w) && |w| == |v| && AllCusts(w) == AllCusts(v)
            && TotalCost(inst, w) <= TotalCost(inst, v) - MIN_GAIN
  {
    ExchangeFeasible(inst, v, s.aRoute, s.aIndex, s.bRoute, s.bIndex);
    ExactlyOnceNoRepeats(inst, v);
    ExchangeCusts(inst, v, s.aRoute, s.aIndex, s.bRoute, s.bIndex);
  }

  /** Putting a stop back where one was taken out replaces it. */
  lemma InsertRemoveAt<T>(s: seq<T>, i: nat, x: T)
    requires i < |s|
    ensures Insert(RemoveAt(s, i), i, x) == s[i := x]
  {
  }

  /** Shuffling the routes keeps the served customers. */
  lemma PermuteNoRepeats(v: seq<seq<Stop>>, perm: seq<nat>)
    requires NoRepeats(v) && IsPermutation(perm, |v|)
    ensures forall k :: 0 <= k < |perm| ==> perm[k] < |v|
    ensures AllCusts(Permute(v, perm)) == AllCusts(v) && NoRepeats(Permute(v, perm))
  {
    PermuteMultiset(v, perm);
    AllCustsMultiset(Permute(v, perm), v);
  }

  /** The two inner loops over the stops of route ar (ra) and route br (rb):
      the first candidate in their order, or None when the pair has none. */
  method SearchPair(inst: Instance, ra: Route, rb: Route, ghost v: seq<seq<Stop>>, ar: nat, br: nat)
    returns (swap: Option<SwapResult>)
    requires inst.Valid() && WellFormed(inst, v) && br < ar < |v|
    requires ra.Valid() && rb.Valid() && ra.inst == inst && rb.inst == inst
    requires ra.stops == v[ar] && rb.stops == v[br]
    ensures swap.None? ==> PairNone(inst, v, ar, br)
    ensures swap.Some? ==> swap.value.aRoute == ar && swap.value.bRoute == br
                           && Candidate(inst, v, ar, br, swap.value.aIndex, swap.value.bIndex)
                           && swap.value.aStop == v[ar][swap.value.aIndex]
                           && swap.value.bStop == v[br][swap.value.bIndex]
                           && PairClear(inst, v, ar, br, swap.value.aIndex, swap.value.bIndex)
  {
    var initialCost := ra.cost + rb.cost;
    var ai := 0;
    while ai < |ra.stops|
      invariant ai <= |ra.stops|
      invariant PairClear(inst, v, ar, br, ai, 0)
    {
      var a := ra.stops[ai];
      var bi := 0;
      while bi < |rb.stops|
        invariant bi <= |rb.stops|
        invariant PairClear(inst, v, ar, br, ai, bi)
      {
        var b := rb.stops[bi];
        var aUnderCap := ra.usedCap - a.capacity + b.capacity <= inst.vehicleCapacity;
        var bUnderCap := rb.usedCap - b.capacity + a.capacity <= inst.vehicleCapacity;
        if aUnderCap && bUnderCap {
          var newCost := ra.CostIfCustNoWas(b, ai) + rb.CostIfCustNoWas(a, bi);
          if newCost < initialCost && !(Abs(initialCost - newCost) < MIN_GAIN) {
            return Some(SwapResult(ar, ai, a, br, bi, b));
          }
        }
        bi := bi + 1;
      }
      forall i: nat, j: nat | i < ai + 1 || (i == ai + 1 && j < 0) ensures !Candidate(inst, v, ar, br, i, j) {
      }
      ai := ai + 1;
    }
    return None;
  }

  /** An exchange SearchPair finds while every earlier pair of routes is
      clear is the first one the loops reach. */
  lemma FoundIsFirst(inst: Instance, v: seq<seq<Stop>>, ar: nat, br: nat, s: SwapResult)
    requires inst.Valid() && WellFormed(inst, v)
    requires RoutesClear(inst, v, ar, br) && s.aRoute == ar && s.bRoute == br
    requires Candidate(inst, v, ar, br, s.aIndex, s.bIndex)
    requires s.aStop == v[ar][s.aIndex] && s.bStop == v[br][s.bIndex]
    requires PairClear(inst, v, ar, br, s.aIndex, s.bIndex)
    ensures IsFirstSwap(inst, v, s)
  {
  }

  /** The labelled `'full_loop`: route pairs with `a_route_i > b_route_i`
      in order, each searched by `SearchPair`, stopping at the first
      candidate. */
  method FindSwap(inst: Instance, sol: VRPSolution) returns (swap: Option<SwapResult>)
    requires sol.Valid(inst)
    ensures swap.None? ==> NoSwap(inst, sol.View())
    ensures swap.Some? ==> IsFirstSwap(inst, sol.View(), swap.value)
  {
    ghost var v := sol.View();
    swap := None;
    var ar := 0;
    while ar < |sol.routes|
      invariant ar <= |sol.routes|
      invariant RoutesClear(inst, v, ar, 0)
    {
      var br := 0;
      while br < |sol.routes|
        invariant br <= |sol.routes|
        invariant RoutesClear(inst, v, ar, br)
      {
        if ar > br {
          swap := SearchPair(inst, sol.routes[ar], sol.routes[br], v, ar, br);
          if swap.Some? {
            FoundIsFirst(inst, v, ar, br, swap.value);
            assert sol.View() == v;
            return;
          }
        }
        assert PairNone(inst, v, ar, br);
        br := br + 1;
      }
      forall p: nat, q: nat | p < ar + 1 || (p == ar + 1 && q < 0) ensures PairNone(inst, v, p, q) {
        if p == ar && q >= br {
          assert forall i: nat, j: nat :: !Candidate(inst, v, p, q, i, j);
        }
      }
      ar := ar + 1;
    }
    forall p: nat, q: nat ensures PairNone(inst, v, p, q) {
      if p >= ar {
        assert forall i: nat, j: nat :: !Candidate(inst, v, p, q, i, j);
      }
    }
    return None;
  }

  /** `naive_greedy`, given the drawn shuffle of the routes: the routes are
      permuted; then either no exchange qualifies and the permuted solution
      is returned with None, or the first qualifying exchange is applied
      (two removals, then two insertions at the same indices) and returned.
      The insertions need the exchanged customers to be on no other route,
      which `assert_sanity` would otherwise reject. */
  method NaiveGreedy(inst: Instance, sol: VRPSolution, perm: seq<nat>) returns (swap: Option<SwapResult>)
    requires sol.Valid(inst) && NoRepeats(sol.View()) && IsPermutation(perm, |sol.routes|)
    modifies sol, sol.routes
    ensures sol.Valid(inst) && |sol.routes| == |old(sol.routes)|
    ensures forall k :: 0 <= k < |perm| ==> perm[k] < |old(sol.routes)|
    ensures swap.None? ==> NoSwap(inst, Permute(old(sol.View()), perm))
                           && sol.View() == Permute(old(sol.View()), perm)
    ensures swap.Some? ==>
              var u, s := Permute(old(sol.View()), perm), swap.value;
              IsFirstSwap(inst, u, s)
              && sol.View() == Exchanged(u, s.aRoute, s.aIndex, s.bRoute, s.bIndex)
  {
    ghost var v0 := sol.View();
    PermutationFacts(perm, |v0|);
    sol.PermuteRoutes(inst, perm);
    PermuteNoRepeats(v0, perm);
    swap := SwapFirst(inst, sol, Permute(v0, perm));
  }

  /** The search and, when it finds an exchange, the exchange itself. */
  method SwapFirst(inst: Instance, sol: VRPSolution, ghost u: seq<seq<Stop>>) returns (swap: Option<SwapResult>)
    requires sol.Valid(inst) && sol.View() == u && NoRepeats(u)
    modifies sol.routes
    ensures sol.Valid(inst) && sol.routes == old(sol.routes)
    ensures swap.None? ==> NoSwap(inst, u) && sol.View() == u
    ensures swap.Some? ==> IsFirstSwap(inst, u, swap.value)
                           && sol.View() == Exchanged(u, swap.value.aRoute, swap.value.aIndex,
                                                      swap.value.bRoute, swap.value.bIndex)
  {
    swap := FindSwap(inst, sol);
    if swap.Some? {
      ApplySwap(inst, sol, u, swap.value);
    }
  }

  /** The four route updates of an accepted exchange: take a out of route
      aRoute and b out of route bRoute, then put b at a's index and a at
      b's index. */
  method ApplySwap(inst: Instance, sol: VRPSolution, ghost u: seq<seq<Stop>>, s: SwapResult)
    requires sol.Valid(inst) && sol.View() == u && NoRepeats(u)
    requires s.aRoute < |u| && s.bRoute < |u| && s.aRoute != s.bRoute
    requires s.aIndex < |u[s.aRoute]| && s.bIndex < |u[s.bRoute]|
    modifies sol.routes
    ensures sol.Valid(inst) && sol.routes == old(sol.routes)
    ensures sol.View() == Exchanged(u, s.aRoute, s.aIndex, s.bRoute, s.bIndex)
  {
    var ar, ai, br, bi := s.aRoute, s.aIndex, s.bRoute, s.bIndex;
    ExchangePrecondition(inst, u, ar, ai, br, bi);
    var a := sol.RemoveStopFromRoute(inst, ar, ai);
    ghost var v1 := sol.View();
    var b := sol.RemoveStopFromRoute(inst, br, bi);
    ghost var v2 := sol.View();
    sol.AddStopToRoute(inst, ar, b, ai);
    ghost var v3 := sol.View();
    sol.AddStopToRoute(inst, br, a, bi);
    RemovalsThenInsertions(u, ar, ai, br, bi, v1, v2, v3, sol.View());
  }

  /** Removing both stops and inserting each at the other's index is the exchange. */
  lemma RemovalsThenInsertions(u: seq<seq<Stop>>, ar: nat, ai: nat, br: nat, bi: nat,
                               v1: seq<seq<Stop>>, v2: seq<seq<Stop>>, v3: seq<seq<Stop>>, v4: seq<seq<Stop>>)
    requires ar < |u| && br < |u| && ar != br && ai < |u[ar]| && bi < |u[br]|
    requires v1 == u[ar := RemoveAt(u[ar], ai)]
    requires v2 == v1[br := RemoveAt(v1[br], bi)]
    requires v3 == v2[ar := Insert(v2[ar], ai, u[br][bi])]
    requires v4 == v3[br := Insert(v3[br], bi, u[ar][ai])]
    ensures v4 == Exchanged(u, ar, ai, br, bi)
  {
    InsertRemoveAt(u[ar], ai, u[br][bi]);
    InsertRemoveAt(u[br], bi, u[ar][ai]);
  }

  /** With no customer on two routes, neither exchanged customer is on the
      route it moves to once the stop there has been taken out. */
  lemma ExchangePrecondition(inst: Instance, u: seq<seq<Stop>>, ar: nat, ai: nat, br: nat, bi: nat)
    requires inst.Valid() && WellFormed(inst, u) && NoRepeats(u)
    requires ar < |u| && br < |u| && ar != br && ai < |u[ar]| && bi < |u[br]|
    ensures u[br][bi].custNo !in CustNos(RemoveAt(u[ar], ai))
    ensures u[ar][ai].custNo !in CustNos(RemoveAt(u[br], bi))
  {
    var a, b := u[ar][ai], u[br][bi];
    assert CustNos(u[ar])[ai] == a.custNo && CustNos(u[br])[bi] == b.custNo;
    NoRepeatsDisjoint(u, br, ar, b.custNo);
    NoRepeatsDisjoint(u, ar, br, a.custNo);
    CustNosRemoveAt(u[ar], ai);
    CustNosRemoveAt(u[br], bi);
    forall k | 0 <= k < |u[ar]| - 1 ensures CustNos(RemoveAt(u[ar], ai))[k] in CustNos(u[ar]) {
      var k' := if k < ai then k else k + 1;
      assert CustNos(RemoveAt(u[ar], ai))[k] == CustNos(u[ar])[k'];
    }
    forall k | 0 <= k < |u[br]| - 1 ensures CustNos(RemoveAt(u[br], bi))[k] in CustNos(u[br]) {
      var k' := if k < bi then k else k + 1;
      assert CustNos(RemoveAt(u[br], bi))[k] == CustNos(u[br])[k'];
    }
  }
}
