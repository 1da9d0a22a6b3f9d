/** `regret_k` and `reinsert_two_regret` of the adaptive solver: how much
    more than its cheapest feasible position a removed stop would cost if
    it had to settle for a later choice, and the reinsertion that puts the
    stops with the highest regret back first.

    The program keeps the cost increases in a `BinaryHeap` of `Reverse`
    values bounded to k entries. The heap is modelled by its contents in
    ascending order (`InsertBy` on `RealKey`), which is all its `push`,
    `pop` and `peek` depend on. The loops are modelled as written: the
    heap's `pop` drops the cheapest cost, so the value is the dearest cost
    minus the second dearest (KeptAsWritten, RegretAsWritten); the regret
    the comments describe, the second cheapest minus the cheapest (Kept,
    Regret), is stated beside it. */
module Regret {
  import opened Prelude
  import opened Sorting
  import opened VrpInstance
  import opened Tours
  import opened Views
  import opened Common
  import opened Construct
  import opened Jump
  import opened Lns

  /** The cost increase of each position in `s`, in order. */
  function Increases(inst: Instance, v: seq<seq<Stop>>, stop: Stop, s: seq<Slot>): (r: seq<real>)
    requires inst.Valid() && WellFormed(inst, v) && stop.custNo < inst.numCustomers && SlotsIn(v, s)
    ensures |r| == |s| && forall j :: 0 <= j < |s| ==> r[j] == Increase(inst, v, stop, s[j])
  {
    seq(|s|, j requires 0 <= j < |s| => Increase(inst, v, stop, s[j]))
  }

  /** The increases the loops of `regret_k` push, in loop order: one per
      feasible position. */
  function FeasibleIncreases(inst: Instance, v: seq<seq<Stop>>, stop: Stop): seq<real>
    requires inst.Valid() && WellFormed(inst, v) && stop.custNo < inst.numCustomers
  {
    Increases(inst, v, stop, Slots(inst, v, stop))
  }

  lemma IncreasesSnoc(inst: Instance, v: seq<seq<Stop>>, stop: Stop, s: seq<Slot>, x: Slot)
    requires inst.Valid() && WellFormed(inst, v) && stop.custNo < inst.numCustomers && SlotsIn(v, s) && SlotIn(v, x)
    ensures SlotsIn(v, s + [x])
    ensures Increases(inst, v, stop, s + [x]) == Increases(inst, v, stop, s) + [Increase(inst, v, stop, x)]
  {
  }

  // ---------------------------------------------------------------------
  // The bounded heap
  // ---------------------------------------------------------------------

  /** The heap of `regret_k` as written: after each push, when it holds
      more than k costs, `pop` removes the top of the `Reverse` heap, which
      is the cheapest cost. */
  function KeptAsWritten(costs: seq<real>, k: nat): (h: seq<real>)
    ensures |h| == (if |costs| <= k then |costs| else k)
  {
    if costs == [] then []
    else
      var h := InsertBy(KeptAsWritten(costs[..|costs| - 1], k), costs[|costs| - 1], RealKey());
      if |h| > k then h[1..] else h
  }

  /** The heap the comment on the push describes: when it holds more than
      k costs, the dearest one leaves, so the k cheapest stay. */
  function Kept(costs: seq<real>, k: nat): (h: seq<real>)
    ensures |h| == (if |costs| <= k then |costs| else k)
  {
    if costs == [] then []
    else
      var h := InsertBy(Kept(costs[..|costs| - 1], k), costs[|costs| - 1], RealKey());
      if |h| > k then h[..k] else h
  }

  lemma KeptAsWrittenSnoc(costs: seq<real>, c: real, k: nat)
    ensures KeptAsWritten(costs + [c], k)
            == (var h := InsertBy(KeptAsWritten(costs, k), c, RealKey()); if |h| > k then h[1..] else h)
  {
    assert (costs + [c])[..|costs|] == costs;
  }

  /** As written, the heap ends up with the k dearest costs, in ascending order. */
  lemma {:induction false} KeptAsWrittenDearest(costs: seq<real>, k: nat)
    ensures KeptAsWritten(costs, k)
            == SortBy(costs, RealKey())[if |costs| <= k then 0 else |costs| - k..]
  {
    if costs != [] {
      var init := costs[..|costs| - 1];
      var c := costs[|costs| - 1];
      KeptAsWrittenDearest(init, k);
      if |init| >= k {
        DearestFull(costs, k);
      } else {
        DearestShort(costs, k);
      }
    }
  }

  /** The step of KeptAsWrittenDearest once the heap is full. */
  lemma DearestFull(costs: seq<real>, k: nat)
    requires |costs| > k
    requires KeptAsWritten(costs[..|costs| - 1], k)
             == SortBy(costs[..|costs| - 1], RealKey())[|costs| - 1 - k..]
    ensures KeptAsWritten(costs, k) == SortBy(costs, RealKey())[|costs| - k..]
  {
    var init, c := costs[..|costs| - 1], costs[|costs| - 1];
    var j := |init| - k;
    var sorted := SortBy(init, RealKey());
    var h := InsertBy(sorted[j..], c, RealKey());
    assert KeptAsWritten(costs, k) == h[1..];
    InsertIntoSortedSuffix(init, c, j);
    assert SortBy(costs, RealKey()) == InsertBy(sorted, c, RealKey());
  }

  /** The step of KeptAsWrittenDearest while the heap is not full. */
  lemma DearestShort(costs: seq<real>, k: nat)
    requires 0 < |costs| <= k
    requires KeptAsWritten(costs[..|costs| - 1], k) == SortBy(costs[..|costs| - 1], RealKey())[0..]
    ensures KeptAsWritten(costs, k) == SortBy(costs, RealKey())[0..]
  {
    var init, c := costs[..|costs| - 1], costs[|costs| - 1];
    var sorted := SortBy(init, RealKey());
    assert sorted[0..] == sorted;
    var all := InsertBy(sorted, c, RealKey());
    assert SortBy(costs, RealKey()) == all;
    assert KeptAsWritten(costs, k) == all;
    assert all[0..] == all;
  }

  /** InsertBySuffix on the sorted costs. */
  lemma InsertIntoSortedSuffix(init: seq<real>, c: real, j: nat)
    requires j <= |init|
    ensures InsertBy(SortBy(init, RealKey()), c, RealKey())[j + 1..]
         == InsertBy(SortBy(init, RealKey())[j..], c, RealKey())[1..]
  {
    SortBySorted(init, RealKey());
    InsertBySuffix(SortBy(init, RealKey()), c, RealKey(), j);
  }

  /** The intended heap ends up with the k cheapest costs, in ascending order. */
  lemma {:induction false} KeptCheapest(costs: seq<real>, k: nat)
    ensures Kept(costs, k) == SortBy(costs, RealKey())[..if |costs| <= k then |costs| else k]
  {
    if costs != [] {
      var init := costs[..|costs| - 1];
      var c := costs[|costs| - 1];
      KeptCheapest(init, k);
      var sorted := SortBy(init, RealKey());
      if |init| >= k {
        InsertByPrefix(sorted, c, RealKey(), k);
      } else {
        assert sorted[..|init|] == sorted;
      }
    }
  }

  // ---------------------------------------------------------------------
  // The regret
  // ---------------------------------------------------------------------

  /** `regret_k` as written, on the pushed costs: with fewer than k of them
      the top of the heap (the cheapest); otherwise the second-cheapest kept
      minus the cheapest kept. */
  function RegretAsWritten(costs: seq<real>, k: nat): (g: real)
    requires |costs| >= 1 && k >= 2
    ensures |costs| >= k ==> g >= 0.0
    ensures |costs| < k ==> g in costs && forall c :: c in costs ==> g <= c
  {
    var h := KeptAsWritten(costs, k);
    KeptAsWrittenSorted(costs, k);
    if |h| < k then
      assert forall c :: c in costs ==> h[0] <= c by {
        forall c | c in costs ensures h[0] <= c {
          assert c in multiset(h);
          SortedHeadLeast(h, c);
        }
      }
      assert h[0] in multiset(costs);
      h[0]
    else
      assert RealKey()(h[0]) <= RealKey()(h[1]);
      h[1] - h[0]
  }

  /** The heap as written is in ascending order, and while it holds fewer
      than k costs it holds all of them. */
  lemma {:induction false} KeptAsWrittenSorted(costs: seq<real>, k: nat)
    ensures SortedBy(KeptAsWritten(costs, k), RealKey())
    ensures |costs| < k ==> multiset(KeptAsWritten(costs, k)) == multiset(costs)
  {
    KeptAsWrittenDearest(costs, k);
    SortBySorted(costs, RealKey());
    SortedSuffix(SortBy(costs, RealKey()), if |costs| <= k then 0 else |costs| - k);
    if |costs| < k {
      assert SortBy(costs, RealKey())[0..] == SortBy(costs, RealKey());
    }
  }

  /** A suffix of an ascending list is ascending. */
  lemma SortedSuffix(t: seq<real>, j: nat)
    requires SortedBy(t, RealKey()) && j <= |t|
    ensures SortedBy(t[j..], RealKey())
  {
    var h := t[j..];
    forall a, b | 0 <= a < b < |h| ensures RealKey()(h[a]) <= RealKey()(h[b]) {
      assert h[a] == t[a + j] && h[b] == t[b + j];
    }
  }

  /** The regret of a stop: the k-th cheapest cost increase minus the
      cheapest; with fewer than k feasible positions, the cheapest. */
  function Regret(costs: seq<real>, k: nat): real
    requires |costs| >= 1 && k >= 1
  {
    var t := SortBy(costs, RealKey());
    if |costs| < k then t[0] else t[k - 1] - t[0]
  }

  /** For any ascending arrangement t of the costs, the program's value is
      the (k-1)-th dearest cost minus the k-th dearest. */
  lemma RegretAsWrittenGap(costs: seq<real>, k: nat, t: seq<real>)
    requires |costs| >= 1 && k >= 2
    requires SortedBy(t, RealKey()) && multiset(t) == multiset(costs)
    ensures |t| == |costs|
    ensures RegretAsWritten(costs, k)
            == if |costs| < k then t[0] else t[|t| - k + 1] - t[|t| - k]
  {
    assert |t| == |costs| by { assert |multiset(t)| == |multiset(costs)|; }
    KeptAsWrittenDearest(costs, k);
    SortBySorted(costs, RealKey());
    SortedUnique(SortBy(costs, RealKey()), t);
    WrittenGapOfKept(costs, k, t);
  }

  lemma WrittenGapOfKept(costs: seq<real>, k: nat, t: seq<real>)
    requires |costs| >= 1 && k >= 2 && |t| == |costs|
    requires KeptAsWritten(costs, k) == t[if |costs| <= k then 0 else |costs| - k..]
    ensures RegretAsWritten(costs, k)
            == if |costs| < k then t[0] else t[|t| - k + 1] - t[|t| - k]
  {
    var h := KeptAsWritten(costs, k);
    if |costs| < k {
      assert h[0] == t[0];
    } else {
      var j := |t| - k;
      assert h == t[j..] && |h| == k;
      assert h[0] == t[j] && h[1] == t[j + 1];
    }
  }

  /** For any ascending arrangement t of the costs, the regret is the k-th
      cheapest cost minus the cheapest; the cheapest is the least cost,
      and the regret is never negative when there are k positions. */
  lemma RegretGap(costs: seq<real>, k: nat, t: seq<real>)
    requires |costs| >= 1 && k >= 1
    requires SortedBy(t, RealKey()) && multiset(t) == multiset(costs)
    ensures |t| == |costs|
    ensures Regret(costs, k) == if |costs| < k then t[0] else t[k - 1] - t[0]
    ensures t[0] in costs && forall c :: c in costs ==> t[0] <= c
    ensures |costs| >= k ==> Regret(costs, k) >= 0.0
  {
    assert |t| == |costs| by { assert |multiset(t)| == |multiset(costs)|; }
    SortBySorted(costs, RealKey());
    SortedUnique(SortBy(costs, RealKey()), t);
    assert t[0] in multiset(costs);
    forall c | c in costs ensures t[0] <= c {
      assert c in multiset(t);
      SortedHeadLeast(t, c);
    }
    if |costs| >= k && k > 1 {
      assert RealKey()(t[0]) <= RealKey()(t[k - 1]);
    }
  }

  /** The program's value is not the regret: with increases 1, 2 and 10 the
      heap keeps 2 and 10 and yields 8, the regret of the cheapest two is 1. */
  lemma RegretAsWrittenIsWrong()
    ensures RegretAsWritten([1.0, 2.0, 10.0], 2) == 8.0
    ensures Regret([1.0, 2.0, 10.0], 2) == 1.0
  {
    var t := [1.0, 2.0, 10.0];
    assert SortedBy(t, RealKey());
    RegretAsWrittenGap(t, 2, t);
    RegretGap(t, 2, t);
  }

  // ---------------------------------------------------------------------
  // The loops of regret_k
  // ---------------------------------------------------------------------

  /** A feasible position's increase joins the heap, and when the heap
      holds more than k costs its top, the cheapest, is popped. */
  method PushCost(inst: Instance, ghost v: seq<seq<Stop>>, stop: Stop, r: nat, i: nat, k: nat,
                  heap0: seq<real>, fits: bool, inc: real)
    returns (heap: seq<real>)
    requires inst.Valid() && WellFormed(inst, v) && stop.custNo < inst.numCustomers && r < |v| && i <= |v[r]|
    requires SlotsIn(v, Visited(inst, v, stop, r, i))
    requires heap0 == KeptAsWritten(Increases(inst, v, stop, Visited(inst, v, stop, r, i)), k)
    requires fits <==> Fits(inst, v[r], stop.capacity)
    requires inc == Increase(inst, v, stop, (r, i))
    ensures SlotsIn(v, Visited(inst, v, stop, r, i + 1))
    ensures heap == KeptAsWritten(Increases(inst, v, stop, Visited(inst, v, stop, r, i + 1)), k)
  {
    VisitedStep(inst, v, stop, r, i);
    heap := heap0;
    if fits {
      IncreasesSnoc(inst, v, stop, Visited(inst, v, stop, r, i), (r, i));
      KeptAsWrittenSnoc(Increases(inst, v, stop, Visited(inst, v, stop, r, i)), inc, k);
      heap := InsertBy(heap, inc, RealKey());
    }
    if |heap| > k {
      heap := heap[1..];
    }
  }

  /** The inner loop over the positions of route r: the increase of every
      feasible position is pushed, and the heap is cut back to k. */
  method RegretRoute(inst: Instance, route: Route, stop: Stop, r: nat, ghost v: seq<seq<Stop>>,
                     k: nat, heap0: seq<real>)
    returns (heap: seq<real>)
    requires inst.Valid() && WellFormed(inst, v) && stop.custNo < inst.numCustomers && r < |v|
    requires route.Valid() && route.inst == inst && route.stops == v[r]
    requires heap0 == KeptAsWritten(Increases(inst, v, stop, SlotsUpTo(inst, v, stop, r)), k)
    ensures heap == KeptAsWritten(Increases(inst, v, stop, SlotsUpTo(inst, v, stop, r + 1)), k)
  {
    VisitedRoute(inst, v, stop, r);
    heap := heap0;
    var i := 0;
    while i < |route.stops| + 1
      invariant i <= |route.stops| + 1
      invariant SlotsIn(v, Visited(inst, v, stop, r, i))
      invariant heap == KeptAsWritten(Increases(inst, v, stop, Visited(inst, v, stop, r, i)), k)
    {
      var step := route.SpeculativeAddStop(stop, i);
      SumCapInsert(route.stops, i, stop);
      heap := PushCost(inst, v, stop, r, i, k, heap, step.1, step.0 - route.cost);
      i := i + 1;
    }
  }

  /** `regret_k`: the value read off the heap of every feasible position's
      cost increase. With fewer than k entries it is the top (the cheapest
      kept); otherwise the top is popped and the next one peeked, which
      RegretAsWrittenGap shows is the (k-1)-th dearest cost minus the k-th
      dearest. It needs one feasible position (the program unwraps an
      empty heap otherwise) and k >= 2 (with k == 1 the peek after the pop
      unwraps an empty heap). */
  method RegretK(inst: Instance, sol: VRPSolution, stop: Stop, k: nat) returns (regret: real)
    requires sol.Valid(inst) && stop.custNo < inst.numCustomers && k >= 2
    requires Slots(inst, sol.View(), stop) != []
    ensures regret == RegretAsWritten(FeasibleIncreases(inst, sol.View(), stop), k)
  {
    ghost var v := sol.View();
    var heap: seq<real> := [];
    for r := 0 to |sol.routes|
      invariant heap == KeptAsWritten(Increases(inst, v, stop, SlotsUpTo(inst, v, stop, r)), k)
    {
      heap := RegretRoute(inst, sol.routes[r], stop, r, v, k, heap);
    }
    assert heap == KeptAsWritten(FeasibleIncreases(inst, v, stop), k);
    if |heap| < k {
      regret := heap[0];
    } else {
      var best := heap[0];
      heap := heap[1..];
      var kthBest := heap[0];
      regret := kthBest - best;
    }
  }

  // ---------------------------------------------------------------------
  // reinsert_two_regret
  // ---------------------------------------------------------------------

  /** The key `reinsert_two_regret` computes for a stop on routes v,
      `regret_k(stop, 2)`: with two feasible positions or more, the dearest
      feasible cost increase minus the second dearest, never negative; a
      stop with no feasible position does not arise where it is used. */
  function TwoRegret(inst: Instance, v: seq<seq<Stop>>, stop: Stop): (g: real)
    ensures inst.Valid() && WellFormed(inst, v) && stop.custNo < inst.numCustomers
            && |FeasibleIncreases(inst, v, stop)| >= 2 ==>
              var t := SortBy(FeasibleIncreases(inst, v, stop), RealKey());
              g == t[|t| - 1] - t[|t| - 2] && g >= 0.0
  {
    if inst.Valid() && WellFormed(inst, v) && stop.custNo < inst.numCustomers
       && |FeasibleIncreases(inst, v, stop)| >= 1
    then
      var costs := FeasibleIncreases(inst, v, stop);
      SortBySorted(costs, RealKey());
      RegretAsWrittenGap(costs, 2, SortBy(costs, RealKey()));
      RegretAsWritten(costs, 2)
    else 0.0
  }

  /** The sort key of `reinsert_two_regret`: larger regrets first. */
  function RegretDescKey(inst: Instance, v: seq<seq<Stop>>): ((Stop, nat)) -> real
  {
    (p: (Stop, nat)) => -TwoRegret(inst, v, p.0)
  }

  /** The removed stops in the order `reinsert_two_regret` puts them back:
      by decreasing 2-regret on the routes before any reinsertion (a stable
      sort), route indices dropped. They are exactly the removed stops, in
      non-increasing regret. */
  function ByRegret(inst: Instance, v: seq<seq<Stop>>, removed: seq<(Stop, nat)>): (r: seq<Stop>)
    ensures multiset(r) == multiset(TakenStops(removed)) && |r| == |removed|
    ensures forall i, j :: 0 <= i < j < |r| ==> TwoRegret(inst, v, r[i]) >= TwoRegret(inst, v, r[j])
  {
    var key := RegretDescKey(inst, v);
    var sorted := SortBy(removed, key);
    SortBySorted(removed, key);
    TakenStopsMap(sorted);
    TakenStopsMap(removed);
    MapSortByMultiset(removed, key, (p: (Stop, nat)) => p.0);
    assert forall i, j :: 0 <= i < j < |sorted| ==> key(sorted[i]) <= key(sorted[j]);
    TakenStops(sorted)
  }

  /** A stop with a route that has room for it has a feasible position. */
  lemma HasSlot(inst: Instance, v: seq<seq<Stop>>, stop: Stop, k: nat)
    requires k < |v| && Fits(inst, v[k], stop.capacity)
    ensures Slots(inst, v, stop) != []
  {
    SlotsComplete(inst, v, stop, |v|, k, 0);
  }

  /** The regrets of the removed stops on the current routes, one per stop
      (the key `sort_by_key` computes). */
  method RegretsOf(inst: Instance, sol: VRPSolution, ghost v: seq<seq<Stop>>, removed: seq<(Stop, nat)>)
    returns (keyed: seq<((Stop, nat), real)>)
    requires sol.Valid(inst) && v == sol.View()
    requires forall j :: 0 <= j < |removed| ==>
               removed[j].0.custNo < inst.numCustomers && Slots(inst, v, removed[j].0) != []
    ensures |keyed| == |removed|
    ensures forall j :: 0 <= j < |removed| ==>
              keyed[j].0 == removed[j] && keyed[j].1 == TwoRegret(inst, v, removed[j].0)
  {
    keyed := [];
    for j := 0 to |removed|
      invariant |keyed| == j
      invariant forall i :: 0 <= i < j ==>
                  keyed[i].0 == removed[i] && keyed[i].1 == TwoRegret(inst, v, removed[i].0)
    {
      var regret := RegretK(inst, sol, removed[j].0, 2);
      TwoRegretIs(inst, v, removed[j].0);
      KeyedSnoc(inst, v, removed, keyed, j, regret);
      keyed := keyed + [(removed[j], regret)];
    }
  }

  lemma KeyedSnoc(inst: Instance, v: seq<seq<Stop>>, removed: seq<(Stop, nat)>,
                  keyed: seq<((Stop, nat), real)>, j: nat, regret: real)
    requires j < |removed| && |keyed| == j
    requires forall i :: 0 <= i < j ==>
               keyed[i].0 == removed[i] && keyed[i].1 == TwoRegret(inst, v, removed[i].0)
    requires regret == TwoRegret(inst, v, removed[j].0)
    ensures forall i :: 0 <= i < j + 1 ==>
              (keyed + [(removed[j], regret)])[i].0 == removed[i]
              && (keyed + [(removed[j], regret)])[i].1 == TwoRegret(inst, v, removed[i].0)
  {
  }

  lemma TwoRegretIs(inst: Instance, v: seq<seq<Stop>>, stop: Stop)
    requires inst.Valid() && WellFormed(inst, v) && stop.custNo < inst.numCustomers
    requires Slots(inst, v, stop) != []
    ensures |FeasibleIncreases(inst, v, stop)| >= 1
    ensures TwoRegret(inst, v, stop) == RegretAsWritten(FeasibleIncreases(inst, v, stop), 2)
  {
  }

  /** The sort key of the program's `sort_by_key` on the keyed stops:
      larger regrets first. */
  function KeyedDesc(): (((Stop, nat), real)) -> real
  {
    (q: ((Stop, nat), real)) => -q.1
  }

  /** The removed stop of a keyed entry. */
  function KeyedItem(): (((Stop, nat), real)) -> (Stop, nat)
  {
    (q: ((Stop, nat), real)) => q.0
  }

  /** Sorting the keyed stops by their computed regrets is sorting the
      removed stops by their regrets, so the stops that go back are the
      removed ones in ByRegret order. */
  lemma KeyedOrder(inst: Instance, v: seq<seq<Stop>>, removed: seq<(Stop, nat)>,
                   keyed: seq<((Stop, nat), real)>)
    requires Placing(inst, v, TakenStops(removed))
    requires |keyed| == |removed|
    requires forall j :: 0 <= j < |removed| ==>
               keyed[j].0 == removed[j] && keyed[j].1 == TwoRegret(inst, v, removed[j].0)
    ensures TakenStops(MapSeq(SortBy(keyed, KeyedDesc()), KeyedItem())) == ByRegret(inst, v, removed)
    ensures Placing(inst, v, ByRegret(inst, v, removed))
  {
    var key := RegretDescKey(inst, v);
    KeyedKeys(inst, v, removed, keyed);
    assert MapSeq(keyed, KeyedItem()) == removed;
    SortByMap(keyed, KeyedItem(), KeyedDesc(), key);
    PlacingPermuted(inst, v, TakenStops(removed), ByRegret(inst, v, removed));
  }

  /** Each computed key is the one ByRegret sorts by. */
  lemma KeyedKeys(inst: Instance, v: seq<seq<Stop>>, removed: seq<(Stop, nat)>,
                  keyed: seq<((Stop, nat), real)>)
    requires |keyed| == |removed|
    requires forall j :: 0 <= j < |removed| ==>
               keyed[j].0 == removed[j] && keyed[j].1 == TwoRegret(inst, v, removed[j].0)
    ensures forall q :: q in keyed ==> KeyedDesc()(q) == RegretDescKey(inst, v)(KeyedItem()(q))
  {
    forall q | q in keyed ensures KeyedDesc()(q) == RegretDescKey(inst, v)(KeyedItem()(q)) {
      var j :| 0 <= j < |keyed| && keyed[j] == q;
      assert q.0 == removed[j];
    }
  }

  /** `reinsert_two_regret`: the removed stops return by decreasing
      2-regret on the routes as they were before the first reinsertion,
      each to its best spot, stopping at the first that fits nowhere. */
  method ReinsertTwoRegret(inst: Instance, sol: VRPSolution, removed: seq<(Stop, nat)>,
                           coins: seq<real>, draws: seq<nat>) returns (res: Option<seq<nat>>)
    requires sol.Valid(inst) && Placing(inst, sol.View(), TakenStops(removed))
    requires forall j :: 0 <= j < |removed| ==> Slots(inst, sol.View(), removed[j].0) != []
    requires |coins| >= |removed| && |draws| >= |removed|
    modifies sol.routes
    ensures sol.routes == old(sol.routes) && sol.Valid(inst)
    ensures Placing(inst, old(sol.View()), ByRegret(inst, old(sol.View()), removed))
    ensures (sol.View(), res) == ReinsertAllSpec(inst, old(sol.View()), ByRegret(inst, old(sol.View()), removed), coins, draws)
  {
    ghost var v := sol.View();
    var stops := RegretOrder(inst, sol, v, removed);
    res := ReinsertAll(inst, sol, stops, coins, draws);
  }

  /** The stops of `reinsert_two_regret` in the order they go back. */
  method RegretOrder(inst: Instance, sol: VRPSolution, ghost v: seq<seq<Stop>>, removed: seq<(Stop, nat)>)
    returns (stops: seq<Stop>)
    requires sol.Valid(inst) && v == sol.View() && Placing(inst, v, TakenStops(removed))
    requires forall j :: 0 <= j < |removed| ==> Slots(inst, v, removed[j].0) != []
    ensures stops == ByRegret(inst, v, removed) && Placing(inst, v, stops)
  {
    assert forall j :: 0 <= j < |removed| ==> removed[j].0.custNo < inst.numCustomers by {
      forall j | 0 <= j < |removed| ensures removed[j].0.custNo < inst.numCustomers {
        assert TakenStops(removed)[j] == removed[j].0;
      }
    }
    var keyed := RegretsOf(inst, sol, v, removed);
    var sortedKeyed := SortBy(keyed, KeyedDesc());
    stops := TakenStops(MapSeq(sortedKeyed, KeyedItem()));
    KeyedOrder(inst, v, removed, keyed);
  }
}
