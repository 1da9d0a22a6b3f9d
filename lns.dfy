/** The destroy and repair steps the two LNS solvers share: drawn
    customers are taken out of the first route holding them, and removed
    stops go back one at a time into the cheapest feasible position (with a
    small chance of a random feasible one instead). */
module Lns {
  import opened Prelude
  import opened Sorting
  import opened VrpInstance
  import opened Tours
  import opened Views
  import opened Common
  import opened Construct
  import opened Jump

  // ---------------------------------------------------------------------
  // Taking customers out of their routes
  // ---------------------------------------------------------------------

  /** Customer c taken out of the first route holding it (`index_of_stop`
      over the routes in order, then `remove_stop_at_index`): the new routes,
      the stop removed and the index of its route. None when no route
      serves c. */
  function TakeOut(v: seq<seq<Stop>>, c: nat): (r: Option<(seq<seq<Stop>>, (Stop, nat))>)
    ensures r.None? <==> !Served(v, c)
    ensures r.Some? ==> RouteWith(v, c) == Some(r.value.1.1)
  {
    match RouteWith(v, c)
    case None => None
    case Some(k) =>
      FirstIndexOfMember(v[k], c);
      var j := FirstIndexOf(v[k], c).value;
      Some((v[k := RemoveAt(v[k], j)], (v[k][j], k)))
  }

  /** A customer the stop list serves has a first position there. */
  lemma FirstIndexOfMember(s: seq<Stop>, c: nat)
    requires c in CustNos(s)
    ensures FirstIndexOf(s, c).Some?
  {
    var i :| 0 <= i < |s| && CustNos(s)[i] == c;
    assert s[i].custNo == c;
  }

  /** The removal loop: each customer of `custs` in turn is taken out; a
      customer no route serves is skipped. The routes at the end and the
      (stop, route index) pairs removed, in order. */
  function TakeOutAll(v: seq<seq<Stop>>, custs: seq<nat>): (r: (seq<seq<Stop>>, seq<(Stop, nat)>))
    decreases |custs|
  {
    if custs == [] then (v, [])
    else
      var prev := TakeOutAll(v, custs[..|custs| - 1]);
      match TakeOut(prev.0, custs[|custs| - 1])
      case None => prev
      case Some((w, x)) => (w, prev.1 + [x])
  }

  /** The stops of the removed (stop, route index) pairs. */
  function TakenStops(taken: seq<(Stop, nat)>): (s: seq<Stop>)
    ensures |s| == |taken| && forall j :: 0 <= j < |taken| ==> s[j] == taken[j].0
  {
    seq(|taken|, j requires 0 <= j < |taken| => taken[j].0)
  }

  /** What the removal loop keeps, starting from `v`: the routes `w` are
      well formed, within capacity and carry their demands; the stops taken
      out are distinct customers of `v` with their demands that no route
      serves any more, and each fits back into the route it left; the
      customers still served plus those taken out are those of `v`. */
  ghost predicate Taken(inst: Instance, v: seq<seq<Stop>>, w: seq<seq<Stop>>, taken: seq<(Stop, nat)>)
  {
    Placing(inst, w, TakenStops(taken))
    && AllCusts(w) + multiset(CustNos(TakenStops(taken))) == AllCusts(v)
    && |w| == |v|
    && forall j :: 0 <= j < |taken| ==> taken[j].1 < |w| && Fits(inst, w[taken[j].1], taken[j].0.capacity)
  }

  /** Taking one stop out of route k keeps the routes well formed, within
      capacity and with their demands, and takes its customer off the served
      ones and its demand off the route's load. */
  lemma RemoveKeeps(inst: Instance, w: seq<seq<Stop>>, k: nat, i: nat)
    requires inst.Valid() && WellFormed(inst, w) && DemandsMatch(inst, w) && WithinCapacity(inst, w)
    requires k < |w| && i < |w[k]|
    ensures var w' := w[k := RemoveAt(w[k], i)];
            WellFormed(inst, w') && DemandsMatch(inst, w') && WithinCapacity(inst, w')
            && AllCusts(w') + multiset{w[k][i].custNo} == AllCusts(w)
            && SumCap(w'[k]) + w[k][i].capacity == SumCap(w[k])
  {
    var s := RemoveAt(w[k], i);
    NoDupRemoveAt(inst, w[k], i);
    SumCapRemoveAt(w[k], i);
    InsertKeepsRoutes(inst, w, k, s);
    AllCustsUpdate(w, k, s);
    CustNosRemoveAt(w[k], i);
    MultisetRemoveAt(CustNos(w[k]), i);
    assert CustNos(w[k])[i] == w[k][i].custNo;
    var w' := w[k := s];
    var m := multiset(CustNos(w[k]));
    var rest := m - multiset{w[k][i].custNo};
    assert m == rest + multiset{w[k][i].custNo};
    assert (AllCusts(w') + multiset{w[k][i].custNo}) + rest == AllCusts(w) + rest;
    MultisetCancel(AllCusts(w') + multiset{w[k][i].custNo}, AllCusts(w), rest);
  }

  /** One round of the removal loop keeps `Taken` and finds a customer that
      was served and not yet taken out. */
  lemma TakeOutStep(inst: Instance, v: seq<seq<Stop>>, w: seq<seq<Stop>>, taken: seq<(Stop, nat)>, c: nat)
    requires Feasible(inst, v) && Taken(inst, v, w, taken)
    requires 1 <= c < inst.numCustomers && c !in CustNos(TakenStops(taken))
    ensures TakeOut(w, c).Some?
    ensures Taken(inst, v, TakeOut(w, c).value.0, taken + [TakeOut(w, c).value.1])
    ensures TakeOut(w, c).value.1.0.custNo == c
  {
    StillServed(inst, v, w, TakenStops(taken), c);
    var k := RouteWith(w, c).value;
    var j := FirstIndexOf(w[k], c).value;
    var w' := w[k := RemoveAt(w[k], j)];
    assert TakeOut(w, c) == Some((w', (w[k][j], k)));
    RemoveKeeps(inst, w, k, j);
    ExactlyOnceNoRepeats(inst, v);
    assert w[k][j].custNo == c;
    TakenCusts(inst, v, w, w', taken, (w[k][j], k));
    TakenFits(inst, w, w', taken, k, j);
  }

  /** A customer of the instance not yet taken out is still on some route. */
  lemma StillServed(inst: Instance, v: seq<seq<Stop>>, w: seq<seq<Stop>>, stops: seq<Stop>, c: nat)
    requires ExactlyOnce(inst, v) && AllCusts(w) + multiset(CustNos(stops)) == AllCusts(v)
    requires 1 <= c < inst.numCustomers && c !in CustNos(stops)
    ensures Served(w, c)
  {
    assert Range(1, inst.numCustomers)[c - 1] == c;
    assert c in AllCusts(v);
    assert c !in multiset(CustNos(stops));
    assert c in AllCusts(w);
    AllCustsMember(w, c);
  }

  /** The bookkeeping of one removal: the served customers plus the removed
      ones stay those of `v`, and the removed stops are still distinct
      customers with their demands that no route serves. */
  lemma TakenCusts(inst: Instance, v: seq<seq<Stop>>, w: seq<seq<Stop>>, w': seq<seq<Stop>>,
                   taken: seq<(Stop, nat)>, x: (Stop, nat))
    requires Placing(inst, w, TakenStops(taken)) && NoRepeats(v)
    requires AllCusts(w) + multiset(CustNos(TakenStops(taken))) == AllCusts(v)
    requires WellFormed(inst, w') && DemandsMatch(inst, w') && WithinCapacity(inst, w')
    requires AllCusts(w') + multiset{x.0.custNo} == AllCusts(w)
    requires 1 <= x.0.custNo < inst.numCustomers && x.0 == StopOf(inst, x.0.custNo)
    requires x.0.custNo !in CustNos(TakenStops(taken))
    ensures var stops' := TakenStops(taken + [x]);
            Placing(inst, w', stops') && AllCusts(w') + multiset(CustNos(stops')) == AllCusts(v)
  {
    var s := x.0;
    var c := s.custNo;
    var stops := TakenStops(taken);
    var stops' := TakenStops(taken + [x]);
    assert stops' == stops + [s];
    assert CustNos(stops') == CustNos(stops) + [c];
    assert AllCusts(w)[c] <= AllCusts(v)[c] <= 1;
    assert c !in AllCusts(w');
    assert multiset(CustNos(stops')) == multiset(CustNos(stops)) + multiset{c};
    NoDupSnoc(stops, s);
    forall q | 0 <= q < |stops'| ensures stops'[q].custNo !in AllCusts(w') {
      if q < |stops| {
        assert stops'[q] == stops[q];
        assert stops[q].custNo !in AllCusts(w);
      }
    }
  }

  /** Adding a stop of a new customer at the end keeps the customers distinct. */
  lemma NoDupSnoc(stops: seq<Stop>, s: Stop)
    requires NoDupCusts(stops) && s.custNo !in CustNos(stops)
    ensures NoDupCusts(stops + [s])
  {
    var t := stops + [s];
    assert CustNos(t) == CustNos(stops) + [s.custNo];
    forall a, b | 0 <= a < b < |t| ensures CustNos(t)[a] != CustNos(t)[b] {
      assert CustNos(t)[a] == CustNos(stops)[a];
      if b < |stops| {
        assert CustNos(t)[b] == CustNos(stops)[b];
      }
    }
  }

  /** After one removal from route k every removed stop still fits the
      route it left: a route only loses load. */
  lemma TakenFits(inst: Instance, w: seq<seq<Stop>>, w': seq<seq<Stop>>, taken: seq<(Stop, nat)>, k: nat, j: nat)
    requires k < |w| && j < |w[k]| && w' == w[k := RemoveAt(w[k], j)]
    requires SumCap(w'[k]) + w[k][j].capacity == SumCap(w[k]) && SumCap(w[k]) <= inst.vehicleCapacity
    requires forall q :: 0 <= q < |taken| ==> taken[q].1 < |w| && Fits(inst, w[taken[q].1], taken[q].0.capacity)
    ensures var taken' := taken + [(w[k][j], k)];
            forall q :: 0 <= q < |taken'| ==> taken'[q].1 < |w'| && Fits(inst, w'[taken'[q].1], taken'[q].0.capacity)
  {
    var taken' := taken + [(w[k][j], k)];
    forall q | 0 <= q < |taken'| ensures taken'[q].1 < |w'| && Fits(inst, w'[taken'[q].1], taken'[q].0.capacity) {
      if q < |taken| {
        assert taken'[q] == taken[q];
        if taken[q].1 != k {
          assert w'[taken[q].1] == w[taken[q].1];
        }
      }
    }
  }

  /** Taking distinct customers of a feasible solution out finds every one
      of them, in order, and leaves the routes and the removed stops as
      `Taken` describes. */
  lemma {:induction false} TakeOutAllFacts(inst: Instance, v: seq<seq<Stop>>, custs: seq<nat>)
    requires Feasible(inst, v) && Distinct(custs)
    requires forall j :: 0 <= j < |custs| ==> 1 <= custs[j] < inst.numCustomers
    ensures Taken(inst, v, TakeOutAll(v, custs).0, TakeOutAll(v, custs).1)
    ensures CustNos(TakenStops(TakeOutAll(v, custs).1)) == custs
    decreases |custs|
  {
    if custs == [] {
      TakenStart(inst, v);
    } else {
      var init := custs[..|custs| - 1];
      var c := custs[|custs| - 1];
      DistinctInit(custs);
      TakeOutAllFacts(inst, v, init);
      TakeOutAllStep(inst, v, custs);
    }
  }

  /** Without its last element a list without repeats has none, and does not hold that element. */
  lemma DistinctInit(s: seq<nat>)
    requires Distinct(s) && s != []
    ensures Distinct(s[..|s| - 1]) && s[|s| - 1] !in s[..|s| - 1]
  {
    var init := s[..|s| - 1];
    forall a, b | 0 <= a < b < |init| ensures init[a] != init[b] {
      assert init[a] == s[a] && init[b] == s[b];
    }
  }

  /** One more customer taken out, in the terms of `TakeOutAllFacts`. */
  lemma TakeOutAllStep(inst: Instance, v: seq<seq<Stop>>, custs: seq<nat>)
    requires Feasible(inst, v) && custs != []
    requires 1 <= custs[|custs| - 1] < inst.numCustomers && custs[|custs| - 1] !in custs[..|custs| - 1]
    requires Taken(inst, v, TakeOutAll(v, custs[..|custs| - 1]).0, TakeOutAll(v, custs[..|custs| - 1]).1)
    requires CustNos(TakenStops(TakeOutAll(v, custs[..|custs| - 1]).1)) == custs[..|custs| - 1]
    ensures Taken(inst, v, TakeOutAll(v, custs).0, TakeOutAll(v, custs).1)
    ensures CustNos(TakenStops(TakeOutAll(v, custs).1)) == custs
  {
    var init, c := custs[..|custs| - 1], custs[|custs| - 1];
    var prev := TakeOutAll(v, init);
    TakeOutStep(inst, v, prev.0, prev.1, c);
    var x := TakeOut(prev.0, c).value.1;
    TakeOutAllSnoc(v, custs, TakeOut(prev.0, c).value.0, x);
  }

  /** The removal loop's last round, when it finds its customer. */
  lemma TakeOutAllSnoc(v: seq<seq<Stop>>, custs: seq<nat>, w: seq<seq<Stop>>, x: (Stop, nat))
    requires custs != []
    requires TakeOut(TakeOutAll(v, custs[..|custs| - 1]).0, custs[|custs| - 1]) == Some((w, x))
    requires x.0.custNo == custs[|custs| - 1]
    requires CustNos(TakenStops(TakeOutAll(v, custs[..|custs| - 1]).1)) == custs[..|custs| - 1]
    ensures TakeOutAll(v, custs) == (w, TakeOutAll(v, custs[..|custs| - 1]).1 + [x])
    ensures CustNos(TakenStops(TakeOutAll(v, custs).1)) == custs
  {
    var t := TakeOutAll(v, custs[..|custs| - 1]).1;
    assert TakenStops(t + [x]) == TakenStops(t) + [x.0];
    assert custs == custs[..|custs| - 1] + [custs[|custs| - 1]];
  }

  /** Nothing taken out yet. */
  lemma TakenStart(inst: Instance, v: seq<seq<Stop>>)
    requires Feasible(inst, v)
    ensures Taken(inst, v, v, [])
  {
    assert TakenStops([]) == [];
    assert AllCusts(v) + multiset(CustNos([])) == AllCusts(v);
  }

  /** The removal loop of `remove_n_random_stops` and `remove_n_shaw`. */
  method TakeOutCustomers(inst: Instance, sol: VRPSolution, ghost v0: seq<seq<Stop>>, custs: seq<nat>)
    returns (res: seq<(Stop, nat)>)
    requires sol.Valid(inst) && sol.View() == v0
    modifies sol.routes
    ensures sol.routes == old(sol.routes) && sol.Valid(inst)
    ensures sol.View() == TakeOutAll(v0, custs).0 && res == TakeOutAll(v0, custs).1
  {
    res := [];
    for k := 0 to |custs|
      invariant sol.routes == old(sol.routes) && sol.Valid(inst)
      invariant (sol.View(), res) == TakeOutAll(v0, custs[..k])
    {
      assert custs[..k + 1][..k] == custs[..k];
      ghost var v := sol.View();
      var c := custs[k];
      var r := RouteIndexOf(sol.routes, c);
      if r.Some? {
        var idx := sol.routes[r.value].IndexOfStop(c);
        var stop := sol.RemoveStopFromRoute(inst, r.value, idx.value);
        res := res + [(stop, r.value)];
        assert TakeOut(v, c) == Some((sol.View(), (stop, r.value)));
      }
    }
    assert custs[..|custs|] == custs;
  }

  // ---------------------------------------------------------------------
  // Putting a stop back
  // ---------------------------------------------------------------------

  /** A position for a stop: the route's index and the index in its stops. */
  type Slot = (nat, nat)

  /** `random_bool(0.02)`: the chance that a random feasible position is
      taken instead of the cheapest one. */
  const RANDOM_SLOT_CHANCE: real := 0.02

  predicate SlotIn(v: seq<seq<Stop>>, slot: Slot)
  {
    slot.0 < |v| && slot.1 <= |v[slot.0]|
  }

  predicate SlotsIn(v: seq<seq<Stop>>, s: seq<Slot>)
  {
    forall j :: 0 <= j < |s| ==> SlotIn(v, s[j])
  }

  /** Route r's positions for `stop` when it has room for its demand (the
      feasibility flag of `speculative_add_stop` does not depend on the
      position), none otherwise. */
  function RouteSlots(inst: Instance, v: seq<seq<Stop>>, stop: Stop, r: nat): (s: seq<Slot>)
    requires r < |v|
    ensures |s| == (if Fits(inst, v[r], stop.capacity) then |v[r]| + 1 else 0)
    ensures forall j :: 0 <= j < |s| ==> s[j] == (r, j)
  {
    if Fits(inst, v[r], stop.capacity) then seq(|v[r]| + 1, j => (r, j)) else []
  }

  /** The feasible positions in the first m routes, in the order the
      search loops visit them. */
  function SlotsUpTo(inst: Instance, v: seq<seq<Stop>>, stop: Stop, m: nat): (s: seq<Slot>)
    requires m <= |v|
    ensures forall j :: 0 <= j < |s| ==> SlotIn(v, s[j]) && s[j].0 < m && Fits(inst, v[s[j].0], stop.capacity)
  {
    if m == 0 then [] else SlotsUpTo(inst, v, stop, m - 1) + RouteSlots(inst, v, stop, m - 1)
  }

  /** Every feasible position of the solution (the `valid` list). */
  function Slots(inst: Instance, v: seq<seq<Stop>>, stop: Stop): (s: seq<Slot>)
    ensures forall j :: 0 <= j < |s| ==> SlotIn(v, s[j]) && Fits(inst, v[s[j].0], stop.capacity)
  {
    SlotsUpTo(inst, v, stop, |v|)
  }

  /** Position x comes before y in the order of the search loops. */
  predicate Before(x: Slot, y: Slot)
  {
    x.0 < y.0 || (x.0 == y.0 && x.1 < y.1)
  }

  /** The feasible positions are exactly the positions of the routes with
      room for the stop. */
  lemma {:induction false} SlotsComplete(inst: Instance, v: seq<seq<Stop>>, stop: Stop, m: nat, r: nat, i: nat)
    requires m <= |v| && r < m && i <= |v[r]| && Fits(inst, v[r], stop.capacity)
    ensures (r, i) in SlotsUpTo(inst, v, stop, m)
  {
    if r == m - 1 {
      assert RouteSlots(inst, v, stop, r)[i] == (r, i);
    } else {
      SlotsComplete(inst, v, stop, m - 1, r, i);
    }
  }

  /** The feasible positions are listed in loop order, without repeats. */
  lemma {:induction false} SlotsOrdered(inst: Instance, v: seq<seq<Stop>>, stop: Stop, m: nat)
    requires m <= |v|
    ensures forall a, b :: 0 <= a < b < |SlotsUpTo(inst, v, stop, m)| ==>
              Before(SlotsUpTo(inst, v, stop, m)[a], SlotsUpTo(inst, v, stop, m)[b])
  {
    if m > 0 {
      SlotsOrdered(inst, v, stop, m - 1);
      var p := SlotsUpTo(inst, v, stop, m - 1);
      var q := RouteSlots(inst, v, stop, m - 1);
      var s := p + q;
      forall a, b | 0 <= a < b < |s| ensures Before(s[a], s[b]) {
        if b < |p| {
          assert s[a] == p[a] && s[b] == p[b];
          assert Before(p[a], p[b]);
        } else if a < |p| {
          assert s[a] == p[a] && p[a].0 < m - 1;
          assert s[b] == q[b - |p|] == (m - 1, b - |p|);
          assert Before(s[a], s[b]);
        } else {
          assert s[a] == q[a - |p|] == (m - 1, a - |p|);
          assert s[b] == q[b - |p|] == (m - 1, b - |p|);
          assert Before(s[a], s[b]);
        }
      }
    }
  }

  /** What taking position `slot` adds to its route's cost. */
  function Increase(inst: Instance, v: seq<seq<Stop>>, stop: Stop, slot: Slot): real
    requires inst.Valid() && WellFormed(inst, v) && stop.custNo < inst.numCustomers && SlotIn(v, slot)
  {
    var s := Insert(v[slot.0], slot.1, stop);
    assert StopsInRange(inst, s) by {
      forall k | 0 <= k < |s| ensures s[k].custNo < inst.numCustomers {
        if k < slot.1 {
          assert s[k] == v[slot.0][k];
        } else if k > slot.1 {
          assert s[k] == v[slot.0][k - 1];
        }
      }
    }
    RouteCost(inst, s) - RouteCost(inst, v[slot.0])
  }

  /** The best position the search keeps: the first one seen with the
      smallest increase (a later one replaces it only when strictly
      cheaper). None when there is no feasible position. */
  function Cheapest(inst: Instance, v: seq<seq<Stop>>, stop: Stop, s: seq<Slot>): (r: Option<Slot>)
    requires inst.Valid() && WellFormed(inst, v) && stop.custNo < inst.numCustomers && SlotsIn(v, s)
    ensures r.None? <==> s == []
    ensures r.Some? ==> r.value in s
  {
    if s == [] then None
    else
      var prev := Cheapest(inst, v, stop, s[..|s| - 1]);
      var x := s[|s| - 1];
      if prev.None? || Increase(inst, v, stop, x) < Increase(inst, v, stop, prev.value) then Some(x)
      else prev
  }

  /** The cheapest position has the least increase of all, and all the
      positions before it cost strictly more: it is the first minimum. */
  lemma {:induction false} CheapestIsFirstMinimum(inst: Instance, v: seq<seq<Stop>>, stop: Stop, s: seq<Slot>)
    returns (j: nat)
    requires inst.Valid() && WellFormed(inst, v) && stop.custNo < inst.numCustomers && SlotsIn(v, s)
    requires s != []
    ensures j < |s| && Cheapest(inst, v, stop, s) == Some(s[j])
    ensures forall q :: 0 <= q < |s| ==> Increase(inst, v, stop, s[j]) <= Increase(inst, v, stop, s[q])
    ensures forall q :: 0 <= q < j ==> Increase(inst, v, stop, s[j]) < Increase(inst, v, stop, s[q])
  {
    var init := s[..|s| - 1];
    var x := s[|s| - 1];
    if init == [] {
      j := 0;
    } else {
      var p := CheapestIsFirstMinimum(inst, v, stop, init);
      if Increase(inst, v, stop, x) < Increase(inst, v, stop, init[p]) {
        j := |s| - 1;
        LastIsNewMinimum(inst, v, stop, s, init, p);
      } else {
        j := p;
        EarlierStaysMinimum(inst, v, stop, s, init, p);
      }
    }
  }

  /** A last position cheaper than the first minimum of the others is
      cheaper than all of them. */
  lemma LastIsNewMinimum(inst: Instance, v: seq<seq<Stop>>, stop: Stop, s: seq<Slot>, init: seq<Slot>, p: nat)
    requires inst.Valid() && WellFormed(inst, v) && stop.custNo < inst.numCustomers && SlotsIn(v, s)
    requires s != [] && init == s[..|s| - 1] && p < |init|
    requires forall q :: 0 <= q < |init| ==> Increase(inst, v, stop, init[p]) <= Increase(inst, v, stop, init[q])
    requires Increase(inst, v, stop, s[|s| - 1]) < Increase(inst, v, stop, init[p])
    ensures forall q :: 0 <= q < |s| - 1 ==> Increase(inst, v, stop, s[|s| - 1]) < Increase(inst, v, stop, s[q])
  {
    forall q | 0 <= q < |s| - 1 ensures Increase(inst, v, stop, s[|s| - 1]) < Increase(inst, v, stop, s[q]) {
      assert s[q] == init[q];
    }
  }

  /** A last position no cheaper than the first minimum of the others
      leaves that minimum in place. */
  lemma EarlierStaysMinimum(inst: Instance, v: seq<seq<Stop>>, stop: Stop, s: seq<Slot>, init: seq<Slot>, p: nat)
    requires inst.Valid() && WellFormed(inst, v) && stop.custNo < inst.numCustomers && SlotsIn(v, s)
    requires s != [] && init == s[..|s| - 1] && p < |init|
    requires forall q :: 0 <= q < |init| ==> Increase(inst, v, stop, init[p]) <= Increase(inst, v, stop, init[q])
    requires Increase(inst, v, stop, init[p]) <= Increase(inst, v, stop, s[|s| - 1])
    ensures s[p] == init[p]
    ensures forall q :: 0 <= q < |s| ==> Increase(inst, v, stop, s[p]) <= Increase(inst, v, stop, s[q])
  {
    forall q | 0 <= q < |s| ensures Increase(inst, v, stop, s[p]) <= Increase(inst, v, stop, s[q]) {
      if q < |s| - 1 {
        assert s[q] == init[q];
      }
    }
  }

  /** The position `reinsert_in_best_spot` takes: none when there is no
      feasible position; otherwise a random feasible one (`draw` picks it)
      when the coin falls under the 2% chance, else the cheapest. */
  function Chosen(inst: Instance, v: seq<seq<Stop>>, stop: Stop, coin: real, draw: nat): (r: Option<Slot>)
    requires inst.Valid() && WellFormed(inst, v) && stop.custNo < inst.numCustomers
    ensures r.None? <==> Slots(inst, v, stop) == []
    ensures r.Some? ==> r.value in Slots(inst, v, stop)
  {
    var s := Slots(inst, v, stop);
    if s == [] then None
    else if coin < RANDOM_SLOT_CHANCE then Some(s[draw % |s|])
    else Cheapest(inst, v, stop, s)
  }

  /** The routes after `reinsert_in_best_spot` and the index of the route
      that took the stop; None ("no place to put customer") when no route
      has room for it. */
  function Reinserted(inst: Instance, v: seq<seq<Stop>>, stop: Stop, coin: real, draw: nat)
    : (r: Option<(seq<seq<Stop>>, nat)>)
    requires inst.Valid() && WellFormed(inst, v) && stop.custNo < inst.numCustomers
    ensures r.None? <==> forall k :: 0 <= k < |v| ==> !Fits(inst, v[k], stop.capacity)
    ensures r.Some? ==> |r.value.0| == |v| && r.value.1 < |v| && Fits(inst, v[r.value.1], stop.capacity)
  {
    match Chosen(inst, v, stop, coin, draw)
    case None =>
      assert forall k :: 0 <= k < |v| ==> !Fits(inst, v[k], stop.capacity) by {
        forall k | 0 <= k < |v| ensures !Fits(inst, v[k], stop.capacity) {
          if Fits(inst, v[k], stop.capacity) {
            SlotsComplete(inst, v, stop, |v|, k, 0);
          }
        }
      }
      None
    case Some(slot) =>
      Some((v[slot.0 := Insert(v[slot.0], slot.1, stop)], slot.0))
  }

  /** One more position seen by the search: it becomes the best when there
      was none yet or when it is strictly cheaper. */
  lemma CheapestSnoc(inst: Instance, v: seq<seq<Stop>>, stop: Stop, s: seq<Slot>, x: Slot)
    requires inst.Valid() && WellFormed(inst, v) && stop.custNo < inst.numCustomers
    requires SlotsIn(v, s) && SlotIn(v, x)
    ensures SlotsIn(v, s + [x])
    ensures var prev := Cheapest(inst, v, stop, s);
            Cheapest(inst, v, stop, s + [x])
            == if prev.None? || Increase(inst, v, stop, x) < Increase(inst, v, stop, prev.value) then Some(x) else prev
  {
    assert (s + [x])[..|s|] == s;
  }

  /** The feasible positions the search has seen before position i of route r. */
  function Visited(inst: Instance, v: seq<seq<Stop>>, stop: Stop, r: nat, i: nat): (s: seq<Slot>)
    requires r < |v| && i <= |v[r]| + 1
  {
    SlotsUpTo(inst, v, stop, r) + (if Fits(inst, v[r], stop.capacity) then seq(i, j => (r, j)) else [])
  }

  /** Visiting position i of route r adds it when the route has room. */
  lemma VisitedStep(inst: Instance, v: seq<seq<Stop>>, stop: Stop, r: nat, i: nat)
    requires r < |v| && i <= |v[r]|
    ensures Visited(inst, v, stop, r, i + 1)
            == Visited(inst, v, stop, r, i) + (if Fits(inst, v[r], stop.capacity) then [(r, i)] else [])
  {
    if Fits(inst, v[r], stop.capacity) {
      assert seq(i + 1, j => (r, j)) == seq(i, j => (r, j)) + [(r, i)];
    }
  }

  /** Once all of route r is visited the search has seen the first r + 1 routes. */
  lemma VisitedRoute(inst: Instance, v: seq<seq<Stop>>, stop: Stop, r: nat)
    requires r < |v|
    ensures Visited(inst, v, stop, r, |v[r]| + 1) == SlotsUpTo(inst, v, stop, r + 1)
    ensures Visited(inst, v, stop, r, 0) == SlotsUpTo(inst, v, stop, r)
  {
  }

  /** One position of the inner search loop: a feasible one joins `valid`,
      and becomes the best when strictly cheaper. */
  method ConsiderSlot(inst: Instance, ghost v: seq<seq<Stop>>, stop: Stop, r: nat, i: nat,
                      valid0: seq<Slot>, best0: Option<Slot>, bestInc0: real, fits: bool, inc: real)
    returns (valid: seq<Slot>, best: Option<Slot>, bestInc: real)
    requires inst.Valid() && WellFormed(inst, v) && stop.custNo < inst.numCustomers && r < |v| && i <= |v[r]|
    requires valid0 == Visited(inst, v, stop, r, i) && SlotsIn(v, valid0)
    requires best0 == Cheapest(inst, v, stop, valid0)
    requires best0.Some? ==> bestInc0 == Increase(inst, v, stop, best0.value)
    requires fits <==> Fits(inst, v[r], stop.capacity)
    requires inc == Increase(inst, v, stop, (r, i))
    ensures valid == Visited(inst, v, stop, r, i + 1) && SlotsIn(v, valid)
    ensures best == Cheapest(inst, v, stop, valid)
    ensures best.Some? ==> bestInc == Increase(inst, v, stop, best.value)
  {
    VisitedStep(inst, v, stop, r, i);
    valid, best, bestInc := valid0, best0, bestInc0;
    if fits {
      CheapestSnoc(inst, v, stop, valid, (r, i));
      valid := valid + [(r, i)];
      if best.None? || inc < bestInc {
        best := Some((r, i));
        bestInc := inc;
      }
    }
  }

  /** The inner search loop over the positions of route r: feasible
      positions join `valid`, and a strictly cheaper one becomes the best. */
  method SearchRoute(inst: Instance, route: Route, stop: Stop, r: nat, ghost v: seq<seq<Stop>>,
                     valid0: seq<Slot>, best0: Option<Slot>, bestInc0: real)
    returns (valid: seq<Slot>, best: Option<Slot>, bestInc: real)
    requires inst.Valid() && WellFormed(inst, v) && stop.custNo < inst.numCustomers && r < |v|
    requires route.Valid() && route.inst == inst && route.stops == v[r]
    requires valid0 == SlotsUpTo(inst, v, stop, r)
    requires best0 == Cheapest(inst, v, stop, valid0)
    requires best0.Some? ==> bestInc0 == Increase(inst, v, stop, best0.value)
    ensures valid == SlotsUpTo(inst, v, stop, r + 1)
    ensures best == Cheapest(inst, v, stop, valid)
    ensures best.Some? ==> bestInc == Increase(inst, v, stop, best.value)
  {
    VisitedRoute(inst, v, stop, r);
    valid, best, bestInc := valid0, best0, bestInc0;
    var i := 0;
    while i < |route.stops| + 1
      invariant i <= |route.stops| + 1
      invariant valid == Visited(inst, v, stop, r, i)
      invariant SlotsIn(v, valid)
      invariant best == Cheapest(inst, v, stop, valid)
      invariant best.Some? ==> bestInc == Increase(inst, v, stop, best.value)
    {
      var step := route.SpeculativeAddStop(stop, i);
      SumCapInsert(route.stops, i, stop);
      valid, best, bestInc := ConsiderSlot(inst, v, stop, r, i, valid, best, bestInc, step.1, step.0 - route.cost);
      i := i + 1;
    }
  }

  /** The search loops of `reinsert_in_best_spot`: every feasible position
      in loop order, and the first cheapest of them. */
  method SearchSlots(inst: Instance, sol: VRPSolution, stop: Stop) returns (valid: seq<Slot>, best: Option<Slot>)
    requires sol.Valid(inst) && stop.custNo < inst.numCustomers
    ensures valid == Slots(inst, sol.View(), stop)
    ensures best == Cheapest(inst, sol.View(), stop, valid)
  {
    ghost var v := sol.View();
    valid, best := [], None;
    var bestInc := 0.0;
    for r := 0 to |sol.routes|
      invariant valid == SlotsUpTo(inst, v, stop, r)
      invariant best == Cheapest(inst, v, stop, valid)
      invariant best.Some? ==> bestInc == Increase(inst, v, stop, best.value)
    {
      valid, best, bestInc := SearchRoute(inst, sol.routes[r], stop, r, v, valid, best, bestInc);
    }
  }

  /** `reinsert_in_best_spot`: the stop goes to the position `Chosen`
      names and the index of its route is returned; with no feasible
      position nothing changes and the result is None. */
  method ReinsertInBestSpot(inst: Instance, sol: VRPSolution, stop: Stop, coin: real, draw: nat)
    returns (r: Option<nat>)
    requires sol.Valid(inst) && stop.custNo < inst.numCustomers && !Served(sol.View(), stop.custNo)
    modifies sol.routes
    ensures sol.routes == old(sol.routes) && sol.Valid(inst)
    ensures Reinserted(inst, old(sol.View()), stop, coin, draw).None? ==> r.None? && sol.View() == old(sol.View())
    ensures Reinserted(inst, old(sol.View()), stop, coin, draw).Some? ==>
              r == Some(Reinserted(inst, old(sol.View()), stop, coin, draw).value.1)
              && sol.View() == Reinserted(inst, old(sol.View()), stop, coin, draw).value.0
  {
    ghost var v := sol.View();
    var valid, best := SearchSlots(inst, sol, stop);
    if best.None? {
      return None;
    }
    var slot := best.value;
    if coin < RANDOM_SLOT_CHANCE {
      slot := valid[draw % |valid|];
    }
    assert Chosen(inst, v, stop, coin, draw) == Some(slot);
    assert slot in valid;
    assert stop.custNo !in CustNos(v[slot.0]);
    sol.AddStopToRoute(inst, slot.0, stop, slot.1);
    return Some(slot.0);
  }

  // ---------------------------------------------------------------------
  // Putting all removed stops back
  // ---------------------------------------------------------------------

  /** Reinserting the next pending stop keeps the reinsertion invariant for
      the others and serves that stop's customer. */
  lemma ReinsertKeeps(inst: Instance, v: seq<seq<Stop>>, rest: seq<Stop>, coin: real, draw: nat)
    requires Placing(inst, v, rest) && |rest| > 0
    ensures Reinserted(inst, v, rest[0], coin, draw).Some? ==>
              Placing(inst, Reinserted(inst, v, rest[0], coin, draw).value.0, rest[1..])
              && AllCusts(Reinserted(inst, v, rest[0], coin, draw).value.0) == AllCusts(v) + multiset{rest[0].custNo}
  {
    var stop := rest[0];
    match Chosen(inst, v, stop, coin, draw)
    case None =>
    case Some(slot) =>
      var w := v[slot.0 := Insert(v[slot.0], slot.1, stop)];
      InsertKeeps(inst, v, slot.0, slot.1, stop.custNo);
      PlacingTail(inst, v, rest, w);
  }

  /** `reinsert_n_stops_in_best_spots` after its sort: the stops go back in
      order, each with its own coin and draw; the routes at the end and the
      route index each stop went to, or None as soon as one fits nowhere
      (the stops placed before it stay placed). */
  function ReinsertAllSpec(inst: Instance, v: seq<seq<Stop>>, stops: seq<Stop>, coins: seq<real>, draws: seq<nat>)
    : (r: (seq<seq<Stop>>, Option<seq<nat>>))
    requires Placing(inst, v, stops) && |coins| >= |stops| && |draws| >= |stops|
    decreases |stops|
  {
    if stops == [] then (v, Some([]))
    else match Reinserted(inst, v, stops[0], coins[0], draws[0])
      case None => (v, None)
      case Some((w, k)) =>
        ReinsertKeeps(inst, v, stops, coins[0], draws[0]);
        var rest := ReinsertAllSpec(inst, w, stops[1..], coins[1..], draws[1..]);
        (rest.0, if rest.1.Some? then Some([k] + rest.1.value) else None)
  }

  /** After reinserting, the routes are still well formed, within capacity
      and carry their demands; on success every pending stop is served
      again, each has a route index, and nothing else changed in number. */
  lemma {:induction false} ReinsertAllKeeps(inst: Instance, v: seq<seq<Stop>>, stops: seq<Stop>,
                                            coins: seq<real>, draws: seq<nat>)
    requires Placing(inst, v, stops) && |coins| >= |stops| && |draws| >= |stops|
    ensures |ReinsertAllSpec(inst, v, stops, coins, draws).0| == |v|
    ensures var w := ReinsertAllSpec(inst, v, stops, coins, draws).0;
            WellFormed(inst, w) && DemandsMatch(inst, w) && WithinCapacity(inst, w)
    ensures ReinsertAllSpec(inst, v, stops, coins, draws).1.Some? ==>
              |ReinsertAllSpec(inst, v, stops, coins, draws).1.value| == |stops|
              && AllCusts(ReinsertAllSpec(inst, v, stops, coins, draws).0) == AllCusts(v) + multiset(CustNos(stops))
    decreases |stops|
  {
    if stops != [] {
      match Reinserted(inst, v, stops[0], coins[0], draws[0])
      case None =>
      case Some((w, k)) =>
        ReinsertKeeps(inst, v, stops, coins[0], draws[0]);
        ReinsertAllKeeps(inst, w, stops[1..], coins[1..], draws[1..]);
        CustNosCons(stops);
        assert multiset(CustNos(stops)) == multiset{stops[0].custNo} + multiset(CustNos(stops[1..]));
    }
  }

  /** When the removed stops together with the customers still served are
      every customer once, a successful reinsertion yields a feasible
      solution with the same number of routes. */
  lemma ReinsertAllFeasible(inst: Instance, v: seq<seq<Stop>>, stops: seq<Stop>, coins: seq<real>, draws: seq<nat>)
    requires Placing(inst, v, stops) && |coins| >= |stops| && |draws| >= |stops|
    requires AllCusts(v) + multiset(CustNos(stops)) == multiset(Range(1, inst.numCustomers))
    requires ReinsertAllSpec(inst, v, stops, coins, draws).1.Some?
    ensures Feasible(inst, ReinsertAllSpec(inst, v, stops, coins, draws).0)
    ensures |ReinsertAllSpec(inst, v, stops, coins, draws).0| == |v|
  {
    ReinsertAllKeeps(inst, v, stops, coins, draws);
  }

  /** The first stop of the specification's recursion. */
  lemma ReinsertAllCons(inst: Instance, v: seq<seq<Stop>>, stops: seq<Stop>, coins: seq<real>, draws: seq<nat>)
    requires stops != [] && |coins| >= |stops| && |draws| >= |stops|
    requires Placing(inst, v, stops)
    ensures Reinserted(inst, v, stops[0], coins[0], draws[0]).None? ==>
              ReinsertAllSpec(inst, v, stops, coins, draws) == (v, None)
    ensures Reinserted(inst, v, stops[0], coins[0], draws[0]).Some? ==>
              Placing(inst, Reinserted(inst, v, stops[0], coins[0], draws[0]).value.0, stops[1..])
              && ReinsertAllSpec(inst, v, stops, coins, draws)
                 == Completed([Reinserted(inst, v, stops[0], coins[0], draws[0]).value.1],
                              ReinsertAllSpec(inst, Reinserted(inst, v, stops[0], coins[0], draws[0]).value.0,
                                              stops[1..], coins[1..], draws[1..]))
  {
    ReinsertKeeps(inst, v, stops, coins[0], draws[0]);
  }

  /** Collecting route indices in two steps is collecting them at once. */
  lemma CompletedTwice(done: seq<nat>, k: seq<nat>, rest: (seq<seq<Stop>>, Option<seq<nat>>))
    ensures Completed(done, Completed(k, rest)) == Completed(done + k, rest)
  {
    if rest.1.Some? {
      assert done + (k + rest.1.value) == (done + k) + rest.1.value;
    }
  }

  /** Nothing collected yet. */
  lemma CompletedNone(rest: (seq<seq<Stop>>, Option<seq<nat>>))
    ensures Completed([], rest) == rest
  {
    if rest.1.Some? {
      assert [] + rest.1.value == rest.1.value;
    }
  }

  /** No stop left: the loop returns what it collected. */
  lemma CompletedAll(inst: Instance, v: seq<seq<Stop>>, stops: seq<Stop>, coins: seq<real>, draws: seq<nat>,
                     done: seq<nat>)
    requires stops == [] && Placing(inst, v, stops)
    ensures Completed(done, ReinsertAllSpec(inst, v, stops, coins, draws)) == (v, Some(done))
  {
    assert done + [] == done;
  }

  /** One round of the reinsertion loop, seen from the specification: a
      stop that fits nowhere ends it; otherwise its route index joins the
      ones already collected. */
  lemma ReinsertAllUnfold(inst: Instance, v: seq<seq<Stop>>, stops: seq<Stop>, coins: seq<real>, draws: seq<nat>,
                          t: nat, done: seq<nat>)
    requires t < |stops| && |coins| >= |stops| && |draws| >= |stops|
    requires Placing(inst, v, stops[t..])
    ensures Reinserted(inst, v, stops[t], coins[t], draws[t]).None? ==>
              Completed(done, ReinsertAllSpec(inst, v, stops[t..], coins[t..], draws[t..])) == (v, None)
    ensures Reinserted(inst, v, stops[t], coins[t], draws[t]).Some? ==>
              Placing(inst, Reinserted(inst, v, stops[t], coins[t], draws[t]).value.0, stops[t + 1..])
              && Completed(done, ReinsertAllSpec(inst, v, stops[t..], coins[t..], draws[t..]))
                 == Completed(done + [Reinserted(inst, v, stops[t], coins[t], draws[t]).value.1],
                              ReinsertAllSpec(inst, Reinserted(inst, v, stops[t], coins[t], draws[t]).value.0,
                                              stops[t + 1..], coins[t + 1..], draws[t + 1..]))
  {
    assert stops[t..][0] == stops[t] && stops[t..][1..] == stops[t + 1..];
    assert coins[t..][0] == coins[t] && coins[t..][1..] == coins[t + 1..];
    assert draws[t..][0] == draws[t] && draws[t..][1..] == draws[t + 1..];
    ReinsertAllCons(inst, v, stops[t..], coins[t..], draws[t..]);
    var r := Reinserted(inst, v, stops[t], coins[t], draws[t]);
    if r.Some? {
      CompletedTwice(done, [r.value.1], ReinsertAllSpec(inst, r.value.0, stops[t + 1..], coins[t + 1..], draws[t + 1..]));
    }
  }

  /** The reinsertion loop: each stop in turn goes to its best spot; the
      first stop with no feasible position ends it (the `?`). */
  method ReinsertAll(inst: Instance, sol: VRPSolution, stops: seq<Stop>, coins: seq<real>, draws: seq<nat>)
    returns (res: Option<seq<nat>>)
    requires sol.Valid(inst) && Placing(inst, sol.View(), stops) && |coins| >= |stops| && |draws| >= |stops|
    modifies sol.routes
    ensures sol.routes == old(sol.routes) && sol.Valid(inst)
    ensures (sol.View(), res) == ReinsertAllSpec(inst, old(sol.View()), stops, coins, draws)
  {
    ghost var goal := ReinsertAllSpec(inst, sol.View(), stops, coins, draws);
    assert stops[0..] == stops && coins[0..] == coins && draws[0..] == draws;
    var idxs: seq<nat> := [];
    CompletedNone(goal);
    for t := 0 to |stops|
      invariant sol.routes == old(sol.routes) && sol.Valid(inst)
      invariant Placing(inst, sol.View(), stops[t..])
      invariant goal == Completed(idxs, ReinsertAllSpec(inst, sol.View(), stops[t..], coins[t..], draws[t..]))
    {
      ghost var v := sol.View();
      ReinsertAllUnfold(inst, v, stops, coins, draws, t, idxs);
      assert stops[t..][0] == stops[t];
      AllCustsMember(v, stops[t].custNo);
      var r := ReinsertInBestSpot(inst, sol, stops[t], coins[t], draws[t]);
      if r.None? {
        return None;
      }
      idxs := idxs + [r.value];
    }
    assert stops[|stops|..] == [];
    CompletedAll(inst, sol.View(), stops[|stops|..], coins[|stops|..], draws[|stops|..], idxs);
    return Some(idxs);
  }

  /** The result of the whole loop from what the first rounds returned and
      what the remaining rounds yield. */
  function Completed(done: seq<nat>, rest: (seq<seq<Stop>>, Option<seq<nat>>)): (seq<seq<Stop>>, Option<seq<nat>>)
  {
    (rest.0, if rest.1.Some? then Some(done + rest.1.value) else None)
  }

  // ---------------------------------------------------------------------
  // Reinsertion in order of demand
  // ---------------------------------------------------------------------

  /** The sort key of `reinsert_n_stops_in_best_spots` on the removed
      pairs: larger demands first. */
  function RemovedCapacityDescKey(): ((Stop, nat)) -> real
  {
    (p: (Stop, nat)) => -(p.0.capacity as real)
  }

  /** The removed stops in the order they go back: sorted by decreasing
      demand (a stable sort), route indices dropped. */
  function ByDemand(removed: seq<(Stop, nat)>): seq<Stop>
  {
    TakenStops(SortBy(removed, RemovedCapacityDescKey()))
  }

  lemma TakenStopsMap(taken: seq<(Stop, nat)>)
    ensures TakenStops(taken) == MapSeq(taken, (p: (Stop, nat)) => p.0)
  {
  }

  /** The stops go back in non-increasing demand, and they are exactly the
      removed ones: sorting the pairs and then dropping the route indices is
      sorting the stops. */
  lemma ByDemandOrder(removed: seq<(Stop, nat)>)
    ensures ByDemand(removed) == SortBy(TakenStops(removed), CapacityDescKey())
    ensures multiset(ByDemand(removed)) == multiset(TakenStops(removed))
    ensures forall i, j :: 0 <= i < j < |removed| ==> ByDemand(removed)[i].capacity >= ByDemand(removed)[j].capacity
  {
    var first := (p: (Stop, nat)) => p.0;
    var sorted := SortBy(removed, RemovedCapacityDescKey());
    SortByMap(removed, first, RemovedCapacityDescKey(), CapacityDescKey());
    TakenStopsMap(removed);
    TakenStopsMap(sorted);
    var t := ByDemand(removed);
    SortBySorted(TakenStops(removed), CapacityDescKey());
    forall i, j | 0 <= i < j < |removed| ensures t[i].capacity >= t[j].capacity {
      assert CapacityDescKey()(t[i]) <= CapacityDescKey()(t[j]);
    }
  }

  /** The reinsertion invariant holds for any arrangement of the pending stops. */
  lemma PlacingPermuted(inst: Instance, v: seq<seq<Stop>>, a: seq<Stop>, b: seq<Stop>)
    requires Placing(inst, v, a) && multiset(a) == multiset(b)
    ensures Placing(inst, v, b)
  {
    CustNosMultiset(a, b);
    DistinctPermuted(CustNos(a), CustNos(b));
    forall k | 0 <= k < |b|
      ensures 1 <= b[k].custNo < inst.numCustomers && b[k] == StopOf(inst, b[k].custNo)
      ensures b[k].custNo !in AllCusts(v)
    {
      assert b[k] in multiset(a);
      var j :| 0 <= j < |a| && a[j] == b[k];
    }
  }

  /** `reinsert_n_stops_in_best_spots`: the removed stops return by
      decreasing demand, each to its best spot, stopping at the first that
      fits nowhere. */
  method ReinsertByDemand(inst: Instance, sol: VRPSolution, removed: seq<(Stop, nat)>,
                          coins: seq<real>, draws: seq<nat>) returns (res: Option<seq<nat>>)
    requires sol.Valid(inst) && Placing(inst, sol.View(), TakenStops(removed))
    requires |coins| >= |removed| && |draws| >= |removed|
    modifies sol.routes
    ensures sol.routes == old(sol.routes) && sol.Valid(inst)
    ensures Placing(inst, old(sol.View()), ByDemand(removed))
    ensures (sol.View(), res) == ReinsertAllSpec(inst, old(sol.View()), ByDemand(removed), coins, draws)
  {
    var sorted := SortBy(removed, RemovedCapacityDescKey());
    var stops := TakenStops(sorted);
    ByDemandOrder(removed);
    PlacingPermuted(inst, sol.View(), TakenStops(removed), stops);
    res := ReinsertAll(inst, sol, stops, coins, draws);
  }
}
