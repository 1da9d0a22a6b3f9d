/** `src/common.rs`: the distance lookup, `Route` with its cached cost and
    load, and `VRPSolution`, a fixed-size vector of routes. Every route
    keeps the invariant that `assert_sanity` checks after each change: the
    cached cost is the from-scratch tour cost, the cached load is the sum
    of the stop demands, and no customer is visited twice. */
module Common {
  import opened Prelude
  import opened VrpInstance
  import opened Tours
  import opened Views
  import opened Text

  /** `DistanceMatrix::dist`: the length of the one-edge path a -> b. */
  function Dist(inst: Instance, a: nat, b: nat): (r: real)
    requires inst.Valid() && a < inst.numCustomers && b < inst.numCustomers
    ensures r == PathCost(inst, [a, b])
    ensures a == b ==> r == 0.0
  {
    inst.dist[a][b]
  }

  class Route {
    var inst: Instance
    var id: nat
    var stops: seq<Stop>
    var cost: real
    var usedCap: nat

    /** What `assert_sanity` checks, with the customers in range of the matrix. */
    ghost predicate Valid()
      reads this
    {
      inst.Valid() && StopsInRange(inst, stops) && NoDupCusts(stops)
      && cost == RouteCost(inst, stops) && usedCap == SumCap(stops)
    }

    /** `Route::new`: an empty route, cost 0 and load 0. */
    constructor (inst: Instance, id: nat)
      requires inst.Valid()
      ensures Valid() && this.inst == inst && this.id == id
      ensures stops == [] && cost == 0.0 && usedCap == 0
    {
      EmptyRouteCost(inst);
      this.inst := inst;
      this.id := id;
      stops := [];
      cost := 0.0;
      usedCap := 0;
    }

    /** `Route::clone`: a fresh route with the same fields. */
    method Clone() returns (r: Route)
      requires Valid()
      ensures fresh(r) && r.Valid()
      ensures r.inst == inst && r.id == id && r.stops == stops && r.cost == cost && r.usedCap == usedCap
    {
      r := new Route(inst, id);
      r.stops, r.cost, r.usedCap := stops, cost, usedCap;
    }

    /** The field-by-field copy `clone_from` does for each route. */
    method CopyFrom(source: Route)
      requires source != this && source.Valid()
      modifies this
      ensures Valid() && inst == source.inst && id == source.id && stops == source.stops
    {
      inst, id, cost, usedCap := source.inst, source.id, source.cost, source.usedCap;
      stops := source.stops;
    }

    /** `first`: the customer visited right after leaving the depot. */
    function First(): (c: nat)
      reads this
      requires Valid() && |stops| > 0
      ensures c == Tour(CustNos(stops))[1] && c < inst.numCustomers
    {
      stops[0].custNo
    }

    /** `last`: the customer visited right before returning to the depot. */
    function Last(): (c: nat)
      reads this
      requires Valid() && |stops| > 0
      ensures c == Tour(CustNos(stops))[|stops|] && c < inst.numCustomers
    {
      stops[|stops| - 1].custNo
    }

    /** `index_of_stop`: the first position serving customer c. */
    function IndexOfStop(c: nat): (r: Option<nat>)
      reads this
      ensures r.Some? ==> r.value < |stops| && stops[r.value].custNo == c
                          && forall j :: 0 <= j < r.value ==> stops[j].custNo != c
      ensures r.None? <==> c !in CustNos(stops)
    {
      FirstIndexOf(stops, c)
    }

    /** `contains_stop`: some stop serves customer c. */
    function ContainsStop(c: nat): (b: bool)
      reads this
      ensures b <==> c in CustNos(stops)
    {
      IndexOfStop(c).Some?
    }

    /** `speculative_add_stop`: the edge-delta cost of inserting `stop` at
        `index` is the from-scratch cost of the route with it inserted, and
        the flag says whether that route would be within capacity. */
    function SpeculativeAddStop(stop: Stop, index: nat): (r: (real, bool))
      reads this
      requires Valid() && index <= |stops| && stop.custNo < inst.numCustomers
      ensures r.0 == RouteCost(inst, Insert(stops, index, stop))
      ensures r.1 <==> SumCap(Insert(stops, index, stop)) <= inst.vehicleCapacity
    {
      var before := if index != 0 then stops[index - 1].custNo else 0;
      var after := if index == |stops| then 0 else stops[index].custNo;
      InsertCost(inst, stops, index, stop);
      SumCapInsert(stops, index, stop);
      (cost - Dist(inst, before, after) + Dist(inst, before, stop.custNo) + Dist(inst, stop.custNo, after),
       stop.capacity + usedCap <= inst.vehicleCapacity)
    }

    /** `speculative_remove_stop`: the edge-delta cost of removing the stop
        at `index` is the from-scratch cost of the route without it. */
    function SpeculativeRemoveStop(index: nat): (r: (real, bool))
      reads this
      requires Valid() && index < |stops|
      ensures r.0 == RouteCost(inst, RemoveAt(stops, index))
      ensures r.1 <==> SumCap(RemoveAt(stops, index)) <= inst.vehicleCapacity
    {
      var stop := stops[index];
      var before := if index != 0 then stops[index - 1].custNo else 0;
      var after := if index == |stops| - 1 then 0 else stops[index + 1].custNo;
      RemoveCost(inst, stops, index);
      SumCapRemoveAt(stops, index);
      (cost - Dist(inst, before, stop.custNo) - Dist(inst, stop.custNo, after) + Dist(inst, before, after),
       usedCap - stops[index].capacity <= inst.vehicleCapacity)
    }

    /** `cost_if_cust_no_was`: the edge-delta cost of putting `newStop` in
        place of the stop at `index` is the from-scratch cost of that route. */
    function CostIfCustNoWas(newStop: Stop, index: nat): (r: real)
      reads this
      requires Valid() && index < |stops| && newStop.custNo < inst.numCustomers
      ensures r == RouteCost(inst, stops[index := newStop])
    {
      var oldStop := stops[index];
      var before := if index != 0 then stops[index - 1].custNo else 0;
      var after := if index == |stops| - 1 then 0 else stops[index + 1].custNo;
      ReplaceCost(inst, stops, index, newStop);
      cost - Dist(inst, before, oldStop.custNo) - Dist(inst, oldStop.custNo, after)
      + Dist(inst, before, newStop.custNo) + Dist(inst, newStop.custNo, after)
    }

    /** `speculative_replace_stop` with its successor read from index+1 (as
        `cost_if_cust_no_was` does): the from-scratch cost of the route with
        the stop replaced, and whether it would be within capacity. */
    function SpeculativeReplaceStop(stop: Stop, index: nat): (r: (real, bool))
      reads this
      requires Valid() && index < |stops| && stop.custNo < inst.numCustomers
      ensures r.0 == RouteCost(inst, stops[index := stop])
      ensures r.1 <==> SumCap(stops[index := stop]) <= inst.vehicleCapacity
    {
      var before := if index != 0 then stops[index - 1].custNo else 0;
      var after := if index == |stops| - 1 then 0 else stops[index + 1].custNo;
      ReplaceCost(inst, stops, index, stop);
      SumCapReplace(stops, index, stop);
      SumCapElement(stops, index);
      (cost - Dist(inst, before, stops[index].custNo) - Dist(inst, stops[index].custNo, after)
       + Dist(inst, before, stop.custNo) + Dist(inst, stop.custNo, after),
       usedCap - stops[index].capacity + stop.capacity <= inst.vehicleCapacity)
    }

    /** `speculative_add_best`: position 0 on an empty route, otherwise the
        last position in 0..len-1 whose truncated cost is smallest; it
        returns `speculative_add_stop` at that position. */
    method SpeculativeAddBest(stop: Stop) returns (newCost: real, feasible: bool, index: nat)
      requires Valid() && stop.custNo < inst.numCustomers
      ensures index == BestAddIndex(inst, stops, stop)
      ensures stops == [] ==> index == 0
      ensures stops != [] ==> index < |stops|
      ensures stops != [] ==>
                forall j :: 0 <= j < |stops| ==> AddKey(inst, stops, stop, index) <= AddKey(inst, stops, stop, j)
      ensures stops != [] ==>
                forall j :: index < j < |stops| ==> AddKey(inst, stops, stop, index) < AddKey(inst, stops, stop, j)
      ensures newCost == RouteCost(inst, Insert(stops, index, stop))
      ensures feasible <==> SumCap(Insert(stops, index, stop)) <= inst.vehicleCapacity
    {
      index := 0;
      if |stops| > 0 {
        var i := 1;
        while i < |stops|
          invariant 1 <= i <= |stops|
          invariant index == LastMinAddIndex(inst, stops, stop, i)
        {
          var candidate := SpeculativeAddStop(stop, i);
          var best := SpeculativeAddStop(stop, index);
          if -Trunc(candidate.0) >= -Trunc(best.0) {
            index := i;
          }
          i := i + 1;
        }
      }
      var r := SpeculativeAddStop(stop, index);
      newCost, feasible := r.0, r.1;
    }

    /** `add_stop_to_index`: the stop is inserted at `index`, the load grows
        by its demand and the cost becomes what `speculative_add_stop`
        predicted. The sanity check after the change requires the customer
        to be new to the route. */
    method AddStopToIndex(stop: Stop, index: nat)
      requires Valid() && index <= |stops| && stop.custNo < inst.numCustomers
      requires stop.custNo !in CustNos(stops)
      modifies this
      ensures Valid() && inst == old(inst) && id == old(id)
      ensures stops == Insert(old(stops), index, stop)
      ensures usedCap == old(usedCap) + stop.capacity
      ensures cost == old(SpeculativeAddStop(stop, index)).0
    {
      var cap := stop.capacity;
      var r := SpeculativeAddStop(stop, index);
      NoDupInsert(stops, index, stop);
      SumCapInsert(stops, index, stop);
      stops := Insert(stops, index, stop);
      usedCap := usedCap + cap;
      cost := r.0;
    }

    /** `remove_stop_at_index`: returns the stop at `index`, keeps the rest
        in order, lowers the load by its demand and sets the cost to what
        `speculative_remove_stop` predicted. */
    method RemoveStopAtIndex(index: nat) returns (stop: Stop)
      requires Valid() && index < |stops|
      modifies this
      ensures Valid() && inst == old(inst) && id == old(id)
      ensures stop == old(stops)[index]
      ensures stops == RemoveAt(old(stops), index)
      ensures usedCap + stop.capacity == old(usedCap)
      ensures cost == old(SpeculativeRemoveStop(index)).0
    {
      var r := SpeculativeRemoveStop(index);
      NoDupRemoveAt(inst, stops, index);
      SumCapRemoveAt(stops, index);
      stop := stops[index];
      stops := RemoveAt(stops, index);
      usedCap := usedCap - stop.capacity;
      cost := r.0;
    }

    /** `retain_stops`: keeps exactly the stops satisfying `keep`, in order,
        then recomputes cost and load from scratch. */
    method RetainStops(keep: Stop -> bool)
      requires Valid()
      modifies this
      ensures Valid() && inst == old(inst) && id == old(id)
      ensures stops == Filter(old(stops), keep)
    {
      FilterKeepsStops(inst, stops, keep);
      stops := Filter(stops, keep);
      cost := RecalculateCost();
      usedCap := RecalculateCapacity();
    }

    /** `recalculate_cost`: the loop over consecutive stops plus the two
        depot legs gives the from-scratch route cost. */
    method RecalculateCost() returns (c: real)
      requires inst.Valid() && StopsInRange(inst, stops)
      ensures c == RouteCost(inst, stops)
    {
      var cs := CustNos(stops);
      c := 0.0;
      var i := 1;
      while i < |stops|
        invariant |stops| > 0 ==> 1 <= i <= |stops| && InRange(inst, cs[..i]) && c == PathCost(inst, cs[..i])
        invariant |stops| == 0 ==> c == 0.0
      {
        PathCostPrefixStep(inst, cs, i);
        c := c + Dist(inst, stops[i - 1].custNo, stops[i].custNo);
        i := i + 1;
      }
      if |stops| > 0 {
        assert cs[..|stops|] == cs;
        c := c + Dist(inst, 0, stops[0].custNo);
        c := c + Dist(inst, stops[|stops| - 1].custNo, 0);
        RouteCostParts(inst, stops);
      } else {
        EmptyRouteCost(inst);
      }
    }

    /** `recalculate_capacity`: the sum of the stop demands. */
    method RecalculateCapacity() returns (total: nat)
      ensures total == SumCap(stops)
    {
      total := 0;
      var i := 0;
      while i < |stops|
        invariant i <= |stops| && total == SumCap(stops[..i])
      {
        assert stops[..i + 1] == stops[..i] + [stops[i]];
        SumCapAppend(stops[..i], [stops[i]]);
        assert SumCap([stops[i]]) == stops[i].capacity;
        total := total + stops[i].capacity;
        i := i + 1;
      }
      assert stops[..|stops|] == stops;
    }

    /** `check_no_duplicate_stops`: a set of the customers seen so far; the
        check passes (true) exactly when no customer repeats. */
    method CheckNoDuplicateStops() returns (ok: bool)
      ensures ok <==> NoDupCusts(stops)
    {
      var existing: set<nat> := {};
      var i := 0;
      while i < |stops|
        invariant i <= |stops|
        invariant forall k :: 0 <= k < i ==> stops[k].custNo in existing
        invariant forall x :: x in existing ==> exists k :: 0 <= k < i && stops[k].custNo == x
        invariant forall a, b :: 0 <= a < b < i ==> stops[a].custNo != stops[b].custNo
        invariant |existing| == i
      {
        if stops[i].custNo in existing {
          var k :| 0 <= k < i && stops[k].custNo == stops[i].custNo;
          assert CustNos(stops)[k] == CustNos(stops)[i];
          return false;
        }
        existing := existing + {stops[i].custNo};
        i := i + 1;
      }
      ok := |existing| == |stops|;
    }

    /** `assert_sanity` (debug build): passes exactly when the cached cost is
        within 0.5 of the from-scratch cost, the cached load is exact and no
        customer repeats. */
    method AssertSanity() returns (ok: bool)
      requires inst.Valid() && StopsInRange(inst, stops)
      ensures ok <==> (-0.5 < RouteCost(inst, stops) - cost < 0.5
                       && usedCap == SumCap(stops) && NoDupCusts(stops))
    {
      var recalculated := RecalculateCost();
      var costOk := -0.5 < recalculated - cost < 0.5;
      var capacity := RecalculateCapacity();
      var noDup := CheckNoDuplicateStops();
      ok := costOk && capacity == usedCap && noDup;
    }
  }

  /** A route satisfying the invariant passes `assert_sanity`. */
  lemma ValidRoutePassesSanity(inst: Instance, stops: seq<Stop>, cost: real, usedCap: nat)
    requires inst.Valid() && StopsInRange(inst, stops) && NoDupCusts(stops)
    requires cost == RouteCost(inst, stops) && usedCap == SumCap(stops)
    ensures -0.5 < RouteCost(inst, stops) - cost < 0.5
  {
  }

  /** `speculative_replace_stop` as written: its `after` customer is read
      from `stops[index]`, the stop being replaced, instead of from
      `stops[index + 1]`. */
  function ReplaceStopAsWritten(inst: Instance, stops: seq<Stop>, cost: real, usedCap: nat,
                                stop: Stop, index: nat): (r: (real, bool))
    requires inst.Valid() && StopsInRange(inst, stops) && index < |stops| && stop.custNo < inst.numCustomers
    requires stops[index].capacity <= usedCap
    ensures r.1 <==> usedCap - stops[index].capacity + stop.capacity <= inst.vehicleCapacity
  {
    var before := if index != 0 then stops[index - 1].custNo else 0;
    var after := if index == |stops| then 0 else stops[index].custNo;
    (cost - Dist(inst, before, stops[index].custNo) - Dist(inst, stops[index].custNo, after)
     + Dist(inst, before, stop.custNo) + Dist(inst, stop.custNo, after),
     usedCap - stops[index].capacity + stop.capacity <= inst.vehicleCapacity)
  }

  /** Four customers one unit apart (the depot included). */
  function UnitInstance(): (inst: Instance)
    ensures inst.Valid()
  {
    Instance(4, 1, 10, [0, 0, 0, 0],
             [[0.0, 1.0, 1.0, 1.0], [1.0, 0.0, 1.0, 1.0], [1.0, 1.0, 0.0, 1.0], [1.0, 1.0, 1.0, 0.0]], 3)
  }

  /** On the route 0 -> 1 -> 2 -> 0 (cost 3), replacing customer 1 by 3
      gives 0 -> 3 -> 2 -> 0, which also costs 3; the formula as written
      predicts 4. */
  lemma ReplaceStopAsWrittenIsWrong()
    ensures var inst := UnitInstance();
            var stops := [Stop(1, 0), Stop(2, 0)];
            StopsInRange(inst, stops)
            && ReplaceStopAsWritten(inst, stops, RouteCost(inst, stops), 0, Stop(3, 0), 0).0 == 4.0
            && RouteCost(inst, stops[0 := Stop(3, 0)]) == 3.0
  {
    var inst := UnitInstance();
    var stops := [Stop(1, 0), Stop(2, 0)];
    assert CustNos(stops) == [1, 2];
    assert Tour([1, 2]) == [0, 1, 2, 0];
    assert PathCost(inst, [2, 0]) == 1.0 by {
      assert PathCost(inst, [0]) == 0.0;
    }
    assert PathCost(inst, [0, 1, 2, 0]) == 3.0 by {
      assert [0, 1, 2, 0][1..] == [1, 2, 0] && [1, 2, 0][1..] == [2, 0];
    }
    assert CustNos(stops[0 := Stop(3, 0)]) == [3, 2];
    assert Tour([3, 2]) == [0, 3, 2, 0];
    assert PathCost(inst, [0, 3, 2, 0]) == 3.0 by {
      assert [0, 3, 2, 0][1..] == [3, 2, 0] && [3, 2, 0][1..] == [2, 0];
      assert PathCost(inst, [0]) == 0.0;
    }
  }

  /** The text `to_string` writes for one route: `0`, then ` c` per stop, then ` 0`. */
  function RouteText(cs: seq<nat>): string
  {
    "0" + CustsText(cs) + " 0"
  }

  function CustsText(cs: seq<nat>): string
  {
    if cs == [] then "" else " " + NatToString(cs[0]) + CustsText(cs[1..])
  }

  /** The words of one route: the depot, the customers in order, the depot. */
  function RouteTokens(cs: seq<nat>): (ws: seq<string>)
    ensures |ws| == |cs| + 2 && ws[0] == "0" && ws[|ws| - 1] == "0"
    ensures forall k :: 0 <= k < |cs| ==> ws[k + 1] == NatToString(cs[k])
    ensures forall k :: 0 <= k < |ws| ==> IsWord(ws[k])
  {
    var nums := seq(|cs|, k requires 0 <= k < |cs| => NatToString(cs[k]));
    forall k | 0 <= k < |nums| ensures IsWord(nums[k]) {
      NatToStringIsWord(cs[k]);
    }
    ["0"] + nums + ["0"]
  }

  /** The route text is its words joined by single spaces. */
  lemma {:induction false} RouteTextIsJoin(cs: seq<nat>)
    ensures RouteText(cs) == Join(RouteTokens(cs), " ")
  {
    var ws := RouteTokens(cs);
    CustsTextJoin(cs);
    assert Join(ws, " ") == ws[0] + " " + Join(ws[1..], " ");
    assert RouteText(cs) == "0" + (CustsText(cs) + " 0");
  }

  lemma {:induction false} CustsTextJoin(cs: seq<nat>)
    ensures CustsText(cs) + " 0" == " " + Join(RouteTokens(cs)[1..], " ")
  {
    var ws := RouteTokens(cs);
    if cs == [] {
      assert ws[1..] == ["0"];
    } else {
      var n0 := NatToString(cs[0]);
      CustsTextJoin(cs[1..]);
      var rest := RouteTokens(cs[1..])[1..];
      assert rest == ws[2..];
      assert ws[1..] == [n0] + rest;
      assert |rest| >= 1;
      assert Join(ws[1..], " ") == n0 + " " + Join(rest, " ");
      calc {
        CustsText(cs) + " 0";
        " " + n0 + CustsText(cs[1..]) + " 0";
        " " + n0 + (CustsText(cs[1..]) + " 0");
        " " + n0 + (" " + Join(rest, " "));
        " " + (n0 + " " + Join(rest, " "));
      }
    }
  }

  /** `VRPSolution::to_string`: `0 ` followed by the route texts joined by spaces. */
  function SolutionText(v: seq<seq<Stop>>): string
  {
    "0 " + Join(seq(|v|, r requires 0 <= r < |v| => RouteText(CustNos(v[r]))), " ")
  }

  /** `VRPSolution::to_file_string` with the printed total cost given as
      text: a first line `<cost> 0`, then one line per route. */
  function FileText(costText: string, v: seq<seq<Stop>>): string
  {
    costText + " 0\n" + Flatten(seq(|v|, r requires 0 <= r < |v| => RouteText(CustNos(v[r])) + "\n"))
  }

  /** The words a solution text splits into: a leading depot, then each
      route's words in route order. */
  function SolutionWords(v: seq<seq<Stop>>): seq<string>
  {
    ["0"] + Flatten(seq(|v|, r requires 0 <= r < |v| => RouteTokens(CustNos(v[r]))))
  }

  /** Words joined group by group split back into the groups' words. */
  lemma {:induction false} WordsOfJoinedGroups(gs: seq<seq<string>>)
    requires forall g :: 0 <= g < |gs| ==> |gs[g]| > 0 && forall k :: 0 <= k < |gs[g]| ==> IsWord(gs[g][k])
    ensures Words(Join(seq(|gs|, g requires 0 <= g < |gs| => Join(gs[g], " ")), " ")) == Flatten(gs)
  {
    var ts := seq(|gs|, g requires 0 <= g < |gs| => Join(gs[g], " "));
    if |gs| == 1 {
      WordsJoin(gs[0]);
      assert Flatten(gs[1..]) == [];
      assert gs[0] + [] == gs[0];
    } else if |gs| > 1 {
      var tail := seq(|gs| - 1, g requires 0 <= g < |gs| - 1 => Join(gs[1..][g], " "));
      assert ts[1..] == tail;
      WordsJoinAppend(gs[0], ' ', Join(tail, " "));
      assert Join(ts, " ") == Join(gs[0], " ") + [' '] + Join(tail, " ");
      WordsOfJoinedGroups(gs[1..]);
    }
  }

  /** Lines of words, each ended by a newline, split into all their words. */
  lemma {:induction false} WordsOfLines(gs: seq<seq<string>>)
    requires forall g :: 0 <= g < |gs| ==> |gs[g]| > 0 && forall k :: 0 <= k < |gs[g]| ==> IsWord(gs[g][k])
    ensures Words(Flatten(seq(|gs|, g requires 0 <= g < |gs| => Join(gs[g], " ") + "\n"))) == Flatten(gs)
  {
    var ls := seq(|gs|, g requires 0 <= g < |gs| => Join(gs[g], " ") + "\n");
    if |gs| > 0 {
      var tail := seq(|gs| - 1, g requires 0 <= g < |gs| - 1 => Join(gs[1..][g], " ") + "\n");
      assert ls[1..] == tail;
      WordsJoinAppend(gs[0], '\n', Flatten(tail));
      assert Flatten(ls) == Join(gs[0], " ") + ['\n'] + Flatten(tail);
      WordsOfLines(gs[1..]);
    }
  }

  /** Splitting `to_string` at whitespace gives the depot and then, route
      by route, the depot, the route's customers and the depot. */
  lemma SolutionTextWords(v: seq<seq<Stop>>)
    ensures Words(SolutionText(v)) == SolutionWords(v)
  {
    var gs := seq(|v|, r requires 0 <= r < |v| => RouteTokens(CustNos(v[r])));
    var ts := seq(|v|, r requires 0 <= r < |v| => RouteText(CustNos(v[r])));
    forall r | 0 <= r < |v| ensures ts[r] == Join(gs[r], " ") {
      RouteTextIsJoin(CustNos(v[r]));
    }
    assert ts == seq(|gs|, g requires 0 <= g < |gs| => Join(gs[g], " "));
    WordsOfJoinedGroups(gs);
    assert SolutionText(v) == "0" + " " + Join(ts, " ");
    WordsCons("0", Join(ts, " "));
  }

  /** Splitting `to_file_string` at whitespace gives the cost and then the
      words of `to_string`. */
  lemma FileTextWords(costText: string, v: seq<seq<Stop>>)
    requires IsWord(costText)
    ensures Words(FileText(costText, v)) == [costText] + SolutionWords(v)
  {
    var gs := seq(|v|, r requires 0 <= r < |v| => RouteTokens(CustNos(v[r])));
    var ls := seq(|v|, r requires 0 <= r < |v| => RouteText(CustNos(v[r])) + "\n");
    forall r | 0 <= r < |v| ensures ls[r] == Join(gs[r], " ") + "\n" {
      RouteTextIsJoin(CustNos(v[r]));
    }
    assert ls == seq(|gs|, g requires 0 <= g < |gs| => Join(gs[g], " ") + "\n");
    WordsOfLines(gs);
    assert FileText(costText, v) == costText + " " + ("0" + ['\n'] + Flatten(ls));
    WordsCons(costText, "0" + ['\n'] + Flatten(ls));
    WordsSep("0", '\n', Flatten(ls));
  }

  /** The stop lists of a list of routes, in order. */
  function RoutesView(rs: seq<Route>): (v: seq<seq<Stop>>)
    reads rs
    ensures |v| == |rs|
    ensures forall i :: 0 <= i < |rs| ==> v[i] == rs[i].stops
  {
    seq(|rs|, i reads rs requires 0 <= i < |rs| => rs[i].stops)
  }

  /** The ids of the routes, in order. */
  ghost function RouteIds(rs: seq<Route>): (ids: seq<nat>)
    reads rs
    ensures |ids| == |rs| && forall i :: 0 <= i < |rs| ==> ids[i] == rs[i].id
  {
    seq(|rs|, i reads rs requires 0 <= i < |rs| => rs[i].id)
  }

  lemma RoutesViewOf(rs: seq<Route>, v: seq<seq<Stop>>)
    requires |rs| == |v| && forall k :: 0 <= k < |rs| ==> rs[k].stops == v[k]
    ensures RoutesView(rs) == v
  {
  }

  /** Every route of the list keeps the route invariant over `inst`, and no
      route object occurs twice. */
  ghost predicate RoutesValid(inst: Instance, rs: seq<Route>)
    reads rs
    ensures RoutesValid(inst, rs) ==> WellFormed(inst, RoutesView(rs))
  {
    inst.Valid()
    && (forall i :: 0 <= i < |rs| ==> rs[i].Valid() && rs[i].inst == inst)
    && (forall i, j :: 0 <= i < j < |rs| ==> rs[i] != rs[j])
  }

  /** The position of the first route holding customer c
      (`position` over `contains_stop`). */
  method RouteIndexOf(rs: seq<Route>, c: nat) returns (r: Option<nat>)
    ensures r == RouteWith(RoutesView(rs), c)
  {
    ghost var v := RoutesView(rs);
    var i := 0;
    while i < |rs|
      invariant i <= |rs|
      invariant forall q :: 0 <= q < i ==> c !in CustNos(v[q])
    {
      if rs[i].ContainsStop(c) {
        assert RouteWith(v, c).Some?;
        return Some(i);
      }
      i := i + 1;
    }
    return None;
  }

  /** Taking one route out of a list of routes: the rest are still valid,
      none of them is the one taken out, and their stop lists are the view
      with that route taken out. */
  lemma RoutesRemoveAt(inst: Instance, rs: seq<Route>, k: nat)
    requires RoutesValid(inst, rs) && k < |rs|
    ensures RoutesValid(inst, RemoveAt(rs, k))
    ensures RoutesView(RemoveAt(rs, k)) == RemoveAt(RoutesView(rs), k)
    ensures forall q :: 0 <= q < |rs| - 1 ==> RemoveAt(rs, k)[q] != rs[k] && RemoveAt(rs, k)[q] in rs
  {
    var t := RemoveAt(rs, k);
    forall a, b | 0 <= a < b < |t| ensures t[a] != t[b] {
      var a', b' := if a < k then a else a + 1, if b < k then b else b + 1;
      assert t[a] == rs[a'] && t[b] == rs[b'];
    }
    forall q | 0 <= q < |t| ensures t[q] != rs[k] && t[q] in rs {
      var q' := if q < k then q else q + 1;
      assert t[q] == rs[q'];
    }
  }

  /** A valid route that is not on a valid list yet may join it at the end. */
  lemma RoutesSnoc(inst: Instance, rs: seq<Route>, r: Route)
    requires RoutesValid(inst, rs) && r.Valid() && r.inst == inst && r !in rs
    ensures RoutesValid(inst, rs + [r])
    ensures RoutesView(rs + [r]) == RoutesView(rs) + [r.stops]
  {
    var t := rs + [r];
    forall a, b | 0 <= a < b < |t| ensures t[a] != t[b] {
      if b == |rs| {
        assert t[a] == rs[a];
      } else {
        assert t[a] == rs[a] && t[b] == rs[b];
      }
    }
  }

  /** A valid route that is on no valid list may take the place of one of its routes. */
  lemma RoutesReplace(inst: Instance, rs: seq<Route>, k: nat, r: Route)
    requires RoutesValid(inst, rs) && k < |rs| && r.Valid() && r.inst == inst && r !in rs
    ensures RoutesValid(inst, rs[k := r])
    ensures RoutesView(rs[k := r]) == RoutesView(rs)[k := r.stops]
  {
  }

  /** Shuffling a list of routes by a permutation of its positions keeps
      it valid and shuffles its view the same way. */
  lemma RoutesPermute(inst: Instance, rs: seq<Route>, perm: seq<nat>)
    requires RoutesValid(inst, rs) && IsPermutation(perm, |rs|)
    ensures forall k :: 0 <= k < |perm| ==> perm[k] < |rs|
    ensures RoutesValid(inst, Permute(rs, perm))
    ensures RoutesView(Permute(rs, perm)) == Permute(RoutesView(rs), perm)
  {
    PermutationFacts(perm, |rs|);
  }

  /** `VRPSolution`: one route per vehicle. */
  class VRPSolution {
    var routes: seq<Route>

    /** Every route keeps the route invariant over the same instance, and no
        route object is shared between two vehicles. */
    ghost predicate Valid(inst: Instance)
      reads this, routes
      ensures Valid(inst) ==> WellFormed(inst, View())
    {
      RoutesValid(inst, routes)
    }

    /** The stop lists of the routes, in vehicle order. */
    function View(): (v: seq<seq<Stop>>)
      reads this, routes
      ensures v == RoutesView(routes)
    {
      RoutesView(routes)
    }

    /** `VRPSolution::new`: `num_vehicles` empty routes with ids 0..num_vehicles. */
    constructor (inst: Instance)
      requires inst.Valid()
      ensures Valid(inst) && View() == EmptyView(inst.numVehicles)
      ensures forall i :: 0 <= i < |routes| ==> fresh(routes[i]) && routes[i].id == i
    {
      var rs: seq<Route> := [];
      var i := 0;
      while i < inst.numVehicles
        invariant i <= inst.numVehicles && |rs| == i
        invariant forall k :: 0 <= k < i ==> fresh(rs[k]) && rs[k].Valid() && rs[k].inst == inst
                                             && rs[k].id == k && rs[k].stops == []
        invariant forall a, b :: 0 <= a < b < i ==> rs[a] != rs[b]
      {
        var r := new Route(inst, i);
        rs := rs + [r];
        i := i + 1;
      }
      routes := rs;
    }

    /** `VRPSolution::cost`: the sum of the cached route costs, which is the
        from-scratch total cost. */
    method Cost(ghost inst: Instance) returns (total: real)
      requires Valid(inst)
      ensures total == TotalCost(inst, View())
    {
      total := 0.0;
      var i := 0;
      while i < |routes|
        invariant i <= |routes|
        invariant total == TotalCost(inst, View()[..i])
      {
        var v := View();
        assert v[..i + 1] == v[..i] + [v[i]];
        TotalCostAppend(inst, v[..i], [v[i]]);
        assert [v[i]][1..] == [];
        total := total + routes[i].cost;
        i := i + 1;
      }
      assert View()[..|routes|] == View();
    }

    /** `is_valid_solution`: true exactly when no route is over capacity and
        every customer 1..n-1 is on some route (the source panics instead of
        answering false). */
    method IsValidSolution(inst: Instance) returns (ok: bool)
      requires Valid(inst)
      ensures ok <==> WithinCapacity(inst, View()) && Covers(inst, View())
    {
      var i := 0;
      while i < |routes|
        invariant i <= |routes|
        invariant forall r :: 0 <= r < i ==> SumCap(routes[r].stops) <= inst.vehicleCapacity
      {
        if routes[i].usedCap > inst.vehicleCapacity {
          assert SumCap(View()[i]) > inst.vehicleCapacity;
          return false;
        }
        i := i + 1;
      }
      assert WithinCapacity(inst, View());
      var c := 1;
      while c < inst.numCustomers
        invariant 1 <= c <= inst.numCustomers
        invariant forall d :: 1 <= d < c ==> Served(View(), d)
      {
        var visited := false;
        var r := 0;
        while r < |routes| && !visited
          invariant r <= |routes|
          invariant visited ==> Served(View(), c)
          invariant !visited ==> forall q :: 0 <= q < r ==> c !in CustNos(View()[q])
        {
          visited := routes[r].ContainsStop(c);
          r := r + 1;
        }
        if !visited {
          assert !Served(View(), c);
          return false;
        }
        c := c + 1;
      }
      return true;
    }

    /** `to_string`: splitting it at whitespace gives the depot, then the
        words of each route in order. */
    function ToString(): (s: string)
      reads this, routes
      ensures Words(s) == SolutionWords(View())
    {
      SolutionTextWords(View());
      SolutionText(View())
    }

    /** `to_file_string`: the total cost as `show` prints it (the program
        formats the `f64` of `cost` with `Display`), then " 0", then one
        line per route. When the printed cost is one word, the words of
        the text are that cost and then the words of `to_string`. */
    function ToFileString(inst: Instance, show: real -> string): (s: string)
      requires Valid(inst)
      reads this, routes
      ensures IsWord(show(TotalCost(inst, View())))
              ==> Words(s) == [show(TotalCost(inst, View()))] + SolutionWords(View())
    {
      var costText := show(TotalCost(inst, View()));
      if IsWord(costText) then FileTextWords(costText, View()); FileText(costText, View())
      else FileText(costText, View())
    }

    /** `clone`: fresh routes with the same contents. */
    method Clone(ghost inst: Instance) returns (c: VRPSolution)
      requires Valid(inst)
      ensures fresh(c) && c.Valid(inst) && c.View() == View()
      ensures forall i :: 0 <= i < |c.routes| ==> fresh(c.routes[i]) && c.routes[i].id == routes[i].id
    {
      var rs := CloneRoutes(inst, routes);
      c := new VRPSolution.FromRoutes(inst, rs);
    }

    /** Fresh copies of the routes, in order. */
    static method CloneRoutes(ghost inst: Instance, routes: seq<Route>) returns (rs: seq<Route>)
      requires RoutesValid(inst, routes)
      ensures RoutesValid(inst, rs) && RoutesView(rs) == RoutesView(routes) && |rs| == |routes|
      ensures forall k :: 0 <= k < |rs| ==> fresh(rs[k]) && rs[k].id == routes[k].id
    {
      ghost var v, ids := RoutesView(routes), RouteIds(routes);
      rs := [];
      var i := 0;
      while i < |routes|
        invariant i <= |routes| && |rs| == i && RoutesValid(inst, rs)
        invariant forall k :: 0 <= k < i ==> fresh(rs[k]) && rs[k].stops == v[k] && rs[k].id == ids[k]
      {
        rs := PushClone(inst, rs, routes[i]);
        i := i + 1;
      }
      RoutesViewOf(rs, v);
    }

    /** The routes rs followed by a fresh copy of src. */
    static method PushClone(ghost inst: Instance, rs: seq<Route>, src: Route) returns (rs': seq<Route>)
      requires RoutesValid(inst, rs) && src.Valid() && src.inst == inst
      ensures RoutesValid(inst, rs') && |rs'| == |rs| + 1
      ensures forall k :: 0 <= k < |rs| ==> rs'[k] == rs[k]
      ensures fresh(rs'[|rs|]) && rs'[|rs|].stops == src.stops && rs'[|rs|].id == src.id
    {
      var r := src.Clone();
      rs' := rs + [r];
    }

    /** A solution over the given routes. */
    constructor FromRoutes(ghost inst: Instance, rs: seq<Route>)
      requires RoutesValid(inst, rs)
      ensures routes == rs && Valid(inst) && View() == RoutesView(rs)
    {
      routes := rs;
    }

    /** `clone_from`: with as many routes as the source, each route is
        overwritten field by field with its source route. */
    method CloneFrom(ghost inst: Instance, source: VRPSolution)
      requires Valid(inst) && source.Valid(inst)
      requires |routes| == |source.routes|
      requires forall i, j :: 0 <= i < |routes| && 0 <= j < |source.routes| ==> routes[i] != source.routes[j]
      modifies routes
      ensures routes == old(routes) && Valid(inst) && View() == source.View() && View() == old(source.View())
      ensures forall i :: 0 <= i < |routes| ==> routes[i].id == source.routes[i].id
    {
      ghost var sv, sids := source.View(), RouteIds(source.routes);
      var i := 0;
      while i < |routes|
        invariant i <= |routes| && RoutesValid(inst, routes)
        invariant source.Valid(inst) && source.View() == sv && RouteIds(source.routes) == sids
        invariant forall k :: 0 <= k < i ==> routes[k].stops == sv[k] && routes[k].id == sids[k]
      {
        CopyRoute(inst, i, source, sv, sids);
        i := i + 1;
      }
    }

    /** One step of `clone_from`: route i takes the fields of the source's route i. */
    method CopyRoute(ghost inst: Instance, i: nat, source: VRPSolution, ghost sv: seq<seq<Stop>>, ghost sids: seq<nat>)
      requires RoutesValid(inst, routes) && source.Valid(inst) && i < |routes| == |source.routes|
      requires source.View() == sv && RouteIds(source.routes) == sids
      requires forall j :: 0 <= j < |source.routes| ==> routes[i] != source.routes[j]
      modifies routes[i]
      ensures RoutesValid(inst, routes) && source.Valid(inst)
      ensures source.View() == sv && RouteIds(source.routes) == sids
      ensures routes[i].stops == sv[i] && routes[i].id == sids[i]
      ensures forall k :: 0 <= k < |routes| && k != i ==> routes[k].stops == old(routes[k].stops) && routes[k].id == old(routes[k].id)
    {
      routes[i].CopyFrom(source.routes[i]);
    }

    /** `routes[k] = r` for a route that is not yet in the solution. */
    method SetRoute(ghost inst: Instance, k: nat, r: Route)
      requires Valid(inst) && k < |routes| && r.Valid() && r.inst == inst && r !in routes
      modifies this
      ensures Valid(inst) && routes == old(routes)[k := r]
      ensures View() == old(View())[k := r.stops]
    {
      RoutesReplace(inst, routes, k, r);
      routes := routes[k := r];
    }

    /** `routes.shuffle(rng)` with the drawn permutation of the vehicle positions. */
    method PermuteRoutes(ghost inst: Instance, perm: seq<nat>)
      requires Valid(inst) && IsPermutation(perm, |routes|)
      modifies this
      ensures forall k :: 0 <= k < |perm| ==> perm[k] < |old(routes)|
      ensures Valid(inst) && routes == Permute(old(routes), perm)
      ensures View() == Permute(old(View()), perm)
    {
      RoutesPermute(inst, routes, perm);
      routes := Permute(routes, perm);
    }

    /** `routes[k].add_stop_to_index(stop, index)`: only route k changes. */
    method AddStopToRoute(ghost inst: Instance, k: nat, stop: Stop, index: nat)
      requires Valid(inst) && k < |routes| && index <= |routes[k].stops| && stop.custNo < inst.numCustomers
      requires stop.custNo !in CustNos(routes[k].stops)
      modifies routes[k]
      ensures Valid(inst) && routes == old(routes) && routes[k].id == old(routes[k].id)
      ensures View() == old(View())[k := Insert(old(View())[k], index, stop)]
    {
      routes[k].AddStopToIndex(stop, index);
    }

    /** `routes[k].remove_stop_at_index(index)`: only route k changes. */
    method RemoveStopFromRoute(ghost inst: Instance, k: nat, index: nat) returns (stop: Stop)
      requires Valid(inst) && k < |routes| && index < |routes[k].stops|
      modifies routes[k]
      ensures Valid(inst) && routes == old(routes) && routes[k].id == old(routes[k].id)
      ensures stop == old(View())[k][index]
      ensures View() == old(View())[k := RemoveAt(old(View())[k], index)]
    {
      stop := routes[k].RemoveStopAtIndex(index);
    }

    /** `routes[k].retain_stops(keep)`: only route k changes. */
    method RetainInRoute(ghost inst: Instance, k: nat, keep: Stop -> bool)
      requires Valid(inst) && k < |routes|
      modifies routes[k]
      ensures Valid(inst) && routes == old(routes) && routes[k].id == old(routes[k].id)
      ensures View() == old(View())[k := Filter(old(View())[k], keep)]
    {
      routes[k].RetainStops(keep);
    }
  }
}
