/** A solution seen as a value: one stop list per vehicle. The predicates
    here say what a feasible solution is (every customer served exactly
    once, no vehicle over capacity) and what it costs. */
module Views {
  import opened Prelude
  import opened VrpInstance
  import opened Tours

  /** Every customer of every route is a row of the matrix, and no route visits a customer twice. */
  predicate WellFormed(inst: Instance, v: seq<seq<Stop>>)
  {
    forall r :: 0 <= r < |v| ==> StopsInRange(inst, v[r]) && NoDupCusts(v[r])
  }

  /** All customers served, counted with multiplicity. */
  function AllCusts(v: seq<seq<Stop>>): multiset<nat>
  {
    if v == [] then multiset{} else multiset(CustNos(v[0])) + AllCusts(v[1..])
  }

  /** Each customer 1..n-1 is served exactly once, and nothing else is served. */
  predicate ExactlyOnce(inst: Instance, v: seq<seq<Stop>>)
  {
    AllCusts(v) == multiset(Range(1, inst.numCustomers))
  }

  /** Some route visits customer c. */
  predicate Served(v: seq<seq<Stop>>, c: nat)
  {
    exists r :: 0 <= r < |v| && c in CustNos(v[r])
  }

  /** The first route holding customer c (`position` with `contains_stop`). */
  function RouteWith(v: seq<seq<Stop>>, c: nat): (r: Option<nat>)
    ensures r.Some? ==> r.value < |v| && c in CustNos(v[r.value])
                        && forall k :: 0 <= k < r.value ==> c !in CustNos(v[k])
    ensures r.None? <==> !Served(v, c)
  {
    if v == [] then None
    else if c in CustNos(v[0]) then Some(0)
    else match RouteWith(v[1..], c)
      case None =>
        assert forall k :: 1 <= k < |v| ==> v[k] == v[1..][k - 1];
        None
      case Some(k) =>
        assert v[1..][k] == v[k + 1];
        Some(k + 1)
  }

  /** Each customer 1..n-1 appears in some route (`is_valid_solution`'s second check). */
  predicate Covers(inst: Instance, v: seq<seq<Stop>>)
  {
    forall c :: 1 <= c < inst.numCustomers ==> Served(v, c)
  }

  /** No route carries more than the vehicle capacity. */
  predicate WithinCapacity(inst: Instance, v: seq<seq<Stop>>)
  {
    forall r :: 0 <= r < |v| ==> SumCap(v[r]) <= inst.vehicleCapacity
  }

  /** Every stop carries its customer's demand from the instance. */
  predicate DemandsMatch(inst: Instance, v: seq<seq<Stop>>)
    requires inst.Valid() && WellFormed(inst, v)
  {
    forall r, k :: 0 <= r < |v| && 0 <= k < |v[r]| ==> v[r][k].capacity == inst.demand[v[r][k].custNo]
  }

  /** A solution the search may hand out: well formed, exactly once, within capacity. */
  predicate Feasible(inst: Instance, v: seq<seq<Stop>>)
  {
    inst.Valid() && WellFormed(inst, v) && ExactlyOnce(inst, v) && WithinCapacity(inst, v)
    && DemandsMatch(inst, v)
  }

  /** The sum of the from-scratch route costs. */
  function TotalCost(inst: Instance, v: seq<seq<Stop>>): real
    requires inst.Valid() && WellFormed(inst, v)
  {
    if v == [] then 0.0 else RouteCost(inst, v[0]) + TotalCost(inst, v[1..])
  }

  /** `num_vehicles` empty routes. */
  function EmptyView(n: nat): (v: seq<seq<Stop>>)
    ensures |v| == n && forall r :: 0 <= r < n ==> v[r] == []
  {
    seq(n, _ => [])
  }

  /** Replacing one route changes the served multiset by that route's customers. */
  lemma {:induction false} AllCustsUpdate(v: seq<seq<Stop>>, k: nat, s: seq<Stop>)
    requires k < |v|
    ensures AllCusts(v[k := s]) + multiset(CustNos(v[k])) == AllCusts(v) + multiset(CustNos(s))
  {
    if k > 0 {
      var w := v[k := s];
      assert w[1..] == v[1..][k - 1 := s];
      assert w[0] == v[0] && v[1..][k - 1] == v[k];
      AllCustsUpdate(v[1..], k - 1, s);
      var a, x, y := multiset(CustNos(v[0])), AllCusts(w[1..]), AllCusts(v[1..]);
      var p, q := multiset(CustNos(v[k])), multiset(CustNos(s));
      assert x + p == y + q;
      calc {
        AllCusts(w) + p;
        (a + x) + p;
        a + (x + p);
        a + (y + q);
        (a + y) + q;
        AllCusts(v) + q;
      }
    } else {
      assert v[k := s][1..] == v[1..];
    }
  }

  lemma {:induction false} AllCustsAppend(v: seq<seq<Stop>>, w: seq<seq<Stop>>)
    ensures AllCusts(v + w) == AllCusts(v) + AllCusts(w)
  {
    if v == [] {
      assert v + w == w;
    } else {
      assert (v + w)[1..] == v[1..] + w;
      AllCustsAppend(v[1..], w);
    }
  }

  lemma AllCustsSnoc(p: seq<seq<Stop>>, x: seq<Stop>)
    ensures AllCusts(p + [x]) == AllCusts(p) + multiset(CustNos(x))
  {
    AllCustsAppend(p, [x]);
    assert [x][1..] == [];
  }

  /** Inserting a stop into one route adds its customer to the served ones. */
  lemma AllCustsInsert(v: seq<seq<Stop>>, k: nat, i: nat, x: Stop)
    requires k < |v| && i <= |v[k]|
    ensures AllCusts(v[k := Insert(v[k], i, x)]) == AllCusts(v) + multiset{x.custNo}
  {
    var s := Insert(v[k], i, x);
    AllCustsUpdate(v, k, s);
    CustNosInsert(v[k], i, x);
    MultisetInsert(CustNos(v[k]), i, x.custNo);
    var m := multiset(CustNos(v[k]));
    assert multiset(CustNos(s)) == m + multiset{x.custNo};
    MultisetCancel(AllCusts(v[k := s]), AllCusts(v) + multiset{x.custNo}, m);
  }

  /** A customer is served exactly when some route contains it. */
  lemma {:induction false} AllCustsMember(v: seq<seq<Stop>>, c: nat)
    ensures c in AllCusts(v) <==> Served(v, c)
  {
    if v != [] {
      AllCustsMember(v[1..], c);
      if c in CustNos(v[0]) {
        assert 0 < |v|;
      }
      if exists r :: 0 <= r < |v| && c in CustNos(v[r]) {
        var r :| 0 <= r < |v| && c in CustNos(v[r]);
        if r > 0 {
          assert v[1..][r - 1] == v[r];
        }
      }
      if exists r :: 0 <= r < |v[1..]| && c in CustNos(v[1..][r]) {
        var r :| 0 <= r < |v[1..]| && c in CustNos(v[1..][r]);
        assert v[1..][r] == v[r + 1];
      }
    }
  }

  /** Serving every customer exactly once in particular visits every customer. */
  lemma ExactlyOnceCovers(inst: Instance, v: seq<seq<Stop>>)
    requires ExactlyOnce(inst, v)
    ensures Covers(inst, v)
  {
    forall c | 1 <= c < inst.numCustomers
      ensures Served(v, c)
    {
      assert Range(1, inst.numCustomers)[c - 1] == c;
      assert c in multiset(Range(1, inst.numCustomers));
      AllCustsMember(v, c);
    }
  }

  lemma {:induction false} AllCustsEmpty(n: nat)
    ensures AllCusts(EmptyView(n)) == multiset{}
  {
    if n > 0 {
      assert EmptyView(n)[1..] == EmptyView(n - 1);
      AllCustsEmpty(n - 1);
      assert CustNos(EmptyView(n)[0]) == [];
    }
  }

  /** Each route's cost is part of the total: replacing one route changes
      the total by the difference of the two route costs. */
  lemma {:induction false} TotalCostUpdate(inst: Instance, v: seq<seq<Stop>>, k: nat, s: seq<Stop>)
    requires inst.Valid() && WellFormed(inst, v) && k < |v|
    requires StopsInRange(inst, s) && NoDupCusts(s)
    ensures WellFormed(inst, v[k := s])
    ensures TotalCost(inst, v[k := s]) == TotalCost(inst, v) - RouteCost(inst, v[k]) + RouteCost(inst, s)
  {
    var w := v[k := s];
    assert WellFormed(inst, w);
    if k > 0 {
      assert w[1..] == v[1..][k - 1 := s];
      TotalCostUpdate(inst, v[1..], k - 1, s);
    } else {
      assert w[1..] == v[1..];
    }
  }

  /** The total cost of two solutions side by side is the sum of their totals. */
  lemma {:induction false} TotalCostAppend(inst: Instance, a: seq<seq<Stop>>, b: seq<seq<Stop>>)
    requires inst.Valid() && WellFormed(inst, a) && WellFormed(inst, b)
    ensures WellFormed(inst, a + b)
    ensures TotalCost(inst, a + b) == TotalCost(inst, a) + TotalCost(inst, b)
  {
    forall r | 0 <= r < |a + b|
      ensures StopsInRange(inst, (a + b)[r]) && NoDupCusts((a + b)[r])
    {
      if r < |a| {
        assert (a + b)[r] == a[r];
      } else {
        assert (a + b)[r] == b[r - |a|];
      }
    }
    if a == [] {
      assert a + b == b;
    } else {
      assert (a + b)[1..] == a[1..] + b;
      TotalCostAppend(inst, a[1..], b);
    }
  }

  /** Taking route k out leaves the other routes' customers. */
  lemma {:induction false} AllCustsRemoveAt(v: seq<seq<Stop>>, k: nat)
    requires k < |v|
    ensures AllCusts(RemoveAt(v, k)) + multiset(CustNos(v[k])) == AllCusts(v)
  {
    var p, q := v[..k], v[k + 1..];
    SplitAt(v, k);
    assert v == p + ([v[k]] + q);
    AllCustsAppend(p, [v[k]] + q);
    AllCustsCons(v[k], q);
    AllCustsAppend(p, q);
  }

  lemma AllCustsCons(x: seq<Stop>, q: seq<seq<Stop>>)
    ensures AllCusts([x] + q) == multiset(CustNos(x)) + AllCusts(q)
  {
    assert ([x] + q)[1..] == q;
  }

  /** The served customers depend only on which stop lists there are, not their order. */
  lemma {:induction false} AllCustsMultiset(v: seq<seq<Stop>>, w: seq<seq<Stop>>)
    requires multiset(v) == multiset(w)
    ensures AllCusts(v) == AllCusts(w)
    decreases |v|
  {
    if v == [] {
      assert |w| == |multiset(w)| == 0;
    } else {
      assert v[0] in multiset(w);
      var i :| 0 <= i < |w| && w[i] == v[0];
      MultisetRemoveAtSum(w, i);
      SplitAt(v, 0);
      assert multiset(v) == multiset(v[1..]) + multiset{v[0]};
      MultisetCancel(multiset(v[1..]), multiset(RemoveAt(w, i)), multiset{v[0]});
      AllCustsMultiset(v[1..], RemoveAt(w, i));
      AllCustsRemoveAt(w, i);
      AllCustsCons(v[0], v[1..]);
    }
  }

  /** Each route's customers are among the solution's. */
  lemma AllCustsElement(v: seq<seq<Stop>>, k: nat)
    requires k < |v|
    ensures multiset(CustNos(v[k])) <= AllCusts(v)
  {
    AllCustsRemoveAt(v, k);
  }

  /** No customer is served twice, by one route or by two. */
  ghost predicate NoRepeats(v: seq<seq<Stop>>)
  {
    forall c :: AllCusts(v)[c] <= 1
  }

  lemma ExactlyOnceNoRepeats(inst: Instance, v: seq<seq<Stop>>)
    requires ExactlyOnce(inst, v)
    ensures NoRepeats(v)
  {
    DistinctCounts(Range(1, inst.numCustomers));
  }

  /** Two different routes of a solution without repeats share no customer. */
  lemma NoRepeatsDisjoint(v: seq<seq<Stop>>, a: nat, b: nat, c: nat)
    requires NoRepeats(v) && a < |v| && b < |v| && a != b
    requires c in CustNos(v[a])
    ensures c !in CustNos(v[b])
  {
    var lo, hi := if a < b then a else b, if a < b then b else a;
    AllCustsRemoveAt(v, hi);
    assert RemoveAt(v, hi)[lo] == v[lo];
    AllCustsElement(RemoveAt(v, hi), lo);
    assert multiset(CustNos(v[lo])) + multiset(CustNos(v[hi])) <= AllCusts(v);
    assert AllCusts(v)[c] <= 1;
  }

  /** Taking route k out takes its cost out of the total. */
  lemma TotalCostRemoveAt(inst: Instance, v: seq<seq<Stop>>, k: nat)
    requires inst.Valid() && WellFormed(inst, v) && k < |v|
    ensures WellFormed(inst, RemoveAt(v, k))
    ensures TotalCost(inst, RemoveAt(v, k)) == TotalCost(inst, v) - RouteCost(inst, v[k])
  {
    var p, q := v[..k], v[k + 1..];
    var t := [v[k]] + q;
    assert v == p + t;
    assert RemoveAt(v, k) == p + q;
    assert WellFormed(inst, p) by {
      forall r | 0 <= r < |p| ensures p[r] == v[r] { }
    }
    assert WellFormed(inst, q) by {
      forall r | 0 <= r < |q| ensures q[r] == v[k + 1 + r] { }
    }
    assert WellFormed(inst, t) by {
      forall r | 0 <= r < |t| ensures t[r] == v[k + r] { }
    }
    assert t[1..] == q;
    assert TotalCost(inst, t) == RouteCost(inst, v[k]) + TotalCost(inst, q);
    TotalCostAppend(inst, p, t);
    TotalCostAppend(inst, p, q);
  }

  lemma TotalCostSingle(inst: Instance, s: seq<Stop>)
    requires inst.Valid() && StopsInRange(inst, s) && NoDupCusts(s)
    ensures WellFormed(inst, [s]) && TotalCost(inst, [s]) == RouteCost(inst, s)
  {
    assert [s][1..] == [];
  }

  lemma TotalCostPair(inst: Instance, s: seq<Stop>, t: seq<Stop>)
    requires inst.Valid() && StopsInRange(inst, s) && NoDupCusts(s) && StopsInRange(inst, t) && NoDupCusts(t)
    ensures WellFormed(inst, [s, t]) && TotalCost(inst, [s, t]) == RouteCost(inst, s) + RouteCost(inst, t)
  {
    assert [s, t][1..] == [t];
    TotalCostSingle(inst, t);
  }
}
