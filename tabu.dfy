/** The tabu pool both LNS solvers keep (`stop_tabu`, `stop_not_tabu`):
    a FIFO queue of the customers removed most recently and the list of
    customers that may be removed next. Together they list every customer
    1..n-1 once; the queue holds at most a tenth of the customers. */
module Tabu {
  import opened Prelude
  import opened VrpInstance

  /** What `assert_tabu_sanity` checks: the queue followed by the free list
      holds the customers 1..n-1, each exactly once. */
  ghost predicate TabuPartition(inst: Instance, tabu: seq<nat>, notTabu: seq<nat>)
  {
    multiset(tabu + notTabu) == multiset(Range(1, inst.numCustomers))
  }

  /** The longest the queue may stay after `update_tabu`. */
  function TabuLimit(inst: Instance): nat
  {
    inst.numCustomers / 10
  }

  /** A list of hi - lo numbers that contains each of lo..hi-1 is an
      arrangement of lo..hi-1 (the pigeonhole step behind the sanity check). */
  lemma {:induction false} CoveringIsArrangement(s: seq<nat>, lo: nat, hi: nat)
    requires lo <= hi && |s| == hi - lo
    requires forall c :: lo <= c < hi ==> c in s
    ensures multiset(s) == multiset(Range(lo, hi))
    decreases hi - lo, 1
  {
    if lo < hi {
      var x: nat := hi - 1;
      assert x in s;
      var j :| 0 <= j < |s| && s[j] == x;
      var t := RemoveAt(s, j);
      MultisetRemoveAtSum(s, j);
      forall c: nat | lo <= c < hi - 1
        ensures c in t
      {
        assert c in s;
        assert c in multiset(s);
        assert c in multiset(t);
      }
      CoveringStep(s, t, x, lo, hi);
    } else {
      assert s == [] && Range(lo, hi) == [];
    }
  }

  /** The inductive step: taking the largest value hi-1 out of the list
      leaves a covering of lo..hi-2. */
  lemma {:induction false} CoveringStep(s: seq<nat>, t: seq<nat>, x: nat, lo: nat, hi: nat)
    requires lo < hi && x == hi - 1 && |t| == hi - 1 - lo
    requires multiset(s) == multiset(t) + multiset{x}
    requires forall c :: lo <= c < hi - 1 ==> c in t
    ensures multiset(s) == multiset(Range(lo, hi))
    decreases hi - lo, 0
  {
    CoveringIsArrangement(t, lo, hi - 1);
    var r1 := Range(lo, hi - 1);
    RangeMultisetSnoc(lo, hi, x);
    assert multiset(t) == multiset(r1);
  }

  /** The range lo..hi-1 holds the range lo..hi-2 and hi-1. */
  lemma RangeMultisetSnoc(lo: nat, hi: nat, x: nat)
    requires lo < hi && x == hi - 1
    ensures multiset(Range(lo, hi)) == multiset(Range(lo, hi - 1)) + multiset{x}
  {
    RangeSnoc(lo, hi);
  }

  /** `assert_tabu_sanity` as a test: the combined list has n-1 entries and
      contains every customer, which is exactly the partition property. */
  method TabuSane(inst: Instance, tabu: seq<nat>, notTabu: seq<nat>) returns (ok: bool)
    requires inst.Valid()
    ensures ok <==> TabuPartition(inst, tabu, notTabu)
  {
    var full := tabu + notTabu;
    if |full| != inst.numCustomers - 1 {
      assert |multiset(full)| != |multiset(Range(1, inst.numCustomers))|;
      return false;
    }
    var c := 1;
    while c < inst.numCustomers
      invariant 1 <= c <= inst.numCustomers
      invariant forall d :: 1 <= d < c ==> d in full
    {
      if c !in full {
        assert Range(1, inst.numCustomers)[c - 1] == c;
        assert c in multiset(Range(1, inst.numCustomers));
        return false;
      }
      c := c + 1;
    }
    CoveringIsArrangement(full, 1, inst.numCustomers);
    return true;
  }

  /** The pool after `update_tabu`: the removed customers join the back of
      the queue, then the oldest leave it for the free list until the queue
      is back within `limit`. */
  function TabuUpdated(tabu: seq<nat>, notTabu: seq<nat>, custs: seq<nat>, limit: nat): (seq<nat>, seq<nat>)
  {
    var q := tabu + custs;
    if |q| <= limit then (q, notTabu)
    else (q[|q| - limit..], notTabu + q[..|q| - limit])
  }

  /** The update keeps every customer in the pool, keeps the newest ones in
      the queue, in arrival order, and bounds the queue. */
  lemma TabuUpdatedFacts(tabu: seq<nat>, notTabu: seq<nat>, custs: seq<nat>, limit: nat)
    ensures var (t, f) := TabuUpdated(tabu, notTabu, custs, limit);
            multiset(t + f) == multiset(tabu + notTabu) + multiset(custs)
            && |t| == (if |tabu + custs| <= limit then |tabu + custs| else limit)
            && t == (tabu + custs)[|tabu + custs| - |t|..]
            && f[..|notTabu|] == notTabu
  {
    var q := tabu + custs;
    if |q| > limit {
      assert q == q[..|q| - limit] + q[|q| - limit..];
    }
  }

  /** Once the removed customers are back on the routes, the pool lists
      every customer once again. */
  lemma {:induction false} TabuUpdatedPartition(inst: Instance, tabu: seq<nat>, notTabu: seq<nat>,
                                                custs: seq<nat>, limit: nat)
    requires multiset(tabu + notTabu) + multiset(custs) == multiset(Range(1, inst.numCustomers))
    ensures TabuPartition(inst, TabuUpdated(tabu, notTabu, custs, limit).0,
                          TabuUpdated(tabu, notTabu, custs, limit).1)
  {
    TabuUpdatedFacts(tabu, notTabu, custs, limit);
  }

  /** `update_tabu`: push every removed customer to the back of the queue,
      then pop from the front into the free list while the queue is too long. */
  method UpdateTabu(tabu: seq<nat>, notTabu: seq<nat>, custs: seq<nat>, limit: nat)
    returns (tabu': seq<nat>, notTabu': seq<nat>)
    ensures (tabu', notTabu') == TabuUpdated(tabu, notTabu, custs, limit)
  {
    tabu', notTabu' := tabu, notTabu;
    for k := 0 to |custs|
      invariant tabu' == tabu + custs[..k] && notTabu' == notTabu
    {
      assert custs[..k + 1] == custs[..k] + [custs[k]];
      tabu' := tabu' + [custs[k]];
    }
    assert custs[..|custs|] == custs;
    ghost var q := tabu + custs;
    ghost var d := 0;
    while |tabu'| > limit
      invariant 0 <= d <= |q| && tabu' == q[d..] && notTabu' == notTabu + q[..d]
      invariant d > 0 ==> |q| - d >= limit
      decreases |tabu'|
    {
      var allowed := tabu'[0];
      assert q[..d + 1] == q[..d] + [allowed];
      tabu' := tabu'[1..];
      notTabu' := notTabu' + [allowed];
      d := d + 1;
    }
  }

  /** Customers drawn one at a time from the free list with `swap_remove`
      at position `draw % len` (`random_range(0..len)`), and the free list
      that remains. */
  function Drawn(pool: seq<nat>, draws: seq<nat>): (r: (seq<nat>, seq<nat>))
    requires |draws| <= |pool|
    ensures |r.0| == |draws| && |r.1| == |pool| - |draws|
    ensures multiset(r.0) + multiset(r.1) == multiset(pool)
    decreases |draws|
  {
    if draws == [] then ([], pool)
    else
      var prev := Drawn(pool, draws[..|draws| - 1]);
      var i := draws[|draws| - 1] % |prev.1|;
      var picked := SwapRemove(prev.1, i);
      assert multiset(prev.0 + [picked.0]) == multiset(prev.0) + multiset{picked.0};
      (prev.0 + [picked.0], picked.1)
  }

  /** The drawn customers are distinct when the free list has no repeats. */
  lemma {:induction false} DrawnDistinct(pool: seq<nat>, draws: seq<nat>)
    requires |draws| <= |pool| && Distinct(pool)
    ensures Distinct(Drawn(pool, draws).0) && Distinct(Drawn(pool, draws).1)
  {
    var r := Drawn(pool, draws);
    DistinctCounts(pool);
    assert forall x :: multiset(r.0)[x] <= 1 && multiset(r.1)[x] <= 1 by {
      forall x ensures multiset(r.0)[x] <= 1 && multiset(r.1)[x] <= 1 {
        assert multiset(r.0)[x] + multiset(r.1)[x] == multiset(pool)[x];
      }
    }
    CountsDistinct(r.0);
    CountsDistinct(r.1);
  }

  /** One more draw takes the customer at `draw % len` out of what is left. */
  lemma DrawnStep(pool: seq<nat>, draws: seq<nat>, k: nat)
    requires k < |draws| && k < |pool|
    ensures |Drawn(pool, draws[..k]).1| > 0
    ensures Drawn(pool, draws[..k + 1])
         == (Drawn(pool, draws[..k]).0 + [SwapRemove(Drawn(pool, draws[..k]).1, draws[k] % |Drawn(pool, draws[..k]).1|).0],
             SwapRemove(Drawn(pool, draws[..k]).1, draws[k] % |Drawn(pool, draws[..k]).1|).1)
  {
    assert draws[..k + 1][..k] == draws[..k];
  }

  /** The drawing loop of `remove_n_random_stops`: n customers taken from
      the free list, which shrinks in place. */
  method DrawCustomers(notTabu: seq<nat>, n: nat, draws: seq<nat>) returns (custs: seq<nat>, rest: seq<nat>)
    requires n <= |notTabu| && n <= |draws|
    ensures custs == Drawn(notTabu, draws[..n]).0 && rest == Drawn(notTabu, draws[..n]).1
  {
    custs, rest := [], notTabu;
    for k := 0 to n
      invariant custs == Drawn(notTabu, draws[..k]).0
      invariant rest == Drawn(notTabu, draws[..k]).1
    {
      DrawnStep(notTabu, draws, k);
      var picked := SwapRemove(rest, draws[k] % |rest|);
      custs := custs + [picked.0];
      rest := picked.1;
    }
  }
}
