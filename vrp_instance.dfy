/** The problem instance (`VRPInstance`) and its `max_route_len` hint.
    Reading the instance file and computing the Euclidean distances are
    outside the model: an instance is given with its distance matrix. */
module VrpInstance {
  import opened Prelude
  import opened Sorting

  /** Customer 0 is the depot; customers are 0..numCustomers-1. Customer
      numbers are converted to `u16` by the program, hence the bound. */
  datatype Instance = Instance(
    numCustomers: nat,
    numVehicles: nat,
    vehicleCapacity: nat,
    demand: seq<nat>,
    dist: seq<seq<real>>,
    maxRouteLen: nat)
  {
    /** The shape every parsed instance has: one demand and one matrix row per
        customer, a square matrix with a zero diagonal. */
    predicate Valid()
    {
      1 <= numCustomers <= 65536
      && |demand| == numCustomers
      && |dist| == numCustomers
      && (forall i :: 0 <= i < numCustomers ==> |dist[i]| == numCustomers)
      && (forall i :: 0 <= i < numCustomers ==> dist[i][i] == 0.0)
    }
  }

  /** The demands `max_route_len` walks over: index 0 swap-removed, then sorted ascending. */
  function CustomerDemandsAscending(demands: seq<nat>): (r: seq<nat>)
    requires |demands| >= 1
    ensures |r| == |demands| - 1
    ensures SortedBy(r, NatKey())
    ensures multiset(r) + multiset{demands[0]} == multiset(demands)
  {
    SortBySorted(SwapRemove(demands, 0).1, NatKey());
    SortBy(SwapRemove(demands, 0).1, NatKey())
  }

  /** `max_route_len`: the number of smallest demands taken while the running
      total is still below the capacity (the last one taken may overshoot). */
  method MaxRouteLen(demands: seq<nat>, capacity: nat) returns (count: nat)
    requires |demands| >= 1
    ensures count <= |demands| - 1
    ensures capacity == 0 ==> count == 0
    ensures forall k :: 0 <= k < count ==> Sum(CustomerDemandsAscending(demands)[..k]) < capacity
    ensures count < |demands| - 1 ==> Sum(CustomerDemandsAscending(demands)[..count]) >= capacity
  {
    var sorted := CustomerDemandsAscending(demands);
    count := CountBelow(sorted, capacity);
    forall k | 0 <= k < count
      ensures Sum(sorted[..k]) < capacity
    {
      PrefixSumMonotone(sorted, k, count - 1);
    }
  }

  /** The loop of `max_route_len`: add demands while the total is below the capacity. */
  method CountBelow(sorted: seq<nat>, capacity: nat) returns (count: nat)
    ensures count <= |sorted|
    ensures count > 0 ==> Sum(sorted[..count - 1]) < capacity
    ensures count < |sorted| ==> Sum(sorted[..count]) >= capacity
  {
    var usedCap: nat := 0;
    count := 0;
    while count < |sorted|
      invariant count <= |sorted|
      invariant usedCap == Sum(sorted[..count])
      invariant count > 0 ==> Sum(sorted[..count - 1]) < capacity
    {
      if usedCap >= capacity {
        break;
      }
      PrefixSumStep(sorted, count);
      count := count + 1;
      usedCap := usedCap + sorted[count - 1];
    }
  }

  lemma PrefixSumStep(s: seq<nat>, i: nat)
    requires i < |s|
    ensures Sum(s[..i + 1]) == Sum(s[..i]) + s[i]
  {
    assert s[..i + 1] == s[..i] + [s[i]];
    SumAppend(s[..i], [s[i]]);
    assert Sum([s[i]]) == s[i];
  }

  /** Prefix sums of the ascending demands never decrease. */
  lemma {:induction false} PrefixSumMonotone(s: seq<nat>, i: nat, j: nat)
    requires i <= j <= |s|
    ensures Sum(s[..i]) <= Sum(s[..j])
  {
    assert s[..j] == s[..i] + s[i..j];
    SumAppend(s[..i], s[i..j]);
  }

  /** If the hint is k > 0, the k-1 smallest customer demands fit strictly
      below the capacity, and taking k of them reaches it unless every
      customer was counted. */
  lemma MaxRouteLenMeaning(demands: seq<nat>, capacity: nat, count: nat)
    requires |demands| >= 1
    requires count <= |demands| - 1
    requires forall k :: 0 <= k < count ==> Sum(CustomerDemandsAscending(demands)[..k]) < capacity
    requires count < |demands| - 1 ==> Sum(CustomerDemandsAscending(demands)[..count]) >= capacity
    ensures count > 0 ==> Sum(CustomerDemandsAscending(demands)[..count - 1]) < capacity
    ensures forall k :: count <= k <= |demands| - 1 && count < |demands| - 1 ==>
              Sum(CustomerDemandsAscending(demands)[..k]) >= capacity
  {
    var s := CustomerDemandsAscending(demands);
    forall k | count <= k <= |demands| - 1 && count < |demands| - 1
      ensures Sum(s[..k]) >= capacity
    {
      PrefixSumMonotone(s, count, k);
    }
  }
}
