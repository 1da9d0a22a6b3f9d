/** `check_sol.rs`: reading a solution string back into routes and checking
    that it serves every customer and keeps every route within capacity.
    Reading the JSON lines and the instance file is outside the model, and
    so is the Euclidean distance check, which needs the coordinates and a
    square root. Each `panic!` (and the `unwrap` of a token that is not a
    number, and a demand looked up past the end of the table) is a verdict
    of its own. */
module CheckSol {
  import opened Prelude
  import opened VrpInstance
  import opened Tours
  import opened Views
  import opened Text
  import opened Common

  /** The variables of the token loop: the routes recorded so far, the
      route being read, and every customer read (`customer_set`). */
  datatype ParseState = ParseState(routes: seq<seq<nat>>, route: seq<nat>, seen: set<nat>)

  const Start: ParseState := ParseState([], [], {})

  /** How the check ends: it passes, or it stops at its first panic. */
  datatype Verdict =
    | Passed
    | UnreadableToken(token: string)   // `parse().unwrap()`
    | MissingCustomer(customer: nat)   // "a customer isn't in the final route"
    | UnknownCustomer(customer: nat)   // `demand_of_customer[*x]` out of bounds
    | OverCapacity(route: nat)         // "over capacity"

  /** One token of the loop: a 0 closes the route being read and records
      it unless it is empty; any other customer joins the route being read. */
  function Step(st: ParseState, w: string): Option<ParseState>
  {
    match ParseNat(w)
    case None => None
    case Some(c) =>
      if c == 0 then Some(ParseState(if st.route != [] then st.routes + [st.route] else st.routes, [], st.seen))
      else Some(ParseState(st.routes, st.route + [c], st.seen + {c}))
  }

  /** What the loop has read: recorded routes are never empty and never
      hold the depot, nor does the route being read, and every customer of
      either has been seen. */
  ghost predicate Sound(st: ParseState)
  {
    (forall j :: 0 <= j < |st.routes| ==> st.routes[j] != [])
    && (forall j, k :: 0 <= j < |st.routes| && 0 <= k < |st.routes[j]| ==>
          st.routes[j][k] != 0 && st.routes[j][k] in st.seen)
    && (forall k :: 0 <= k < |st.route| ==> st.route[k] != 0 && st.route[k] in st.seen)
  }

  /** The loop over the tokens ws, from state st; None at the first token
      that is not a number. */
  function ParseFrom(st: ParseState, ws: seq<string>): (r: Option<ParseState>)
    ensures r.Some? && Sound(st) ==> Sound(r.value)
    ensures r.Some? ==> st.seen <= r.value.seen && |st.routes| <= |r.value.routes|
    decreases |ws|
  {
    if ws == [] then Some(st)
    else match Step(st, ws[0])
      case None => None
      case Some(next) => ParseFrom(next, ws[1..])
  }

  /** The token loop of `check` over `split_whitespace`, whose first token
      (the depot that opens the text) is skipped whatever it is. */
  function Parse(s: string): Option<ParseState>
  {
    ParseFrom(Start, Tokens(s))
  }

  /** The tokens the loop reads: every word of the text but the first. */
  function Tokens(s: string): seq<string>
  {
    var ws := Words(s);
    if ws == [] then [] else ws[1..]
  }

  /** The parse is sound: the recorded routes are non-empty lists of
      customers, all of them seen. */
  lemma ParseSound(s: string)
    ensures Parse(s).Some? ==> Sound(Parse(s).value)
  {
  }

  /** Reading tokens in two parts is reading them at once. */
  lemma {:induction false} ParseFromConcat(st: ParseState, a: seq<string>, b: seq<string>)
    ensures ParseFrom(st, a + b) == (match ParseFrom(st, a) case None => None case Some(m) => ParseFrom(m, b))
    decreases |a|
  {
    if a == [] {
      assert a + b == b;
    } else {
      assert (a + b)[0] == a[0] && (a + b)[1..] == a[1..] + b;
      match Step(st, a[0])
      case None =>
        assert ParseFrom(st, a + b) == None && ParseFrom(st, a) == None;
      case Some(next) =>
        assert ParseFrom(st, a + b) == ParseFrom(next, a[1..] + b);
        assert ParseFrom(st, a) == ParseFrom(next, a[1..]);
        ParseFromConcat(next, a[1..], b);
    }
  }

  /** One more token read by the loop. */
  lemma ParseFromSnoc(st: ParseState, ws: seq<string>, i: nat)
    requires i < |ws|
    ensures ParseFrom(st, ws[..i + 1])
         == (match ParseFrom(st, ws[..i]) case None => None case Some(m) => Step(m, ws[i]))
  {
    assert ws[..i + 1] == ws[..i] + [ws[i]];
    ParseFromConcat(st, ws[..i], [ws[i]]);
    match ParseFrom(st, ws[..i])
    case None =>
    case Some(m) =>
      assert [ws[i]][1..] == [];
      match Step(m, ws[i])
      case None =>
      case Some(next) =>
  }

  // ---------------------------------------------------------------------
  // The round trip with `VRPSolution::to_string`
  // ---------------------------------------------------------------------

  /** The printed customer numbers of a route. */
  function Printed(cs: seq<nat>): (ws: seq<string>)
    ensures |ws| == |cs| && forall k :: 0 <= k < |cs| ==> ws[k] == NatToString(cs[k])
  {
    seq(|cs|, k requires 0 <= k < |cs| => NatToString(cs[k]))
  }

  /** The customers of the routes that visit somebody, in route order. */
  function NonEmptyRoutes(v: seq<seq<Stop>>): seq<seq<nat>>
  {
    if v == [] then []
    else (if v[0] == [] then [] else [CustNos(v[0])]) + NonEmptyRoutes(v[1..])
  }

  /** The customers of a list, as a set. */
  function Members(cs: seq<nat>): (m: set<nat>)
    ensures forall x :: x in m <==> x in cs
  {
    if cs == [] then {} else {cs[0]} + Members(cs[1..])
  }

  /** The customers the routes visit, as a set. */
  function Visited(v: seq<seq<Stop>>): set<nat>
  {
    if v == [] then {} else Members(CustNos(v[0])) + Visited(v[1..])
  }

  /** No route visits the depot. */
  predicate NoDepot(v: seq<seq<Stop>>)
  {
    forall r, k :: 0 <= r < |v| && 0 <= k < |v[r]| ==> v[r][k].custNo != 0
  }

  /** Reading printed customers extends the route being read by them, in order. */
  lemma {:induction false} ParsePrinted(st: ParseState, cs: seq<nat>)
    requires forall k :: 0 <= k < |cs| ==> cs[k] != 0
    ensures ParseFrom(st, Printed(cs)) == Some(ParseState(st.routes, st.route + cs, st.seen + Members(cs)))
    decreases |cs|
  {
    if cs == [] {
      assert Printed(cs) == [];
      assert st.route + cs == st.route && st.seen + Members(cs) == st.seen;
    } else {
      var next := ParseState(st.routes, st.route + [cs[0]], st.seen + {cs[0]});
      PrintedHead(st, cs);
      ParsePrinted(next, cs[1..]);
      ExtendRoute(st, cs);
    }
  }

  /** Reading the first customer and then the rest is reading them all. */
  lemma ExtendRoute(st: ParseState, cs: seq<nat>)
    requires cs != []
    ensures ParseState(st.routes, (st.route + [cs[0]]) + cs[1..], (st.seen + {cs[0]}) + Members(cs[1..]))
         == ParseState(st.routes, st.route + cs, st.seen + Members(cs))
  {
    assert Members(cs) == {cs[0]} + Members(cs[1..]);
    assert (st.route + [cs[0]]) + cs[1..] == st.route + ([cs[0]] + cs[1..]);
    assert [cs[0]] + cs[1..] == cs;
  }

  /** The first printed customer joins the route being read. */
  lemma PrintedHead(st: ParseState, cs: seq<nat>)
    requires cs != [] && cs[0] != 0
    ensures ParseFrom(st, Printed(cs))
         == ParseFrom(ParseState(st.routes, st.route + [cs[0]], st.seen + {cs[0]}), Printed(cs[1..]))
  {
    ParseNatToString(cs[0]);
    var ws := Printed(cs);
    assert ws[0] == NatToString(cs[0]);
    assert ws[1..] == Printed(cs[1..]);
  }

  /** Reading the words of one route, from a state with no route open,
      records the route's customers when it has any. */
  lemma ParseRouteTokens(st: ParseState, s: seq<Stop>)
    requires st.route == [] && forall k :: 0 <= k < |s| ==> s[k].custNo != 0
    ensures ParseFrom(st, RouteTokens(CustNos(s)))
         == Some(ParseState(st.routes + (if s == [] then [] else [CustNos(s)]), [], st.seen + Members(CustNos(s))))
  {
    var cs := CustNos(s);
    var open := ["0"];
    assert RouteTokens(cs) == open + (Printed(cs) + open);
    ParseNatToString(0);
    assert Step(st, "0") == Some(st);
    assert ParseFrom(st, open) == Some(st) by {
      assert open[1..] == [];
    }
    ParseFromConcat(st, open, Printed(cs) + open);
    ParseFromConcat(st, Printed(cs), open);
    ParsePrinted(st, cs);
    var mid := ParseState(st.routes, st.route + cs, st.seen + Members(cs));
    assert mid.route == cs;
    var last := ParseState(st.routes + (if s == [] then [] else [cs]), [], st.seen + Members(cs));
    assert cs == [] <==> s == [];
    if s == [] {
      assert st.routes + [] == st.routes;
    }
    assert Step(mid, "0") == Some(last);
    assert ParseFrom(mid, open) == Some(last) by {
      assert open[1..] == [];
    }
  }

  /** The route groups of `SolutionWords`. */
  function Groups(v: seq<seq<Stop>>): seq<seq<string>>
  {
    seq(|v|, r requires 0 <= r < |v| => RouteTokens(CustNos(v[r])))
  }

  /** Reading the words of all routes, from a state with no route open,
      records the non-empty routes in order and sees every visited customer. */
  lemma {:induction false} ParseGroups(st: ParseState, v: seq<seq<Stop>>)
    requires st.route == [] && NoDepot(v)
    ensures ParseFrom(st, Flatten(Groups(v)))
         == Some(ParseState(st.routes + NonEmptyRoutes(v), [], st.seen + Visited(v)))
    decreases |v|
  {
    if v == [] {
      assert Flatten(Groups(v)) == [];
      assert st.routes + [] == st.routes && st.seen + {} == st.seen;
    } else {
      GroupsCons(v);
      NoDepotTail(v);
      ParseRouteTokens(st, v[0]);
      var mid := ParseState(st.routes + (if v[0] == [] then [] else [CustNos(v[0])]), [],
                            st.seen + Members(CustNos(v[0])));
      ParseFromConcat(st, RouteTokens(CustNos(v[0])), Flatten(Groups(v[1..])));
      ParseGroups(mid, v[1..]);
      RoutesCons(st, v);
      VisitedCons(st, v);
    }
  }

  /** The words of the first route come first. */
  lemma GroupsCons(v: seq<seq<Stop>>)
    requires v != []
    ensures Flatten(Groups(v)) == RouteTokens(CustNos(v[0])) + Flatten(Groups(v[1..]))
  {
    var gs := Groups(v);
    assert Flatten(gs) == gs[0] + Flatten(gs[1..]);
    assert gs[1..] == Groups(v[1..]);
  }

  /** The first route's customers, when it has any, come first in the
      non-empty routes. */
  lemma RoutesCons(st: ParseState, v: seq<seq<Stop>>)
    requires v != []
    ensures (st.routes + (if v[0] == [] then [] else [CustNos(v[0])])) + NonEmptyRoutes(v[1..])
            == st.routes + NonEmptyRoutes(v)
  {
    var first := if v[0] == [] then [] else [CustNos(v[0])];
    assert NonEmptyRoutes(v) == first + NonEmptyRoutes(v[1..]);
    assert (st.routes + first) + NonEmptyRoutes(v[1..]) == st.routes + (first + NonEmptyRoutes(v[1..]));
  }

  /** The first route's customers are among the visited ones. */
  lemma VisitedCons(st: ParseState, v: seq<seq<Stop>>)
    requires v != []
    ensures (st.seen + Members(CustNos(v[0]))) + Visited(v[1..]) == st.seen + Visited(v)
  {
    assert Visited(v) == Members(CustNos(v[0])) + Visited(v[1..]);
  }

  lemma NoDepotTail(v: seq<seq<Stop>>)
    requires v != [] && NoDepot(v)
    ensures NoDepot(v[1..]) && forall k :: 0 <= k < |v[0]| ==> v[0][k].custNo != 0
  {
    forall r, k | 0 <= r < |v[1..]| && 0 <= k < |v[1..][r]| ensures v[1..][r][k].custNo != 0 {
      assert v[1..][r] == v[r + 1];
    }
  }

  /** Round trip: parsing `VRPSolution::to_string` of a solution that
      never visits the depot gives exactly the customer lists of its
      non-empty routes, in route order, with every visited customer seen
      and no route left open. */
  lemma RoundTrip(v: seq<seq<Stop>>)
    requires NoDepot(v)
    ensures Parse(SolutionText(v)) == Some(ParseState(NonEmptyRoutes(v), [], Visited(v)))
  {
    SolutionTextWords(v);
    assert Words(SolutionText(v))[1..] == Flatten(Groups(v));
    ParseGroups(Start, v);
    assert [] + NonEmptyRoutes(v) == NonEmptyRoutes(v);
    assert {} + Visited(v) == Visited(v);
  }

  /** A customer is seen exactly when some route visits it. */
  lemma {:induction false} VisitedServed(v: seq<seq<Stop>>, c: nat)
    ensures c in Visited(v) <==> Served(v, c)
  {
    if v != [] {
      VisitedServed(v[1..], c);
      if exists r :: 0 <= r < |v| && c in CustNos(v[r]) {
        var r :| 0 <= r < |v| && c in CustNos(v[r]);
        if r > 0 {
          assert v[1..][r - 1] == v[r];
        }
      }
      if exists r :: 0 <= r < |v[1..]| && c in CustNos(v[1..][r]) {
        var r :| 0 <= r < |v[1..]| && c in CustNos(v[1..][r]);
        assert v[1..][r] == v[r + 1];
      }
    }
  }

  /** Each recorded route is the customer list of one of the routes. */
  lemma {:induction false} NonEmptyRoutesFrom(v: seq<seq<Stop>>, j: nat)
    requires j < |NonEmptyRoutes(v)|
    ensures exists r :: 0 <= r < |v| && NonEmptyRoutes(v)[j] == CustNos(v[r])
    decreases |v|
  {
    var head := if v[0] == [] then [] else [CustNos(v[0])];
    if j < |head| {
      assert NonEmptyRoutes(v)[j] == CustNos(v[0]);
    } else {
      assert NonEmptyRoutes(v)[j] == NonEmptyRoutes(v[1..])[j - |head|];
      NonEmptyRoutesFrom(v[1..], j - |head|);
      var r :| 0 <= r < |v[1..]| && NonEmptyRoutes(v[1..])[j - |head|] == CustNos(v[1..][r]);
      assert v[1..][r] == v[r + 1];
    }
  }

  // ---------------------------------------------------------------------
  // The checks
  // ---------------------------------------------------------------------

  /** The first customer from c on, below num_customers, that was never read. */
  function FirstMissing(inst: Instance, seen: set<nat>, c: nat): (r: Option<nat>)
    ensures r.None? <==> forall d :: c <= d < inst.numCustomers ==> d in seen
    ensures r.Some? ==> c <= r.value < inst.numCustomers && r.value !in seen
                        && forall d :: c <= d < r.value ==> d in seen
    decreases inst.numCustomers - c
  {
    if c >= inst.numCustomers then None
    else if c !in seen then Some(c)
    else FirstMissing(inst, seen, c + 1)
  }

  /** The total demand of a route of customers in the demand table. */
  function Demand(inst: Instance, route: seq<nat>): nat
    requires forall k :: 0 <= k < |route| ==> route[k] < |inst.demand|
  {
    if route == [] then 0 else inst.demand[route[0]] + Demand(inst, route[1..])
  }

  /** The demand of one more customer. */
  lemma {:induction false} DemandSnoc(inst: Instance, route: seq<nat>, k: nat)
    requires k < |route| && forall j :: 0 <= j <= k ==> route[j] < |inst.demand|
    ensures Demand(inst, route[..k + 1]) == Demand(inst, route[..k]) + inst.demand[route[k]]
    decreases k
  {
    if k > 0 {
      assert route[..k + 1][1..] == route[1..][..k] && route[..k][1..] == route[1..][..k - 1];
      DemandSnoc(inst, route[1..], k - 1);
    }
  }

  /** The first customer of a route that is not in the demand table. */
  function FirstUnknown(inst: Instance, route: seq<nat>): (r: Option<nat>)
    ensures r.None? <==> forall k :: 0 <= k < |route| ==> route[k] < |inst.demand|
    ensures r.Some? ==> r.value in route && r.value >= |inst.demand|
  {
    if route == [] then None
    else if route[0] >= |inst.demand| then Some(route[0])
    else
      var rest := FirstUnknown(inst, route[1..]);
      assert forall k :: 1 <= k < |route| ==> route[k] == route[1..][k - 1];
      rest
  }

  /** The capacity loop from route r on: each route's demands are looked
      up, then their sum is compared with the vehicle capacity. */
  function CheckRoutes(inst: Instance, routes: seq<seq<nat>>, r: nat): Verdict
    decreases |routes| - r
  {
    if r >= |routes| then Passed
    else match FirstUnknown(inst, routes[r])
      case Some(c) => UnknownCustomer(c)
      case None =>
        if Demand(inst, routes[r]) > inst.vehicleCapacity then OverCapacity(r)
        else CheckRoutes(inst, routes, r + 1)
  }

  /** Every route from r on has known customers and fits in a vehicle. */
  ghost predicate RoutesFit(inst: Instance, routes: seq<seq<nat>>, r: nat)
  {
    forall j :: r <= j < |routes| ==>
      (forall k :: 0 <= k < |routes[j]| ==> routes[j][k] < |inst.demand|)
      && Demand(inst, routes[j]) <= inst.vehicleCapacity
  }

  /** The capacity loop passes exactly when every route fits. */
  lemma {:induction false} CheckRoutesPasses(inst: Instance, routes: seq<seq<nat>>, r: nat)
    ensures CheckRoutes(inst, routes, r) == Passed <==> RoutesFit(inst, routes, r)
    decreases |routes| - r
  {
    if r < |routes| {
      CheckRoutesPasses(inst, routes, r + 1);
    }
  }

  /** What `check` does with one solution string: parse, then look for a
      missing customer, then for an unknown customer or an overloaded route. */
  function Check(inst: Instance, text: string): Verdict
  {
    match Parse(text)
    case None => UnreadableToken(FirstUnreadable(Tokens(text)))
    case Some(st) =>
      match FirstMissing(inst, st.seen, 1)
      case Some(c) => MissingCustomer(c)
      case None => CheckRoutes(inst, st.routes, 0)
  }

  /** The first token that is not a number. */
  function FirstUnreadable(ws: seq<string>): string
  {
    if ws == [] then "" else if ParseNat(ws[0]).None? then ws[0] else FirstUnreadable(ws[1..])
  }

  /** The check passes exactly when the string parses, every customer
      1..n-1 is read somewhere, and every recorded route has known
      customers whose demands fit in a vehicle. */
  lemma CheckPasses(inst: Instance, text: string)
    ensures Check(inst, text) == Passed <==>
              Parse(text).Some?
              && (forall c :: 1 <= c < inst.numCustomers ==> c in Parse(text).value.seen)
              && RoutesFit(inst, Parse(text).value.routes, 0)
  {
    if Parse(text).Some? {
      CheckRoutesPasses(inst, Parse(text).value.routes, 0);
    }
  }

  /** The demand of a route's customers is the load of its stops when
      the stops carry their customers' demands. */
  lemma {:induction false} DemandOfStops(inst: Instance, s: seq<Stop>)
    requires inst.Valid() && StopsInRange(inst, s)
    requires forall k :: 0 <= k < |s| ==> s[k].capacity == inst.demand[s[k].custNo]
    ensures Demand(inst, CustNos(s)) == SumCap(s)
  {
    if s != [] {
      assert CustNos(s)[1..] == CustNos(s[1..]);
      DemandOfStops(inst, s[1..]);
    }
  }

  /** A feasible solution never visits the depot. */
  lemma FeasibleNoDepot(inst: Instance, v: seq<seq<Stop>>)
    requires Feasible(inst, v)
    ensures NoDepot(v)
  {
    forall r, k | 0 <= r < |v| && 0 <= k < |v[r]| ensures v[r][k].custNo != 0 {
      var c := v[r][k].custNo;
      assert CustNos(v[r])[k] == c;
      AllCustsMember(v, c);
      assert c in multiset(Range(1, inst.numCustomers));
    }
  }

  /** The routes read back from a feasible solution all fit. */
  lemma FeasibleRoutesFit(inst: Instance, v: seq<seq<Stop>>)
    requires Feasible(inst, v)
    ensures RoutesFit(inst, NonEmptyRoutes(v), 0)
  {
    var routes := NonEmptyRoutes(v);
    forall j | 0 <= j < |routes|
      ensures (forall k :: 0 <= k < |routes[j]| ==> routes[j][k] < |inst.demand|)
      ensures Demand(inst, routes[j]) <= inst.vehicleCapacity
    {
      NonEmptyRoutesFrom(v, j);
      var r :| 0 <= r < |v| && routes[j] == CustNos(v[r]);
      DemandOfStops(inst, v[r]);
    }
  }

  /** Every feasible solution passes the check of its own `to_string`. */
  lemma FeasiblePasses(inst: Instance, v: seq<seq<Stop>>)
    requires Feasible(inst, v)
    ensures Check(inst, SolutionText(v)) == Passed
  {
    FeasibleNoDepot(inst, v);
    RoundTrip(v);
    ExactlyOnceCovers(inst, v);
    forall c | 1 <= c < inst.numCustomers ensures c in Visited(v) {
      VisitedServed(v, c);
    }
    FeasibleRoutesFit(inst, v);
    CheckPasses(inst, SolutionText(v));
  }

  // ---------------------------------------------------------------------
  // The loops of `check`
  // ---------------------------------------------------------------------

  /** `check` on one solution string: the token loop, then the coverage
      loop, then the capacity loop. */
  method CheckSolution(inst: Instance, text: string) returns (verdict: Verdict)
    ensures verdict == Check(inst, text)
  {
    var ws := Words(text);
    var st := Start;
    if ws != [] {
      ghost var ts := ws[1..];
      assert ts == Tokens(text);
      var i := 1;
      while i < |ws|
        invariant 1 <= i <= |ws|
        invariant ParseFrom(Start, ts[..i - 1]) == Some(st)
        invariant FirstUnreadable(ts) == FirstUnreadable(ts[i - 1..])
      {
        ParseFromSnoc(Start, ts, i - 1);
        assert ts[i - 1] == ws[i];
        assert ts[i - 1..][1..] == ts[i..];
        var next := Step(st, ws[i]);
        if next.None? {
          ParseFromNone(Start, ts, i);
          return UnreadableToken(ws[i]);
        }
        st := next.value;
        i := i + 1;
      }
      assert ts[..|ws| - 1] == ts;
    }
    var c := 1;
    while c < inst.numCustomers
      invariant 1 <= c && (c <= inst.numCustomers || inst.numCustomers < 1)
      invariant FirstMissing(inst, st.seen, 1) == FirstMissing(inst, st.seen, c)
    {
      if c !in st.seen {
        return MissingCustomer(c);
      }
      c := c + 1;
    }
    verdict := CheckCapacities(inst, st.routes);
  }

  /** A token that is not a number ends the parse there. */
  lemma {:induction false} ParseFromNone(st: ParseState, ws: seq<string>, i: nat)
    requires 1 <= i <= |ws| && ParseFrom(st, ws[..i - 1]).Some?
    requires Step(ParseFrom(st, ws[..i - 1]).value, ws[i - 1]).None?
    ensures ParseFrom(st, ws) == None
  {
    assert ws == ws[..i - 1] + ws[i - 1..];
    ParseFromConcat(st, ws[..i - 1], ws[i - 1..]);
    assert ws[i - 1..][0] == ws[i - 1];
  }

  /** The capacity loop: each route's demands are summed, stopping at the
      first unknown customer or overloaded route. */
  method CheckCapacities(inst: Instance, routes: seq<seq<nat>>) returns (verdict: Verdict)
    ensures verdict == CheckRoutes(inst, routes, 0)
  {
    for r := 0 to |routes|
      invariant CheckRoutes(inst, routes, 0) == CheckRoutes(inst, routes, r)
    {
      var served := 0;
      for k := 0 to |routes[r]|
        invariant FirstUnknown(inst, routes[r]) == FirstUnknown(inst, routes[r][k..])
        invariant forall j :: 0 <= j < k ==> routes[r][j] < |inst.demand|
        invariant served == Demand(inst, routes[r][..k])
      {
        assert routes[r][k..][1..] == routes[r][k + 1..];
        if routes[r][k] >= |inst.demand| {
          return UnknownCustomer(routes[r][k]);
        }
        DemandSnoc(inst, routes[r], k);
        served := served + inst.demand[routes[r][k]];
      }
      assert routes[r][..|routes[r]|] == routes[r];
      if served > inst.vehicleCapacity {
        return OverCapacity(r);
      }
    }
    return Passed;
  }
}
