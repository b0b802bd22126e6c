/** A solution: a list of routes (their order carries no meaning) with the
    provenance data the search attaches to it. */
module Solutions {
  import opened Common
  import opened Instance
  import opened Links
  import Routes

  type Route = Routes.Route

  datatype Solution = Solution(
    routes: seq<Route>,
    lowerBound: real,
    gap: real,
    status: string,
    creationTime: real,
    solvingTime: real,
    cplexLog: string)

  function RouteCost(r: Route): real
  {
    r.totalCost
  }

  /** `getTotalCost()`: the sum of the route costs. */
  function TotalCost(routes: seq<Route>): real
  {
    SumReal(routes, RouteCost)
  }

  /** `new Solution(routes, status, creationTime, solvingTime)`: the lower
      bound is the solution's own cost and the gap is zero. */
  function NewSolution(routes: seq<Route>, status: string, creationTime: real, solvingTime: real): (s: Solution)
    ensures s.routes == routes && s.status == status
    ensures s.lowerBound == TotalCost(routes) && s.gap == 0.0
    ensures s.creationTime == creationTime && s.solvingTime == solvingTime && s.cplexLog == ""
  {
    Solution(routes, TotalCost(routes), 0.0, status, creationTime, solvingTime, "")
  }

  /** `new Solution(Solution)`: every route copied, metadata kept. */
  function Copy(s: Solution): (c: Solution)
    ensures |c.routes| == |s.routes| && c.routes == s.routes
    ensures forall i :: 0 <= i < |s.routes| ==> Routes.Equals(c.routes[i], Same(s.routes[i]))
    ensures TotalCost(c.routes) == TotalCost(s.routes)
    ensures c.lowerBound == s.lowerBound && c.gap == s.gap && c.status == s.status
    ensures c.creationTime == s.creationTime && c.solvingTime == s.solvingTime && c.cplexLog == s.cplexLog
  {
    var routes := seq(|s.routes|, i requires 0 <= i < |s.routes| => Routes.Copy(s.routes[i]));
    assert routes == s.routes;
    Solution(routes, s.lowerBound, s.gap, s.status, s.creationTime, s.solvingTime, s.cplexLog)
  }

  /** `getAllLinks()`: the links of every route, route after route. */
  function AllLinks(routes: seq<Route>): (ls: seq<Link>)
    ensures forall l :: l in ls <==> exists i :: 0 <= i < |routes| && l in routes[i].links
  {
    if |routes| == 0 then []
    else
      var rest := AllLinks(routes[1..]);
      assert forall i :: 1 <= i < |routes| ==> routes[i] == routes[1..][i - 1];
      routes[0].links + rest
  }

  function LinkCount(routes: seq<Route>): nat
  {
    if |routes| == 0 then 0 else |routes[0].links| + LinkCount(routes[1..])
  }

  /** The flattened list keeps every route's links in order, one route
      after the other. */
  lemma {:induction false} AllLinksLayout(routes: seq<Route>, i: nat, k: nat)
    requires i < |routes| && k < |routes[i].links|
    ensures |AllLinks(routes)| == LinkCount(routes)
    ensures LinkCount(routes[..i]) + k < LinkCount(routes)
    ensures AllLinks(routes)[LinkCount(routes[..i]) + k] == routes[i].links[k]
  {
    assert routes[..0] == [];
    if i == 0 {
      LengthOfAllLinks(routes);
    } else {
      AllLinksLayout(routes[1..], i - 1, k);
      assert routes[1..][..i - 1] == routes[..i][1..];
      LengthOfAllLinks(routes);
    }
  }

  lemma {:induction false} LengthOfAllLinks(routes: seq<Route>)
    ensures |AllLinks(routes)| == LinkCount(routes)
  {
    if |routes| > 0 {
      LengthOfAllLinks(routes[1..]);
    }
  }

  /** The set the equality test builds: link identities (origin, destiny). */
  function LinkKeys(routes: seq<Route>): set<(Node, Node)>
  {
    set l | l in AllLinks(routes) :: Key(l)
  }

  /** `Solution.equals(Object)`: same number of routes and the same set of
      links (links compare by endpoints). */
  function Equals(s: Solution, o: Ref<Solution>): (b: bool)
    ensures !o.Same? ==> !b
    ensures o == Same(s) ==> b
    ensures b ==> |s.routes| == |o.value.routes|
  {
    o.Same? && |s.routes| == |o.value.routes| && LinkKeys(s.routes) == LinkKeys(o.value.routes)
  }

  lemma EqualsReflexive(s: Solution)
    ensures Equals(s, Same(s))
  {
  }

  lemma EqualsSymmetric(s: Solution, t: Solution)
    ensures Equals(s, Same(t)) <==> Equals(t, Same(s))
  {
  }

  lemma EqualsTransitive(s: Solution, t: Solution, u: Solution)
    requires Equals(s, Same(t)) && Equals(t, Same(u))
    ensures Equals(s, Same(u))
  {
  }

  /** Reordering the routes changes neither the set of links nor the
      equality verdict. */
  lemma EqualsIgnoresRouteOrder(s: Solution, t: Solution)
    requires multiset(s.routes) == multiset(t.routes)
    ensures Equals(s, Same(t))
  {
    assert |s.routes| == |multiset(s.routes)| == |t.routes|;
    forall l | l in AllLinks(s.routes)
      ensures l in AllLinks(t.routes)
    {
      var i :| 0 <= i < |s.routes| && l in s.routes[i].links;
      assert s.routes[i] in multiset(t.routes);
      var j :| 0 <= j < |t.routes| && t.routes[j] == s.routes[i];
    }
    forall l | l in AllLinks(t.routes)
      ensures l in AllLinks(s.routes)
    {
      var i :| 0 <= i < |t.routes| && l in t.routes[i].links;
      assert t.routes[i] in multiset(s.routes);
      var j :| 0 <= j < |s.routes| && s.routes[j] == t.routes[i];
    }
  }

  /** The total cost does not depend on the order of the routes. */
  lemma TotalCostIgnoresRouteOrder(routes: seq<Route>, others: seq<Route>)
    requires multiset(routes) == multiset(others)
    ensures TotalCost(routes) == TotalCost(others)
  {
    SumRealPermutation(routes, others, RouteCost);
  }

  /** The loop of `hashCode()`: `result += 31 * route.hashCode()` in `int`. */
  function HashLoop(routes: seq<Route>, acc: int, nodesHash: seq<Node> -> int): (h: int)
    ensures -TwoTo31 <= acc < TwoTo31 ==> -TwoTo31 <= h < TwoTo31
    ensures |routes| == 0 ==> h == acc
  {
    if |routes| == 0 then acc
    else HashLoop(routes[1..], Int32(acc + Int32(31 * Routes.Hash(routes[0], nodesHash))), nodesHash)
  }

  /** `Solution.hashCode()`: the loop above from 0. */
  function Hash(s: Solution, nodesHash: seq<Node> -> int): (h: int)
    ensures -TwoTo31 <= h < TwoTo31
    ensures |s.routes| == 0 ==> h == 0
  {
    HashLoop(s.routes, 0, nodesHash)
  }

  function WeightedRouteHash(nodesHash: seq<Node> -> int): Route -> int
  {
    r => 31 * Routes.Hash(r, nodesHash)
  }

  lemma {:induction false} HashLoopIsWrappedSum(routes: seq<Route>, acc: int, nodesHash: seq<Node> -> int)
    requires acc == Int32(acc)
    ensures HashLoop(routes, acc, nodesHash) == Int32(acc + SumInt(routes, WeightedRouteHash(nodesHash)))
  {
    var f := WeightedRouteHash(nodesHash);
    if |routes| > 0 {
      var h := 31 * Routes.Hash(routes[0], nodesHash);
      var next := Int32(acc + Int32(h));
      Int32Exact(next);
      HashLoopIsWrappedSum(routes[1..], next, nodesHash);
      Int32Add(h, acc);
      Int32Add(acc + h, SumInt(routes[1..], f));
      assert SumInt(routes, f) == h + SumInt(routes[1..], f);
    }
  }

  /** `hashCode()` is a (wrapped) sum over routes, so reordering the routes
      does not change it. */
  lemma HashIgnoresRouteOrder(s: Solution, t: Solution, nodesHash: seq<Node> -> int)
    requires multiset(s.routes) == multiset(t.routes)
    ensures Hash(s, nodesHash) == Hash(t, nodesHash)
  {
    HashLoopIsWrappedSum(s.routes, 0, nodesHash);
    HashLoopIsWrappedSum(t.routes, 0, nodesHash);
    SumIntPermutation(s.routes, t.routes, WeightedRouteHash(nodesHash));
  }

  // ---------------------------------------------------------------------
  // The client partition.
  // ---------------------------------------------------------------------

  /** All client visits of a list of routes. */
  function Clients(routes: seq<Route>): multiset<Node>
  {
    if |routes| == 0 then multiset{} else multiset(routes[0].nodes) + Clients(routes[1..])
  }

  /** Every client is visited exactly once and every route is a feasible,
      non-empty route as built by the route constructor. */
  ghost predicate WellFormed(cfg: Config, clients: seq<Node>, routes: seq<Route>)
  {
    && Clients(routes) == multiset(clients)
    && forall i :: 0 <= i < |routes| ==> Routes.Settled(cfg, routes[i])
  }

  lemma {:induction false} ClientsMember(routes: seq<Route>, x: Node)
    ensures x in Clients(routes) <==> exists i :: 0 <= i < |routes| && x in routes[i].nodes
  {
    if |routes| > 0 {
      ClientsMember(routes[1..], x);
      if x in Clients(routes[1..]) {
        var j :| 0 <= j < |routes[1..]| && x in routes[1..][j].nodes;
        assert x in routes[j + 1].nodes;
      }
      if exists i :: 1 <= i < |routes| && x in routes[i].nodes {
        var i :| 1 <= i < |routes| && x in routes[i].nodes;
        assert x in routes[1..][i - 1].nodes;
      }
    }
  }

  lemma {:induction false} ClientsUpdate(routes: seq<Route>, i: nat, r: Route)
    requires i < |routes|
    ensures Clients(routes[i := r]) + multiset(routes[i].nodes) == Clients(routes) + multiset(r.nodes)
  {
    var updated := routes[i := r];
    if i > 0 {
      assert updated[0] == routes[0];
      assert updated[1..] == routes[1..][i - 1 := r];
      assert routes[1..][i - 1] == routes[i];
      ClientsUpdate(routes[1..], i - 1, r);
      calc {
        Clients(updated) + multiset(routes[i].nodes);
        multiset(routes[0].nodes) + Clients(updated[1..]) + multiset(routes[i].nodes);
        multiset(routes[0].nodes) + (Clients(routes[1..][i - 1 := r]) + multiset(routes[1..][i - 1].nodes));
        multiset(routes[0].nodes) + (Clients(routes[1..]) + multiset(r.nodes));
        Clients(routes) + multiset(r.nodes);
      }
    } else {
      assert updated[1..] == routes[1..];
    }
  }

  lemma {:induction false} ClientsRemove(routes: seq<Route>, i: nat)
    requires i < |routes|
    ensures Clients(RemoveAt(routes, i)) + multiset(routes[i].nodes) == Clients(routes)
  {
    if i > 0 {
      assert RemoveAt(routes, i)[1..] == RemoveAt(routes[1..], i - 1);
      ClientsRemove(routes[1..], i - 1);
    } else {
      assert RemoveAt(routes, 0) == routes[1..];
    }
  }

  lemma {:induction false} ClientsAppend(routes: seq<Route>, r: Route)
    ensures Clients(routes + [r]) == Clients(routes) + multiset(r.nodes)
  {
    if |routes| > 0 {
      assert (routes + [r])[1..] == routes[1..] + [r];
      ClientsAppend(routes[1..], r);
    }
  }

  /** The cost bookkeeping of replacing, removing and adding one route. */
  lemma CostUpdate(routes: seq<Route>, i: nat, r: Route)
    requires i < |routes|
    ensures TotalCost(routes[i := r]) == TotalCost(routes) - routes[i].totalCost + r.totalCost
  {
    SumRealUpdate(routes, i, r, RouteCost);
  }

  lemma CostRemove(routes: seq<Route>, i: nat)
    requires i < |routes|
    ensures TotalCost(RemoveAt(routes, i)) == TotalCost(routes) - routes[i].totalCost
  {
    SumRealRemove(routes, i, RouteCost);
  }

  lemma CostAppend(routes: seq<Route>, r: Route)
    ensures TotalCost(routes + [r]) == TotalCost(routes) + r.totalCost
  {
    SumRealAppend(routes, r, RouteCost);
  }

  /** Costs of routes as the constructor builds them are nonnegative, and so
      is their sum. */
  lemma {:induction false} TotalCostNonNegative(cfg: Config, routes: seq<Route>)
    requires ValidConfig(cfg)
    requires forall i :: 0 <= i < |routes| ==> routes[i] == Routes.Evaluate(cfg, routes[i].nodes)
    ensures TotalCost(routes) >= 0.0
  {
    if |routes| > 0 {
      Routes.CostNonNegative(cfg, routes[0].nodes);
      TotalCostNonNegative(cfg, routes[1..]);
    }
  }
}
