/** The two same-route neighbourhoods of the local search: move a client to
    another position of its route (insertion) or swap it with another client
    of its route (interchange), keeping the best improving candidate. */
module InRoute {
  import opened Common
  import opened Instance
  import opened Routes
  import opened Solutions
  import opened Moves
  import opened Placement

  /** The candidate route for moving (or swapping) the client at ni with
      position k. */
  function RewriteCandidate(cfg: Config, move: InRouteMove, r: Route, ni: nat, k: nat): (c: Route)
    requires ni < |r.nodes| && k < |r.nodes|
    ensures c == Evaluate(cfg, c.nodes) && |c.nodes| == |r.nodes| && multiset(c.nodes) == multiset(r.nodes)
    ensures c.nodes[k] == r.nodes[ni]
  {
    Evaluate(cfg, Rewrite(move, r.nodes, ni, k))
  }

  /** Every feasible candidate at a position before k (other than ni itself)
      costs at least bound - tolerance. */
  ghost predicate RewritesScanned(cfg: Config, move: InRouteMove, r: Route, ni: nat, k: nat, bound: real)
    requires ni < |r.nodes|
  {
    forall k' :: 0 <= k' < k && k' < |r.nodes| && k' != ni && RewriteCandidate(cfg, move, r, ni, k').isFeasible ==>
      RewriteCandidate(cfg, move, r, ni, k').totalCost >= bound - CostTolerance
  }

  /** No position improves the route by moving the client at ni there. */
  ghost predicate NoImprovingRewrite(cfg: Config, move: InRouteMove, r: Route, ni: nat)
    requires ni < |r.nodes|
  {
    forall k :: 0 <= k < |r.nodes| && k != ni ==> !Improves(RewriteCandidate(cfg, move, r, ni, k), r.totalCost)
  }

  lemma RewriteScanned(cfg: Config, move: InRouteMove, r: Route, ni: nat, k: nat, bound: real, bound': real)
    requires ni < |r.nodes| && k < |r.nodes| && RewritesScanned(cfg, move, r, ni, k, bound) && bound' <= bound
    requires k != ni && RewriteCandidate(cfg, move, r, ni, k).isFeasible ==>
             RewriteCandidate(cfg, move, r, ni, k).totalCost >= bound' - CostTolerance
    ensures RewritesScanned(cfg, move, r, ni, k + 1, bound')
  {
    forall k' | 0 <= k' < k + 1 && k' < |r.nodes| && k' != ni && RewriteCandidate(cfg, move, r, ni, k').isFeasible
      ensures RewriteCandidate(cfg, move, r, ni, k').totalCost >= bound' - CostTolerance
    {
      if k' != k {
        assert k' < k;
      }
    }
  }

  lemma RewritesComplete(cfg: Config, move: InRouteMove, r: Route, ni: nat)
    requires ni < |r.nodes| && RewritesScanned(cfg, move, r, ni, |r.nodes|, r.totalCost)
    ensures NoImprovingRewrite(cfg, move, r, ni)
  {
  }

  /** The position loop of `tryInsertionInSameRoute` (move = Relocate) and
      `tryInterchangeInSameRoute` (move = Exchange): a candidate replaces
      the best so far when it is feasible and cheaper than it by more than
      the tolerance, starting from the route itself. */
  method BestRewrite(cfg: Config, move: InRouteMove, r: Route, ni: nat) returns (improved: bool, k: nat, best: Route)
    requires ni < |r.nodes|
    ensures improved ==> k < |r.nodes| && k != ni && best == RewriteCandidate(cfg, move, r, ni, k)
    ensures improved ==> Improves(best, r.totalCost)
    ensures improved ==> RewritesScanned(cfg, move, r, ni, |r.nodes|, best.totalCost)
    ensures !improved ==> NoImprovingRewrite(cfg, move, r, ni)
  {
    improved, k, best := false, 0, r;
    var bestCost := r.totalCost;
    var position := 0;
    while position < |r.nodes|
      invariant position <= |r.nodes|
      invariant RewritesScanned(cfg, move, r, ni, position, bestCost)
      invariant improved ==> k < |r.nodes| && k != ni && best == RewriteCandidate(cfg, move, r, ni, k)
      invariant improved ==> best.isFeasible && bestCost == best.totalCost < r.totalCost - CostTolerance
      invariant !improved ==> bestCost == r.totalCost
    {
      var previous := bestCost;
      if position != ni {
        var candidate := RewriteCandidate(cfg, move, r, ni, position);
        if candidate.isFeasible && candidate.totalCost < bestCost - CostTolerance {
          improved, k, best, bestCost := true, position, candidate, candidate.totalCost;
        }
      }
      RewriteScanned(cfg, move, r, ni, position, previous, bestCost);
      position := position + 1;
    }
    if !improved {
      RewritesComplete(cfg, move, r, ni);
    }
  }

  /** The client x of a well-formed solution, as (route position, position
      in the route). */
  function Locate(routes: seq<Route>, x: Node): (p: (int, int))
    ensures p.0 == FindRouteIndex(routes, x)
    ensures 0 <= p.0 ==> p.1 == IndexOf(routes[p.0].nodes, x) && 0 <= p.1 && routes[p.0].nodes[p.1] == x
  {
    var ri := FindRouteIndex(routes, x);
    if ri < 0 then (ri, -1) else (ri, IndexOf(routes[ri].nodes, x))
  }

  /** No same-route move of x improves its route. */
  ghost predicate RewriteOptimalAt(cfg: Config, move: InRouteMove, routes: seq<Route>, x: Node)
  {
    var p := Locate(routes, x);
    0 <= p.0 ==> NoImprovingRewrite(cfg, move, routes[p.0], p.1)
  }

  /** `tryInsertionInSameRoute` (Relocate) and `tryInterchangeInSameRoute`
      (Exchange) for client x: the best improving candidate, if any,
      replaces x's route. */
  method TryInRoute(cfg: Config, clients: seq<Node>, routes: seq<Route>, move: InRouteMove, x: Node)
    returns (result: seq<Route>, improved: bool)
    requires WellFormed(cfg, clients, routes) && x in clients
    ensures WellFormed(cfg, clients, result) && |result| == |routes|
    ensures var ri := FindRouteIndex(routes, x);
            0 <= ri < |routes| &&
            (forall j :: 0 <= j < |routes| && j != ri ==> result[j] == routes[j]) &&
            multiset(result[ri].nodes) == multiset(routes[ri].nodes)
    ensures improved ==> TotalCost(result) < TotalCost(routes) - CostTolerance
    ensures !improved ==> result == routes && RewriteOptimalAt(cfg, move, routes, x)
  {
    ClientIsPlaced(cfg, clients, routes, x);
    var p := Locate(routes, x);
    var ri, ni := p.0, p.1;
    var r := routes[ri];
    var k, best;
    improved, k, best := BestRewrite(cfg, move, r, ni);
    if improved {
      assert Settled(cfg, best);
      ReplaceRoute(cfg, clients, routes, ri, best);
      result := routes[ri := best];
    } else {
      result := routes;
    }
  }
}
