/** The interchange neighbourhood of the local search: swap a client with
    another client of its route, or with a client of another route. */
module Interchange {
  import opened Common
  import opened Instance
  import opened Routes
  import opened Solutions
  import opened Moves
  import opened Placement
  import opened InRoute

  /** The two candidate routes when the client at ni of r and the client at
      j of s change places. */
  function ExchangePair(cfg: Config, r: Route, ni: nat, s: Route, j: nat): (c: (Route, Route))
    requires ni < |r.nodes| && j < |s.nodes|
    ensures c.0 == Evaluate(cfg, c.0.nodes) && c.1 == Evaluate(cfg, c.1.nodes)
    ensures |c.0.nodes| == |r.nodes| && |c.1.nodes| == |s.nodes|
    ensures c.0.nodes[ni] == s.nodes[j] && c.1.nodes[j] == r.nodes[ni]
    ensures multiset(c.0.nodes) + multiset(c.1.nodes) == multiset(r.nodes) + multiset(s.nodes)
  {
    ExchangeKeepsClients(r.nodes, ni, s.nodes, j);
    (Evaluate(cfg, r.nodes[ni := s.nodes[j]]), Evaluate(cfg, s.nodes[j := r.nodes[ni]]))
  }

  /** The source considers an exchange only when both candidates are
      feasible. */
  predicate ExchangeAdmissible(cfg: Config, r: Route, ni: nat, s: Route, j: nat)
    requires ni < |r.nodes| && j < |s.nodes|
  {
    ExchangePair(cfg, r, ni, s, j).0.isFeasible && ExchangePair(cfg, r, ni, s, j).1.isFeasible
  }

  /** The change of the two routes' cost. */
  function ExchangeGain(cfg: Config, r: Route, ni: nat, s: Route, j: nat): real
    requires ni < |r.nodes| && j < |s.nodes|
  {
    var c := ExchangePair(cfg, r, ni, s, j);
    c.0.totalCost + c.1.totalCost - r.totalCost - s.totalCost
  }

  /** Every admissible exchange of the client at ni of route ri with a client
      (s', j') of another route, scanned before (s, j), changes the cost by
      at least bound - tolerance. */
  ghost predicate ExchangesScanned(cfg: Config, routes: seq<Route>, ri: nat, ni: nat, s: nat, j: nat, bound: real)
    requires ri < |routes| && ni < |routes[ri].nodes|
  {
    forall s': nat, j': nat ::
      (s' < |routes| && s' != ri && j' < |routes[s'].nodes| && (s' < s || (s' == s && j' < j)) &&
       ExchangeAdmissible(cfg, routes[ri], ni, routes[s'], j')) ==>
      ExchangeGain(cfg, routes[ri], ni, routes[s'], j') >= bound - CostTolerance
  }

  lemma ExchangeScanned(cfg: Config, routes: seq<Route>, ri: nat, ni: nat, s: nat, j: nat, bound: real, bound': real)
    requires ri < |routes| && ni < |routes[ri].nodes| && s < |routes| && s != ri && j < |routes[s].nodes|
    requires ExchangesScanned(cfg, routes, ri, ni, s, j, bound) && bound' <= bound
    requires ExchangeAdmissible(cfg, routes[ri], ni, routes[s], j) ==>
             ExchangeGain(cfg, routes[ri], ni, routes[s], j) >= bound' - CostTolerance
    ensures ExchangesScanned(cfg, routes, ri, ni, s, j + 1, bound')
  {
    forall s': nat, j': nat |
      s' < |routes| && s' != ri && j' < |routes[s'].nodes| && (s' < s || (s' == s && j' < j + 1)) &&
      ExchangeAdmissible(cfg, routes[ri], ni, routes[s'], j')
      ensures ExchangeGain(cfg, routes[ri], ni, routes[s'], j') >= bound' - CostTolerance
    {
      if s' != s || j' != j {
        assert s' < s || (s' == s && j' < j);
      }
    }
  }

  lemma ExchangeRowScanned(cfg: Config, routes: seq<Route>, ri: nat, ni: nat, s: nat, bound: real)
    requires ri < |routes| && ni < |routes[ri].nodes| && s < |routes|
    requires s == ri || ExchangesScanned(cfg, routes, ri, ni, s, |routes[s].nodes|, bound)
    requires ExchangesScanned(cfg, routes, ri, ni, s, 0, bound)
    ensures ExchangesScanned(cfg, routes, ri, ni, s + 1, 0, bound)
  {
  }

  /** The best exchange so far, if any, with its gain. */
  ghost predicate BestExchangeSoFar(cfg: Config, routes: seq<Route>, ri: nat, ni: nat,
                                    found: bool, target: nat, j: nat, gain: real)
    requires ri < |routes| && ni < |routes[ri].nodes|
  {
    && (found ==> gain < -CostTolerance && target < |routes| && target != ri && j < |routes[target].nodes|)
    && (found ==> ExchangeAdmissible(cfg, routes[ri], ni, routes[target], j))
    && (found ==> gain == ExchangeGain(cfg, routes[ri], ni, routes[target], j))
    && (!found ==> gain == 0.0)
  }

  /** The position loop of `tryInterchangeInOtherRoutes` for one other
      route s. */
  method ScanExchangeRoute(cfg: Config, routes: seq<Route>, ri: nat, ni: nat, s: nat,
                           found0: bool, target0: nat, j0: nat, gain0: real)
    returns (found: bool, target: nat, j: nat, gain: real)
    requires ri < |routes| && ni < |routes[ri].nodes| && s < |routes| && s != ri
    requires ExchangesScanned(cfg, routes, ri, ni, s, 0, gain0)
    requires BestExchangeSoFar(cfg, routes, ri, ni, found0, target0, j0, gain0)
    ensures ExchangesScanned(cfg, routes, ri, ni, s, |routes[s].nodes|, gain) && gain <= gain0
    ensures BestExchangeSoFar(cfg, routes, ri, ni, found, target, j, gain)
  {
    found, target, j, gain := found0, target0, j0, gain0;
    var r, other := routes[ri], routes[s];
    var position := 0;
    while position < |other.nodes|
      invariant position <= |other.nodes|
      invariant ExchangesScanned(cfg, routes, ri, ni, s, position, gain) && gain <= gain0
      invariant BestExchangeSoFar(cfg, routes, ri, ni, found, target, j, gain)
    {
      var previous := gain;
      var c := ExchangePair(cfg, r, ni, other, position);
      if c.0.isFeasible && c.1.isFeasible {
        var improvement := c.0.totalCost + c.1.totalCost - r.totalCost - other.totalCost;
        if improvement < gain - CostTolerance {
          found, target, j, gain := true, s, position, improvement;
        }
      }
      ExchangeScanned(cfg, routes, ri, ni, s, position, previous, gain);
      position := position + 1;
    }
  }

  /** The loops of `tryInterchangeInOtherRoutes`: every client of every other
      route is tried, and the first exchange that beats the best so far by
      more than the tolerance becomes the best. */
  method BestExchange(cfg: Config, routes: seq<Route>, ri: nat, ni: nat) returns (found: bool, target: nat, j: nat, gain: real)
    requires ri < |routes| && ni < |routes[ri].nodes|
    ensures found ==> target < |routes| && target != ri && j < |routes[target].nodes|
    ensures found ==> ExchangeAdmissible(cfg, routes[ri], ni, routes[target], j)
    ensures found ==> gain == ExchangeGain(cfg, routes[ri], ni, routes[target], j) && gain < -CostTolerance
    ensures found ==> ExchangesScanned(cfg, routes, ri, ni, |routes|, 0, gain)
    ensures !found ==> ExchangesScanned(cfg, routes, ri, ni, |routes|, 0, 0.0)
  {
    found, target, j, gain := false, 0, 0, 0.0;
    var s := 0;
    while s < |routes|
      invariant s <= |routes|
      invariant ExchangesScanned(cfg, routes, ri, ni, s, 0, gain)
      invariant BestExchangeSoFar(cfg, routes, ri, ni, found, target, j, gain)
    {
      if s != ri {
        found, target, j, gain := ScanExchangeRoute(cfg, routes, ri, ni, s, found, target, j, gain);
      }
      ExchangeRowScanned(cfg, routes, ri, ni, s, gain);
      s := s + 1;
    }
  }

  /** No exchange of x with a client of another route improves the solution
      by more than the tolerance. */
  ghost predicate NoImprovingExchange(cfg: Config, routes: seq<Route>, x: Node)
  {
    var p := Locate(routes, x);
    0 <= p.0 ==> ExchangesScanned(cfg, routes, p.0, p.1, |routes|, 0, 0.0)
  }

  /** Two solutions with the same number of routes, route by route of the
      same length. */
  ghost predicate SameShape(a: seq<Route>, b: seq<Route>)
  {
    |a| == |b| && forall i :: 0 <= i < |a| ==> |a[i].nodes| == |b[i].nodes|
  }

  lemma SameShapeTransitive(a: seq<Route>, b: seq<Route>, c: seq<Route>)
    requires SameShape(a, b) && SameShape(b, c)
    ensures SameShape(a, c)
  {
  }

  /** Applying an admissible exchange between routes ri and target. */
  lemma ApplyExchange(cfg: Config, clients: seq<Node>, routes: seq<Route>, ri: nat, ni: nat, target: nat, j: nat)
    requires WellFormed(cfg, clients, routes) && ri < |routes| && ni < |routes[ri].nodes|
    requires target < |routes| && target != ri && j < |routes[target].nodes|
    requires ExchangeAdmissible(cfg, routes[ri], ni, routes[target], j)
    ensures var c := ExchangePair(cfg, routes[ri], ni, routes[target], j);
            var result := routes[ri := c.0][target := c.1];
            && WellFormed(cfg, clients, result) && SameShape(result, routes)
            && TotalCost(result) == TotalCost(routes) + ExchangeGain(cfg, routes[ri], ni, routes[target], j)
  {
    var c := ExchangePair(cfg, routes[ri], ni, routes[target], j);
    ReplacePair(cfg, clients, routes, ri, target, c.0, c.1);
    var result := routes[ri := c.0][target := c.1];
    forall i | 0 <= i < |routes|
      ensures |result[i].nodes| == |routes[i].nodes|
    {
      if i != ri && i != target {
        assert result[i] == routes[i];
      }
    }
  }

  /** `tryInterchangeInOtherRoutes` for client x: the best improving exchange,
      if any, rewrites both routes in place. */
  method TryInterchangeInOtherRoutes(cfg: Config, clients: seq<Node>, routes: seq<Route>, x: Node)
    returns (result: seq<Route>, improved: bool)
    requires WellFormed(cfg, clients, routes) && x in clients
    ensures WellFormed(cfg, clients, result) && SameShape(result, routes)
    ensures improved ==> TotalCost(result) < TotalCost(routes) - CostTolerance
    ensures !improved ==> result == routes && NoImprovingExchange(cfg, routes, x)
  {
    ClientIsPlaced(cfg, clients, routes, x);
    var p := Locate(routes, x);
    var ri, ni := p.0, p.1;
    var found, target, j, gain := BestExchange(cfg, routes, ri, ni);
    if !found {
      return routes, false;
    }
    ApplyExchange(cfg, clients, routes, ri, ni, target, j);
    var c := ExchangePair(cfg, routes[ri], ni, routes[target], j);
    result := routes[ri := c.0][target := c.1];
    improved := true;
  }

  /** Both interchange neighbourhoods leave x where it is. */
  ghost predicate InterchangeOptimal(cfg: Config, routes: seq<Route>, x: Node)
  {
    RewriteOptimalAt(cfg, Exchange, routes, x) && NoImprovingExchange(cfg, routes, x)
  }

  ghost predicate InterchangeOptimalUpTo(cfg: Config, routes: seq<Route>, order: seq<Node>, i: nat)
    requires i <= |order|
  {
    forall j :: 0 <= j < i ==> InterchangeOptimal(cfg, routes, order[j])
  }

  lemma InterchangeOptimalExtend(cfg: Config, routes: seq<Route>, order: seq<Node>, i: nat)
    requires i < |order| && InterchangeOptimalUpTo(cfg, routes, order, i) && InterchangeOptimal(cfg, routes, order[i])
    ensures InterchangeOptimalUpTo(cfg, routes, order, i + 1)
  {
  }

  /** `performInterchange`, for a given shuffle of the clients: both
      neighbourhoods are tried for every client in turn. No exchange
      changes the number of routes or any route's length. */
  method PerformInterchange(cfg: Config, clients: seq<Node>, routes: seq<Route>, order: seq<Node>)
    returns (result: seq<Route>, improved: bool)
    requires WellFormed(cfg, clients, routes) && multiset(order) == multiset(clients)
    ensures WellFormed(cfg, clients, result) && SameShape(result, routes)
    ensures TotalCost(result) <= TotalCost(routes)
    ensures improved ==> TotalCost(result) < TotalCost(routes) - CostTolerance
    ensures !improved ==> result == routes && forall x :: x in clients ==> InterchangeOptimal(cfg, routes, x)
  {
    result, improved := routes, false;
    var i := 0;
    while i < |order|
      invariant i <= |order|
      invariant WellFormed(cfg, clients, result) && SameShape(result, routes)
      invariant TotalCost(result) <= TotalCost(routes)
      invariant improved ==> TotalCost(result) < TotalCost(routes) - CostTolerance
      invariant !improved ==> result == routes && InterchangeOptimalUpTo(cfg, routes, order, i)
    {
      var x := order[i];
      assert x in multiset(clients) by {
        assert x in multiset(order);
      }
      var before := result;
      var same, other;
      result, same := TryInRoute(cfg, clients, result, Exchange, x);
      SameLengths(before, result, FindRouteIndex(before, x));
      SameShapeTransitive(result, before, routes);
      var mid := result;
      result, other := TryInterchangeInOtherRoutes(cfg, clients, result, x);
      SameShapeTransitive(result, mid, routes);
      if !improved && !same && !other {
        InterchangeOptimalExtend(cfg, routes, order, i);
      }
      improved := improved || same || other;
      i := i + 1;
    }
    if !improved {
      forall x | x in clients
        ensures InterchangeOptimal(cfg, routes, x)
      {
        assert x in multiset(clients);
        assert x in order;
      }
    }
  }

  /** A same-route move keeps every route's length. */
  lemma SameLengths(before: seq<Route>, after: seq<Route>, ri: int)
    requires |after| == |before| && 0 <= ri < |before|
    requires forall j :: 0 <= j < |before| && j != ri ==> after[j] == before[j]
    requires multiset(after[ri].nodes) == multiset(before[ri].nodes)
    ensures SameShape(after, before)
  {
    assert |multiset(after[ri].nodes)| == |multiset(before[ri].nodes)|;
  }
}
