/** The insertion neighbourhood of the local search: move a client inside
    its route, or out of it into another route or into a route of its own. */
module Insertion {
  import opened Common
  import opened Instance
  import opened Routes
  import opened Solutions
  import opened Moves
  import opened Placement
  import opened InRoute

  /** The route left behind when the client at ni leaves r. */
  function Remainder(cfg: Config, r: Route, ni: nat): (c: Route)
    requires ni < |r.nodes|
    ensures c == Evaluate(cfg, c.nodes) && |c.nodes| == |r.nodes| - 1
    ensures multiset(c.nodes) + multiset{r.nodes[ni]} == multiset(r.nodes)
  {
    Evaluate(cfg, RemoveAt(r.nodes, ni))
  }

  /** Route s with x inserted at position k. */
  function Insertion(cfg: Config, s: Route, k: nat, x: Node): (c: Route)
    requires k <= |s.nodes|
    ensures c == Evaluate(cfg, c.nodes) && |c.nodes| == |s.nodes| + 1
    ensures multiset(c.nodes) == multiset(s.nodes) + multiset{x} && c.nodes[k] == x
  {
    Evaluate(cfg, InsertAt(s.nodes, k, x))
  }

  /** The route that serves x alone. */
  function Alone(cfg: Config, x: Node): (c: Route)
    ensures c == Evaluate(cfg, c.nodes) && c.nodes == [x]
  {
    Evaluate(cfg, [x])
  }

  /** Every feasible insertion of x into a route other than ri, at a pair
      (s', k') scanned before (s, k), changes the cost by at least
      bound - tolerance; saved is the change of x's own route. */
  ghost predicate InsertionsScanned(cfg: Config, routes: seq<Route>, ri: nat, x: Node, saved: real,
                                    s: nat, k: nat, bound: real)
  {
    forall s': nat, k': nat ::
      (s' < |routes| && s' != ri && k' <= |routes[s'].nodes| && (s' < s || (s' == s && k' < k)) &&
       Insertion(cfg, routes[s'], k', x).isFeasible) ==>
      saved + Insertion(cfg, routes[s'], k', x).totalCost - routes[s'].totalCost >= bound - CostTolerance
  }

  lemma InsertionScanned(cfg: Config, routes: seq<Route>, ri: nat, x: Node, saved: real,
                         s: nat, k: nat, bound: real, bound': real)
    requires s < |routes| && s != ri && k <= |routes[s].nodes|
    requires InsertionsScanned(cfg, routes, ri, x, saved, s, k, bound) && bound' <= bound
    requires Insertion(cfg, routes[s], k, x).isFeasible ==>
             saved + Insertion(cfg, routes[s], k, x).totalCost - routes[s].totalCost >= bound' - CostTolerance
    ensures InsertionsScanned(cfg, routes, ri, x, saved, s, k + 1, bound')
  {
    forall s': nat, k': nat |
      s' < |routes| && s' != ri && k' <= |routes[s'].nodes| && (s' < s || (s' == s && k' < k + 1)) &&
      Insertion(cfg, routes[s'], k', x).isFeasible
      ensures saved + Insertion(cfg, routes[s'], k', x).totalCost - routes[s'].totalCost >= bound' - CostTolerance
    {
      if s' != s || k' != k {
        assert s' < s || (s' == s && k' < k);
      }
    }
  }

  lemma InsertionRowScanned(cfg: Config, routes: seq<Route>, ri: nat, x: Node, saved: real, s: nat, bound: real)
    requires s < |routes| && InsertionsScanned(cfg, routes, ri, x, saved, s, |routes[s].nodes| + 1, bound)
    ensures InsertionsScanned(cfg, routes, ri, x, saved, s + 1, 0, bound)
  {
  }

  /** A route the loop skips, x's own route or one that fails the load
      pre-check, has no feasible insertion, so skipping it keeps the scan
      complete. */
  lemma RouteSkipped(cfg: Config, routes: seq<Route>, ri: nat, x: Node, saved: real, s: nat, bound: real)
    requires s < |routes| && InsertionsScanned(cfg, routes, ri, x, saved, s, 0, bound)
    requires s == ri ||
             SumDelivery(routes[s].nodes) + x.delivery > cfg.capacity || SumPickup(routes[s].nodes) + x.pickup > cfg.capacity
    ensures InsertionsScanned(cfg, routes, ri, x, saved, s + 1, 0, bound)
  {
    if s != ri {
      forall k | 0 <= k <= |routes[s].nodes|
        ensures !Insertion(cfg, routes[s], k, x).isFeasible
      {
        InsertionPrecheckSound(cfg.capacity, routes[s].nodes, x, k);
      }
    }
  }

  /** The load pre-check reads the route's first delivery course entry and
      last pickup course entry, which are its delivery and pickup totals. */
  lemma PrecheckReadsTotals(cfg: Config, r: Route)
    requires Settled(cfg, r)
    ensures |r.deliveryCourse| > 0 && |r.pickupCourse| > 0
    ensures r.deliveryCourse[0] == SumDelivery(r.nodes)
    ensures r.pickupCourse[|r.pickupCourse| - 1] == SumPickup(r.nodes)
  {
    EvaluateCourses(cfg, r.nodes);
    CourseEnds(cfg, r.nodes);
  }

  /** The cost change of moving x to position k of route target, or into a
      route of its own when target = |routes|; saved is the change of x's
      own route. */
  function TargetGain(cfg: Config, routes: seq<Route>, x: Node, saved: real, target: nat, k: nat): real
    requires target <= |routes| && (target < |routes| ==> k <= |routes[target].nodes|)
  {
    if target == |routes| then saved + Alone(cfg, x).totalCost
    else saved + Insertion(cfg, routes[target], k, x).totalCost - routes[target].totalCost
  }

  /** The state of the search over other routes: the best move so far, if
      any, with its gain. */
  ghost predicate BestSoFar(cfg: Config, routes: seq<Route>, ri: nat, x: Node, saved: real,
                            found: bool, target: nat, k: nat, gain: real)
  {
    && (found ==> gain < -CostTolerance && target < |routes| && target != ri)
    && (found ==> k <= |routes[target].nodes| && Insertion(cfg, routes[target], k, x).isFeasible)
    && (found ==> gain == TargetGain(cfg, routes, x, saved, target, k))
    && (!found ==> gain == 0.0)
  }

  /** The position loop of `tryInsertionInOtherRoutes` for one route s that
      passed the load pre-check. */
  method ScanRoute(cfg: Config, routes: seq<Route>, ri: nat, x: Node, saved: real, s: nat,
                   found0: bool, target0: nat, k0: nat, gain0: real)
    returns (found: bool, target: nat, k: nat, gain: real)
    requires s < |routes| && s != ri
    requires InsertionsScanned(cfg, routes, ri, x, saved, s, 0, gain0)
    requires BestSoFar(cfg, routes, ri, x, saved, found0, target0, k0, gain0)
    ensures InsertionsScanned(cfg, routes, ri, x, saved, s + 1, 0, gain) && gain <= gain0
    ensures BestSoFar(cfg, routes, ri, x, saved, found, target, k, gain)
    ensures found0 ==> found
  {
    found, target, k, gain := found0, target0, k0, gain0;
    var r := routes[s];
    var position := 0;
    while position <= |r.nodes|
      invariant position <= |r.nodes| + 1
      invariant InsertionsScanned(cfg, routes, ri, x, saved, s, position, gain) && gain <= gain0
      invariant BestSoFar(cfg, routes, ri, x, saved, found, target, k, gain)
      invariant found0 ==> found
    {
      var previous := gain;
      var candidate := Insertion(cfg, r, position, x);
      if candidate.isFeasible {
        var improvement := saved + candidate.totalCost - r.totalCost;
        if improvement < gain - CostTolerance {
          assert improvement == TargetGain(cfg, routes, x, saved, s, position);
          found, target, k, gain := true, s, position, improvement;
        }
      }
      InsertionScanned(cfg, routes, ri, x, saved, s, position, previous, gain);
      position := position + 1;
    }
    InsertionRowScanned(cfg, routes, ri, x, saved, s, gain);
  }

  /** The loops of `tryInsertionInOtherRoutes` over the other routes and the
      insertion positions, followed by the own-route candidate (taken only
      when x's route keeps more than one client, splittable). The chosen
      move's target is a route position, or |routes| for a new route. */
  method BestTransfer(cfg: Config, routes: seq<Route>, ri: nat, x: Node, saved: real, splittable: bool)
    returns (found: bool, target: nat, k: nat, gain: real)
    requires AllSettled(cfg, routes) && ri < |routes|
    ensures found ==> gain < -CostTolerance && InsertionsScanned(cfg, routes, ri, x, saved, |routes|, 0, gain)
    ensures found ==> target <= |routes|
    ensures found && target < |routes| ==>
              target != ri && k <= |routes[target].nodes| && Insertion(cfg, routes[target], k, x).isFeasible
    ensures found && target == |routes| ==> splittable
    ensures found ==> gain == TargetGain(cfg, routes, x, saved, target, k)
    ensures found && splittable ==> saved + Alone(cfg, x).totalCost >= gain - CostTolerance
    ensures !found ==> InsertionsScanned(cfg, routes, ri, x, saved, |routes|, 0, 0.0)
    ensures !found && splittable ==> saved + Alone(cfg, x).totalCost >= -CostTolerance
  {
    found, target, k, gain := false, 0, 0, 0.0;
    var s := 0;
    while s < |routes|
      invariant s <= |routes|
      invariant InsertionsScanned(cfg, routes, ri, x, saved, s, 0, gain)
      invariant BestSoFar(cfg, routes, ri, x, saved, found, target, k, gain)
    {
      var r := routes[s];
      if s != ri {
        PrecheckReadsTotals(cfg, r);
      }
      if s == ri || r.deliveryCourse[0] + x.delivery > cfg.capacity ||
         r.pickupCourse[|r.pickupCourse| - 1] + x.pickup > cfg.capacity {
        RouteSkipped(cfg, routes, ri, x, saved, s, gain);
      } else {
        found, target, k, gain := ScanRoute(cfg, routes, ri, x, saved, s, found, target, k, gain);
      }
      s := s + 1;
    }
    if splittable {
      var improvement := saved + Alone(cfg, x).totalCost;
      if improvement < gain - CostTolerance {
        found, target, gain := true, |routes|, improvement;
      }
    }
  }

  /** No move of x out of its route, into another route or into a route of
      its own, improves the solution by more than the tolerance. */
  ghost predicate NoImprovingTransfer(cfg: Config, routes: seq<Route>, x: Node)
  {
    var p := Locate(routes, x);
    0 <= p.0 ==>
      var rest := Remainder(cfg, routes[p.0], p.1);
      var saved := rest.totalCost - routes[p.0].totalCost;
      && InsertionsScanned(cfg, routes, p.0, x, saved, |routes|, 0, 0.0)
      && (|rest.nodes| > 1 ==> saved + Alone(cfg, x).totalCost >= -CostTolerance)
  }

  /** x leaves route ri for a new route of its own. */
  lemma TransferToNewRoute(cfg: Config, clients: seq<Node>, routes: seq<Route>, ri: nat, ni: nat)
    requires WellFormed(cfg, clients, routes) && ri < |routes| && ni < |routes[ri].nodes|
    requires |Remainder(cfg, routes[ri], ni).nodes| > 0 && Remainder(cfg, routes[ri], ni).isFeasible
    ensures var rest, alone := Remainder(cfg, routes[ri], ni), Alone(cfg, routes[ri].nodes[ni]);
            var result := (routes + [alone])[ri := rest];
            && WellFormed(cfg, clients, result)
            && TotalCost(result) == TotalCost(routes) + (rest.totalCost - routes[ri].totalCost) + alone.totalCost
  {
    var r := routes[ri];
    var rest, alone := Remainder(cfg, r, ni), Alone(cfg, r.nodes[ni]);
    SingletonFeasible(cfg.capacity, r.nodes, ni);
    assert multiset(alone.nodes) == multiset{r.nodes[ni]};
    SplitRoute(cfg, clients, routes, ri, rest, alone);
  }

  /** x leaves route ri, which held only x, for route target. */
  lemma TransferEmptying(cfg: Config, clients: seq<Node>, routes: seq<Route>, ri: nat, ni: nat, target: nat, k: nat)
    requires WellFormed(cfg, clients, routes) && ri < |routes| && ni < |routes[ri].nodes|
    requires |Remainder(cfg, routes[ri], ni).nodes| == 0
    requires target < |routes| && target != ri && k <= |routes[target].nodes|
    requires Insertion(cfg, routes[target], k, routes[ri].nodes[ni]).isFeasible
    ensures var rest, moved := Remainder(cfg, routes[ri], ni), Insertion(cfg, routes[target], k, routes[ri].nodes[ni]);
            var result := RemoveAt(routes[target := moved], ri);
            && |result| == |routes| - 1 && routes[ri].nodes == [routes[ri].nodes[ni]]
            && WellFormed(cfg, clients, result)
            && TotalCost(result) == TotalCost(routes) + (rest.totalCost - routes[ri].totalCost)
                                    + moved.totalCost - routes[target].totalCost
  {
    var r := routes[ri];
    var x := r.nodes[ni];
    var rest, moved := Remainder(cfg, r, ni), Insertion(cfg, routes[target], k, x);
    assert rest.nodes == [];
    assert rest.totalCost == Cost(cfg, rest.nodes) == 0.0;
    assert multiset(r.nodes) == multiset{x};
    assert |r.nodes| == 1 && r.nodes == [x];
    MergeRoutes(cfg, clients, routes, ri, target, moved);
  }

  /** x leaves route ri, which keeps other clients, for route target. */
  lemma TransferBetween(cfg: Config, clients: seq<Node>, routes: seq<Route>, ri: nat, ni: nat, target: nat, k: nat)
    requires WellFormed(cfg, clients, routes) && ri < |routes| && ni < |routes[ri].nodes|
    requires |Remainder(cfg, routes[ri], ni).nodes| > 0 && Remainder(cfg, routes[ri], ni).isFeasible
    requires target < |routes| && target != ri && k <= |routes[target].nodes|
    requires Insertion(cfg, routes[target], k, routes[ri].nodes[ni]).isFeasible
    ensures var rest, moved := Remainder(cfg, routes[ri], ni), Insertion(cfg, routes[target], k, routes[ri].nodes[ni]);
            var result := routes[target := moved][ri := rest];
            && WellFormed(cfg, clients, result)
            && TotalCost(result) == TotalCost(routes) + (rest.totalCost - routes[ri].totalCost)
                                    + moved.totalCost - routes[target].totalCost
  {
    var r := routes[ri];
    var x := r.nodes[ni];
    var rest, moved := Remainder(cfg, r, ni), Insertion(cfg, routes[target], k, x);
    ReplacePair(cfg, clients, routes, target, ri, moved, rest);
  }

  /** The update at the end of `tryInsertionInOtherRoutes`: the target route
      is replaced (or the new route appended), then x's route is replaced
      by what remains of it, or dropped when nothing remains. */
  method ApplyTransfer(cfg: Config, clients: seq<Node>, routes: seq<Route>, ri: nat, ni: nat, x: Node, saved: real,
                       target: nat, k: nat)
    returns (result: seq<Route>)
    requires WellFormed(cfg, clients, routes) && ri < |routes| && ni < |routes[ri].nodes| && routes[ri].nodes[ni] == x
    requires Remainder(cfg, routes[ri], ni).isFeasible && saved == Remainder(cfg, routes[ri], ni).totalCost - routes[ri].totalCost
    requires target <= |routes| && (target == |routes| ==> |Remainder(cfg, routes[ri], ni).nodes| > 1)
    requires target < |routes| ==>
               target != ri && k <= |routes[target].nodes| && Insertion(cfg, routes[target], k, x).isFeasible
    ensures WellFormed(cfg, clients, result)
    ensures TotalCost(result) == TotalCost(routes) + TargetGain(cfg, routes, x, saved, target, k)
    ensures |routes| - 1 <= |result| <= |routes| + 1
    ensures |result| == |routes| + 1 ==> result[|routes|] == Alone(cfg, x)
    ensures |result| == |routes| - 1 ==> routes[ri].nodes == [x]
  {
    var rest := Remainder(cfg, routes[ri], ni);
    if target == |routes| {
      TransferToNewRoute(cfg, clients, routes, ri, ni);
      result := (routes + [Alone(cfg, x)])[ri := rest];
      assert |result| == |routes| + 1 && result[|routes|] == Alone(cfg, x);
    } else {
      result := MoveIntoRoute(cfg, clients, routes, ri, ni, x, target, k);
    }
  }

  /** The branch of the update that moves x into another route. */
  method MoveIntoRoute(cfg: Config, clients: seq<Node>, routes: seq<Route>, ri: nat, ni: nat, x: Node,
                       target: nat, k: nat)
    returns (result: seq<Route>)
    requires WellFormed(cfg, clients, routes) && ri < |routes| && ni < |routes[ri].nodes| && routes[ri].nodes[ni] == x
    requires Remainder(cfg, routes[ri], ni).isFeasible
    requires target < |routes| && target != ri && k <= |routes[target].nodes|
    requires Insertion(cfg, routes[target], k, x).isFeasible
    ensures WellFormed(cfg, clients, result)
    ensures TotalCost(result) == TotalCost(routes) + (Remainder(cfg, routes[ri], ni).totalCost - routes[ri].totalCost)
                                 + Insertion(cfg, routes[target], k, x).totalCost - routes[target].totalCost
    ensures |routes| - 1 <= |result| <= |routes|
    ensures |result| == |routes| - 1 ==> routes[ri].nodes == [x]
  {
    var r := routes[ri];
    var rest := Remainder(cfg, r, ni);
    var moved := Insertion(cfg, routes[target], k, x);
    if |rest.nodes| == 0 {
      TransferEmptying(cfg, clients, routes, ri, ni, target, k);
      result := RemoveAt(routes[target := moved], ri);
    } else {
      TransferBetween(cfg, clients, routes, ri, ni, target, k);
      result := routes[target := moved][ri := rest];
    }
  }

  /** `tryInsertionInOtherRoutes` for client x. Taking x out of a feasible
      route always leaves a feasible route, so the source's early exit for
      an infeasible remainder is never taken. */
  method TryInsertionInOtherRoutes(cfg: Config, clients: seq<Node>, routes: seq<Route>, x: Node)
    returns (result: seq<Route>, improved: bool)
    requires WellFormed(cfg, clients, routes) && x in clients
    ensures WellFormed(cfg, clients, result)
    ensures |routes| - 1 <= |result| <= |routes| + 1
    ensures |result| == |routes| + 1 ==> result[|routes|] == Alone(cfg, x)
    ensures var ri := FindRouteIndex(routes, x);
            |result| == |routes| - 1 ==> 0 <= ri && routes[ri].nodes == [x]
    ensures improved ==> TotalCost(result) < TotalCost(routes) - CostTolerance
    ensures !improved ==> result == routes && NoImprovingTransfer(cfg, routes, x)
  {
    ClientIsPlaced(cfg, clients, routes, x);
    var p := Locate(routes, x);
    var ri, ni := p.0, p.1;
    var r := routes[ri];
    var rest := Remainder(cfg, r, ni);
    RemoveKeepsCapacity(cfg.capacity, r.nodes, ni);
    assert rest.isFeasible;
    var saved := rest.totalCost - r.totalCost;
    var found, target, k, gain := BestTransfer(cfg, routes, ri, x, saved, |rest.nodes| > 1);
    if !found {
      return routes, false;
    }
    result := ApplyTransfer(cfg, clients, routes, ri, ni, x, saved, target, k);
    improved := true;
  }

  /** Both insertion neighbourhoods leave x where it is. */
  ghost predicate InsertionOptimal(cfg: Config, routes: seq<Route>, x: Node)
  {
    RewriteOptimalAt(cfg, Relocate, routes, x) && NoImprovingTransfer(cfg, routes, x)
  }

  ghost predicate InsertionOptimalUpTo(cfg: Config, routes: seq<Route>, order: seq<Node>, i: nat)
    requires i <= |order|
  {
    forall j :: 0 <= j < i ==> InsertionOptimal(cfg, routes, order[j])
  }

  lemma InsertionOptimalExtend(cfg: Config, routes: seq<Route>, order: seq<Node>, i: nat)
    requires i < |order| && InsertionOptimalUpTo(cfg, routes, order, i) && InsertionOptimal(cfg, routes, order[i])
    ensures InsertionOptimalUpTo(cfg, routes, order, i + 1)
  {
  }

  /** Every client appears in a shuffle of the clients. */
  lemma ShuffleCovers<T>(order: seq<T>, clients: seq<T>, x: T)
    requires multiset(order) == multiset(clients) && x in clients
    ensures exists j :: 0 <= j < |order| && order[j] == x
  {
    assert x in multiset(clients);
    assert x in order;
  }

  /** `performInsertion`, for a given shuffle of the clients: both
      neighbourhoods are tried for every client in turn. */
  method PerformInsertion(cfg: Config, clients: seq<Node>, routes: seq<Route>, order: seq<Node>)
    returns (result: seq<Route>, improved: bool)
    requires WellFormed(cfg, clients, routes) && multiset(order) == multiset(clients)
    ensures WellFormed(cfg, clients, result)
    ensures TotalCost(result) <= TotalCost(routes)
    ensures improved ==> TotalCost(result) < TotalCost(routes) - CostTolerance
    ensures !improved ==> result == routes && forall x :: x in clients ==> InsertionOptimal(cfg, routes, x)
  {
    result, improved := routes, false;
    var i := 0;
    while i < |order|
      invariant i <= |order|
      invariant WellFormed(cfg, clients, result)
      invariant TotalCost(result) <= TotalCost(routes)
      invariant improved ==> TotalCost(result) < TotalCost(routes) - CostTolerance
      invariant !improved ==> result == routes && InsertionOptimalUpTo(cfg, routes, order, i)
    {
      var x := order[i];
      assert x in multiset(clients) by {
        assert x in multiset(order);
      }
      var same, other;
      result, same := TryInRoute(cfg, clients, result, Relocate, x);
      result, other := TryInsertionInOtherRoutes(cfg, clients, result, x);
      if !improved && !same && !other {
        InsertionOptimalExtend(cfg, routes, order, i);
      }
      improved := improved || same || other;
      i := i + 1;
    }
    if !improved {
      forall x | x in clients
        ensures InsertionOptimal(cfg, routes, x)
      {
        ShuffleCovers(order, clients, x);
      }
    }
  }
}
