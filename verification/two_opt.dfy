/** The 2-opt neighbourhood of the local search: reverse a segment of one
    route, accept the first reversal that improves the route, restart. */
module TwoOpt {
  import opened Common
  import opened Instance
  import opened Routes
  import opened Solutions
  import opened Moves
  import opened Placement

  /** The reversal of positions first..last, as a built route. */
  function Candidate(cfg: Config, r: Route, first: nat, last: nat): (c: Route)
    requires first <= last < |r.nodes|
    ensures c == Evaluate(cfg, c.nodes) && multiset(c.nodes) == multiset(r.nodes)
  {
    Evaluate(cfg, TwoOptNodes(r.nodes, first, last))
  }

  /** No pair (first, last) with first < last that comes before (f, l) in
      the scan order improves r. */
  ghost predicate ScannedBefore(cfg: Config, r: Route, f: int, l: int)
  {
    forall first, last :: 0 <= first < last < |r.nodes| && (first < f || (first == f && last < l)) ==>
      !Improves(Candidate(cfg, r, first, last), r.totalCost)
  }

  /** r is a 2-opt local optimum: no segment reversal improves it. */
  ghost predicate TwoOptOptimal(cfg: Config, r: Route)
  {
    forall first, last :: 0 <= first < last < |r.nodes| ==> !Improves(Candidate(cfg, r, first, last), r.totalCost)
  }

  lemma ScanNext(cfg: Config, r: Route, f: nat, l: nat)
    requires f < l < |r.nodes| && ScannedBefore(cfg, r, f, l)
    requires !Improves(Candidate(cfg, r, f, l), r.totalCost)
    ensures ScannedBefore(cfg, r, f, l + 1)
  {
    forall first, last | 0 <= first < last < |r.nodes| && (first < f || (first == f && last < l + 1))
      ensures !Improves(Candidate(cfg, r, first, last), r.totalCost)
    {
      if first == f && last == l {
      } else {
        assert first < f || (first == f && last < l);
      }
    }
  }

  lemma ScanNextRow(cfg: Config, r: Route, f: nat, l: nat)
    requires f < l && |r.nodes| <= l && ScannedBefore(cfg, r, f, l)
    ensures ScannedBefore(cfg, r, f + 1, f + 2)
  {
  }

  lemma ScanComplete(cfg: Config, r: Route, f: int, l: int)
    requires |r.nodes| - 1 <= f && ScannedBefore(cfg, r, f, l)
    ensures TwoOptOptimal(cfg, r)
  {
  }

  /** The scan of one route (the body of the route loop of `performTwoOpt`).
      After an accepted reversal at first = f the scan resumes at first = 0
      and last = (f - 1 == 0 ? 1 : f - 1) + 1, as the source resets its
      loop indices before the loop's own increment. */
  method ImproveRoute(cfg: Config, route: Route) returns (r: Route, improved: bool)
    requires ValidConfig(cfg) && route == Evaluate(cfg, route.nodes)
    ensures r == Evaluate(cfg, r.nodes) && multiset(r.nodes) == multiset(route.nodes)
    ensures improved ==> r.isFeasible && r.totalCost < route.totalCost - CostTolerance
    ensures !improved ==> r == route && TwoOptOptimal(cfg, route)
  {
    var n := |route.nodes|;
    r, improved := route, false;
    CostNonNegative(cfg, route.nodes);
    var f, l := 0, 1;
    while f < n - 1
      invariant 0 <= f <= l <= n + 1 && (f < n - 1 ==> l <= n)
      invariant r == Evaluate(cfg, r.nodes) && |r.nodes| == n && multiset(r.nodes) == multiset(route.nodes)
      invariant r.totalCost >= 0.0
      invariant improved ==> r.isFeasible && r.totalCost < route.totalCost - CostTolerance
      invariant !improved ==> r == route && f < l && ScannedBefore(cfg, route, f, l)
      decreases Rank(r.totalCost), n - f, n + 1 - l
    {
      if l < n {
        var candidate := Candidate(cfg, r, f, l);
        if candidate.isFeasible && candidate.totalCost < r.totalCost - CostTolerance {
          CostNonNegative(cfg, candidate.nodes);
          RankDecreases(r.totalCost, candidate.totalCost);
          r := candidate;
          improved := true;
          var resume := if f - 1 == 0 then 1 else f - 1;
          f, l := 0, resume + 1;
        } else {
          if !improved {
            ScanNext(cfg, route, f, l);
          }
          l := l + 1;
        }
      } else {
        if !improved {
          ScanNextRow(cfg, route, f, l);
        }
        f := f + 1;
        l := f + 1;
      }
    }
    if !improved {
      ScanComplete(cfg, route, f, l);
    }
  }

  /** Rewriting each route into a permutation of itself keeps the route
      sizes and the client partition. */
  ghost predicate PermutesEachRoute(result: seq<Route>, routes: seq<Route>)
  {
    |result| == |routes| && forall j :: 0 <= j < |routes| ==> multiset(result[j].nodes) == multiset(routes[j].nodes)
  }

  lemma ImproveStep(cfg: Config, clients: seq<Node>, routes: seq<Route>, result: seq<Route>, i: nat, r: Route)
    requires WellFormed(cfg, clients, result) && PermutesEachRoute(result, routes) && i < |routes|
    requires r == Evaluate(cfg, r.nodes) && r.isFeasible && multiset(r.nodes) == multiset(result[i].nodes)
    ensures WellFormed(cfg, clients, result[i := r]) && PermutesEachRoute(result[i := r], routes)
    ensures TotalCost(result[i := r]) == TotalCost(result) - result[i].totalCost + r.totalCost
  {
    assert |multiset(r.nodes)| == |r.nodes| && |multiset(result[i].nodes)| == |result[i].nodes|;
    ReplaceRoute(cfg, clients, result, i, r);
    var next := result[i := r];
    forall j | 0 <= j < |routes|
      ensures multiset(next[j].nodes) == multiset(routes[j].nodes)
    {
      if j != i {
        assert next[j] == result[j];
      }
    }
  }

  ghost predicate OptimalUpTo(cfg: Config, routes: seq<Route>, i: nat)
    requires i <= |routes|
  {
    forall j :: 0 <= j < i ==> TwoOptOptimal(cfg, routes[j])
  }

  lemma OptimalExtend(cfg: Config, routes: seq<Route>, i: nat)
    requires i < |routes| && OptimalUpTo(cfg, routes, i) && TwoOptOptimal(cfg, routes[i])
    ensures OptimalUpTo(cfg, routes, i + 1)
  {
  }

  /** `performTwoOpt`: every route in turn, in place. */
  method PerformTwoOpt(cfg: Config, clients: seq<Node>, routes: seq<Route>) returns (result: seq<Route>, improved: bool)
    requires ValidConfig(cfg) && WellFormed(cfg, clients, routes)
    ensures WellFormed(cfg, clients, result) && PermutesEachRoute(result, routes)
    ensures TotalCost(result) <= TotalCost(routes)
    ensures improved ==> TotalCost(result) < TotalCost(routes) - CostTolerance
    ensures !improved ==> result == routes && forall i :: 0 <= i < |routes| ==> TwoOptOptimal(cfg, routes[i])
  {
    result, improved := routes, false;
    var i := 0;
    while i < |routes|
      invariant 0 <= i <= |routes|
      invariant WellFormed(cfg, clients, result) && PermutesEachRoute(result, routes)
      invariant TotalCost(result) <= TotalCost(routes)
      invariant improved ==> TotalCost(result) < TotalCost(routes) - CostTolerance
      invariant !improved ==> result == routes && OptimalUpTo(cfg, routes, i)
    {
      var r, changed := ImproveRoute(cfg, result[i]);
      if changed {
        ImproveStep(cfg, clients, routes, result, i, r);
        result := result[i := r];
        improved := true;
      } else if !improved {
        OptimalExtend(cfg, routes, i);
      }
      i := i + 1;
    }
  }
}
