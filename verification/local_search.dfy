/** `LocalSearch.run`: the four neighbourhoods in turn, repeated until a
    whole round improves nothing. */
module LocalSearch {
  import opened Common
  import opened Instance
  import opened Routes
  import opened Solutions
  import opened Moves
  import opened Placement
  import opened Shuffling
  import opened TwoOpt
  import opened Crossover
  import opened InRoute
  import opened Insertion
  import opened Interchange

  /** The solution is a local optimum of all four neighbourhoods: no 2-opt
      reversal improves a route, no crossover improves a pair of routes (in
      the pass order of some shuffle), and no insertion or interchange of a
      client improves the solution. */
  ghost predicate LocalOptimum(cfg: Config, clients: seq<Node>, routes: seq<Route>)
  {
    && (forall i :: 0 <= i < |routes| ==> TwoOptOptimal(cfg, routes[i]))
    && (exists order :: IsIndexPerm(order, |routes|) && CrossoverOptimal(cfg, routes, order))
    && (forall x :: x in clients ==> InsertionOptimal(cfg, routes, x))
    && (forall x :: x in clients ==> InterchangeOptimal(cfg, routes, x))
  }

  /** One round of the loop in `run`: 2-opt, crossover over a shuffle of the
      route positions, insertion and interchange over shuffles of the
      clients. The three shuffles read the generator of `Collections.shuffle`
      from draw t0 on, one draw per swap, and t is the next unread draw. */
  method Round(cfg: Config, clients: seq<Node>, routes: seq<Route>, random: nat -> nat, t0: nat)
    returns (result: seq<Route>, improved: bool, t: nat)
    requires ValidConfig(cfg) && WellFormed(cfg, clients, routes)
    ensures t >= t0 && t >= t0 + 2 * (|clients| - 1)
    ensures WellFormed(cfg, clients, result)
    ensures TotalCost(result) <= TotalCost(routes)
    ensures improved ==> TotalCost(result) < TotalCost(routes) - CostTolerance
    ensures !improved ==> result == routes && LocalOptimum(cfg, clients, routes)
  {
    var afterTwoOpt, twoOpt := PerformTwoOpt(cfg, clients, routes);
    var positions := Positions(|afterTwoOpt|);
    var routeOrder, t1 := Shuffle(positions, random, t0);
    ShuffledIndexPerm(positions, routeOrder, |afterTwoOpt|);
    var afterCrossover, crossover := PerformCrossover(cfg, clients, afterTwoOpt, routeOrder);
    var insertionOrder, t2 := Shuffle(clients, random, t1);
    var afterInsertion, insertion := PerformInsertion(cfg, clients, afterCrossover, insertionOrder);
    var interchangeOrder, t3 := Shuffle(clients, random, t2);
    var afterInterchange, interchange := PerformInterchange(cfg, clients, afterInsertion, interchangeOrder);
    result, improved, t := afterInterchange, twoOpt || crossover || insertion || interchange, t3;
    if !improved {
      assert IsIndexPerm(routeOrder, |routes|) && CrossoverOptimal(cfg, routes, routeOrder);
    }
  }

  /** `run`: rounds until one improves nothing, then the solution is stamped
      as a local-search result. The shuffles read the generator of
      `Collections.shuffle` from draw t0 on and t is the next unread draw;
      the elapsed wall-clock time in milliseconds is a parameter. */
  method Run(cfg: Config, clients: seq<Node>, solution: Solution, random: nat -> nat, t0: nat, elapsedMillis: real)
    returns (r: Solution, t: nat)
    requires ValidConfig(cfg) && WellFormed(cfg, clients, solution.routes)
    ensures t >= t0
    ensures WellFormed(cfg, clients, r.routes) && LocalOptimum(cfg, clients, r.routes)
    ensures TotalCost(r.routes) <= TotalCost(solution.routes)
    ensures r.status == "LocalSearch" && r.lowerBound == 0.0 && r.gap == 0.0 && r.creationTime == 0.0
    ensures r.solvingTime == elapsedMillis / 1000.0 && r.cplexLog == solution.cplexLog
  {
    var routes := solution.routes;
    var improved := true;
    t := t0;
    WellFormedCostNonNegative(cfg, clients, routes);
    while improved
      invariant WellFormed(cfg, clients, routes) && 0.0 <= TotalCost(routes) <= TotalCost(solution.routes)
      invariant !improved ==> LocalOptimum(cfg, clients, routes)
      invariant t >= t0
      decreases Rank(TotalCost(routes)) + (if improved then 1 else 0)
    {
      var before := routes;
      routes, improved, t := Round(cfg, clients, routes, random, t);
      WellFormedCostNonNegative(cfg, clients, routes);
      RankNonNegative(TotalCost(routes));
      if improved {
        RankDecreases(TotalCost(before), TotalCost(routes));
      }
    }
    r := solution.(routes := routes, solvingTime := elapsedMillis / 1000.0, lowerBound := 0.0, gap := 0.0,
                   status := "LocalSearch", creationTime := 0.0);
  }
}
