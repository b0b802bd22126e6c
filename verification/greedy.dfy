/** The greedy constructor: routes are grown one at a time from the pool of
    unrouted clients, each step trying a nearest or a random client and
    keeping it when an incremental load check accepts it; the result is then
    improved by the local search. Each random generator of the program is a
    stream parameter: draw number t, taken with bound b, yields
    random(t) % b. The constructor follows the code as written, strict final
    comparison included; the corrected check is stated beside it. */
module Greedy {
  import opened Common
  import opened Instance
  import opened Routes
  import opened Solutions
  import opened Shuffling
  import LocalSearch

  /** NEAREST_NEIGHBOR_PROBABILITY = 0.99, as a draw below 99 out of 100. */
  const NearestNeighborPercent: nat := 99

  // ---------------------------------------------------------------------
  // The incremental load check.
  // ---------------------------------------------------------------------

  /** The loop of `isFeasibleRoute`: starting from the given load, each route
      client adds its pickup and drops its delivery; the walk fails as soon
      as the load exceeds the capacity, and otherwise yields the final load. */
  function LoadWalk(nodes: seq<Node>, load: int, capacity: int): Option<int>
  {
    if |nodes| == 0 then Some(load)
    else
      var next := load + nodes[0].pickup - nodes[0].delivery;
      if next > capacity then None else LoadWalk(nodes[1..], next, capacity)
  }

  /** The load `isFeasibleRoute` compares with the capacity at the end: the
      walk's final load plus the trial client's pickup minus its delivery, or
      None when the check fails before reaching it. */
  function FinalLoad(trial: Node, nodes: seq<Node>, loadTrial: int, capacity: int): Option<int>
  {
    if loadTrial > capacity then None
    else
      match LoadWalk(nodes, loadTrial, capacity)
      case None => None
      case Some(load) => Some(load + trial.pickup - trial.delivery)
  }

  /** `isFeasibleRoute` as written: the final comparison is strict. */
  function IsFeasibleRouteAsWritten(trial: Node, nodes: seq<Node>, loadTrial: int, capacity: int): (ok: bool)
    ensures ok ==> loadTrial <= capacity
    ensures ok ==> IsFeasibleRoute(trial, nodes, loadTrial, capacity)
  {
    var last := FinalLoad(trial, nodes, loadTrial, capacity);
    last.Some? && last.value < capacity
  }

  /** `isFeasibleRoute` with the final comparison the route constructor uses:
      the load on the way back to the depot may reach the capacity. */
  function IsFeasibleRoute(trial: Node, nodes: seq<Node>, loadTrial: int, capacity: int): (ok: bool)
    ensures ok ==> loadTrial <= capacity
  {
    var last := FinalLoad(trial, nodes, loadTrial, capacity);
    last.Some? && last.value <= capacity
  }

  /** One step of the load course: serving the client at position k. */
  lemma LoadStep(s: seq<Node>, k: nat)
    requires k < |s|
    ensures LoadAfter(s, k + 1) == LoadAfter(s, k) + s[k].pickup - s[k].delivery
  {
    PrefixSums(s, k + 1);
    assert s[..k + 1][..k] == s[..k];
  }

  /** The loads after stops i + 1 .. m stay within capacity. */
  ghost predicate LoadsFit(s: seq<Node>, i: nat, m: nat, capacity: int)
    requires i <= m <= |s|
    decreases m - i
  {
    i < m ==> LoadAfter(s, i + 1) <= capacity && LoadsFit(s, i + 1, m, capacity)
  }

  lemma {:induction false} LoadsFitAll(s: seq<Node>, i: nat, m: nat, capacity: int)
    requires i <= m <= |s|
    decreases m - i
    ensures LoadsFit(s, i, m, capacity) <==> forall k :: i < k <= m ==> LoadAfter(s, k) <= capacity
  {
    if i < m {
      LoadsFitAll(s, i + 1, m, capacity);
    }
  }

  /** The walk over s[i..m] started from the load after stop i visits the
      loads after stops i + 1 .. m, and fails exactly when one of them
      exceeds the capacity. */
  lemma {:induction false} LoadWalkFollowsCourse(s: seq<Node>, i: nat, m: nat, capacity: int)
    requires i <= m <= |s|
    ensures LoadWalk(s[i..m], LoadAfter(s, i), capacity) ==
            if LoadsFit(s, i, m, capacity) then Some(LoadAfter(s, m)) else None
    decreases m - i
  {
    if i < m {
      LoadStep(s, i);
      assert s[i..m][0] == s[i] && s[i..m][1..] == s[i + 1..m];
      LoadWalkFollowsCourse(s, i + 1, m, capacity);
    }
  }

  /** The load course of nodes + [trial] starts at the delivery total and
      ends at the pickup total. */
  lemma CourseOfExtension(nodes: seq<Node>, trial: Node)
    ensures var s := nodes + [trial];
            && SumDelivery(s) == SumDelivery(nodes) + trial.delivery
            && LoadAfter(s, 0) == SumDelivery(s)
            && LoadAfter(s, |s|) == SumPickup(s)
            && s[0..|nodes|] == nodes
  {
    var s := nodes + [trial];
    assert s[..|s| - 1] == nodes;
    assert s[..0] == [] && s[..|s|] == s;
  }

  /** Called with the accepted deliveries plus the trial delivery, the
      check reaches its final comparison exactly when the delivery total and
      the loads after the accepted clients are within capacity, and it then
      compares the pickup total of the extended route. */
  lemma FinalLoadIsPickupTotal(trial: Node, nodes: seq<Node>, capacity: int)
    ensures var s := nodes + [trial];
            FinalLoad(trial, nodes, SumDelivery(nodes) + trial.delivery, capacity) ==
            if SumDelivery(s) <= capacity && forall k :: 0 < k < |s| ==> LoadAfter(s, k) <= capacity
            then Some(SumPickup(s)) else None
  {
    var s := nodes + [trial];
    CourseOfExtension(nodes, trial);
    LoadWalkFollowsCourse(s, 0, |nodes|, capacity);
    LoadsFitAll(s, 0, |nodes|, capacity);
    LoadStep(s, |nodes|);
  }

  /** Soundness and completeness of the corrected check: it accepts exactly
      when the route with the trial client appended obeys the capacity
      rule. */
  lemma CheckIsCapacityRule(trial: Node, nodes: seq<Node>, capacity: int)
    ensures IsFeasibleRoute(trial, nodes, SumDelivery(nodes) + trial.delivery, capacity) <==>
            WithinCapacity(capacity, nodes + [trial])
  {
    var s := nodes + [trial];
    FinalLoadIsPickupTotal(trial, nodes, capacity);
    CourseOfExtension(nodes, trial);
    if IsFeasibleRoute(trial, nodes, SumDelivery(nodes) + trial.delivery, capacity) {
      forall k | 1 <= k <= |s| ensures LoadAfter(s, k) <= capacity {
        if k < |s| {
          assert 0 < k < |s|;
        }
      }
    }
  }

  /** The check as written accepts exactly the extensions the corrected
      check accepts whose pickups stay strictly below the capacity. */
  lemma AsWrittenIsStricter(trial: Node, nodes: seq<Node>, capacity: int)
    ensures IsFeasibleRouteAsWritten(trial, nodes, SumDelivery(nodes) + trial.delivery, capacity) <==>
            WithinCapacity(capacity, nodes + [trial]) && SumPickup(nodes + [trial]) < capacity
  {
    StrictComparison(trial, nodes, capacity);
    CheckIsCapacityRule(trial, nodes, capacity);
  }

  lemma StrictComparison(trial: Node, nodes: seq<Node>, capacity: int)
    ensures IsFeasibleRouteAsWritten(trial, nodes, SumDelivery(nodes) + trial.delivery, capacity) <==>
            IsFeasibleRoute(trial, nodes, SumDelivery(nodes) + trial.delivery, capacity) && SumPickup(nodes + [trial]) < capacity
  {
    FinalLoadIsPickupTotal(trial, nodes, capacity);
  }

  /** The discrepancy: a client whose pickup alone fills the vehicle forms a
      feasible route by itself, but the check as written never lets it into
      any route. */
  lemma FullPickupNeverAccepted(cfg: Config, trial: Node, nodes: seq<Node>)
    requires trial.pickup >= cfg.capacity
    ensures !IsFeasibleRouteAsWritten(trial, nodes, SumDelivery(nodes) + trial.delivery, cfg.capacity)
  {
    FinalLoadIsPickupTotal(trial, nodes, cfg.capacity);
    var s := nodes + [trial];
    assert s[..|s| - 1] == nodes;
  }

  /** The smallest instance of it: a single client whose pickup equals the
      capacity is a feasible route on its own, yet the check as written
      rejects it even for an empty route. */
  lemma FullPickupCounterexample(cfg: Config, client: Node)
    requires client.pickup == cfg.capacity && client.delivery <= cfg.capacity
    ensures Evaluate(cfg, [client]).isFeasible
    ensures !IsFeasibleRouteAsWritten(client, [], client.delivery, cfg.capacity)
  {
    SingleClientCapacity(cfg.capacity, client);
    assert SumDelivery([]) == 0;
    FullPickupNeverAccepted(cfg, client, []);
  }

  /** A client the check as written admits into an empty route: its
      delivery fits in the vehicle and its pickup stays strictly below the
      capacity. */
  predicate FitsAlone(cfg: Config, n: Node)
  {
    n.delivery <= cfg.capacity && n.pickup < cfg.capacity
  }

  /** A client fits alone exactly when the check as written admits it into
      an empty route; the corrected check admits it too. */
  lemma FitsAloneIsCheck(cfg: Config, n: Node)
    ensures FitsAlone(cfg, n) <==> IsFeasibleRouteAsWritten(n, [], n.delivery, cfg.capacity)
    ensures FitsAlone(cfg, n) ==> IsFeasibleRoute(n, [], n.delivery, cfg.capacity)
  {
    assert SumDelivery([]) == 0;
    assert [] + [n] == [n];
    AsWrittenIsStricter(n, [], cfg.capacity);
    StrictComparison(n, [], cfg.capacity);
    SingleClientCapacity(cfg.capacity, n);
    assert SumPickup([n]) == n.pickup;
  }

  /** A route of one client is within capacity exactly when its delivery
      and its pickup are. */
  lemma SingleClientCapacity(capacity: int, n: Node)
    ensures WithinCapacity(capacity, [n]) <==> n.delivery <= capacity && n.pickup <= capacity
  {
    var s := [n];
    assert s[..0] == [] && s[..1] == s;
    assert SumDelivery(s) == n.delivery;
    assert SumPickup(s) == n.pickup;
    assert LoadAfter(s, 1) == n.pickup;
  }

  // ---------------------------------------------------------------------
  // Choosing the trial client.
  // ---------------------------------------------------------------------

  /** The stream minimum by distance from `from`: the first closest client. */
  function NearestIndex(cfg: Config, from: Node, s: seq<Node>): (i: nat)
    requires |s| > 0
    ensures i < |s|
    ensures forall j :: 0 <= j < |s| ==> cfg.dist(from.id, s[i].id) <= cfg.dist(from.id, s[j].id)
    ensures forall j :: 0 <= j < i ==> cfg.dist(from.id, s[j].id) > cfg.dist(from.id, s[i].id)
  {
    if |s| == 1 then 0
    else
      var k := 1 + NearestIndex(cfg, from, s[1..]);
      assert forall j :: 1 <= j < |s| ==> s[j] == s[1..][j - 1];
      if cfg.dist(from.id, s[0].id) <= cfg.dist(from.id, s[k].id) then 0 else k
  }

  /** `freeNodes.removeAll(nodes)`: the pool without any value of nodes, in
      pool order. */
  function RemoveAll(s: seq<Node>, gone: seq<Node>): (r: seq<Node>)
    ensures forall x :: x in r <==> x in s && x !in gone
    ensures multiset(r) <= multiset(s)
  {
    if |s| == 0 then []
    else
      var rest := RemoveAll(s[..|s| - 1], gone);
      assert s == s[..|s| - 1] + [s[|s| - 1]];
      if s[|s| - 1] in gone then rest else rest + [s[|s| - 1]]
  }

  lemma {:induction false} RemoveAllCounts(s: seq<Node>, gone: seq<Node>, v: Node)
    ensures multiset(RemoveAll(s, gone))[v] == if v in gone then 0 else multiset(s)[v]
  {
    if |s| > 0 {
      RemoveAllCounts(s[..|s| - 1], gone, v);
      assert s == s[..|s| - 1] + [s[|s| - 1]];
    }
  }

  /** Removing the accepted clients from a pool without repeats leaves
      exactly the other clients. */
  lemma RemoveAllSplits(s: seq<Node>, gone: seq<Node>)
    requires Distinct(s) && multiset(gone) <= multiset(s)
    ensures Distinct(gone)
    ensures multiset(RemoveAll(s, gone)) + multiset(gone) == multiset(s)
  {
    DistinctCounts(s);
    DistinctCounts(gone);
    forall v ensures (multiset(RemoveAll(s, gone)) + multiset(gone))[v] == multiset(s)[v] {
      RemoveAllCounts(s, gone, v);
      if v in gone {
        assert v in multiset(gone);
      }
    }
    assert multiset(RemoveAll(s, gone)) + multiset(gone) == multiset(s);
  }

  // ---------------------------------------------------------------------
  // `createRoute` and `run`.
  // ---------------------------------------------------------------------

  /** The choice of the trial client in `createRoute`. While the route
      still ends at the depot the client is drawn uniformly and no coin is
      drawn; afterwards a coin draw below NearestNeighborPercent picks the
      first client closest to the route's end, and otherwise a uniform draw
      follows the coin. */
  method PickTrial(cfg: Config, end: Option<Node>, feasible: seq<Node>, random: nat -> nat, t0: nat)
    returns (i: nat, t: nat)
    requires |feasible| > 0
    ensures i < |feasible| && t0 < t
    ensures end.None? ==> i == random(t0) % |feasible| && t == t0 + 1
    ensures end.Some? && random(t0) % 100 < NearestNeighborPercent ==>
            t == t0 + 1 && i == NearestIndex(cfg, end.value, feasible) &&
            forall j :: 0 <= j < |feasible| ==> cfg.dist(end.value.id, feasible[i].id) <= cfg.dist(end.value.id, feasible[j].id)
    ensures end.Some? && random(t0) % 100 >= NearestNeighborPercent ==>
            i == random(t0 + 1) % |feasible| && t == t0 + 2
  {
    t := t0;
    if end.Some? && random(t) % 100 < NearestNeighborPercent {
      t := t + 1;
      i := NearestIndex(cfg, end.value, feasible);
    } else {
      if end.Some? {
        t := t + 1;
      }
      i := random(t) % |feasible|;
      t := t + 1;
    }
  }

  /** Accepting a client the check as written admits keeps the route within
      capacity with its pickups strictly below the capacity, and keeps the
      delivery total up to date. */
  lemma AcceptKeepsCapacity(cfg: Config, nodes: seq<Node>, trial: Node)
    requires IsFeasibleRouteAsWritten(trial, nodes, SumDelivery(nodes) + trial.delivery, cfg.capacity)
    ensures WithinCapacity(cfg.capacity, nodes + [trial]) && SumPickup(nodes + [trial]) < cfg.capacity
    ensures SumDelivery(nodes + [trial]) == SumDelivery(nodes) + trial.delivery
  {
    AsWrittenIsStricter(trial, nodes, cfg.capacity);
    CourseOfExtension(nodes, trial);
  }

  /** Every client of the pool passes the check as written on an empty
      route. */
  ghost predicate AllFitAlone(cfg: Config, pool: seq<Node>)
  {
    forall n :: n in pool ==> FitsAlone(cfg, n)
  }

  /** The state of `createRoute` between trials: the route so far and the
      untried clients come from the pool, `totalDelivery` is the delivery
      total of the route, `end` is its last client (None while the route
      still ends at the depot), the route obeys the capacity rule with its
      pickups strictly below the capacity, and while
      it is empty nothing has been tried yet when every client fits alone. */
  ghost predicate Trying(cfg: Config, free: seq<Node>, feasible: seq<Node>, nodes: seq<Node>,
                         totalDelivery: nat, end: Option<Node>)
  {
    && multiset(nodes) + multiset(feasible) <= multiset(free)
    && totalDelivery == SumDelivery(nodes)
    && end == (if |nodes| == 0 then None else Some(nodes[|nodes| - 1]))
    && (|nodes| == 0 || (WithinCapacity(cfg.capacity, nodes) && SumPickup(nodes) < cfg.capacity))
    && (AllFitAlone(cfg, free) && |nodes| == 0 ==> feasible == free)
  }

  /** One trial of `createRoute`: the client at position i joins the route
      exactly when the load check as written accepts it, and leaves the
      untried clients either way. */
  method TryTrial(cfg: Config, free: seq<Node>, feasible: seq<Node>, nodes: seq<Node>,
                  totalDelivery: nat, end: Option<Node>, i: nat)
    returns (feasible': seq<Node>, nodes': seq<Node>, totalDelivery': nat, end': Option<Node>)
    requires i < |feasible| && Trying(cfg, free, feasible, nodes, totalDelivery, end)
    ensures Trying(cfg, free, feasible', nodes', totalDelivery', end') && |feasible'| == |feasible| - 1
    ensures var accepted := IsFeasibleRouteAsWritten(feasible[i], nodes, SumDelivery(nodes) + feasible[i].delivery, cfg.capacity);
            nodes' == if accepted then nodes + [feasible[i]] else nodes
  {
    var trial := feasible[i];
    var position := IndexOf(feasible, trial);
    feasible', nodes', totalDelivery', end' := RemoveAt(feasible, position), nodes, totalDelivery, end;
    if IsFeasibleRouteAsWritten(trial, nodes, totalDelivery + trial.delivery, cfg.capacity) {
      AcceptKeepsCapacity(cfg, nodes, trial);
      nodes', end', totalDelivery' := nodes + [trial], Some(trial), totalDelivery + trial.delivery;
    } else if AllFitAlone(cfg, free) && |nodes| == 0 {
      FitsAloneIsCheck(cfg, trial);
      assert false;
    }
  }

  /** The trial loop of `createRoute`: every client of the pool is tried
      once, in the order PickTrial draws. */
  method GrowRoute(cfg: Config, free: seq<Node>, random: nat -> nat, t0: nat)
    returns (nodes: seq<Node>, t: nat)
    ensures multiset(nodes) <= multiset(free)
    ensures |nodes| == 0 || (WithinCapacity(cfg.capacity, nodes) && SumPickup(nodes) < cfg.capacity)
    ensures |free| > 0 && AllFitAlone(cfg, free) ==> |nodes| > 0
  {
    var feasible := free;
    var totalDelivery: nat := 0;
    var end: Option<Node> := None;
    nodes, t := [], t0;
    while |feasible| > 0
      invariant Trying(cfg, free, feasible, nodes, totalDelivery, end)
      decreases |feasible|
    {
      var i;
      i, t := PickTrial(cfg, end, feasible, random, t);
      feasible, nodes, totalDelivery, end := TryTrial(cfg, free, feasible, nodes, totalDelivery, end, i);
    }
  }

  /** `createRoute`: the route of the accepted clients, which leave the
      pool. */
  method CreateRoute(cfg: Config, free: seq<Node>, random: nat -> nat, t0: nat)
    returns (route: Route, rest: seq<Node>, t: nat)
    ensures route == Evaluate(cfg, route.nodes) && route.isFeasible
    ensures |route.nodes| == 0 || SumPickup(route.nodes) < cfg.capacity
    ensures multiset(route.nodes) <= multiset(free)
    ensures rest == RemoveAll(free, route.nodes)
    ensures Distinct(free) ==> Distinct(route.nodes) && multiset(rest) + multiset(route.nodes) == multiset(free)
    ensures |free| > 0 && AllFitAlone(cfg, free) ==> |route.nodes| > 0
  {
    var nodes;
    nodes, t := GrowRoute(cfg, free, random, t0);
    route := Evaluate(cfg, nodes);
    rest := RemoveAll(free, nodes);
    if Distinct(free) {
      RemoveAllSplits(free, nodes);
    }
  }

  /** What the construction loop keeps: the routes built so far and the
      pool partition the clients, the pool has no repeats and every route is
      a settled route. */
  ghost predicate Pending(cfg: Config, clients: seq<Node>, routes: seq<Route>, free: seq<Node>)
  {
    && Clients(routes) + multiset(free) == multiset(clients)
    && Distinct(free) && AllFitAlone(cfg, free)
    && forall i :: 0 <= i < |routes| ==> Settled(cfg, routes[i])
  }

  /** Adding a route that takes its clients out of the pool keeps the
      construction invariant. */
  lemma RouteTaken(cfg: Config, clients: seq<Node>, routes: seq<Route>, free: seq<Node>, route: Route, rest: seq<Node>)
    requires Pending(cfg, clients, routes, free) && Settled(cfg, route)
    requires rest == RemoveAll(free, route.nodes) && multiset(rest) + multiset(route.nodes) == multiset(free)
    ensures Pending(cfg, clients, routes + [route], rest)
  {
    ClientsAppend(routes, route);
    SubmultisetKeepsDistinct(free, rest);
    forall n | n in rest ensures FitsAlone(cfg, n) {
      assert n in free;
    }
    var extended := routes + [route];
    forall i | 0 <= i < |extended| ensures Settled(cfg, extended[i]) {
      if i < |routes| {
        assert extended[i] == routes[i];
      }
    }
  }

  /** Every route's pickups stay strictly below the capacity, as the check
      as written demands of the load back at the depot. */
  ghost predicate PickupsBelow(cfg: Config, routes: seq<Route>)
  {
    forall i :: 0 <= i < |routes| ==> SumPickup(routes[i].nodes) < cfg.capacity
  }

  lemma PickupsBelowAppend(cfg: Config, routes: seq<Route>, route: Route)
    requires PickupsBelow(cfg, routes) && SumPickup(route.nodes) < cfg.capacity
    ensures PickupsBelow(cfg, routes + [route])
  {
    assert forall i :: 0 <= i < |routes| ==> (routes + [route])[i] == routes[i];
  }

  /** The construction loop of `run`: the shuffled client pool is turned into
      routes until it is empty. It ends because every client passes the
      check as written on an empty route, so each route takes at least one
      client. The trials read Greedy's own generator `random` from draw 0 on;
      the shuffle reads the generator of `Collections.shuffle` from draw s0
      on, and s is its next unread draw. */
  method Construct(cfg: Config, clients: seq<Node>, random: nat -> nat, shuffle: nat -> nat, s0: nat)
    returns (routes: seq<Route>, s: nat)
    requires Distinct(clients) && AllFitAlone(cfg, clients)
    ensures WellFormed(cfg, clients, routes) && PickupsBelow(cfg, routes)
    ensures s == s0 + (if |clients| > 1 then |clients| - 1 else 0)
  {
    var free, t;
    free, s := Shuffle(clients, shuffle, s0);
    t := 0;
    PermutationKeepsDistinct(clients, free);
    forall n | n in free ensures FitsAlone(cfg, n) {
      assert n in multiset(free);
    }
    routes := [];
    while |free| > 0
      invariant Pending(cfg, clients, routes, free)
      invariant PickupsBelow(cfg, routes)
      decreases |free|
    {
      var route, rest;
      route, rest, t := CreateRoute(cfg, free, random, t);
      RouteTaken(cfg, clients, routes, free, route, rest);
      PickupsBelowAppend(cfg, routes, route);
      routes, free := routes + [route], rest;
    }
  }

  /** `run`: the constructed routes, improved by the local search, stamped
      as a greedy solution with the construction time. The construction's
      shuffle and the local search's shuffles share the generator of
      `Collections.shuffle`, read from draw s0 on; s is its next unread
      draw. Both timings (in milliseconds) are parameters. */
  method Run(cfg: Config, clients: seq<Node>, random: nat -> nat, shuffle: nat -> nat, s0: nat,
             constructionMillis: real, searchMillis: real)
    returns (r: Solution, s: nat)
    requires ValidConfig(cfg) && Distinct(clients) && AllFitAlone(cfg, clients)
    ensures WellFormed(cfg, clients, r.routes) && LocalSearch.LocalOptimum(cfg, clients, r.routes)
    ensures r.status == "Greedy" && r.creationTime == constructionMillis / 1000.0
    ensures r.solvingTime == searchMillis / 1000.0 && r.lowerBound == 0.0 && r.gap == 0.0 && r.cplexLog == ""
    ensures s >= s0
  {
    var routes, s1 := Construct(cfg, clients, random, shuffle, s0);
    var creationTime := constructionMillis / 1000.0;
    r, s := LocalSearch.Run(cfg, clients, NewSolution(routes, "Greedy", creationTime, 0.0), shuffle, s1, searchMillis);
    r := r.(status := "Greedy", creationTime := creationTime);
  }
}
