/** Locating a client's route in a solution, and replacing routes without
    losing the client partition. */
module Placement {
  import opened Common
  import opened Instance
  import opened Routes
  import opened Solutions

  /** `routes.stream().filter(route -> route.nodes.contains(x)).findFirst()`,
      as a position. */
  function FirstRouteWith(routes: seq<Route>, x: Node): (r: int)
    ensures -1 <= r < |routes|
    ensures r == -1 <==> forall i :: 0 <= i < |routes| ==> x !in routes[i].nodes
    ensures 0 <= r ==> x in routes[r].nodes && forall i :: 0 <= i < r ==> x !in routes[i].nodes
  {
    if |routes| == 0 then -1
    else if x in routes[0].nodes then 0
    else
      var k := FirstRouteWith(routes[1..], x);
      if k == -1 then -1 else k + 1
  }

  /** `routes.indexOf(route)`: the first position holding a route equal to
      it under `Route.equals`, i.e. with the same node sequence. */
  function IndexOfRoute(routes: seq<Route>, route: Route): (r: int)
    ensures -1 <= r < |routes|
    ensures r == -1 <==> forall i :: 0 <= i < |routes| ==> !Routes.Equals(routes[i], Same(route))
    ensures 0 <= r ==> Routes.Equals(routes[r], Same(route)) &&
                       forall i :: 0 <= i < r ==> !Routes.Equals(routes[i], Same(route))
  {
    if |routes| == 0 then -1
    else if Routes.Equals(routes[0], Same(route)) then 0
    else
      var k := IndexOfRoute(routes[1..], route);
      if k == -1 then -1 else k + 1
  }

  /** `findRouteIndexContainingNode`: the first route visiting x is looked
      up again with `indexOf`, which lands on the same position because a
      route equal to it visits x too. */
  function FindRouteIndex(routes: seq<Route>, x: Node): (r: int)
    ensures -1 <= r < |routes|
    ensures r == -1 <==> forall i :: 0 <= i < |routes| ==> x !in routes[i].nodes
    ensures 0 <= r ==> x in routes[r].nodes && forall i :: 0 <= i < r ==> x !in routes[i].nodes
  {
    var first := FirstRouteWith(routes, x);
    if first == -1 then -1 else IndexOfRoute(routes, routes[first])
  }

  /** In a well-formed solution every client has a route. */
  lemma ClientIsPlaced(cfg: Config, clients: seq<Node>, routes: seq<Route>, x: Node)
    requires WellFormed(cfg, clients, routes) && x in clients
    ensures 0 <= FindRouteIndex(routes, x)
    ensures 0 <= IndexOf(routes[FindRouteIndex(routes, x)].nodes, x)
  {
    assert x in multiset(clients);
    ClientsMember(routes, x);
  }

  ghost predicate AllSettled(cfg: Config, routes: seq<Route>)
  {
    forall k :: 0 <= k < |routes| ==> Settled(cfg, routes[k])
  }

  /** Replacing one route by a settled route: every route stays settled, the
      clients and the cost change by the two routes' difference. */
  lemma Replace(cfg: Config, routes: seq<Route>, i: nat, r: Route)
    requires AllSettled(cfg, routes) && i < |routes| && Settled(cfg, r)
    ensures AllSettled(cfg, routes[i := r])
    ensures Clients(routes[i := r]) + multiset(routes[i].nodes) == Clients(routes) + multiset(r.nodes)
    ensures TotalCost(routes[i := r]) == TotalCost(routes) - routes[i].totalCost + r.totalCost
  {
    var t := routes[i := r];
    forall k | 0 <= k < |t|
      ensures Settled(cfg, t[k])
    {
      if k != i {
        assert t[k] == routes[k];
      }
    }
    ClientsUpdate(routes, i, r);
    CostUpdate(routes, i, r);
  }

  /** Replacing one route by a settled route with the same clients keeps the
      solution well formed and moves the total cost by the difference. */
  lemma ReplaceRoute(cfg: Config, clients: seq<Node>, routes: seq<Route>, i: nat, r: Route)
    requires WellFormed(cfg, clients, routes) && i < |routes|
    requires Settled(cfg, r) && multiset(r.nodes) == multiset(routes[i].nodes)
    ensures WellFormed(cfg, clients, routes[i := r])
    ensures TotalCost(routes[i := r]) == TotalCost(routes) - routes[i].totalCost + r.totalCost
  {
    Replace(cfg, routes, i, r);
    MultisetCancel(Clients(routes[i := r]), Clients(routes), multiset(r.nodes));
  }

  /** Replacing two distinct routes by settled routes holding the same
      clients between them. */
  lemma ReplacePair(cfg: Config, clients: seq<Node>, routes: seq<Route>, i: nat, j: nat, a: Route, b: Route)
    requires WellFormed(cfg, clients, routes) && i < |routes| && j < |routes| && i != j
    requires Settled(cfg, a) && Settled(cfg, b)
    requires multiset(a.nodes) + multiset(b.nodes) == multiset(routes[i].nodes) + multiset(routes[j].nodes)
    ensures WellFormed(cfg, clients, routes[i := a][j := b])
    ensures TotalCost(routes[i := a][j := b]) ==
            TotalCost(routes) - routes[i].totalCost - routes[j].totalCost + a.totalCost + b.totalCost
  {
    var mid := routes[i := a];
    assert mid[j] == routes[j];
    var t := mid[j := b];
    Replace(cfg, routes, i, a);
    Replace(cfg, mid, j, b);
    TwoStepCancel(Clients(t), Clients(mid), Clients(routes), multiset(routes[i].nodes), multiset(routes[j].nodes),
                  multiset(a.nodes), multiset(b.nodes));
  }

  /** The multiset bookkeeping of two successive replacements. */
  lemma TwoStepCancel<T>(t: multiset<T>, mid: multiset<T>, r: multiset<T>,
                         ri: multiset<T>, rj: multiset<T>, a: multiset<T>, b: multiset<T>)
    requires mid + ri == r + a && t + rj == mid + b && a + b == ri + rj
    ensures t == r
  {
    calc {
      t + (ri + rj);
      (t + rj) + ri;
      (mid + b) + ri;
      (mid + ri) + b;
      (r + a) + b;
      r + (ri + rj);
    }
    MultisetCancel(t, r, ri + rj);
  }

  lemma RemoveSettled(cfg: Config, routes: seq<Route>, e: nat)
    requires AllSettled(cfg, routes) && e < |routes|
    ensures AllSettled(cfg, RemoveAt(routes, e))
  {
    var t := RemoveAt(routes, e);
    forall j | 0 <= j < |t|
      ensures Settled(cfg, t[j])
    {
      assert t[j] == routes[if j < e then j else j + 1];
    }
  }

  /** Folding two distinct routes into one settled route holding both
      routes' clients: the kept route replaces position k, position e goes. */
  lemma MergeRoutes(cfg: Config, clients: seq<Node>, routes: seq<Route>, e: nat, k: nat, kept: Route)
    requires WellFormed(cfg, clients, routes) && e < |routes| && k < |routes| && e != k
    requires Settled(cfg, kept)
    requires multiset(kept.nodes) == multiset(routes[e].nodes) + multiset(routes[k].nodes)
    ensures WellFormed(cfg, clients, RemoveAt(routes[k := kept], e))
    ensures TotalCost(RemoveAt(routes[k := kept], e)) ==
            TotalCost(routes) - routes[e].totalCost - routes[k].totalCost + kept.totalCost
  {
    var mid := routes[k := kept];
    var t := RemoveAt(mid, e);
    assert mid[e] == routes[e];
    Replace(cfg, routes, k, kept);
    RemoveSettled(cfg, mid, e);
    ClientsRemove(mid, e);
    CostRemove(mid, e);
    var re, rk := multiset(routes[e].nodes), multiset(routes[k].nodes);
    calc {
      Clients(t) + (re + rk);
      (Clients(t) + re) + rk;
      Clients(mid) + rk;
      Clients(routes) + multiset(kept.nodes);
      Clients(routes) + (re + rk);
    }
    MultisetCancel(Clients(t), Clients(routes), re + rk);
  }

  /** Splitting one route in two: position i keeps the settled route r and
      the settled route single is appended; together they hold route i's
      clients. */
  lemma SplitRoute(cfg: Config, clients: seq<Node>, routes: seq<Route>, i: nat, r: Route, single: Route)
    requires WellFormed(cfg, clients, routes) && i < |routes|
    requires Settled(cfg, r) && Settled(cfg, single)
    requires multiset(r.nodes) + multiset(single.nodes) == multiset(routes[i].nodes)
    ensures WellFormed(cfg, clients, (routes + [single])[i := r])
    ensures TotalCost((routes + [single])[i := r]) ==
            TotalCost(routes) - routes[i].totalCost + r.totalCost + single.totalCost
  {
    var grown := routes + [single];
    var t := grown[i := r];
    forall k | 0 <= k < |grown|
      ensures Settled(cfg, grown[k])
    {
      if k < |routes| {
        assert grown[k] == routes[k];
      }
    }
    assert grown[i] == routes[i];
    ClientsAppend(routes, single);
    CostAppend(routes, single);
    Replace(cfg, grown, i, r);
    var ri, ms := multiset(routes[i].nodes), multiset(single.nodes);
    calc {
      Clients(t) + ri;
      Clients(grown) + multiset(r.nodes);
      Clients(routes) + ms + multiset(r.nodes);
      Clients(routes) + ri;
    }
    MultisetCancel(Clients(t), Clients(routes), ri);
  }

  /** The cost of a well-formed solution is never negative. */
  lemma WellFormedCostNonNegative(cfg: Config, clients: seq<Node>, routes: seq<Route>)
    requires ValidConfig(cfg) && WellFormed(cfg, clients, routes)
    ensures TotalCost(routes) >= 0.0
  {
    assert forall i :: 0 <= i < |routes| ==> Settled(cfg, routes[i]);
    TotalCostNonNegative(cfg, routes);
  }
}
