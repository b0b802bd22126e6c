/** A vehicle route: an ordered list of clients between two depot visits,
    with the links it travels, the load courses, a capacity-feasibility flag
    and the load-weighted fuel cost, all computed once when the route is built. */
module Routes {
  import opened Common
  import opened Instance
  import opened Links

  datatype Route = Route(
    nodes: seq<Node>,
    links: seq<Link>,
    deliveryCourse: seq<int>,
    pickupCourse: seq<int>,
    isFeasible: bool,
    totalCost: real)

  // ---------------------------------------------------------------------
  // Closed-form description of a route: the reference the builder is
  // proved against.
  // ---------------------------------------------------------------------

  function SumDelivery(s: seq<Node>): nat
  {
    if |s| == 0 then 0 else SumDelivery(s[..|s| - 1]) + s[|s| - 1].delivery
  }

  function SumPickup(s: seq<Node>): nat
  {
    if |s| == 0 then 0 else SumPickup(s[..|s| - 1]) + s[|s| - 1].pickup
  }

  /** Goods still to be delivered once the first i clients have been served. */
  function DeliveryAfter(nodes: seq<Node>, i: nat): int
    requires i <= |nodes|
  {
    SumDelivery(nodes) - SumDelivery(nodes[..i])
  }

  /** Goods picked up from the first i clients. */
  function PickupAfter(nodes: seq<Node>, i: nat): nat
    requires i <= |nodes|
  {
    SumPickup(nodes[..i])
  }

  /** What the vehicle carries on the link leaving its i-th stop. */
  function LoadAfter(nodes: seq<Node>, i: nat): int
    requires i <= |nodes|
  {
    DeliveryAfter(nodes, i) + PickupAfter(nodes, i)
  }

  /** The capacity rule: the delivery total, the pickup total and the load
      after every client stay within capacity. */
  ghost predicate WithinCapacity(capacity: int, nodes: seq<Node>)
  {
    && SumDelivery(nodes) <= capacity
    && SumPickup(nodes) <= capacity
    && forall i :: 1 <= i <= |nodes| ==> LoadAfter(nodes, i) <= capacity
  }

  /** The k-th stop of the closed tour: the depot at both ends. */
  function Stop(cfg: Config, nodes: seq<Node>, k: nat): Node
    requires k <= |nodes| + 1
  {
    if k == 0 || k == |nodes| + 1 then cfg.depot else nodes[k - 1]
  }

  /** The i-th link of the tour: from stop i to stop i + 1. */
  function LinkAt(cfg: Config, nodes: seq<Node>, i: nat): Link
    requires i <= |nodes|
  {
    LinkOf(cfg, Stop(cfg, nodes, i), Stop(cfg, nodes, i + 1))
  }

  /** Fuel cost of one link driven with the given load. */
  function ArcCost(cfg: Config, l: Link, load: int): real
  {
    UnitFuelCost as real * l.distance * (FcrWithoutLoad as real + cfg.alfa * load as real)
  }

  /** Cost of the first k links of the tour. */
  function PartialCost(cfg: Config, nodes: seq<Node>, k: nat): real
    requires k <= |nodes| + 1
  {
    if k == 0 then 0.0
    else PartialCost(cfg, nodes, k - 1) + ArcCost(cfg, LinkAt(cfg, nodes, k - 1), LoadAfter(nodes, k - 1))
  }

  /** The cost of serving the clients in this order (nothing for no client). */
  function Cost(cfg: Config, nodes: seq<Node>): real
  {
    if |nodes| == 0 then 0.0 else PartialCost(cfg, nodes, |nodes| + 1)
  }

  // ---------------------------------------------------------------------
  // The builder, step by step as the constructor computes it.
  // ---------------------------------------------------------------------

  /** depot -> first client, each client -> the next, last client -> depot. */
  function BuildLinks(cfg: Config, nodes: seq<Node>): (links: seq<Link>)
    requires |nodes| > 0
    ensures |links| == |nodes| + 1
    ensures forall i :: 0 <= i <= |nodes| ==> links[i] == LinkAt(cfg, nodes, i)
  {
    [LinkOf(cfg, cfg.depot, nodes[0])]
    + seq(|nodes| - 1, i requires 0 <= i < |nodes| - 1 => LinkOf(cfg, nodes[i], nodes[i + 1]))
    + [LinkOf(cfg, nodes[|nodes| - 1], cfg.depot)]
  }

  lemma PrefixSums(nodes: seq<Node>, i: nat)
    requires 1 <= i <= |nodes|
    ensures SumDelivery(nodes[..i]) == SumDelivery(nodes[..i - 1]) + nodes[i - 1].delivery
    ensures SumPickup(nodes[..i]) == SumPickup(nodes[..i - 1]) + nodes[i - 1].pickup
  {
    assert nodes[..i][..i - 1] == nodes[..i - 1];
  }

  /** The closed forms of the loop's records: the tour's links and the
      courses over the first n stops. */
  function TourLinks(cfg: Config, nodes: seq<Node>): seq<Link>
  {
    seq(|nodes| + 1, j requires 0 <= j <= |nodes| => LinkAt(cfg, nodes, j))
  }

  function DeliveryCourse(nodes: seq<Node>, n: nat): (c: seq<int>)
    requires n <= |nodes| + 1
    ensures |c| == n
  {
    if n == 0 then [] else DeliveryCourse(nodes, n - 1) + [DeliveryAfter(nodes, n - 1)]
  }

  function PickupCourse(nodes: seq<Node>, n: nat): (c: seq<int>)
    requires n <= |nodes| + 1
    ensures |c| == n
  {
    if n == 0 then [] else PickupCourse(nodes, n - 1) + [PickupAfter(nodes, n - 1)]
  }

  /** Entry k of a course is the load component after stop k. */
  lemma {:induction false} CoursesAt(nodes: seq<Node>, n: nat)
    requires n <= |nodes| + 1
    ensures forall k :: 0 <= k < n ==> DeliveryCourse(nodes, n)[k] == DeliveryAfter(nodes, k)
    ensures forall k :: 0 <= k < n ==> PickupCourse(nodes, n)[k] == PickupAfter(nodes, k)
  {
    if n > 0 {
      CoursesAt(nodes, n - 1);
    }
  }

  /** The loop's invariant before link i: the links are the tour's, the
      courses hold the closed form for the first i stops, and the cost so
      far is the cost of the first i links. */
  ghost predicate WalkInvariant(cfg: Config, nodes: seq<Node>, links: seq<Link>, i: nat,
                                dc: seq<int>, pc: seq<int>, cost: real)
  {
    && |nodes| > 0 && links == TourLinks(cfg, nodes)
    && 1 <= i <= |nodes| + 1
    && dc == DeliveryCourse(nodes, i) && pc == PickupCourse(nodes, i)
    && cost == PartialCost(cfg, nodes, i)
  }

  /** One step of the loop: the origin of link i is client i, the extended
      courses hold the closed form for stop i, and charging link i with that
      load gives the cost of the first i + 1 links. */
  lemma WalkStep(cfg: Config, nodes: seq<Node>, links: seq<Link>, i: nat, dc: seq<int>, pc: seq<int>, cost: real)
    requires WalkInvariant(cfg, nodes, links, i, dc, pc, cost) && i < |links|
    ensures var d := dc[|dc| - 1] - links[i].origin.delivery;
            var p := pc[|pc| - 1] + links[i].origin.pickup;
            && d + p == LoadAfter(nodes, i)
            && WalkInvariant(cfg, nodes, links, i + 1, dc + [d], pc + [p], cost + ArcCost(cfg, links[i], d + p))
  {
    PrefixSums(nodes, i);
    assert links[i] == LinkAt(cfg, nodes, i) && links[i].origin == nodes[i - 1];
    assert dc[i - 1] == DeliveryAfter(nodes, i - 1) && pc[i - 1] == PickupAfter(nodes, i - 1);
    var d := dc[|dc| - 1] - links[i].origin.delivery;
    var p := pc[|pc| - 1] + links[i].origin.pickup;
    assert d == DeliveryAfter(nodes, i) && p == PickupAfter(nodes, i);
    assert dc + [d] == DeliveryCourse(nodes, i + 1);
    assert pc + [p] == PickupCourse(nodes, i + 1);
  }

  /** An infeasible route is charged for the links before the stop whose
      load broke capacity, the last one its delivery course records. */
  ghost predicate ChargedBeforeBreak(cfg: Config, nodes: seq<Node>, r: Route)
  {
    1 <= |r.deliveryCourse| <= |nodes| + 2 && r.totalCost == PartialCost(cfg, nodes, |r.deliveryCourse| - 1)
  }

  /** The loads after stops i .. |nodes| stay within capacity. */
  ghost predicate FitsFrom(capacity: int, nodes: seq<Node>, i: nat)
    decreases |nodes| + 1 - i
  {
    i <= |nodes| ==> LoadAfter(nodes, i) <= capacity && FitsFrom(capacity, nodes, i + 1)
  }

  lemma {:induction false} FitsFromAll(capacity: int, nodes: seq<Node>, i: nat)
    decreases |nodes| + 1 - i
    ensures FitsFrom(capacity, nodes, i) <==> forall k :: i <= k <= |nodes| ==> LoadAfter(nodes, k) <= capacity
  {
    if i <= |nodes| {
      FitsFromAll(capacity, nodes, i + 1);
    }
  }

  /** One pass of the loop over links 1 .. |links| - 1: extend both courses
      by the origin's demands, stop as soon as the load exceeds capacity,
      otherwise charge the link. */
  function Walk(cfg: Config, nodes: seq<Node>, links: seq<Link>, i: nat,
                dc: seq<int>, pc: seq<int>, cost: real): (r: Route)
    requires WalkInvariant(cfg, nodes, links, i, dc, pc, cost)
    decreases |links| - i
    ensures r.nodes == nodes && r.links == links
    ensures r.isFeasible <==> FitsFrom(cfg.capacity, nodes, i)
    ensures i <= |r.deliveryCourse| <= |links|
    ensures r.deliveryCourse == DeliveryCourse(nodes, |r.deliveryCourse|)
    ensures r.pickupCourse == PickupCourse(nodes, |r.deliveryCourse|)
    ensures r.isFeasible ==> |r.deliveryCourse| == |links| && r.totalCost == PartialCost(cfg, nodes, |links|)
    ensures !r.isFeasible ==> ChargedBeforeBreak(cfg, nodes, r)
  {
    if i == |links| then Route(nodes, links, dc, pc, true, cost)
    else
      WalkStep(cfg, nodes, links, i, dc, pc, cost);
      var d := dc[|dc| - 1] - links[i].origin.delivery;
      var p := pc[|pc| - 1] + links[i].origin.pickup;
      if d + p > cfg.capacity then
        assert |dc + [d]| - 1 == i && cost == PartialCost(cfg, nodes, i);
        Route(nodes, links, dc + [d], pc + [p], false, cost)
      else
        Walk(cfg, nodes, links, i + 1, dc + [d], pc + [p], cost + ArcCost(cfg, links[i], d + p))
  }

  lemma BuildLinksIsTour(cfg: Config, nodes: seq<Node>)
    requires |nodes| > 0
    ensures BuildLinks(cfg, nodes) == TourLinks(cfg, nodes)
  {
  }

  lemma StartCourses(nodes: seq<Node>)
    requires |nodes| > 0
    ensures [SumDelivery(nodes)] == DeliveryCourse(nodes, 1)
    ensures [0] == PickupCourse(nodes, 1)
    ensures LoadAfter(nodes, 0) == SumDelivery(nodes) + 0
  {
    assert nodes[..0] == [];
    assert DeliveryAfter(nodes, 0) == SumDelivery(nodes);
    assert PickupAfter(nodes, 0) == 0;
  }

  /** The loop starts after the first link, charged with the full delivery
      load. */
  lemma WalkStart(cfg: Config, nodes: seq<Node>)
    requires |nodes| > 0
    ensures var links := BuildLinks(cfg, nodes);
            WalkInvariant(cfg, nodes, links, 1, [SumDelivery(nodes)], [0], ArcCost(cfg, links[0], SumDelivery(nodes) + 0))
  {
    BuildLinksIsTour(cfg, nodes);
    StartCourses(nodes);
    assert PartialCost(cfg, nodes, 1) == ArcCost(cfg, LinkAt(cfg, nodes, 0), LoadAfter(nodes, 0));
  }

  /** `new Route(nodes)`: builds the links and load courses and decides
      feasibility. An empty list is a feasible route with nothing in it; a
      route that breaks capacity keeps the courses and cost computed up to
      the point where the check failed. */
  function Evaluate(cfg: Config, nodes: seq<Node>): (r: Route)
    ensures r.nodes == nodes
    ensures r.isFeasible <==> |nodes| == 0 || WithinCapacity(cfg.capacity, nodes)
    ensures r.isFeasible ==> r.totalCost == Cost(cfg, nodes)
  {
    if |nodes| == 0 then Route(nodes, [], [], [], true, 0.0)
    else
      var d0 := SumDelivery(nodes);
      assert nodes[..|nodes|] == nodes;
      if d0 > cfg.capacity then Route(nodes, [], [d0], [], false, 0.0)
      else if SumPickup(nodes) > cfg.capacity then Route(nodes, [], [d0], [], false, 0.0)
      else
        var links := BuildLinks(cfg, nodes);
        WalkStart(cfg, nodes);
        FitsFromAll(cfg.capacity, nodes, 1);
        Walk(cfg, nodes, links, 1, [d0], [0], ArcCost(cfg, links[0], d0 + 0))
  }
  /** What the builder records besides feasibility: the courses agree with
      the closed form as far as they were computed, a feasible route holds
      every link and complete courses, and an infeasible one is charged for
      the links before the one that broke capacity. */
  lemma EvaluateCourses(cfg: Config, nodes: seq<Node>)
    ensures var r := Evaluate(cfg, nodes);
            && (|nodes| == 0 ==> r.links == [] && r.deliveryCourse == [] && r.pickupCourse == [] && r.totalCost == 0.0)
            && (|nodes| > 0 ==> 1 <= |r.deliveryCourse| <= |nodes| + 1)
            && |r.pickupCourse| <= |r.deliveryCourse|
            && (forall k :: 0 <= k < |r.deliveryCourse| ==> r.deliveryCourse[k] == DeliveryAfter(nodes, k))
            && (forall k :: 0 <= k < |r.pickupCourse| ==> r.pickupCourse[k] == PickupAfter(nodes, k))
            && (r.isFeasible && |nodes| > 0 ==>
                  && |r.links| == |nodes| + 1
                  && (forall i :: 0 <= i <= |nodes| ==> r.links[i] == LinkAt(cfg, nodes, i))
                  && |r.deliveryCourse| == |r.pickupCourse| == |nodes| + 1)
            && (!r.isFeasible ==> r.totalCost == PartialCost(cfg, nodes, |r.deliveryCourse| - 1))
  {
    if |nodes| > 0 {
      var r := Evaluate(cfg, nodes);
      var d0 := SumDelivery(nodes);
      assert nodes[..|nodes|] == nodes;
      StartCourses(nodes);
      if d0 <= cfg.capacity && SumPickup(nodes) <= cfg.capacity {
        WalkStart(cfg, nodes);
        var links := BuildLinks(cfg, nodes);
        assert r == Walk(cfg, nodes, links, 1, [d0], [0], ArcCost(cfg, links[0], d0 + 0));
        CoursesAt(nodes, |r.deliveryCourse|);
      } else {
        assert r.deliveryCourse == [d0] && r.pickupCourse == [] && r.totalCost == 0.0 && !r.isFeasible;
      }
    }
  }


  // ---------------------------------------------------------------------
  // Properties of built routes.
  // ---------------------------------------------------------------------

  /** A route in a solution: built by the constructor, feasible, not empty. */
  ghost predicate Settled(cfg: Config, r: Route)
  {
    r == Evaluate(cfg, r.nodes) && r.isFeasible && |r.nodes| > 0
  }

  /** The courses start full of deliveries with nothing picked up and end
      with everything delivered and every pickup on board. */
  lemma {:induction false} CourseEnds(cfg: Config, nodes: seq<Node>)
    requires |nodes| > 0
    requires Evaluate(cfg, nodes).isFeasible
    ensures Evaluate(cfg, nodes).deliveryCourse[0] == SumDelivery(nodes)
    ensures Evaluate(cfg, nodes).pickupCourse[0] == 0
    ensures Evaluate(cfg, nodes).deliveryCourse[|nodes|] == 0
    ensures Evaluate(cfg, nodes).pickupCourse[|nodes|] == SumPickup(nodes)
  {
    EvaluateCourses(cfg, nodes);
    assert nodes[..|nodes|] == nodes;
    assert nodes[..0] == [];
  }

  /** Each course entry follows from the previous one by the demands of the
      client just served. */
  lemma {:induction false} CourseSteps(cfg: Config, nodes: seq<Node>, i: nat)
    requires 1 <= i <= |nodes|
    requires Evaluate(cfg, nodes).isFeasible
    ensures Evaluate(cfg, nodes).deliveryCourse[i]
            == Evaluate(cfg, nodes).deliveryCourse[i - 1] - nodes[i - 1].delivery
    ensures Evaluate(cfg, nodes).pickupCourse[i]
            == Evaluate(cfg, nodes).pickupCourse[i - 1] + nodes[i - 1].pickup
  {
    EvaluateCourses(cfg, nodes);
    PrefixSums(nodes, i);
  }

  lemma {:induction false} PrefixSumMonotone(nodes: seq<Node>, i: nat, j: nat)
    requires i <= j <= |nodes|
    ensures SumDelivery(nodes[..i]) <= SumDelivery(nodes[..j])
    ensures SumPickup(nodes[..i]) <= SumPickup(nodes[..j])
    decreases j
  {
    if i < j {
      PrefixSums(nodes, j);
      PrefixSumMonotone(nodes, i, j - 1);
    }
  }

  /** No load is ever negative: nothing is delivered that was not loaded. */
  lemma LoadNonNegative(nodes: seq<Node>, i: nat)
    requires i <= |nodes|
    ensures DeliveryAfter(nodes, i) >= 0 && LoadAfter(nodes, i) >= 0
  {
    assert nodes[..|nodes|] == nodes;
    PrefixSumMonotone(nodes, i, |nodes|);
  }

  /** The constructor sums the demands and keeps the courses in Java `int`.
      While a route's delivery and pickup totals together stay below 2^31,
      each of those values is in `int` range, so the wrapped arithmetic
      gives exactly the values computed here. */
  lemma LoadsExactInInt32(nodes: seq<Node>, i: nat)
    requires i <= |nodes|
    requires SumDelivery(nodes) + SumPickup(nodes) < TwoTo31
    ensures Int32(SumDelivery(nodes)) == SumDelivery(nodes) && Int32(SumPickup(nodes)) == SumPickup(nodes)
    ensures Int32(DeliveryAfter(nodes, i)) == DeliveryAfter(nodes, i)
    ensures Int32(PickupAfter(nodes, i)) == PickupAfter(nodes, i)
    ensures Int32(LoadAfter(nodes, i)) == LoadAfter(nodes, i)
  {
    LoadNonNegative(nodes, i);
    assert nodes[..|nodes|] == nodes;
    PrefixSumMonotone(nodes, i, |nodes|);
    Int32Exact(SumDelivery(nodes));
    Int32Exact(SumPickup(nodes));
    Int32Exact(DeliveryAfter(nodes, i));
    Int32Exact(PickupAfter(nodes, i));
    Int32Exact(LoadAfter(nodes, i));
  }

  lemma {:induction false} PartialCostNonNegative(cfg: Config, nodes: seq<Node>, k: nat)
    requires ValidConfig(cfg)
    requires k <= |nodes| + 1
    ensures PartialCost(cfg, nodes, k) >= 0.0
  {
    if k > 0 {
      PartialCostNonNegative(cfg, nodes, k - 1);
      LoadNonNegative(nodes, k - 1);
      var l := LinkAt(cfg, nodes, k - 1);
      var load := LoadAfter(nodes, k - 1);
      assert l.distance >= 0.0;
      assert cfg.alfa >= 0.0;
      assert FcrWithoutLoad as real + cfg.alfa * load as real >= 0.0;
    }
  }

  /** Every route, feasible or not, has a nonnegative cost. */
  lemma CostNonNegative(cfg: Config, nodes: seq<Node>)
    requires ValidConfig(cfg)
    ensures Evaluate(cfg, nodes).totalCost >= 0.0
  {
    var r := Evaluate(cfg, nodes);
    EvaluateCourses(cfg, nodes);
    if |nodes| > 0 {
      if r.isFeasible {
        PartialCostNonNegative(cfg, nodes, |nodes| + 1);
      } else {
        PartialCostNonNegative(cfg, nodes, |r.deliveryCourse| - 1);
      }
    }
  }

  /** `new Route(Route)`: a copy with the same nodes, links, courses,
      feasibility and cost. */
  function Copy(r: Route): (c: Route)
    ensures c.nodes == r.nodes && c.links == r.links
    ensures c.deliveryCourse == r.deliveryCourse && c.pickupCourse == r.pickupCourse
    ensures c.isFeasible == r.isFeasible && c.totalCost == r.totalCost
  {
    Route(r.nodes, r.links, r.deliveryCourse, r.pickupCourse, r.isFeasible, r.totalCost)
  }

  /** `Route.equals(Object)`: same class and the same node sequence. */
  function Equals(r: Route, o: Ref<Route>): (b: bool)
    ensures !o.Same? ==> !b
    ensures o == Same(r) ==> b
  {
    o.Same? && r.nodes == o.value.nodes
  }

  /** For built routes, equality of node sequences is equality of routes:
      everything else is derived from the nodes. */
  lemma EqualsIsValueEquality(cfg: Config, a: Route, b: Route)
    requires a == Evaluate(cfg, a.nodes) && b == Evaluate(cfg, b.nodes)
    ensures Equals(a, Same(b)) <==> a == b
  {
  }

  /** `Route.hashCode()`: `(int) (Objects.hash(nodes) + totalCost)`, for a
      given hash of node lists. */
  function Hash(r: Route, nodesHash: seq<Node> -> int): (h: int)
    ensures -TwoTo31 <= h < TwoTo31
  {
    DoubleToInt(Int32(31 + nodesHash(r.nodes)) as real + r.totalCost)
  }
}
