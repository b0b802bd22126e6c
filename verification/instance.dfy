/** The static problem data every component reads: nodes, the depot, the
    vehicle capacity and the fuel-cost coefficients. The source keeps these in
    process-wide statics filled by its instance reader; here they travel as one
    immutable value. */
module Instance {

  /** A customer or the depot. Demands are natural numbers: the instance
      reader only produces nonnegative pickups and deliveries. */
  datatype Node = Node(id: nat, pickup: nat, delivery: nat)

  /** Fuel-cost constants of the instance reader. */
  const UnitFuelCost: int := 1
  const FcrWithoutLoad: int := 1
  const FcrFullyLoaded: int := 2

  /** `dist(i, j)` is the distance stored on the link from node i to node j. */
  datatype Config = Config(depot: Node, capacity: int, alfa: real, dist: (nat, nat) -> real)

  /** What the instance reader guarantees: the depot has id 0, the capacity is
      positive, the load coefficient is (FCR_FULLY_LOADED - FCR_WITHOUT_LOAD) /
      capacity and distances are nonnegative. */
  ghost predicate ValidConfig(cfg: Config)
  {
    && cfg.depot.id == 0
    && cfg.capacity > 0
    && cfg.alfa == (FcrFullyLoaded - FcrWithoutLoad) as real / cfg.capacity as real
    && forall i: nat, j: nat :: cfg.dist(i, j) >= 0.0
  }

  /** The client list: distinct nodes, none of them the depot. */
  ghost predicate ValidClients(clients: seq<Node>)
  {
    && (forall k :: 0 <= k < |clients| ==> clients[k].id != 0)
    && (forall i, j :: 0 <= i < j < |clients| ==> clients[i].id != clients[j].id)
  }
}
