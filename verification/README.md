# VRPSPD search engine: a Dafny model

This project models the combinatorial core of a solver for the vehicle
routing problem with simultaneous pickup and delivery (VRPSPD), together
with its variable-depth neighbourhood search (VDNS). A route leaves the
depot carrying every delivery it will make. At each client it drops that
client's delivery and picks up that client's pickup. A route is feasible
while the load on board never exceeds the vehicle capacity. Each arc's cost
is its distance times a fuel factor that grows linearly with the load on
board.

The model covers these parts:

- **Route evaluation** (`Routes`). Given a node sequence, it computes the
  depot-bracketed links, the delivery and pickup load courses, the
  feasibility flag and the load-weighted cost. It also covers the route's
  copy, equality and hash. `Evaluate` follows the source's loop step by
  step, including the partial courses and the partial cost it leaves behind
  when it stops at the first overloaded arc. The closed forms
  (`DeliveryAfter`, `PickupAfter`, `PartialCost`, `Cost`, `WithinCapacity`)
  are its independent partner.
- **Links, link matrix, solutions** (`Links`, `LinkMatrix`, `Solutions`):
  - endpoint-only link equality and hashing;
  - the sparse link matrix with `set`, `setAll`, `getAll` and the incoming
    and outgoing link lists;
  - the solution's total cost, link flattening, order-independent equality
    and the 32-bit hash.
- **Local search**: 2-opt (`TwoOpt`), prefix/suffix crossover with its
  `omega` route-order bookkeeping (`Crossover`), and in-route relocation
  and swap (`InRoute`). Inter-route relocation (`Insertion`) and
  interchange (`Interchange`) complete the four operators. `LocalSearch`
  holds the round loop of `run`, which terminates on a cost ranking.
  Every operator keeps the solution `WellFormed`: each route is a built,
  feasible, non-empty route, and together the routes hold exactly the
  clients, each once. On "no improvement" each operator proves the
  matching local-optimality predicate.
- **Greedy construction** (`Greedy`). It covers the incremental load check
  `isFeasibleRoute`, route growth and `run`. The construction uses the
  check as written, strict final comparison included. The corrected check,
  proved equivalent to route feasibility, is stated beside it (see
  Findings).
- **VDNS bookkeeping** (`Vdns`):
  - clique sampling;
  - the roulette-wheel choice by inverse distance;
  - the subproblem link set;
  - the clique-size feedback and the per-iteration time limit;
  - the incumbent pool ordered by cost;
  - the acceptance of new solutions;
  - the main loop up to its time limit.

The instance data (depot, capacity, load coefficient, distances) is one
immutable `Config` value, not global state. Costs are `real`. The source
uses three random generators, and each is a separate draw stream parameter
`nat -> nat`: Greedy's static `Random`, the generator shared by every
`Collections.shuffle` call, and the `new Random()` of each VDNS pick. Draw
number `t`, taken with bound `b`, yields `stream(t) % b`. Each operation
takes the position of its next draw and returns the position after its
last, so successive calls read each stream in program order. The wall clock
is a stream of readings `clock: nat -> real`. The MIP solver is a
function parameter that, by assumption, reports only well-formed
solutions.

## Model

| member | source | states |
|---|---|---|
| Routes.Evaluate | src/data/Route.java:54-83 | A route keeps its nodes. It is feasible exactly when it is empty or every load on board (initial delivery total, total pickup, and the load after each client) is within capacity. A feasible route costs the sum over its arcs of distance × (FCR_WITHOUT_LOAD + alfa × load). |
| Routes.Walk | src/data/Route.java:73-80 | The arc loop keeps the links. It succeeds exactly when every later load fits. Its courses are prefixes of the closed-form courses. On success it charges every arc; on failure it charges exactly the arcs before the overloaded one. |
| Routes.EvaluateCourses | src/data/Route.java:54-83 | The empty route has no links, empty courses and cost 0. The courses of any route are prefixes of the closed-form delivery-remaining and pickup-accumulated courses. A feasible route has links depot→n0, ni→ni+1, nlast→depot and full courses. An infeasible route carries the cost accumulated up to the break. |
| Routes.BuildLinks | src/data/Route.java:64-68 | There are \|nodes\|+1 links; link i joins stop i to stop i+1, with the depot at both ends. |
| Routes.CourseEnds | src/data/Route.java:57-75 | A feasible route's delivery course starts at the delivery total and ends at 0. Its pickup course starts at 0 and ends at the pickup total. |
| Routes.CourseSteps | src/data/Route.java:73-75 | Each course entry is the previous one minus the client's delivery (delivery course) or plus the client's pickup (pickup course). |
| Routes.FitsFromAll | src/data/Route.java:76-77 | The early-exit feasibility test equals "every load from position i on is within capacity". |
| Routes.LoadNonNegative | src/data/Route.java:73-76 | The remaining delivery and the load on board are never negative, since demands are nonnegative. |
| Routes.CostNonNegative | src/data/Route.java:70-80 | A route's cost, complete or partial, is nonnegative under nonnegative distances. |
| Routes.LoadsExactInInt32 | src/data/Route.java:57-76 | While a route's delivery and pickup totals together stay below 2^31, Java's `int` demand totals and course entries cannot wrap. They equal the exact values the model uses. |
| Routes.Copy | src/data/Route.java:43-52 | The copy has the same nodes, links, courses, feasibility and cost. |
| Routes.EqualsIsValueEquality | src/data/Route.java:85-94 | For built routes, equality on node lists coincides with full value equality. |
| Routes.Equals | src/data/Route.java:85-94 | `equals` is false for null and for other classes, and true for the route itself. For built routes it is exactly value equality (Routes.EqualsIsValueEquality). |
| Routes.Hash | src/data/Route.java:96-99 | `hashCode` is always a Java `int`: the cast of hash plus cost saturates into range. |
| Links.LinkOf | src/data/Link.java:20-24 | The link for (a, b) has origin a and destiny b. |
| Links.Equals | src/data/Link.java:26-37 | Two links are equal exactly when they are both `Link`s with equal origins and destinies. |
| Links.EqualsReflexive | src/data/Link.java:28-29 | A link equals itself. |
| Links.EqualsSymmetric | src/data/Link.java:26-37 | Link equality is symmetric. |
| Links.NeverEqualsNullOrForeign | src/data/Link.java:31-33 | A link never equals null or an object of another class. |
| Links.EqualsIsKeyEquality | src/data/Link.java:26-37 | Link equality is equality of (origin, destiny); the distance plays no part. |
| Links.HashRespectsEquals | src/data/Link.java:39-42 | Equal links have equal hash codes, whatever the node hash. |
| Links.Hash | src/data/Link.java:39-42 | `hashCode` is always a Java `int`, whatever the node hash. Equal links hash equally (Links.HashRespectsEquals). |
| LinkMatrix.Empty | src/data/LinkManager.java:11-13 | A fresh manager is an n×n matrix holding no link. |
| LinkMatrix.Get | src/data/LinkManager.java:31-33 | In a consistent matrix, a link read from cell (i, j) runs from node i to node j. |
| LinkMatrix.Set | src/data/LinkManager.java:22-24 | After `set(l)`, `get(l.origin.id, l.destiny.id)` is l and every other cell is unchanged. |
| LinkMatrix.SetAll | src/data/LinkManager.java:26-29 | After `setAll`, every link of the set is found at its ids. Cells no link of the set claims are unchanged. The shape and id consistency are kept. |
| LinkMatrix.FromSet | src/data/LinkManager.java:15-20 | The set constructor yields a matrix whose occupied cells are exactly the ids of the given links, each holding its link. |
| LinkMatrix.GetAll | src/data/LinkManager.java:35-44 | `getAll` lists the non-empty cells in row-major order; a link is listed exactly when some cell holds it. |
| LinkMatrix.PresentCount | src/data/LinkManager.java:37-42 | A row contributes exactly as many links as it has occupied cells. |
| LinkMatrix.GetAllIncomingLinks | src/data/LinkManager.java:46-54 | It lists the non-empty cells of column n in increasing row order. Each listed link ends at n in a consistent matrix. |
| LinkMatrix.GetAllOutgoingLinks | src/data/LinkManager.java:56-64 | It lists the non-empty cells of row n in increasing column order. Each listed link starts at n in a consistent matrix. |
| Solutions.TotalCost | src/data/Solution.java:60-62 | `getTotalCost` sums the route costs. The sum does not depend on route order (Solutions.TotalCostIgnoresRouteOrder). |
| Solutions.NewSolution | src/data/Solution.java:26-34 | The status/timing constructor sets the lower bound to the solution's own total cost, the gap to 0 and an empty log. |
| Solutions.Copy | src/data/Solution.java:47-58 | The copy's routes are route-wise equal to the original's. It has the same total cost and the same metadata. |
| Solutions.TotalCostIgnoresRouteOrder | src/data/Solution.java:60-62 | The total cost does not depend on the order of the routes. |
| Solutions.AllLinks | src/data/Solution.java:64-68 | A link is in the flattened list exactly when some route has it. |
| Solutions.AllLinksLayout | src/data/Solution.java:64-68 | The flattened list is the routes' link lists concatenated in route order: link k of route i sits at offset (links of routes before i) + k. |
| Solutions.Equals | src/data/Solution.java:118-138 | `equals` is false for null and for other classes and true for the solution itself. Equal solutions have as many routes. It is an equivalence (EqualsReflexive, EqualsSymmetric, EqualsTransitive) that ignores route order. |
| Solutions.EqualsReflexive | src/data/Solution.java:119-122 | A solution equals itself. |
| Solutions.EqualsSymmetric | src/data/Solution.java:119-138 | Solution equality is symmetric. |
| Solutions.EqualsTransitive | src/data/Solution.java:119-138 | Solution equality is transitive. |
| Solutions.EqualsIgnoresRouteOrder | src/data/Solution.java:127-137 | Two solutions with the same routes in any order are equal. |
| Solutions.HashLoop | src/data/Solution.java:141-147 | The accumulation loop keeps an `int` accumulator in `int` range and returns it unchanged when no route is left. |
| Solutions.Hash | src/data/Solution.java:141-147 | `hashCode` is a Java `int`, and 0 for a solution without routes. It equals the 32-bit wrap of the sum of 31 × route hash (Solutions.HashLoopIsWrappedSum). |
| Solutions.HashLoopIsWrappedSum | src/data/Solution.java:141-147 | The `int` accumulation loop equals the 32-bit wrap of the plain sum of 31 × route hash. |
| Solutions.HashIgnoresRouteOrder | src/data/Solution.java:141-147 | The hash code does not depend on the order of the routes. |
| Common.Int32 | src/data/Solution.java:142-146 | The result lies in the `int` range and differs from the exact value by a multiple of 2^32. |
| Common.DoubleToInt | src/data/Route.java:98 | `(int)` on a double truncates toward zero inside the `int` range. |
| Moves.TwoOptNodes | src/LocalSearch.java:49-50 | The candidate reverses positions first..last and keeps every other position; it is a permutation of the route. |
| Moves.TwoOptInvolution | src/LocalSearch.java:49-50 | Reversing the same segment twice gives back the route. |
| Moves.CrossoverNodes | src/LocalSearch.java:119-126 | A' = A[..cutA] ++ B[cutB..] and B' = B[..cutB] ++ A[cutA..] hold together exactly the clients of A and B, with the stated lengths. |
| Moves.CrossoverInvolution | src/LocalSearch.java:119-126 | Crossing the results at the same cuts gives back A and B. |
| Moves.RemoveKeepsCapacity | src/LocalSearch.java:234-239 | Removing a client from a route within capacity leaves a route within capacity, so the `return null` branch is unreachable. |
| Moves.InsertionPrecheckSound | src/LocalSearch.java:252-255 | A destination whose delivery total + d or pickup total + p exceeds capacity has no feasible insertion position, so skipping it loses nothing. |
| Moves.SingletonFeasible | src/LocalSearch.java:278-279 | A client of a route within capacity fits in a route of its own. |
| Moves.ExchangeKeepsClients | src/LocalSearch.java:362-366 | Swapping one client between two routes keeps the two routes' clients together. |
| Moves.Rewrite | src/LocalSearch.java:196-207 | Relocating (or swapping) the client at i to k yields a permutation of the route with that client at k. |
| Moves.RewriteInPlace | src/LocalSearch.java:202-204 | Moving a client to its own position changes nothing, so the skipped position offers no new candidate. |
| Moves.RewriteUndo | src/LocalSearch.java:196-207 | Relocating or swapping back from k to i undoes the rewrite. |
| Moves.RankDecreases | src/LocalSearch.java:15-31 | An improvement by more than COST_TOLERANCE strictly decreases the cost's ranking, which bounds the rounds of `run`. |
| Placement.FindRouteIndex | src/LocalSearch.java:180-186 | The result is -1 exactly when no route holds the client. Otherwise it is the first route that holds it. |
| Placement.IndexOfRoute | src/LocalSearch.java:180-186 | The `indexOf` step returns the first route equal (by node list) to the found one, or -1 when none is. |
| Placement.ClientIsPlaced | src/LocalSearch.java:191-192 | In a well-formed solution every client is found, at a valid position of its route. |
| Placement.ReplaceRoute | src/LocalSearch.java:58 | Replacing a route by a built feasible permutation of it keeps the solution well formed and changes the total by the cost difference. |
| Placement.ReplacePair | src/LocalSearch.java:166-167 | Replacing two routes by built feasible routes holding the same clients keeps the solution well formed and changes the total by the cost differences. |
| Placement.MergeRoutes | src/LocalSearch.java:150-151 | Replacing one route by a route holding both routes' clients and removing the other keeps the solution well formed, one route shorter. |
| Placement.SplitRoute | src/LocalSearch.java:290-299 | Shrinking a route and appending a new route for the removed clients keeps the solution well formed and adds the new route's cost. |
| Placement.WellFormedCostNonNegative | src/data/Solution.java:60-62 | A well-formed solution has a nonnegative total cost. |
| Shuffling.Shuffle | src/LocalSearch.java:73 | The shuffle is a permutation of its input and consumes one draw per swap. |
| TwoOpt.Candidate | src/LocalSearch.java:49-52 | The reversal candidate is a built route holding the same clients. |
| TwoOpt.ImproveRoute | src/LocalSearch.java:45-64 | The scan of one route: the result is a built permutation of the route. When improved, it is feasible and cheaper by more than COST_TOLERANCE. Otherwise the route is unchanged and no reversal improves it (2-opt optimal). |
| TwoOpt.ImproveStep | src/LocalSearch.java:57-58 | Replacing a route by an improved permutation keeps the solution well formed and changes the total by the cost difference. |
| TwoOpt.PerformTwoOpt | src/LocalSearch.java:42-67 | The pass keeps the solution well formed and each route a permutation of itself. It never raises the total. A reported improvement lowers the total by more than COST_TOLERANCE. With no improvement, every route is 2-opt optimal. |
| Crossover.Candidates | src/LocalSearch.java:119-127 | Both candidates are built routes; together they hold the clients of A and B. |
| Crossover.BestCrossover | src/LocalSearch.java:113-139 | When found, the cut pair is admissible (both candidates feasible) and its delta is below -COST_TOLERANCE and no larger than any admissible pair's delta + COST_TOLERANCE. When not found, no admissible pair improves. |
| Crossover.Positions | src/LocalSearch.java:103-106 | The initial `omega` is 0..n-1 in order, an index permutation. |
| Crossover.ShuffledIndexPerm | src/LocalSearch.java:107 | A shuffle of an index permutation is an index permutation. |
| Crossover.MoveToFront | src/LocalSearch.java:156 | `addFirst(remove(p))` puts s[p] first, shifts the earlier entries by one and keeps the rest. |
| Crossover.MoveToFrontKeeps | src/LocalSearch.java:156 | Moving an entry to the front keeps the entries distinct and in range. |
| Crossover.Renumbered | src/LocalSearch.java:158-162 | Every entry above the removed route index drops by one; the others are kept. |
| Crossover.RenumberedIsIndexPerm | src/LocalSearch.java:158-162 | Renumbering distinct indices below n+1 that skip the removed one yields an index permutation of n. |
| Crossover.RemoveDistinct | src/LocalSearch.java:153 | Removing one entry of `omega` keeps it distinct and in range, and the removed value is gone. |
| Crossover.MergedOrderPerm | src/LocalSearch.java:153-162 | After a merge, `omega` is an index permutation of one fewer route, headed by the kept route's new index. |
| Crossover.MergedOrderFacts | src/LocalSearch.java:145-164 | After a merge, `omega` is an index permutation of the shortened solution, and its first entry points at the kept route. |
| Crossover.ExchangedOrder | src/LocalSearch.java:168-169 | After an exchange, `omega` starts with the two changed routes, A first. |
| Crossover.ExchangedOrderFacts | src/LocalSearch.java:168-169 | The reordered `omega` is still an index permutation. |
| Crossover.MergeKeepsSolution | src/LocalSearch.java:145-164 | Merging keeps the solution well formed, drops exactly one route and changes the total by the crossover's delta. |
| Crossover.ExchangeKeepsSolution | src/LocalSearch.java:165-172 | Replacing both routes keeps the solution well formed and the route count. It changes the total by the delta, and `omega` heads with the two new routes. |
| Crossover.ExchangeApply | src/LocalSearch.java:166-171 | With both results non-empty, the update is the two in-place replacements with the exchanged order, and positions 0 and 1 then point at the new routes. |
| Crossover.Apply | src/LocalSearch.java:141-174 | An improving crossover that empties a route removes one route and resumes both indices at 0. Otherwise both routes are replaced in place, and the order puts A's index first and B's second, with the indices resuming at 0 and 1. |
| Crossover.ApplyMerge | src/LocalSearch.java:145-164 | With one result empty, the non-empty one replaces its route and the other route is deleted. The solution stays well formed, one route shorter, and the total changes by the delta. |
| Crossover.ApplyKeepsSolution | src/LocalSearch.java:141-174 | Accepting an admissible cut pair keeps the solution well formed and `omega` an index permutation. The total changes by exactly the delta. The route count drops by one exactly when a result is empty. |
| Crossover.Accept | src/LocalSearch.java:141-174 | An accepted crossover keeps the solution well formed and lowers the total by more than COST_TOLERANCE. The scan then resumes at a valid index pair. |
| Crossover.PerformCrossover | src/LocalSearch.java:101-178 | The pass keeps the solution well formed, never adds routes and never raises the total. With no improvement, no pair of routes has an improving crossover in the shuffled order. |
| InRoute.RewriteCandidate | src/LocalSearch.java:206-209 | The relocation (or swap) candidate is a built permutation of the route with the client at position k. |
| InRoute.BestRewrite | src/LocalSearch.java:202-218 | When improved, the best candidate improves on the route by more than COST_TOLERANCE and is at least as cheap as every other feasible candidate up to the tolerance. Otherwise no candidate improves. |
| InRoute.Locate | src/LocalSearch.java:191-192 | The client's route index and its position in that route. |
| InRoute.TryInRoute | src/LocalSearch.java:188-224 | Relocation or swap inside the client's route touches only that route, keeping its clients and the solution well formed. An improvement lowers the total by more than COST_TOLERANCE. With none, no rewrite of that client improves its route. The same method serves lines 305-338. |
| Insertion.Remainder | src/LocalSearch.java:234-237 | The source route without the client is a built route one client shorter. |
| Insertion.Insertion | src/LocalSearch.java:258-262 | Inserting the client at k yields a built route with that client added at k. |
| Insertion.Alone | src/LocalSearch.java:279 | The new route holds only the client. |
| Insertion.PrecheckReadsTotals | src/LocalSearch.java:252-253 | The course entries the pre-check reads are the destination's delivery total and pickup total. |
| Insertion.RouteSkipped | src/LocalSearch.java:247-255 | Skipping the source route, or a destination the pre-check rejects, misses no improving insertion. |
| Insertion.ScanRoute | src/LocalSearch.java:257-275 | Scanning one destination keeps the best-so-far record valid and only lowers the bound; every position of that route is covered. |
| Insertion.BestTransfer | src/LocalSearch.java:246-288 | A found transfer targets another route with a feasible insertion, or a new route when the remainder has more than one client. Its gain is below -COST_TOLERANCE and within the tolerance of every candidate's. When none is found, no candidate beats -COST_TOLERANCE. |
| Insertion.TransferToNewRoute | src/LocalSearch.java:291-299 | Moving the client to a new singleton route keeps the solution well formed and adds that route's cost. |
| Insertion.TransferEmptying | src/LocalSearch.java:296-297 | When the source route becomes empty, it was the client alone. Deleting it keeps the solution well formed, one route shorter. |
| Insertion.TransferBetween | src/LocalSearch.java:293-299 | Moving the client between two routes keeps the solution well formed and changes the total by both cost differences. |
| Insertion.MoveIntoRoute | src/LocalSearch.java:293-300 | Moving the client into an existing route keeps the solution well formed. The route count drops by one only when the source held the client alone. |
| Insertion.ApplyTransfer | src/LocalSearch.java:290-301 | Applying the chosen transfer keeps the solution well formed and changes the total by exactly its gain. A route is added only as the singleton and removed only when emptied. |
| Insertion.TryInsertionInOtherRoutes | src/LocalSearch.java:226-303 | The move keeps the solution well formed and changes the route count by at most one. A new route is the client alone; a lost route held only the client. An improvement lowers the total by more than COST_TOLERANCE. With none, no transfer of the client improves. |
| Insertion.ShuffleCovers | src/LocalSearch.java:72-76 | A shuffle of the clients visits every client. |
| Insertion.PerformInsertion | src/LocalSearch.java:69-83 | The pass keeps the solution well formed and never raises the total. With no improvement, every client is insertion optimal (in-route and across routes). |
| Interchange.ExchangePair | src/LocalSearch.java:362-373 | The two candidates swap the clients at (ni, j) and keep everything else; they are built routes holding the same clients together. |
| Interchange.ScanExchangeRoute | src/LocalSearch.java:359-384 | Scanning one partner route keeps the best-so-far record and only lowers the bound. |
| Interchange.BestExchange | src/LocalSearch.java:353-385 | A found exchange is admissible (both candidates feasible) with gain below -COST_TOLERANCE and within the tolerance of every admissible exchange. When none is found, no exchange beats -COST_TOLERANCE. |
| Interchange.ApplyExchange | src/LocalSearch.java:387-390 | Applying an admissible exchange keeps the solution well formed and every route's length. It changes the total by the gain. |
| Interchange.TryInterchangeInOtherRoutes | src/LocalSearch.java:340-393 | The move keeps the solution well formed and every route's length. An improvement lowers the total by more than COST_TOLERANCE. With none, no exchange of the client improves. |
| Interchange.PerformInterchange | src/LocalSearch.java:85-99 | The pass keeps the solution well formed and never raises the total. With no improvement, every client is interchange optimal. |
| LocalSearch.Round | src/LocalSearch.java:16-31 | One round of the four operators keeps the solution well formed and never raises the total. A reported improvement lowers it by more than COST_TOLERANCE. With none, the solution is a local optimum of all four neighbourhoods. |
| LocalSearch.Run | src/LocalSearch.java:11-40 | `run` terminates with a well-formed local optimum no costlier than its input. It stamps status "LocalSearch", lower bound 0, gap 0, creation time 0, and the solving time in seconds. Its shuffles read the shared generator from the given position onward. |
| Greedy.IsFeasibleRouteAsWritten | src/Greedy.java:71-83 | `isFeasibleRoute` as written rejects a trial whose starting load exceeds capacity. It accepts only what the corrected check accepts. Exactly: within capacity with the pickup total strictly below capacity (Greedy.AsWrittenIsStricter). |
| Greedy.IsFeasibleRoute | src/Greedy.java:71-83 | The corrected check, with a final load at most capacity. It rejects a trial whose starting load exceeds capacity, and it accepts exactly feasible extensions (Greedy.CheckIsCapacityRule). |
| Greedy.LoadWalkFollowsCourse | src/Greedy.java:74-79 | The check's running load over the existing nodes follows the route's load course. It fails exactly when some load on the way exceeds capacity. |
| Greedy.FinalLoadIsPickupTotal | src/Greedy.java:73-80 | When every load fits, the final load the check computes equals the extended route's pickup total. |
| Greedy.CheckIsCapacityRule | src/Greedy.java:71-83 | The corrected check (final load ≤ capacity) accepts exactly when the extended route is within capacity, i.e. feasible as a route. |
| Greedy.StrictComparison | src/Greedy.java:80 | The check as written accepts exactly when the corrected check accepts and the final load is strictly below capacity. |
| Greedy.AsWrittenIsStricter | src/Greedy.java:71-83 | The check as written accepts exactly when the extended route is within capacity and its pickup total is strictly below capacity. |
| Greedy.FullPickupNeverAccepted | src/Greedy.java:80 | As written, a client whose pickup reaches the capacity is never accepted, into any route. |
| Greedy.FullPickupCounterexample | src/Greedy.java:71-83 | A client with pickup = capacity forms a feasible route alone, yet the check as written rejects it on an empty route. |
| Greedy.FitsAloneIsCheck | src/Greedy.java:59 | The check as written accepts a client on an empty route exactly when its delivery is within capacity and its pickup is strictly below it. Such a client also passes the corrected check. |
| Greedy.NearestIndex | src/Greedy.java:50-53 | The nearest-neighbour pick has minimal distance from the route end, and it is the first such candidate. |
| Greedy.RemoveAll | src/Greedy.java:67 | `removeAll` keeps exactly the free nodes not in the route, in a submultiset of the input. |
| Greedy.RemoveAllCounts | src/Greedy.java:67 | `removeAll` drops every occurrence of a removed node and keeps every other count. |
| Greedy.RemoveAllSplits | src/Greedy.java:67 | For distinct free nodes, the route and what is left partition the free nodes. |
| Greedy.PickTrial | src/Greedy.java:47-56 | At the depot the pick is uniform over the candidates. Otherwise, with probability 99/100 it is the first candidate nearest to the route end, else uniform. It consumes one draw, or two when it falls back to the uniform pick. |
| Greedy.AcceptKeepsCapacity | src/Greedy.java:58-63 | A trial the check as written accepts keeps the route within capacity with its pickup total strictly below capacity. The tracked delivery total grows by the trial's delivery. |
| Greedy.TryTrial | src/Greedy.java:58-65 | Each trial leaves the candidate list one shorter. The trial joins the route exactly when the check as written accepts it. The tracked delivery total stays the route's delivery sum. |
| Greedy.GrowRoute | src/Greedy.java:46-66 | The grown nodes come from the free pool. They are within capacity, with a pickup total strictly below it. When every free client passes the check alone, at least one is taken. |
| Greedy.CreateRoute | src/Greedy.java:39-69 | `createRoute` returns a feasible built route of distinct free nodes whose pickup total is below capacity. The free pool is reduced by exactly those nodes. The route is non-empty when every free client passes the check alone. |
| Greedy.PickupsBelowAppend | src/Greedy.java:24-27 | Appending a route whose pickup total is below capacity keeps every route's pickup total below capacity. |
| Greedy.RouteTaken | src/Greedy.java:24-27 | Appending a created route and shrinking the pool keeps "routes + pool partition the clients". |
| Greedy.Construct | src/Greedy.java:19-27 | The construction loop terminates with a well-formed solution: feasible built routes holding every client exactly once, each with a pickup total below capacity. The initial shuffle consumes one draw per client after the first. |
| Greedy.Run | src/Greedy.java:16-37 | `run` returns a well-formed local optimum with status "Greedy", lower bound 0, gap 0 and the construction and search times in seconds. The shared shuffle generator is read from the given position onward. |
| Vdns.NextCliqueSize | src/VariableDepthNeighborhoodSearch.java:101-103 | The clique grows by one at a gap ≤ 0.01 and shrinks by one otherwise, clamped to [MIN_CLIQUE_SIZE, MAX_CLIQUE_SIZE]; in-range sizes stay in range. |
| Vdns.TimeLimit | src/VariableDepthNeighborhoodSearch.java:79-81 | With one clock reading the limit is min(subproblem limit, solver limit − elapsed). It never exceeds either bound as time moves on. |
| Vdns.Weight | src/VariableDepthNeighborhoodSearch.java:180 | Each roulette weight 1/(distance + 0.01) is positive. |
| Vdns.TotalWeight | src/VariableDepthNeighborhoodSearch.java:172-174 | The total weight is positive for a non-empty candidate list. |
| Vdns.CumulativeIsShare | src/VariableDepthNeighborhoodSearch.java:177-183 | The running sum of weight/total after i candidates is the first i candidates' share of the total weight. |
| Vdns.CumulativeEnds | src/VariableDepthNeighborhoodSearch.java:177-183 | The cumulative share reaches 1 at the last candidate. |
| Vdns.FirstReaching | src/VariableDepthNeighborhoodSearch.java:184 | `ceilingEntry(u)` finds the first candidate whose cumulative share reaches u. |
| Vdns.SelectByDistance | src/VariableDepthNeighborhoodSearch.java:171-185 | The chosen candidate's cumulative interval contains u. The interval's width is the candidate's weight over the total, so it is picked with probability proportional to 1/(distance + 0.01). |
| Vdns.UniformDraw | src/VariableDepthNeighborhoodSearch.java:184 | `nextDouble` yields a value in [0, 1). |
| Vdns.RemoveValue | src/VariableDepthNeighborhoodSearch.java:151 | `List.remove(Object)` removes one occurrence if present and nothing else. |
| Vdns.RemoveValueDistinct | src/VariableDepthNeighborhoodSearch.java:151-161 | On a list without repeats, removal keeps it without repeats and removes exactly that node. |
| Vdns.CliqueStep | src/VariableDepthNeighborhoodSearch.java:157-163 | Adding one chosen node keeps the clique distinct, drawn from the clients, and out of the remaining pool and the candidate list. |
| Vdns.BuildClique | src/VariableDepthNeighborhoodSearch.java:144-165 | The clique is the depot followed by cliqueSize − 1 distinct clients. The base client comes from the remaining pool. The pool afterwards holds exactly the remaining nodes not in the clique. One generator is drawn per client in the clique. |
| Vdns.PoolAdd | src/VariableDepthNeighborhoodSearch.java:65 | Adding to the cost-ordered pool keeps it ordered by strictly increasing cost and adds nothing but the new solution. |
| Vdns.PoolAddContents | src/VariableDepthNeighborhoodSearch.java:65-66 | A solution whose cost the pool already holds is dropped (the TreeSet compares by cost). Otherwise it is added once. Existing members stay. |
| Vdns.PoolAddPresent | src/VariableDepthNeighborhoodSearch.java:65 | Adding a solution of an already present cost leaves the pool unchanged. |
| Vdns.PoolAddNew | src/VariableDepthNeighborhoodSearch.java:65 | Adding a solution of a new cost adds exactly it. |
| Vdns.RemoveByCost | src/VariableDepthNeighborhoodSearch.java:105 | `removeAll` against the pool keeps exactly the solver solutions whose cost the pool does not hold. |
| Vdns.Top | src/VariableDepthNeighborhoodSearch.java:193-196 | The polled solutions are the min(5, \|pool\|) cheapest. |
| Vdns.CliquePairs | src/VariableDepthNeighborhoodSearch.java:212-217 | The set holds both directions between every pair of distinct clique positions, and only clique links. |
| Vdns.NeighbourLinks | src/VariableDepthNeighborhoodSearch.java:200-231 | A clique member's predecessor links into every clique member and every clique member links to its successor, with the depot at route ends, whenever the endpoints differ. |
| Vdns.LinksShape | src/VariableDepthNeighborhoodSearch.java:187-241 | Every link in the set is an incumbent's link or a matrix link from the clique or its incoming nodes to the clique or its outgoing nodes. |
| Vdns.LinksLoopFree | src/VariableDepthNeighborhoodSearch.java:211-238 | With loop-free incumbents and a clique of distinct ids, no link in the set is a self-loop. |
| Vdns.BuildSubproblemLinks | src/VariableDepthNeighborhoodSearch.java:187-241 | The set holds every link of the polled incumbents and both directions within the clique. It holds incoming→clique, clique→outgoing and incoming→outgoing links with distinct endpoints, and nothing else. It has no self-loop under the conditions above. |
| Vdns.RouteLoopFree | src/data/Route.java:64-68 | A built route of distinct clients has no self-loop link. |
| Vdns.SolutionLoopFree | src/data/Solution.java:64-68 | A well-formed solution has no self-loop link. |
| Vdns.SubproblemLoopFree | src/VariableDepthNeighborhoodSearch.java:211-238 | The pool's incumbents and the clique meet the conditions for a loop-free subproblem. |
| Vdns.Offer | src/VariableDepthNeighborhoodSearch.java:119-129 | A candidate cheaper by more than COST_TOLERANCE becomes the incumbent: the improvement count rises by one and the time and iteration of the best are stamped. Otherwise nothing changes. |
| Vdns.OfferProgress | src/VariableDepthNeighborhoodSearch.java:119-129 | Each counted improvement lowered the incumbent's cost by more than COST_TOLERANCE. |
| Vdns.OfferSelfNeverAdopts | src/VariableDepthNeighborhoodSearch.java:87-88 | Offering the incumbent itself (the empty-solver fallback) never adopts. |
| Vdns.AdoptAsWritten | src/VariableDepthNeighborhoodSearch.java:94-103 | As written: on adoption the incumbent ends up holding the searched routes, counted once. The gap read for the clique size is the searched solution's. |
| Vdns.Adopt | src/VariableDepthNeighborhoodSearch.java:94-103 | Corrected: the solver's best is offered, then its searched copy. Each counted improvement beat the incumbent by more than COST_TOLERANCE, and the gap read is the solver's. |
| Vdns.AsWrittenMissesSearchGain | src/VariableDepthNeighborhoodSearch.java:96-97 | When the search improves an adopted solver solution, the code as written counts one improvement and keeps the solver's time stamp. The corrected step counts two and stamps the search's time. |
| Vdns.AsWrittenGrowsClique | src/VariableDepthNeighborhoodSearch.java:101 | With a solver gap above 0.01 the code as written still grows the clique, where the corrected step shrinks it. |
| Vdns.AddRejected | src/VariableDepthNeighborhoodSearch.java:109 | Adding a non-improving well-formed solution keeps the pool sound. |
| Vdns.AddImproving | src/VariableDepthNeighborhoodSearch.java:98 | Adding the new incumbent keeps the pool sound for it. |
| Vdns.OfferAndAdd | src/VariableDepthNeighborhoodSearch.java:107-110 | Offering a solution and adding it to the pool keeps the pool sound for the resulting incumbent. |
| Vdns.AdoptStep | src/VariableDepthNeighborhoodSearch.java:91-101 | As written: the pool is reset to the incumbent. When the solver's best beats it by more than COST_TOLERANCE, that solution is searched in place and becomes the incumbent, counted once and stamped with the reading before the search. The gap read for the clique update is then 0.0. Otherwise nothing changes and the solver's gap is read. |
| Vdns.OfferStep | src/VariableDepthNeighborhoodSearch.java:107-110 | One offer-and-add keeps the pool sound, keeps earlier members and extends the progress record. |
| Vdns.SearchRest | src/VariableDepthNeighborhoodSearch.java:105-110 | Searching and offering the remaining solver solutions keeps the pool sound and earlier members in it. Every counted improvement lowers the incumbent's cost, and an incumbent with gap 0 keeps gap 0. Each search takes two clock readings, and each adoption takes one more. |
| Vdns.Subproblem | src/VariableDepthNeighborhoodSearch.java:72-77 | The pool is refilled when smaller than the clique size. The remaining pool shrinks strictly and stays within the clients. The subproblem has no self-loop link. At least one VDNS generator is drawn. |
| Vdns.Solve | src/VariableDepthNeighborhoodSearch.java:79-88 | The solver's solutions are used, or the incumbent alone when it reports none, so at least one well-formed solution is returned. |
| Vdns.Iteration | src/VariableDepthNeighborhoodSearch.java:70-112 | One iteration keeps the pool sound: it is cost-sorted, holds the incumbent, and no member beats the incumbent by more than the tolerance. The incumbent keeps gap 0 and the clique size stays in range. The iteration counter grows by one, the remaining pool shrinks, and every counted improvement lowered the incumbent's cost. The VDNS draws and the clock readings advance. |
| Vdns.Start | src/VariableDepthNeighborhoodSearch.java:38-63 | The search starts with the greedy incumbent, clique size MIN_CLIQUE_SIZE and nothing improved. The iteration counter is 1: its initial 0 (line 42) after the increment at line 63. |
| Vdns.Execute | src/VariableDepthNeighborhoodSearch.java:60-117 | The loop ends once a clock reading passes the solver time limit. The greedy start and the final incumbent are well formed. The incumbent costs at most the greedy cost minus COST_TOLERANCE per counted improvement. The clique size stays in [MIN_CLIQUE_SIZE, clients + 1], at least one iteration ran, and the best was found before the last one. |

## Left out

- Randomness: the three generators are draw streams with positions threaded through the calls. The model states which draw decides each choice and how far each call advances the stream, not the generators' distributions. The VDNS `new Random()` per pick is one stream read in order, not a freshly seeded generator per pick.
- Wall-clock time: `System.currentTimeMillis` and `getElapsedTime` are a nondecreasing stream of readings that eventually passes the solver time limit.
- The MIP solver (src/Model.java, src/Cplex.java, src/Solver.java) is not part of this model. It is a function parameter assumed to report only solutions that serve every client once with feasible routes. Its `finalizeModel` clean-up is omitted.
- src/data/Data.java is not part of this model: instance reading, Euclidean distances and the statics it fills become the `Config` value and the `ValidConfig`/`ValidClients` preconditions.
- `Node` is not part of this model; it is a datatype (id, pickup, delivery) with nonnegative demands.
- Floating point: costs, weights and shares are `real`. Rounding and the `ceilingEntry` null result (when rounding leaves the last cumulative share below the draw) are not modelled. The Greedy probability 0.99 is read as `random(t) % 100 < 99`.
- File output (`exportSolution` in both classes, `printCnt`, `createDirectories`) and the single-thread executor are I/O and concurrency, and are left out. `timeToBest` and `iterationToBest` are kept, since the acceptance logic updates them.
- `toString` of `Route` is left out.
- Routes.Evaluate: a link's distance is read from a total function, so the null link of a self-pair is not modelled; a route of distinct clients never asks for one.
- Routes.Evaluate: demand totals, course entries and loads are exact integers, and Java's 32-bit `int` wrap-around is not modelled. The same holds for the insertion precheck (src/LocalSearch.java:252-253). Node demands are unbounded here, where Java's are `int`. The load walk of `isFeasibleRoute` runs in `double`, which is exact for integer sums below 2^53. On a route whose delivery and pickup totals together reach 2^31, Java's wrapped sums can give a different feasibility verdict. Below that bound the two agree, as Routes.LoadsExactInInt32 states.
- Routes.Hash, Links.Hash and Solutions.Hash take the node hash (`Objects.hash` on nodes) as a parameter. Their contracts state only the `int` range, and the lemmas above state the rest.
- TwoOpt.ImproveRoute: after an accepted reversal the scan resumes at first = 0 with the source's rewritten last index. Its post-state is stated as "a built permutation, cheaper when improved", not as the exact sequence of reversals.
- Crossover.PerformCrossover: "no improvement" is crossover optimality in the pass's own shuffled order of routes, not for every order.
- Insertion.PerformInsertion and Interchange.PerformInterchange visit clients in a given permutation, which the round draws by shuffling; the `removeFirst` draining of `omega` is the loop over that permutation.
- Greedy.Run requires the clients to be distinct and every client to pass the check as written on an empty route: delivery within capacity and pickup strictly below it. Otherwise the source's construction loop makes no progress (see Findings).
- Vdns.Execute: the main loop follows the code as written. The solver's best is searched in place, and the clique update then reads gap 0.0. The corrected step, `Vdns.Adopt`, is stated and proved beside it.
- Vdns.Execute requires at least MIN_CLIQUE_SIZE − 1 clients with distinct ids other than the depot's; with fewer, `buildClique` cannot fill a clique of the starting size.
- Vdns.Execute: the incumbent's pool is kept as a cost-ordered sequence without duplicate costs, the TreeSet's view. `pollFirst` draining it in `buildSubproblemLinks` is read as taking its cheapest members, because the pool is rebuilt right after.

## Findings

| source | as written | input that shows it | evidently intended | confidence | as-written member | corrected member |
|---|---|---|---|---|---|---|
| src/Greedy.java:80 | The last step of `isFeasibleRoute` requires the final load to be strictly below capacity. | Capacity 10 and a client with pickup 10, delivery 0. The route of that client alone is feasible, but the check rejects it on every route, so `createRoute` never takes it and the loop at lines 24-27 never ends. | Final load at most capacity, the rule `Route` applies. | not executed | Greedy.FullPickupCounterexample | Greedy.CheckIsCapacityRule |
| src/VariableDepthNeighborhoodSearch.java:96-97 | After adopting the solver's best solution, the local search runs in place on that same object. It is then compared with itself at line 133. | A solver solution cheaper than the incumbent that the local search improves further. The improvement is not counted, and `timeToBest` keeps the solver's stamp. | Search a copy and offer it against the adopted solution. | not executed | Vdns.AsWrittenMissesSearchGain | Vdns.Adopt |
| src/VariableDepthNeighborhoodSearch.java:101 | The clique-size update reads the gap of `bestSolutionFromCplex`. After an adoption the in-place local search has reset that gap to 0.0. | An adopted solver solution with gap 0.05 and clique size 5 grows the clique to 6. | Read the solver's gap, shrinking the clique to 4. | not executed | Vdns.AsWrittenGrowsClique | Vdns.Adopt |
