/** The crossover neighbourhood of the local search: for two routes A and B,
    exchange their tails at every pair of cut points and keep the best pair
    of feasible results. */
module Crossover {
  import opened Common
  import opened Instance
  import opened Routes
  import opened Solutions
  import opened Moves
  import opened Placement
  import opened Shuffling

  /** The two candidate routes for cuts (cutA, cutB), as built routes. */
  function Candidates(cfg: Config, a: Route, b: Route, cutA: nat, cutB: nat): (c: (Route, Route))
    requires cutA <= |a.nodes| && cutB <= |b.nodes|
    ensures c.0 == Evaluate(cfg, c.0.nodes) && c.1 == Evaluate(cfg, c.1.nodes)
    ensures multiset(c.0.nodes) + multiset(c.1.nodes) == multiset(a.nodes) + multiset(b.nodes)
    ensures |c.0.nodes| + |c.1.nodes| == |a.nodes| + |b.nodes|
  {
    var nodes := CrossoverNodes(a.nodes, b.nodes, cutA, cutB);
    (Evaluate(cfg, nodes.0), Evaluate(cfg, nodes.1))
  }

  /** The source considers a cut pair only when both candidates are feasible. */
  predicate Admissible(cfg: Config, a: Route, b: Route, cutA: nat, cutB: nat)
    requires cutA <= |a.nodes| && cutB <= |b.nodes|
  {
    Candidates(cfg, a, b, cutA, cutB).0.isFeasible && Candidates(cfg, a, b, cutA, cutB).1.isFeasible
  }

  /** The change of the pair's cost when the cut pair is applied. */
  function Delta(cfg: Config, a: Route, b: Route, cutA: nat, cutB: nat): real
    requires cutA <= |a.nodes| && cutB <= |b.nodes|
  {
    var c := Candidates(cfg, a, b, cutA, cutB);
    c.0.totalCost + c.1.totalCost - (a.totalCost + b.totalCost)
  }

  /** Every admissible cut pair scanned before (ca, cb), row by row, changes
      the cost by at least bound - tolerance. */
  ghost predicate CutsScanned(cfg: Config, a: Route, b: Route, ca: nat, cb: nat, bound: real)
  {
    forall cutA: nat, cutB: nat ::
      (cutA <= |a.nodes| && cutB <= |b.nodes| && (cutA < ca || (cutA == ca && cutB < cb)) &&
       Admissible(cfg, a, b, cutA, cutB)) ==> Delta(cfg, a, b, cutA, cutB) >= bound - CostTolerance
  }

  /** No cut pair improves the two routes by more than the tolerance. */
  ghost predicate NoImprovingCrossover(cfg: Config, a: Route, b: Route)
  {
    forall cutA: nat, cutB: nat :: cutA <= |a.nodes| && cutB <= |b.nodes| && Admissible(cfg, a, b, cutA, cutB) ==>
      Delta(cfg, a, b, cutA, cutB) >= -CostTolerance
  }

  lemma CutScanned(cfg: Config, a: Route, b: Route, ca: nat, cb: nat, bound: real, bound': real)
    requires ca <= |a.nodes| && cb <= |b.nodes|
    requires CutsScanned(cfg, a, b, ca, cb, bound) && bound' <= bound
    requires Admissible(cfg, a, b, ca, cb) ==> Delta(cfg, a, b, ca, cb) >= bound' - CostTolerance
    ensures CutsScanned(cfg, a, b, ca, cb + 1, bound')
  {
    forall cutA: nat, cutB: nat | cutA <= |a.nodes| && cutB <= |b.nodes| && (cutA < ca || (cutA == ca && cutB < cb + 1)) &&
                        Admissible(cfg, a, b, cutA, cutB)
      ensures Delta(cfg, a, b, cutA, cutB) >= bound' - CostTolerance
    {
      if cutA != ca || cutB != cb {
        assert cutA < ca || (cutA == ca && cutB < cb);
      }
    }
  }

  lemma CutRowScanned(cfg: Config, a: Route, b: Route, ca: nat, bound: real)
    requires CutsScanned(cfg, a, b, ca, |b.nodes| + 1, bound)
    ensures CutsScanned(cfg, a, b, ca + 1, 0, bound)
  {
  }

  /** The two nested cut loops of `performCrossover` for the routes a and b:
      the result is the first cut pair, in scan order, that beats every
      earlier best by more than the tolerance, starting from zero. */
  method BestCrossover(cfg: Config, a: Route, b: Route) returns (found: bool, cutA: nat, cutB: nat, delta: real)
    ensures found ==> cutA <= |a.nodes| && cutB <= |b.nodes| && Admissible(cfg, a, b, cutA, cutB)
    ensures found ==> delta == Delta(cfg, a, b, cutA, cutB) && delta < -CostTolerance
    ensures found ==> CutsScanned(cfg, a, b, |a.nodes| + 1, 0, delta)
    ensures !found ==> NoImprovingCrossover(cfg, a, b)
  {
    found, cutA, cutB, delta := false, 0, 0, 0.0;
    var ca := 0;
    while ca <= |a.nodes|
      invariant ca <= |a.nodes| + 1
      invariant CutsScanned(cfg, a, b, ca, 0, delta)
      invariant found ==> cutA <= |a.nodes| && cutB <= |b.nodes| && Admissible(cfg, a, b, cutA, cutB)
      invariant found ==> delta == Delta(cfg, a, b, cutA, cutB) && delta < -CostTolerance
      invariant !found ==> delta == 0.0
    {
      var cb := 0;
      while cb <= |b.nodes|
        invariant cb <= |b.nodes| + 1
        invariant CutsScanned(cfg, a, b, ca, cb, delta)
        invariant found ==> cutA <= |a.nodes| && cutB <= |b.nodes| && Admissible(cfg, a, b, cutA, cutB)
        invariant found ==> delta == Delta(cfg, a, b, cutA, cutB) && delta < -CostTolerance
        invariant !found ==> delta == 0.0
      {
        var previous := delta;
        var candidates := Candidates(cfg, a, b, ca, cb);
        if candidates.0.isFeasible && candidates.1.isFeasible {
          var d := candidates.0.totalCost + candidates.1.totalCost - (a.totalCost + b.totalCost);
          if d < delta - CostTolerance {
            found, cutA, cutB, delta := true, ca, cb, d;
          }
        }
        CutScanned(cfg, a, b, ca, cb, previous, delta);
        cb := cb + 1;
      }
      CutRowScanned(cfg, a, b, ca, delta);
      ca := ca + 1;
    }
  }

  // ---------------------------------------------------------------------
  // The shuffled route order
  // ---------------------------------------------------------------------

  ghost predicate Below(s: seq<nat>, n: nat)
  {
    forall i :: 0 <= i < |s| ==> s[i] < n
  }

  /** A shuffled list of the route positions 0..n-1. */
  ghost predicate IsIndexPerm(omega: seq<nat>, n: nat)
  {
    |omega| == n && Below(omega, n) && Distinct(omega)
  }

  /** The list 0, 1, ..., n-1 the source builds before shuffling. */
  function Positions(n: nat): (r: seq<nat>)
    ensures IsIndexPerm(r, n)
    ensures forall i :: 0 <= i < n ==> r[i] == i
  {
    seq(n, i => i)
  }

  /** A shuffle of a shuffled list of positions is one too. */
  lemma ShuffledIndexPerm(s: seq<nat>, r: seq<nat>, n: nat)
    requires IsIndexPerm(s, n) && |r| == |s| && multiset(r) == multiset(s)
    ensures IsIndexPerm(r, n)
  {
    PermutationKeepsDistinct(s, r);
    forall i | 0 <= i < |r|
      ensures r[i] < n
    {
      assert r[i] in multiset(s);
    }
  }

  /** `omega.addFirst(omega.remove(p))`. */
  function MoveToFront(s: seq<nat>, p: nat): (r: seq<nat>)
    requires p < |s|
    ensures |r| == |s| && r[0] == s[p] && multiset(r) == multiset(s)
    ensures forall i :: 0 < i <= p ==> r[i] == s[i - 1]
    ensures forall i :: p < i < |s| ==> r[i] == s[i]
  {
    [s[p]] + RemoveAt(s, p)
  }

  /** Moving an entry to the front keeps a list of distinct positions below
      n distinct and below n. */
  lemma MoveToFrontKeeps(s: seq<nat>, p: nat, n: nat)
    requires p < |s| && Below(s, n) && Distinct(s)
    ensures Below(MoveToFront(s, p), n) && Distinct(MoveToFront(s, p))
  {
    var r := MoveToFront(s, p);
    PermutationKeepsDistinct(s, r);
    forall i | 0 <= i < |r|
      ensures r[i] < n
    {
      assert r[i] in multiset(s);
    }
  }

  /** The renumbering loop after a route was removed: positions above the
      removed one move down by one. */
  function Renumbered(s: seq<nat>, removed: nat): (r: seq<nat>)
    ensures |r| == |s|
    ensures forall i :: 0 <= i < |s| ==> r[i] + (if s[i] > removed then 1 else 0) == s[i]
  {
    seq(|s|, i requires 0 <= i < |s| => if s[i] > removed then s[i] - 1 else s[i])
  }

  /** Renumbering a shuffled list of n + 1 positions without the removed
      one gives a shuffled list of n positions. */
  lemma RenumberedIsIndexPerm(s: seq<nat>, n: nat, removed: nat)
    requires |s| == n && Below(s, n + 1) && Distinct(s) && removed !in s && removed <= n
    ensures IsIndexPerm(Renumbered(s, removed), n)
  {
    var r := Renumbered(s, removed);
    forall i | 0 <= i < n
      ensures r[i] < n
    {
      assert s[i] != removed;
    }
    forall i, j | 0 <= i < j < n
      ensures r[i] != r[j]
    {
      assert s[i] != removed && s[j] != removed && s[i] != s[j];
    }
  }

  lemma RemoveDistinct(s: seq<nat>, e: nat, n: nat)
    requires e < |s| && Below(s, n) && Distinct(s)
    ensures Below(RemoveAt(s, e), n) && Distinct(RemoveAt(s, e)) && s[e] !in RemoveAt(s, e)
  {
    var r := RemoveAt(s, e);
    forall i, j | 0 <= i < j < |r|
      ensures r[i] != r[j]
    {
      var i', j' := if i < e then i else i + 1, if j < e then j else j + 1;
      assert r[i] == s[i'] && r[j] == s[j'] && i' < j';
    }
    forall i | 0 <= i < |r|
      ensures r[i] != s[e]
    {
      assert r[i] == s[if i < e then i else i + 1];
    }
  }

  // ---------------------------------------------------------------------
  // Applying the best crossover
  // ---------------------------------------------------------------------

  /** The order after merging: the emptied route's entry is dropped, the
      kept route's entry moved to the front, and the entries renumbered. */
  function MergedOrder(omega: seq<nat>, emptyPos: nat, keptPos: nat): seq<nat>
    requires emptyPos < |omega| && keptPos < |omega| && emptyPos != keptPos
  {
    var shortened := RemoveAt(omega, emptyPos);
    var front := if keptPos < emptyPos then keptPos else keptPos - 1;
    Renumbered(MoveToFront(shortened, front), omega[emptyPos])
  }

  /** The order after an exchange: B's entry, then A's entry, moved to the
      front, so A is first and B second. */
  function ExchangedOrder(omega: seq<nat>, ia: nat, ib: nat): (r: seq<nat>)
    requires ia < ib < |omega|
    ensures |r| == |omega| && r[0] == omega[ia] && r[1] == omega[ib]
  {
    var first := MoveToFront(omega, ib);
    MoveToFront(first, ia + 1)
  }

  /** What `performCrossover` does with an improving crossover of the routes
      at order positions ia < ib: new routes, new order and the reset loop
      indices (before the inner loop's own increment). */
  function Apply(routes: seq<Route>, omega: seq<nat>, ia: nat, ib: nat, na: Route, nb: Route): (r: (seq<Route>, seq<nat>, nat, nat))
    requires IsIndexPerm(omega, |routes|) && ia < ib < |omega|
    ensures |na.nodes| == 0 || |nb.nodes| == 0 ==> |r.0| == |routes| - 1 && r.2 == 0 && r.3 == 0
    ensures |na.nodes| > 0 && |nb.nodes| > 0 ==>
              && |r.0| == |routes| && r.0[omega[ib]] == nb
              && |r.1| == |omega| && r.1[0] == omega[ia] && r.1[1] == omega[ib] && r.2 == 0 && r.3 == 1
  {
    if |na.nodes| == 0 || |nb.nodes| == 0 then
      var aEmpty := |na.nodes| == 0;
      var emptyPos, keptPos := if aEmpty then ia else ib, if aEmpty then ib else ia;
      var kept := if aEmpty then nb else na;
      (RemoveAt(routes[omega[keptPos] := kept], omega[emptyPos]), MergedOrder(omega, emptyPos, keptPos), 0, 0)
    else
      (routes[omega[ia] := na][omega[ib] := nb], ExchangedOrder(omega, ia, ib), 0, 1)
  }

  lemma MergedOrderFacts(routes: seq<Route>, omega: seq<nat>, emptyPos: nat, keptPos: nat, kept: Route)
    requires IsIndexPerm(omega, |routes|) && emptyPos < |omega| && keptPos < |omega| && emptyPos != keptPos
    ensures var order := MergedOrder(omega, emptyPos, keptPos);
            var result := RemoveAt(routes[omega[keptPos] := kept], omega[emptyPos]);
            IsIndexPerm(order, |result|) && result[order[0]] == kept
  {
    MergedOrderPerm(omega, emptyPos, keptPos);
    var k, removed := omega[keptPos], omega[emptyPos];
    var updated := routes[k := kept];
    var result := RemoveAt(updated, removed);
    assert updated[k] == kept;
    if k > removed {
      assert result[k - 1] == updated[k];
    } else {
      assert result[k] == updated[k];
    }
  }

  /** The merged order lists the n - 1 remaining positions and starts with
      the kept route's position, renumbered past the removed one. */
  lemma MergedOrderPerm(omega: seq<nat>, emptyPos: nat, keptPos: nat)
    requires IsIndexPerm(omega, |omega|) && emptyPos < |omega| && keptPos < |omega| && emptyPos != keptPos
    ensures var order := MergedOrder(omega, emptyPos, keptPos);
            var k, removed := omega[keptPos], omega[emptyPos];
            && k != removed
            && IsIndexPerm(order, |omega| - 1)
            && order[0] == if k > removed then k - 1 else k
  {
    var n := |omega|;
    var removed := omega[emptyPos];
    var shortened := RemoveAt(omega, emptyPos);
    RemoveDistinct(omega, emptyPos, n);
    var front := if keptPos < emptyPos then keptPos else keptPos - 1;
    assert shortened[front] == omega[keptPos];
    var moved := MoveToFront(shortened, front);
    MoveToFrontKeeps(shortened, front, n);
    assert removed !in moved by {
      assert multiset(moved) == multiset(shortened);
    }
    RenumberedIsIndexPerm(moved, n - 1, removed);
  }

  lemma ExchangedOrderFacts(omega: seq<nat>, ia: nat, ib: nat)
    requires IsIndexPerm(omega, |omega|) && ia < ib < |omega|
    ensures IsIndexPerm(ExchangedOrder(omega, ia, ib), |omega|)
  {
    MoveToFrontKeeps(omega, ib, |omega|);
    MoveToFrontKeeps(MoveToFront(omega, ib), ia + 1, |omega|);
  }

  /** A crossover that empties one of the routes: the other takes both
      routes' clients, the emptied one is dropped, and the kept route moves
      to the front of the order. */
  lemma MergeKeepsSolution(cfg: Config, clients: seq<Node>, routes: seq<Route>, omega: seq<nat>,
                           emptyPos: nat, keptPos: nat, kept: Route)
    requires WellFormed(cfg, clients, routes) && IsIndexPerm(omega, |routes|)
    requires emptyPos < |omega| && keptPos < |omega| && emptyPos != keptPos
    requires Settled(cfg, kept)
    requires multiset(kept.nodes) == multiset(routes[omega[emptyPos]].nodes) + multiset(routes[omega[keptPos]].nodes)
    ensures var result := RemoveAt(routes[omega[keptPos] := kept], omega[emptyPos]);
            var order := MergedOrder(omega, emptyPos, keptPos);
            && WellFormed(cfg, clients, result) && IsIndexPerm(order, |result|)
            && TotalCost(result) == TotalCost(routes) + kept.totalCost
                                    - routes[omega[emptyPos]].totalCost - routes[omega[keptPos]].totalCost
            && |result| == |routes| - 1 && result[order[0]] == kept
  {
    assert omega[emptyPos] != omega[keptPos];
    MergeRoutes(cfg, clients, routes, omega[emptyPos], omega[keptPos], kept);
    MergedOrderFacts(routes, omega, emptyPos, keptPos, kept);
  }

  /** A crossover that leaves both routes non-empty rewrites both in place
      and moves them to the front of the order. */
  lemma ExchangeKeepsSolution(cfg: Config, clients: seq<Node>, routes: seq<Route>, omega: seq<nat>,
                              ia: nat, ib: nat, na: Route, nb: Route)
    requires WellFormed(cfg, clients, routes) && IsIndexPerm(omega, |routes|) && ia < ib < |omega|
    requires Settled(cfg, na) && Settled(cfg, nb)
    requires multiset(na.nodes) + multiset(nb.nodes) == multiset(routes[omega[ia]].nodes) + multiset(routes[omega[ib]].nodes)
    ensures var r := Apply(routes, omega, ia, ib, na, nb);
            && WellFormed(cfg, clients, r.0) && IsIndexPerm(r.1, |r.0|)
            && TotalCost(r.0) == TotalCost(routes) + na.totalCost + nb.totalCost
                                 - routes[omega[ia]].totalCost - routes[omega[ib]].totalCost
            && |r.0| == |routes| && r.2 == 0 && r.3 == 1
            && r.0[r.1[0]] == na && r.0[r.1[1]] == nb
  {
    assert omega[ia] != omega[ib];
    ReplacePair(cfg, clients, routes, omega[ia], omega[ib], na, nb);
    ExchangeApply(routes, omega, ia, ib, na, nb);
  }

  /** The exchange branch of the update, apart from the routes' contents. */
  lemma ExchangeApply(routes: seq<Route>, omega: seq<nat>, ia: nat, ib: nat, na: Route, nb: Route)
    requires IsIndexPerm(omega, |routes|) && ia < ib < |omega| && |na.nodes| > 0 && |nb.nodes| > 0
    ensures var updated, order := routes[omega[ia] := na][omega[ib] := nb], ExchangedOrder(omega, ia, ib);
            && Apply(routes, omega, ia, ib, na, nb) == (updated, order, 0, 1)
            && IsIndexPerm(order, |updated|) && updated[order[0]] == na && updated[order[1]] == nb
  {
    ExchangedOrderFacts(omega, ia, ib);
    assert omega[ia] != omega[ib];
  }

  /** Applying a cut pair that empties one route. */
  lemma ApplyMerge(cfg: Config, clients: seq<Node>, routes: seq<Route>, omega: seq<nat>,
                   ia: nat, ib: nat, na: Route, nb: Route)
    requires WellFormed(cfg, clients, routes) && IsIndexPerm(omega, |routes|) && ia < ib < |omega|
    requires na == Evaluate(cfg, na.nodes) && nb == Evaluate(cfg, nb.nodes) && na.isFeasible && nb.isFeasible
    requires multiset(na.nodes) + multiset(nb.nodes) == multiset(routes[omega[ia]].nodes) + multiset(routes[omega[ib]].nodes)
    requires |na.nodes| == 0 || |nb.nodes| == 0
    ensures var r := Apply(routes, omega, ia, ib, na, nb);
            && WellFormed(cfg, clients, r.0) && IsIndexPerm(r.1, |r.0|)
            && TotalCost(r.0) == TotalCost(routes) + na.totalCost + nb.totalCost
                                 - routes[omega[ia]].totalCost - routes[omega[ib]].totalCost
            && |r.0| == |routes| - 1 && r.2 == 0 && r.3 == 0
            && r.0[r.1[0]] == (if |na.nodes| == 0 then nb else na)
  {
    var aEmpty := |na.nodes| == 0;
    var emptyPos, keptPos := if aEmpty then ia else ib, if aEmpty then ib else ia;
    var kept, gone := if aEmpty then nb else na, if aEmpty then na else nb;
    var ma, mb := multiset(routes[omega[ia]].nodes), multiset(routes[omega[ib]].nodes);
    assert gone.nodes == [];
    if aEmpty {
      assert multiset(nb.nodes) == multiset(na.nodes) + multiset(nb.nodes);
    } else {
      assert multiset(na.nodes) == multiset(na.nodes) + multiset(nb.nodes);
      assert ma + mb == mb + ma;
    }
    assert |kept.nodes| == |multiset(kept.nodes)| > 0;
    assert gone.totalCost == Cost(cfg, gone.nodes) == 0.0;
    MergeKeepsSolution(cfg, clients, routes, omega, emptyPos, keptPos, kept);
  }

  /** An improving crossover keeps the solution well formed, lowers its cost
      by the delta, keeps the order a shuffle of the route positions, and
      puts the rewritten routes first in the order; an emptied route is
      dropped. */
  lemma ApplyKeepsSolution(cfg: Config, clients: seq<Node>, routes: seq<Route>, omega: seq<nat>,
                           ia: nat, ib: nat, cutA: nat, cutB: nat)
    requires WellFormed(cfg, clients, routes) && IsIndexPerm(omega, |routes|) && ia < ib < |omega|
    requires cutA <= |routes[omega[ia]].nodes| && cutB <= |routes[omega[ib]].nodes|
    requires Admissible(cfg, routes[omega[ia]], routes[omega[ib]], cutA, cutB)
    ensures var a, b := routes[omega[ia]], routes[omega[ib]];
            var c := Candidates(cfg, a, b, cutA, cutB);
            var r := Apply(routes, omega, ia, ib, c.0, c.1);
            && WellFormed(cfg, clients, r.0)
            && IsIndexPerm(r.1, |r.0|)
            && TotalCost(r.0) == TotalCost(routes) + Delta(cfg, a, b, cutA, cutB)
            && ((|c.0.nodes| == 0 || |c.1.nodes| == 0) ==>
                  |r.0| == |routes| - 1 && r.2 == 0 && r.3 == 0 &&
                  r.0[r.1[0]] == (if |c.0.nodes| == 0 then c.1 else c.0))
            && ((|c.0.nodes| > 0 && |c.1.nodes| > 0) ==>
                  |r.0| == |routes| && r.2 == 0 && r.3 == 1 && r.0[r.1[0]] == c.0 && r.0[r.1[1]] == c.1)
  {
    var a, b := routes[omega[ia]], routes[omega[ib]];
    var c := Candidates(cfg, a, b, cutA, cutB);
    if |c.0.nodes| == 0 || |c.1.nodes| == 0 {
      ApplyMerge(cfg, clients, routes, omega, ia, ib, c.0, c.1);
    } else {
      ExchangeKeepsSolution(cfg, clients, routes, omega, ia, ib, c.0, c.1);
    }
  }

  // ---------------------------------------------------------------------
  // The crossover pass
  // ---------------------------------------------------------------------

  /** Every pair of order positions p < q scanned before (ia, ib) admits no
      improving crossover. */
  ghost predicate PairsScanned(cfg: Config, routes: seq<Route>, order: seq<nat>, ia: nat, ib: nat)
    requires Below(order, |routes|)
  {
    forall p, q :: 0 <= p < q < |order| && (p < ia || (p == ia && q < ib)) ==>
      NoImprovingCrossover(cfg, routes[order[p]], routes[order[q]])
  }

  /** No two routes, taken in the given order, admit an improving crossover. */
  ghost predicate CrossoverOptimal(cfg: Config, routes: seq<Route>, order: seq<nat>)
    requires Below(order, |routes|)
  {
    forall p, q :: 0 <= p < q < |order| ==> NoImprovingCrossover(cfg, routes[order[p]], routes[order[q]])
  }

  lemma PairScanned(cfg: Config, routes: seq<Route>, order: seq<nat>, ia: nat, ib: nat)
    requires Below(order, |routes|) && ia < ib < |order| && PairsScanned(cfg, routes, order, ia, ib)
    requires NoImprovingCrossover(cfg, routes[order[ia]], routes[order[ib]])
    ensures PairsScanned(cfg, routes, order, ia, ib + 1)
  {
    forall p, q | 0 <= p < q < |order| && (p < ia || (p == ia && q < ib + 1))
      ensures NoImprovingCrossover(cfg, routes[order[p]], routes[order[q]])
    {
      if p != ia || q != ib {
        assert p < ia || (p == ia && q < ib);
      }
    }
  }

  lemma PairRowScanned(cfg: Config, routes: seq<Route>, order: seq<nat>, ia: nat, ib: nat)
    requires Below(order, |routes|) && |order| <= ib && PairsScanned(cfg, routes, order, ia, ib)
    ensures PairsScanned(cfg, routes, order, ia + 1, ia + 2)
  {
  }

  lemma PairsComplete(cfg: Config, routes: seq<Route>, order: seq<nat>, ia: nat, ib: nat)
    requires Below(order, |routes|) && |order| <= ia && PairsScanned(cfg, routes, order, ia, ib)
    ensures CrossoverOptimal(cfg, routes, order)
  {
  }

  /** The accepting branch of `performCrossover`: apply the best cut pair
      of the routes at order positions ia < ib. The result keeps the pass's
      loop invariant and lowers the termination rank. */
  method Accept(cfg: Config, clients: seq<Node>, initial: seq<Route>, routes: seq<Route>, omega: seq<nat>,
                ia: nat, ib: nat, cutA: nat, cutB: nat)
    returns (next: seq<Route>, nextOmega: seq<nat>, nextA: nat, nextB: nat)
    requires ValidConfig(cfg) && WellFormed(cfg, clients, routes) && IsIndexPerm(omega, |routes|) && ia < ib < |omega|
    requires |routes| <= |initial| && TotalCost(routes) <= TotalCost(initial)
    requires cutA <= |routes[omega[ia]].nodes| && cutB <= |routes[omega[ib]].nodes|
    requires Admissible(cfg, routes[omega[ia]], routes[omega[ib]], cutA, cutB)
    requires Delta(cfg, routes[omega[ia]], routes[omega[ib]], cutA, cutB) < -CostTolerance
    ensures IsIndexPerm(nextOmega, |next|) && nextA <= nextB < |nextOmega|
    ensures WellFormed(cfg, clients, next) && |next| <= |initial|
    ensures 0.0 <= TotalCost(next) == TotalCost(routes) + Delta(cfg, routes[omega[ia]], routes[omega[ib]], cutA, cutB)
    ensures TotalCost(next) < TotalCost(initial) - CostTolerance
    ensures Rank(TotalCost(next)) < Rank(TotalCost(routes))
  {
    var c := Candidates(cfg, routes[omega[ia]], routes[omega[ib]], cutA, cutB);
    ApplyKeepsSolution(cfg, clients, routes, omega, ia, ib, cutA, cutB);
    var r := Apply(routes, omega, ia, ib, c.0, c.1);
    next, nextOmega, nextA, nextB := r.0, r.1, r.2, r.3;
    WellFormedCostNonNegative(cfg, clients, next);
    RankDecreases(TotalCost(routes), TotalCost(next));
  }

  /** `performCrossover`, for a given shuffle of the route positions. */
  method PerformCrossover(cfg: Config, clients: seq<Node>, routes: seq<Route>, order: seq<nat>)
    returns (result: seq<Route>, improved: bool)
    requires ValidConfig(cfg) && WellFormed(cfg, clients, routes) && IsIndexPerm(order, |routes|)
    ensures WellFormed(cfg, clients, result) && |result| <= |routes|
    ensures TotalCost(result) <= TotalCost(routes)
    ensures improved ==> TotalCost(result) < TotalCost(routes) - CostTolerance
    ensures !improved ==> result == routes && CrossoverOptimal(cfg, routes, order)
  {
    result, improved := routes, false;
    var omega: seq<nat> := order;
    var ia: nat, ib: nat := 0, 1;
    WellFormedCostNonNegative(cfg, clients, routes);
    while ia < |omega|
      invariant IsIndexPerm(omega, |result|) && ia < ib <= |omega| + 1
      invariant WellFormed(cfg, clients, result) && |result| <= |routes|
      invariant 0.0 <= TotalCost(result) <= TotalCost(routes)
      invariant improved ==> TotalCost(result) < TotalCost(routes) - CostTolerance
      invariant !improved ==> result == routes && omega == order && PairsScanned(cfg, routes, order, ia, ib)
      decreases Rank(TotalCost(result)), |omega| - ia, |omega| + 1 - ib
    {
      if ib < |omega| {
        var a, b := result[omega[ia]], result[omega[ib]];
        var found, cutA, cutB, delta := BestCrossover(cfg, a, b);
        if found {
          result, omega, ia, ib := Accept(cfg, clients, routes, result, omega, ia, ib, cutA, cutB);
          improved := true;
        } else if !improved {
          PairScanned(cfg, routes, order, ia, ib);
        }
        ib := ib + 1;
      } else {
        if !improved {
          PairRowScanned(cfg, routes, order, ia, ib);
        }
        ia := ia + 1;
        ib := ia + 1;
      }
    }
    if !improved {
      PairsComplete(cfg, routes, order, ia, ib);
    }
  }
}
