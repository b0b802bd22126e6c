/** The variable-depth neighbourhood search: starting from the greedy
    solution, each iteration picks a clique of clients, restricts the MIP to
    the links around the clique and the best incumbents, and feeds the
    solver's solutions through the local search. This module holds the
    bookkeeping of that loop; the MIP solver is a function parameter and
    the clock is a sequence of readings. Random draws come from a stream
    parameter: draw number t, taken with bound b, yields random(t) % b. */
module Vdns {
  import opened Common
  import opened Instance
  import opened Links
  import opened Routes
  import opened Solutions
  import opened Shuffling
  import opened Moves
  import LocalSearch
  import Greedy

  const MinCliqueSize: int := 4
  const MaxSolutionsToBuildClique: nat := 5
  /** A solver gap at or below one percent lets the clique grow. */
  const GapThreshold: real := 0.01
  /** `Random.nextDouble` draws 53 random bits and scales them into [0, 1). */
  const DoubleScale: nat := 0x20_0000_0000_0000

  // ---------------------------------------------------------------------
  // Clique size feedback and the per-iteration time limit.
  // ---------------------------------------------------------------------

  /** The clique-size update of each iteration: one larger after a solver
      gap within the threshold, one smaller otherwise, clamped to
      [MIN_CLIQUE_SIZE, MAX_CLIQUE_SIZE]. */
  function NextCliqueSize(size: int, gap: real, maxSize: int): (r: int)
    ensures MinCliqueSize <= size <= maxSize ==> MinCliqueSize <= r <= maxSize
    ensures gap <= GapThreshold && size < maxSize ==> r == size + 1
    ensures gap <= GapThreshold && size >= maxSize ==> r == maxSize
    ensures gap > GapThreshold && size > MinCliqueSize ==> r == size - 1
    ensures gap > GapThreshold && size <= MinCliqueSize ==> r == MinCliqueSize
  {
    if gap <= GapThreshold then
      (if size + 1 < maxSize then size + 1 else maxSize)
    else
      (if size - 1 > MinCliqueSize then size - 1 else MinCliqueSize)
  }

  /** The solver's time limit: the subproblem limit, cut to what is left of
      the overall limit. The clock is read once for the test and once more
      for the remainder. */
  function TimeLimit(firstReading: real, secondReading: real, subproblemTimeLimit: real, solverTimeLimit: real): (r: real)
    ensures firstReading <= secondReading ==> r <= subproblemTimeLimit && r <= solverTimeLimit - firstReading
    ensures firstReading == secondReading ==>
            r == if subproblemTimeLimit <= solverTimeLimit - firstReading then subproblemTimeLimit
                 else solverTimeLimit - firstReading
  {
    if firstReading + subproblemTimeLimit <= solverTimeLimit then subproblemTimeLimit
    else solverTimeLimit - secondReading
  }

  // ---------------------------------------------------------------------
  // `selectNodeByDistance`: a roulette wheel weighted by closeness.
  // ---------------------------------------------------------------------

  /** The weight of a candidate: the inverse of its distance from the base
      node, shifted by 0.01. */
  function Weight(cfg: Config, base: Node, n: Node): (w: real)
    requires ValidConfig(cfg)
    ensures w > 0.0
  {
    assert cfg.dist(base.id, n.id) >= 0.0;
    1.0 / (cfg.dist(base.id, n.id) + 0.01)
  }

  function TotalWeight(cfg: Config, base: Node, s: seq<Node>): (w: real)
    requires ValidConfig(cfg)
    ensures |s| > 0 ==> w > 0.0
    ensures |s| == 0 ==> w == 0.0
  {
    if |s| == 0 then 0.0 else TotalWeight(cfg, base, s[..|s| - 1]) + Weight(cfg, base, s[|s| - 1])
  }

  /** The running sum of normalised weights: the key under which the source
      files the candidate at position i - 1. */
  function Cumulative(cfg: Config, base: Node, s: seq<Node>, i: nat): real
    requires ValidConfig(cfg) && 0 < |s| && i <= |s|
  {
    if i == 0 then 0.0 else Cumulative(cfg, base, s, i - 1) + Weight(cfg, base, s[i - 1]) / TotalWeight(cfg, base, s)
  }

  /** The running sum is the weight of the prefix over the total weight; in
      particular the keys strictly increase and the last one is 1. */
  lemma {:induction false} CumulativeIsShare(cfg: Config, base: Node, s: seq<Node>, i: nat)
    requires ValidConfig(cfg) && 0 < |s| && i <= |s|
    ensures Cumulative(cfg, base, s, i) == TotalWeight(cfg, base, s[..i]) / TotalWeight(cfg, base, s)
  {
    var total := TotalWeight(cfg, base, s);
    if i > 0 {
      CumulativeIsShare(cfg, base, s, i - 1);
      assert s[..i][..i - 1] == s[..i - 1];
      var a, w := TotalWeight(cfg, base, s[..i - 1]), Weight(cfg, base, s[i - 1]);
      assert TotalWeight(cfg, base, s[..i]) == a + w;
      SharesAdd(a, w, total);
    } else {
      assert s[..0] == [];
    }
  }

  lemma SharesAdd(a: real, w: real, total: real)
    requires total > 0.0
    ensures a / total + w / total == (a + w) / total
  {
  }

  lemma CumulativeEnds(cfg: Config, base: Node, s: seq<Node>)
    requires ValidConfig(cfg) && 0 < |s|
    ensures Cumulative(cfg, base, s, |s|) == 1.0
  {
    CumulativeIsShare(cfg, base, s, |s|);
    assert s[..|s|] == s;
  }

  /** `ceilingEntry(u)` from position k on: the first key at or above u. */
  function FirstReaching(cfg: Config, base: Node, s: seq<Node>, u: real, k: nat): (i: nat)
    requires ValidConfig(cfg) && k < |s| && u <= Cumulative(cfg, base, s, |s|)
    ensures k <= i < |s| && u <= Cumulative(cfg, base, s, i + 1)
    ensures forall j :: k < j <= i ==> Cumulative(cfg, base, s, j) < u
    decreases |s| - k
  {
    if u <= Cumulative(cfg, base, s, k + 1) || k == |s| - 1 then k
    else FirstReaching(cfg, base, s, u, k + 1)
  }

  /** `selectNodeByDistance` for a uniform draw u in [0, 1): the candidate
      whose slice [Cumulative(i), Cumulative(i + 1)] of the unit interval,
      as wide as its normalised weight, is the first to reach u. */
  function SelectByDistance(cfg: Config, candidates: seq<Node>, base: Node, u: real): (i: nat)
    requires ValidConfig(cfg) && |candidates| > 0 && 0.0 <= u < 1.0
    ensures i < |candidates|
    ensures (i == 0 || Cumulative(cfg, base, candidates, i) < u) && u <= Cumulative(cfg, base, candidates, i + 1)
    ensures Cumulative(cfg, base, candidates, i + 1) - Cumulative(cfg, base, candidates, i) ==
            Weight(cfg, base, candidates[i]) / TotalWeight(cfg, base, candidates)
  {
    CumulativeEnds(cfg, base, candidates);
    FirstReaching(cfg, base, candidates, u, 0)
  }

  /** `Random.nextDouble()` for draw number t. */
  function UniformDraw(random: nat -> nat, t: nat): (u: real)
    ensures 0.0 <= u < 1.0
  {
    (random(t) % DoubleScale) as real / DoubleScale as real
  }

  // ---------------------------------------------------------------------
  // `buildClique`.
  // ---------------------------------------------------------------------

  /** `List.remove(Object)`: the first occurrence of x, if any, is dropped. */
  function RemoveValue(s: seq<Node>, x: Node): (r: seq<Node>)
    ensures |r| == if x in s then |s| - 1 else |s|
    ensures multiset(r) == multiset(s) - multiset{x}
  {
    if x in s then
      var i := IndexOf(s, x);
      RemoveAt(s, i)
    else
      assert multiset(s)[x] == 0;
      s
  }

  /** Removing a value from a sequence without repeats removes exactly it. */
  lemma RemoveValueDistinct(s: seq<Node>, x: Node)
    requires Distinct(s)
    ensures Distinct(RemoveValue(s, x))
    ensures forall y :: y in RemoveValue(s, x) <==> y in s && y != x
  {
    var r := RemoveValue(s, x);
    SubmultisetKeepsDistinct(s, r);
    forall y ensures y in r <==> y in s && y != x {
      assert y in r <==> y in multiset(r);
      assert y in s <==> y in multiset(s);
      DistinctCounts(s);
    }
  }

  /** The state of `buildClique` after each pick: the depot and the picked
      clients, none twice and all from the client list; `left` holds the
      clients not yet picked and `pool` the remaining pool without the
      picked ones. */
  ghost predicate Growing(cfg: Config, nodes: seq<Node>, remaining: seq<Node>,
                          clique: seq<Node>, left: seq<Node>, pool: seq<Node>)
  {
    && |clique| >= 1 && clique[0] == cfg.depot
    && Distinct(clique[1..]) && (forall k :: 1 <= k < |clique| ==> clique[k] in nodes)
    && Distinct(left) && (forall x :: x in left <==> x in nodes && x !in clique[1..])
    && |left| + |clique| == |nodes| + 1
    && Distinct(pool) && (forall x :: x in pool <==> x in remaining && x !in clique[1..])
  }

  /** Picking one more client from `left` keeps the state. */
  lemma CliqueStep(cfg: Config, nodes: seq<Node>, remaining: seq<Node>,
                   clique: seq<Node>, left: seq<Node>, pool: seq<Node>, next: Node)
    requires Growing(cfg, nodes, remaining, clique, left, pool) && next in left
    ensures Growing(cfg, nodes, remaining, clique + [next], RemoveValue(left, next), RemoveValue(pool, next))
    ensures (clique + [next])[..|clique|] == clique
  {
    RemoveValueDistinct(pool, next);
    RemoveValueDistinct(left, next);
    var grown := clique + [next];
    assert grown[1..] == clique[1..] + [next];
    assert grown[..|clique|] == clique;
    forall i, j | 0 <= i < j < |grown[1..]| ensures grown[1..][i] != grown[1..][j] {
      if j < |clique| - 1 {
        assert grown[1..][i] == clique[1..][i] && grown[1..][j] == clique[1..][j];
      } else {
        assert grown[1..][i] == clique[1..][i] && grown[1..][i] in clique[1..];
      }
    }
  }

  /** `buildClique`: the depot, a base client drawn uniformly from the
      remaining pool, then clients drawn by distance from the base until the
      clique has `cliqueSize` members. Every chosen client leaves the pool. */
  method BuildClique(cfg: Config, nodes: seq<Node>, remaining: seq<Node>, cliqueSize: int, random: nat -> nat, t0: nat)
    returns (clique: seq<Node>, pool: seq<Node>, t: nat)
    requires ValidConfig(cfg) && Distinct(nodes) && Distinct(remaining) && |remaining| > 0
    requires forall x :: x in remaining ==> x in nodes
    requires cliqueSize <= |nodes| + 1
    ensures |clique| == if cliqueSize < 2 then 2 else cliqueSize
    ensures clique[0] == cfg.depot && clique[1] in remaining
    ensures Distinct(clique[1..]) && forall k :: 1 <= k < |clique| ==> clique[k] in nodes
    ensures Distinct(pool) && forall x :: x in pool <==> x in remaining && x !in clique[1..]
    ensures t == t0 + |clique| - 1
  {
    var base := remaining[random(t0) % |remaining|];
    t := t0 + 1;
    CliqueStep(cfg, nodes, remaining, [cfg.depot], nodes, remaining, base);
    pool := RemoveValue(remaining, base);
    var left := RemoveValue(nodes, base);
    clique := [cfg.depot, base];
    while |clique| < cliqueSize
      invariant 2 <= |clique| <= if cliqueSize < 2 then 2 else cliqueSize
      invariant Growing(cfg, nodes, remaining, clique, left, pool) && clique[1] == base
      invariant t == t0 + |clique| - 1
    {
      var next := left[SelectByDistance(cfg, left, base, UniformDraw(random, t))];
      t := t + 1;
      CliqueStep(cfg, nodes, remaining, clique, left, pool, next);
      clique, left, pool := clique + [next], RemoveValue(left, next), RemoveValue(pool, next);
    }
  }

  // ---------------------------------------------------------------------
  // The incumbent pool: a TreeSet ordered (and deduplicated) by cost.
  // ---------------------------------------------------------------------

  function SolutionCost(s: Solution): real
  {
    TotalCost(s.routes)
  }

  /** TreeSet membership under the cost comparator. */
  predicate HasCost(pool: seq<Solution>, c: real)
  {
    exists x :: x in pool && SolutionCost(x) == c
  }

  /** Strictly increasing cost: the iteration order of the TreeSet, where
      two solutions of equal cost count as the same element. */
  ghost predicate CostSorted(pool: seq<Solution>)
  {
    forall i, j :: 0 <= i < j < |pool| ==> SolutionCost(pool[i]) < SolutionCost(pool[j])
  }

  /** Every solution in the pool costs more than c. */
  ghost predicate Above(c: real, pool: seq<Solution>)
  {
    forall x :: x in pool ==> c < SolutionCost(x)
  }

  lemma SortedCons(h: Solution, rest: seq<Solution>)
    requires CostSorted(rest) && Above(SolutionCost(h), rest)
    ensures CostSorted([h] + rest)
  {
    var r := [h] + rest;
    forall i, j | 0 <= i < j < |r| ensures SolutionCost(r[i]) < SolutionCost(r[j]) {
      assert r[j] == rest[j - 1];
      if i > 0 {
        assert r[i] == rest[i - 1];
      }
    }
  }

  lemma SortedTail(pool: seq<Solution>)
    requires CostSorted(pool) && |pool| > 0
    ensures CostSorted(pool[1..]) && Above(SolutionCost(pool[0]), pool[1..])
  {
    forall x | x in pool[1..] ensures SolutionCost(pool[0]) < SolutionCost(x) {
      var k :| 0 <= k < |pool[1..]| && pool[1..][k] == x;
      assert pool[k + 1] == x;
    }
  }

  /** `TreeSet.add`: the solution goes in at its cost's place, unless a
      solution of the same cost is already there. */
  function PoolAdd(pool: seq<Solution>, s: Solution): (r: seq<Solution>)
    requires CostSorted(pool)
    ensures CostSorted(r)
    ensures forall x :: x in r ==> x in pool || x == s
  {
    if |pool| == 0 then [s]
    else
      SortedTail(pool);
      if SolutionCost(s) < SolutionCost(pool[0]) then
        SortedCons(s, pool);
        [s] + pool
      else if SolutionCost(s) == SolutionCost(pool[0]) then pool
      else
        var rest := PoolAdd(pool[1..], s);
        SortedCons(pool[0], rest);
        [pool[0]] + rest
  }

  /** What the add does to the pool's contents: nothing when the cost is
      already present, otherwise exactly one more solution. */
  lemma PoolAddContents(pool: seq<Solution>, s: Solution)
    requires CostSorted(pool)
    ensures HasCost(pool, SolutionCost(s)) ==> PoolAdd(pool, s) == pool
    ensures !HasCost(pool, SolutionCost(s)) ==> multiset(PoolAdd(pool, s)) == multiset(pool) + multiset{s}
    ensures forall x :: x in pool ==> x in PoolAdd(pool, s)
  {
    var r := PoolAdd(pool, s);
    if HasCost(pool, SolutionCost(s)) {
      PoolAddPresent(pool, s);
    } else {
      PoolAddNew(pool, s);
      forall x | x in pool ensures x in r {
        assert multiset(pool)[x] > 0;
        assert multiset(r)[x] > 0;
      }
    }
  }

  lemma {:induction false} PoolAddPresent(pool: seq<Solution>, s: Solution)
    requires CostSorted(pool) && HasCost(pool, SolutionCost(s))
    ensures PoolAdd(pool, s) == pool
  {
    SortedTail(pool);
    var x :| x in pool && SolutionCost(x) == SolutionCost(s);
    var i :| 0 <= i < |pool| && pool[i] == x;
    assert i == 0 || SolutionCost(pool[0]) < SolutionCost(pool[i]);
    if SolutionCost(s) != SolutionCost(pool[0]) {
      assert pool[1..][i - 1] == x;
      PoolAddPresent(pool[1..], s);
      HeadTail(pool);
    }
  }

  lemma {:induction false} PoolAddNew(pool: seq<Solution>, s: Solution)
    requires CostSorted(pool) && !HasCost(pool, SolutionCost(s))
    ensures multiset(PoolAdd(pool, s)) == multiset(pool) + multiset{s}
  {
    if |pool| > 0 {
      SortedTail(pool);
      HeadTail(pool);
      assert SolutionCost(s) != SolutionCost(pool[0]);
      if SolutionCost(s) > SolutionCost(pool[0]) {
        assert !HasCost(pool[1..], SolutionCost(s)) by {
          forall x | x in pool[1..] ensures SolutionCost(x) != SolutionCost(s) {
            assert x in pool;
          }
        }
        PoolAddNew(pool[1..], s);
      }
    }
  }

  /** `solutionsFromCplex.removeAll(allCurrentSolutions)`: membership in a
      TreeSet is decided by its comparator, so every solution whose cost
      some pool member has is dropped. */
  function RemoveByCost(candidates: seq<Solution>, pool: seq<Solution>): (r: seq<Solution>)
    ensures |r| <= |candidates|
    ensures forall x :: x in r <==> x in candidates && !HasCost(pool, SolutionCost(x))
  {
    if |candidates| == 0 then []
    else
      var rest := RemoveByCost(candidates[1..], pool);
      assert forall x :: x in candidates <==> x == candidates[0] || x in candidates[1..];
      if HasCost(pool, SolutionCost(candidates[0])) then rest else [candidates[0]] + rest
  }

  // ---------------------------------------------------------------------
  // `buildSubproblemLinks`.
  // ---------------------------------------------------------------------

  /** The incumbents the subproblem is built around: the first
      min(|pool|, MAX_SOLUTION_TO_BUILD_CLIQUE) of the pool, which are its
      cheapest. */
  function Top(pool: seq<Solution>): (top: seq<Solution>)
    ensures |top| == if |pool| < MaxSolutionsToBuildClique then |pool| else MaxSolutionsToBuildClique
    ensures CostSorted(pool) ==>
              forall i, j :: 0 <= i < |top| <= j < |pool| ==> SolutionCost(top[i]) < SolutionCost(pool[j])
  {
    pool[..if |pool| < MaxSolutionsToBuildClique then |pool| else MaxSolutionsToBuildClique]
  }

  /** The node before position n of a route, the depot for the first client
      (as the source decides it: by equality with the first client). */
  function Predecessor(cfg: Config, nodes: seq<Node>, n: nat): Node
    requires n < |nodes|
  {
    if nodes[n] == nodes[0] then cfg.depot else nodes[n - 1]
  }

  /** The node after position n of a route, the depot for the last client. */
  function Successor(cfg: Config, nodes: seq<Node>, n: nat): Node
    requires n < |nodes|
  {
    if nodes[n] == nodes[|nodes| - 1] then cfg.depot else nodes[n + 1]
  }

  /** The neighbours the incumbents give the clique: the node before and the
      node after every visit of a clique member. */
  function Incoming(cfg: Config, clique: seq<Node>, sols: seq<Solution>): set<Node>
  {
    set s, r, n | s in sols && r in s.routes && 0 <= n < |r.nodes| && r.nodes[n] in clique :: Predecessor(cfg, r.nodes, n)
  }

  function Outgoing(cfg: Config, clique: seq<Node>, sols: seq<Solution>): set<Node>
  {
    set s, r, n | s in sols && r in s.routes && 0 <= n < |r.nodes| && r.nodes[n] in clique :: Successor(cfg, r.nodes, n)
  }

  /** Every link of every route of the given solutions. */
  function SolutionLinks(sols: seq<Solution>): set<Link>
  {
    set s, r, l | s in sols && r in s.routes && l in r.links :: l
  }

  /** The links between two node sets, skipping pairs with equal ids. */
  function Across(cfg: Config, from: set<Node>, to: set<Node>): set<Link>
  {
    set a, b | a in from && b in to && a.id != b.id :: LinkOf(cfg, a, b)
  }

  function Members(clique: seq<Node>): set<Node>
  {
    set c | c in clique
  }

  /** No link of the solution's routes starts and ends at the same node. */
  ghost predicate LoopFree(s: Solution)
  {
    forall r, l :: r in s.routes && l in r.links ==> l.origin.id != l.destiny.id
  }

  ghost predicate DistinctIds(s: seq<Node>)
  {
    forall i, j :: 0 <= i < j < |s| ==> s[i].id != s[j].id
  }

  /** l joins two different positions of the clique. */
  ghost predicate CliqueLink(cfg: Config, clique: seq<Node>, l: Link)
  {
    exists a, b :: 0 <= a < |clique| && 0 <= b < |clique| && a != b && l == LinkOf(cfg, clique[a], clique[b])
  }

  /** Both directions between every two clique positions of which one is
      below i are in links. */
  ghost predicate PairsBelow(cfg: Config, clique: seq<Node>, links: set<Link>, i: int)
  {
    forall a, b :: 0 <= a < |clique| && 0 <= b < |clique| && a != b && (a < i || b < i) ==> LinkOf(cfg, clique[a], clique[b]) in links
  }

  ghost predicate OnlyCliqueLinks(cfg: Config, clique: seq<Node>, links: set<Link>)
  {
    forall l :: l in links ==> CliqueLink(cfg, clique, l)
  }

  /** Both directions between position i and every position in (i, j). */
  ghost predicate RowUpTo(cfg: Config, clique: seq<Node>, links: set<Link>, i: nat, j: nat)
    requires i < |clique| && j <= |clique|
  {
    forall b :: i < b < j ==> LinkOf(cfg, clique[i], clique[b]) in links && LinkOf(cfg, clique[b], clique[i]) in links
  }

  /** Adding the pair (i, j) keeps what the row loop has and extends the
      row by one. */
  lemma RowStep(cfg: Config, clique: seq<Node>, links: set<Link>, i: nat, j: nat)
    requires i < j < |clique|
    requires PairsBelow(cfg, clique, links, i) && OnlyCliqueLinks(cfg, clique, links) && RowUpTo(cfg, clique, links, i, j)
    ensures var more := links + {LinkOf(cfg, clique[i], clique[j]), LinkOf(cfg, clique[j], clique[i])};
            PairsBelow(cfg, clique, more, i) && OnlyCliqueLinks(cfg, clique, more) && RowUpTo(cfg, clique, more, i, j + 1)
  {
    assert CliqueLink(cfg, clique, LinkOf(cfg, clique[i], clique[j]));
    assert CliqueLink(cfg, clique, LinkOf(cfg, clique[j], clique[i]));
  }

  lemma RowDone(cfg: Config, clique: seq<Node>, links: set<Link>, i: nat)
    requires i < |clique| && PairsBelow(cfg, clique, links, i) && RowUpTo(cfg, clique, links, i, |clique|)
    ensures PairsBelow(cfg, clique, links, i + 1)
  {
    forall a, b | 0 <= a < |clique| && 0 <= b < |clique| && a != b && (a < i + 1 || b < i + 1)
      ensures LinkOf(cfg, clique[a], clique[b]) in links
    {
      if a != i && b != i {
        assert a < i || b < i;
      } else if a == i {
        assert b < i || i < b;
      } else {
        assert a < i || i < a;
      }
    }
  }

  /** One pass of the inner clique loop: both directions between position
      i and every later position. */
  method CliqueRow(cfg: Config, clique: seq<Node>, links0: set<Link>, i: nat) returns (links: set<Link>)
    requires i < |clique| && PairsBelow(cfg, clique, links0, i) && OnlyCliqueLinks(cfg, clique, links0)
    ensures PairsBelow(cfg, clique, links, i + 1) && OnlyCliqueLinks(cfg, clique, links)
  {
    links := links0;
    var j := i + 1;
    while j < |clique|
      invariant i + 1 <= j <= |clique|
      invariant PairsBelow(cfg, clique, links, i) && OnlyCliqueLinks(cfg, clique, links) && RowUpTo(cfg, clique, links, i, j)
    {
      RowStep(cfg, clique, links, i, j);
      links := links + {LinkOf(cfg, clique[i], clique[j]), LinkOf(cfg, clique[j], clique[i])};
      j := j + 1;
    }
    RowDone(cfg, clique, links, i);
  }

  /** The clique-to-clique loop: both directions between every two clique
      positions. */
  method CliquePairs(cfg: Config, clique: seq<Node>) returns (links: set<Link>)
    ensures forall i, j :: 0 <= i < |clique| && 0 <= j < |clique| && i != j ==> LinkOf(cfg, clique[i], clique[j]) in links
    ensures forall l :: l in links ==> CliqueLink(cfg, clique, l)
  {
    links := {};
    var i := 0;
    while i < |clique|
      invariant i <= |clique|
      invariant PairsBelow(cfg, clique, links, i) && OnlyCliqueLinks(cfg, clique, links)
    {
      links := CliqueRow(cfg, clique, links, i);
      i := i + 1;
    }
  }

  /** The three cross-link families reach from every incumbent neighbour of
      a clique member. */
  lemma NeighbourLinks(cfg: Config, clique: seq<Node>, top: seq<Solution>, links: set<Link>)
    requires Across(cfg, Incoming(cfg, clique, top), Members(clique)) <= links
    requires Across(cfg, Members(clique), Outgoing(cfg, clique, top)) <= links
    ensures forall s, r, n, c :: s in top && r in s.routes && 0 <= n < |r.nodes| && r.nodes[n] in clique && c in clique ==>
              (Predecessor(cfg, r.nodes, n).id != c.id ==> LinkOf(cfg, Predecessor(cfg, r.nodes, n), c) in links) &&
              (Successor(cfg, r.nodes, n).id != c.id ==> LinkOf(cfg, c, Successor(cfg, r.nodes, n)) in links)
  {
    forall s, r, n, c | s in top && r in s.routes && 0 <= n < |r.nodes| && r.nodes[n] in clique && c in clique
      ensures Predecessor(cfg, r.nodes, n).id != c.id ==> LinkOf(cfg, Predecessor(cfg, r.nodes, n), c) in links
      ensures Successor(cfg, r.nodes, n).id != c.id ==> LinkOf(cfg, c, Successor(cfg, r.nodes, n)) in links
    {
      assert Predecessor(cfg, r.nodes, n) in Incoming(cfg, clique, top);
      assert Successor(cfg, r.nodes, n) in Outgoing(cfg, clique, top);
    }
  }

  /** A cross link joins its two sets and never loops. */
  lemma AcrossShape(cfg: Config, from: set<Node>, to: set<Node>)
    ensures forall l :: l in Across(cfg, from, to) ==>
              l == LinkOf(cfg, l.origin, l.destiny) && l.origin in from && l.destiny in to && l.origin.id != l.destiny.id
  {
  }

  /** Each link of the union of the four families is an incumbent link or
      joins the clique's surroundings. */
  lemma LinksShape(cfg: Config, clique: seq<Node>, top: seq<Solution>, pairs: set<Link>, links: set<Link>)
    requires forall l :: l in pairs ==> CliqueLink(cfg, clique, l)
    requires links == SolutionLinks(top) + pairs
                      + Across(cfg, Incoming(cfg, clique, top), Members(clique))
                      + Across(cfg, Members(clique), Outgoing(cfg, clique, top))
                      + Across(cfg, Incoming(cfg, clique, top), Outgoing(cfg, clique, top))
    ensures forall l :: l in links ==>
              l in SolutionLinks(top) ||
              (l == LinkOf(cfg, l.origin, l.destiny) &&
               (l.origin in clique || l.origin in Incoming(cfg, clique, top)) &&
               (l.destiny in clique || l.destiny in Outgoing(cfg, clique, top)))
  {
    var incoming, outgoing := Incoming(cfg, clique, top), Outgoing(cfg, clique, top);
    AcrossShape(cfg, incoming, Members(clique));
    AcrossShape(cfg, Members(clique), outgoing);
    AcrossShape(cfg, incoming, outgoing);
    forall l | l in pairs
      ensures l == LinkOf(cfg, l.origin, l.destiny) && l.origin in clique && l.destiny in clique
    {
      var i, j :| 0 <= i < |clique| && 0 <= j < |clique| && i != j && l == LinkOf(cfg, clique[i], clique[j]);
    }
  }

  /** None of the links loops when the incumbents' links do not and the
      clique's ids differ. */
  lemma LinksLoopFree(cfg: Config, clique: seq<Node>, top: seq<Solution>, pairs: set<Link>, links: set<Link>)
    requires forall l :: l in pairs ==> CliqueLink(cfg, clique, l)
    requires links == SolutionLinks(top) + pairs
                      + Across(cfg, Incoming(cfg, clique, top), Members(clique))
                      + Across(cfg, Members(clique), Outgoing(cfg, clique, top))
                      + Across(cfg, Incoming(cfg, clique, top), Outgoing(cfg, clique, top))
    requires (forall s :: s in top ==> LoopFree(s)) && DistinctIds(clique)
    ensures forall l :: l in links ==> l.origin.id != l.destiny.id
  {
    var incoming, outgoing := Incoming(cfg, clique, top), Outgoing(cfg, clique, top);
    AcrossShape(cfg, incoming, Members(clique));
    AcrossShape(cfg, Members(clique), outgoing);
    AcrossShape(cfg, incoming, outgoing);
    forall l | l in pairs ensures l.origin.id != l.destiny.id {
      var i, j :| 0 <= i < |clique| && 0 <= j < |clique| && i != j && l == LinkOf(cfg, clique[i], clique[j]);
      assert i < j || j < i;
    }
    forall l | l in SolutionLinks(top) ensures l.origin.id != l.destiny.id {
      var s, r :| s in top && r in s.routes && l in r.links;
      assert LoopFree(s);
    }
  }

  /** `buildSubproblemLinks`: the links of the cheapest incumbents, both
      directions between clique members, and the links from the clique's
      incumbent predecessors into the clique, from the clique to its
      incumbent successors and from those predecessors to those successors,
      skipping pairs with equal ids. */
  method BuildSubproblemLinks(cfg: Config, clique: seq<Node>, pool: seq<Solution>) returns (links: set<Link>)
    ensures forall s, r, l :: s in Top(pool) && r in s.routes && l in r.links ==> l in links
    ensures forall i, j :: 0 <= i < |clique| && 0 <= j < |clique| && i != j ==> LinkOf(cfg, clique[i], clique[j]) in links
    ensures forall s, r, n, c :: s in Top(pool) && r in s.routes && 0 <= n < |r.nodes| && r.nodes[n] in clique && c in clique ==>
              (Predecessor(cfg, r.nodes, n).id != c.id ==> LinkOf(cfg, Predecessor(cfg, r.nodes, n), c) in links) &&
              (Successor(cfg, r.nodes, n).id != c.id ==> LinkOf(cfg, c, Successor(cfg, r.nodes, n)) in links)
    ensures forall a, b :: a in Incoming(cfg, clique, Top(pool)) && b in Outgoing(cfg, clique, Top(pool)) && a.id != b.id ==>
              LinkOf(cfg, a, b) in links
    ensures forall l :: l in links ==>
              l in SolutionLinks(Top(pool)) ||
              (l == LinkOf(cfg, l.origin, l.destiny) &&
               (l.origin in clique || l.origin in Incoming(cfg, clique, Top(pool))) &&
               (l.destiny in clique || l.destiny in Outgoing(cfg, clique, Top(pool))))
    ensures (forall s :: s in Top(pool) ==> LoopFree(s)) && DistinctIds(clique) ==>
              forall l :: l in links ==> l.origin.id != l.destiny.id
  {
    var top := Top(pool);
    var incoming, outgoing := Incoming(cfg, clique, top), Outgoing(cfg, clique, top);
    var members := Members(clique);
    var pairs := CliquePairs(cfg, clique);
    links := SolutionLinks(top) + pairs + Across(cfg, incoming, members) + Across(cfg, members, outgoing)
             + Across(cfg, incoming, outgoing);
    NeighbourLinks(cfg, clique, top, links);
    LinksShape(cfg, clique, top, pairs, links);
    if (forall s :: s in top ==> LoopFree(s)) && DistinctIds(clique) {
      LinksLoopFree(cfg, clique, top, pairs, links);
    }
  }

  // ---------------------------------------------------------------------
  // Incumbents never hold a self-loop.
  // ---------------------------------------------------------------------

  /** Client ids are distinct, so the client nodes are. */
  lemma ValidClientsDistinct(clients: seq<Node>)
    requires ValidClients(clients)
    ensures Distinct(clients)
  {
  }

  /** Two neighbours in a route visiting each client at most once have
      different ids, and no client has the depot's id. */
  lemma NeighbourIds(clients: seq<Node>, nodes: seq<Node>, k: nat)
    requires ValidClients(clients) && multiset(nodes) <= multiset(clients)
    requires 0 < k < |nodes|
    ensures nodes[k - 1].id != nodes[k].id
  {
    ValidClientsDistinct(clients);
    SubmultisetKeepsDistinct(clients, nodes);
    assert nodes[k - 1] in multiset(clients) && nodes[k] in multiset(clients);
    var p :| 0 <= p < |clients| && clients[p] == nodes[k - 1];
    var q :| 0 <= q < |clients| && clients[q] == nodes[k];
    assert p < q || q < p || p == q;
  }

  lemma ClientIdNotDepot(clients: seq<Node>, nodes: seq<Node>, k: nat)
    requires ValidClients(clients) && multiset(nodes) <= multiset(clients)
    requires k < |nodes|
    ensures nodes[k].id != 0
  {
    assert nodes[k] in multiset(clients);
    var p :| 0 <= p < |clients| && clients[p] == nodes[k];
  }

  /** A settled route over distinct clients never links a node to itself. */
  lemma RouteLoopFree(cfg: Config, clients: seq<Node>, r: Route)
    requires ValidConfig(cfg) && ValidClients(clients)
    requires Settled(cfg, r) && multiset(r.nodes) <= multiset(clients)
    ensures forall l :: l in r.links ==> l.origin.id != l.destiny.id
  {
    EvaluateCourses(cfg, r.nodes);
    forall l | l in r.links ensures l.origin.id != l.destiny.id {
      var k :| 0 <= k < |r.links| && r.links[k] == l;
      assert l == LinkAt(cfg, r.nodes, k);
      if k == 0 {
        ClientIdNotDepot(clients, r.nodes, 0);
      } else if k == |r.nodes| {
        ClientIdNotDepot(clients, r.nodes, k - 1);
      } else {
        NeighbourIds(clients, r.nodes, k);
      }
    }
  }

  /** A well-formed solution over valid clients is loop-free, so a
      subproblem built around well-formed incumbents with a clique of
      distinct ids never offers the solver a self-loop. */
  lemma SolutionLoopFree(cfg: Config, clients: seq<Node>, s: Solution)
    requires ValidConfig(cfg) && ValidClients(clients) && WellFormed(cfg, clients, s.routes)
    ensures LoopFree(s)
  {
    forall r | r in s.routes ensures forall l :: l in r.links ==> l.origin.id != l.destiny.id {
      var i :| 0 <= i < |s.routes| && s.routes[i] == r;
      ClientsRemove(s.routes, i);
      RouteLoopFree(cfg, clients, r);
    }
  }

  // ---------------------------------------------------------------------
  // The incumbent and its bookkeeping.
  // ---------------------------------------------------------------------

  /** The fields of the search object the main loop reads and writes. */
  datatype SearchState = SearchState(
    best: Solution,
    cliqueSize: int,
    timeToBest: real,
    iterationCounter: nat,
    iterationToBest: nat,
    improvementCount: nat)

  /** The acceptance test of `checkNewSolution` and
      `createAndCheckNewLocalSearchSolution`: cheaper than the incumbent by
      more than COST_TOLERANCE. */
  predicate Adopts(st: SearchState, candidate: Solution)
  {
    SolutionCost(candidate) < SolutionCost(st.best) - CostTolerance
  }

  /** Every adoption since st0 lowered the incumbent's cost by more than the
      tolerance. */
  ghost predicate Progress(st0: SearchState, st: SearchState)
  {
    && st0.improvementCount <= st.improvementCount
    && SolutionCost(st.best) <= SolutionCost(st0.best) - CostTolerance * (st.improvementCount - st0.improvementCount) as real
  }

  lemma ProgressTransitive(a: SearchState, b: SearchState, c: SearchState)
    requires Progress(a, b) && Progress(b, c)
    ensures Progress(a, c)
  {
  }

  /** Offering a candidate: on adoption it becomes the incumbent, the
      improvement count goes up by one and the time and iteration of the
      best are stamped with the given clock reading and the current
      iteration. */
  function Offer(st: SearchState, candidate: Solution, now: real): (r: SearchState)
    ensures Adopts(st, candidate) ==>
              r.best == candidate && r.improvementCount == st.improvementCount + 1 &&
              r.timeToBest == now && r.iterationToBest == st.iterationCounter
    ensures !Adopts(st, candidate) ==> r == st
    ensures r.cliqueSize == st.cliqueSize && r.iterationCounter == st.iterationCounter
  {
    if Adopts(st, candidate) then
      st.(best := candidate, improvementCount := st.improvementCount + 1, timeToBest := now,
          iterationToBest := st.iterationCounter)
    else st
  }

  /** Every offer keeps the progress invariant. */
  lemma OfferProgress(st: SearchState, candidate: Solution, now: real)
    ensures Progress(st, Offer(st, candidate, now))
  {
  }

  /** The incumbent offered against itself is never adopted: the tolerance
      is positive. */
  lemma OfferSelfNeverAdopts(st: SearchState, now: real)
    ensures Offer(st, st.best, now) == st
  {
  }

  /** Lines 94-103 as written. `LocalSearch.run` rewrites its argument in
      place, and the argument is the very object just made the incumbent:
      afterwards the incumbent holds the searched routes, the comparison in
      `createAndCheckNewLocalSearchSolution` sets that object against
      itself, and the gap read for the clique size is the 0.0 the local
      search stamped, not the solver's. Returns the new state and the gap
      read. `searched` is what the local search makes of `cplexBest`. */
  function AdoptAsWritten(st: SearchState, cplexBest: Solution, searched: Solution, now: real, searchNow: real)
    : (r: (SearchState, real))
    ensures Adopts(st, cplexBest) ==>
              r.0.best == searched && r.0.improvementCount == st.improvementCount + 1 &&
              r.0.timeToBest == now && r.1 == searched.gap
    ensures !Adopts(st, cplexBest) ==> r.0 == st && r.1 == cplexBest.gap
    ensures Adopts(st, cplexBest) ==> r.0.iterationToBest == st.iterationCounter
    ensures r.0.cliqueSize == st.cliqueSize && r.0.iterationCounter == st.iterationCounter
  {
    if Adopts(st, cplexBest) then
      var adopted := Offer(st, cplexBest, now).(best := searched);
      OfferSelfNeverAdopts(adopted, searchNow);
      (Offer(adopted, adopted.best, searchNow), searched.gap)
    else (st, cplexBest.gap)
  }

  /** Lines 94-103 with the local search run on a copy of the adopted
      solution: the searched copy is offered against the solver's solution,
      and the clique size follows the solver's gap. */
  function Adopt(st: SearchState, cplexBest: Solution, searched: Solution, now: real, searchNow: real)
    : (r: (SearchState, real))
    ensures r.1 == cplexBest.gap
    ensures !Adopts(st, cplexBest) ==> r.0 == st
    ensures Adopts(st, cplexBest) ==>
              r.0.improvementCount ==
                st.improvementCount + (if SolutionCost(searched) < SolutionCost(cplexBest) - CostTolerance then 2 else 1)
    ensures Adopts(st, cplexBest) ==>
              (r.0.best == searched || r.0.best == cplexBest) && SolutionCost(r.0.best) <= SolutionCost(cplexBest)
    ensures r.0.cliqueSize == st.cliqueSize && r.0.iterationCounter == st.iterationCounter
    ensures Progress(st, r.0)
  {
    if Adopts(st, cplexBest) then
      var first := Offer(st, cplexBest, now);
      OfferProgress(st, cplexBest, now);
      OfferProgress(first, searched, searchNow);
      ProgressTransitive(st, first, Offer(first, searched, searchNow));
      (Offer(first, searched, searchNow), cplexBest.gap)
    else (st, cplexBest.gap)
  }

  /** As written, a local-search improvement of an adopted solver solution
      is never counted: the improvement count rises by one where the
      corrected step counts two, and the time to best keeps the solver's
      stamp. */
  lemma AsWrittenMissesSearchGain(st: SearchState, cplexBest: Solution, searched: Solution, now: real, searchNow: real)
    requires Adopts(st, cplexBest) && SolutionCost(searched) < SolutionCost(cplexBest) - CostTolerance
    ensures AdoptAsWritten(st, cplexBest, searched, now, searchNow).0.improvementCount == st.improvementCount + 1
    ensures AdoptAsWritten(st, cplexBest, searched, now, searchNow).0.timeToBest == now
    ensures Adopt(st, cplexBest, searched, now, searchNow).0.improvementCount == st.improvementCount + 2
    ensures Adopt(st, cplexBest, searched, now, searchNow).0.timeToBest == searchNow
  {
  }

  /** As written, every adopted solver solution grows the clique, whatever
      the solver's gap: the local search has already overwritten the gap
      with 0.0. With the solver's gap above the threshold the corrected step
      shrinks the clique instead. */
  lemma AsWrittenGrowsClique(st: SearchState, cplexBest: Solution, searched: Solution, now: real, searchNow: real,
                             maxSize: int)
    requires Adopts(st, cplexBest) && searched.gap == 0.0 && cplexBest.gap > GapThreshold
    requires MinCliqueSize < st.cliqueSize < maxSize
    ensures NextCliqueSize(st.cliqueSize, AdoptAsWritten(st, cplexBest, searched, now, searchNow).1, maxSize) == st.cliqueSize + 1
    ensures NextCliqueSize(st.cliqueSize, Adopt(st, cplexBest, searched, now, searchNow).1, maxSize) == st.cliqueSize - 1
  {
  }

  // ---------------------------------------------------------------------
  // The main loop.
  // ---------------------------------------------------------------------

  /** The pool is ordered by cost, holds the incumbent and only well-formed
      solutions, and none of them beats the incumbent by more than the
      tolerance. */
  ghost predicate PoolSound(cfg: Config, clients: seq<Node>, best: Solution, pool: seq<Solution>)
  {
    && WellFormed(cfg, clients, best.routes)
    && CostSorted(pool) && best in pool
    && forall x :: x in pool ==> WellFormed(cfg, clients, x.routes) && SolutionCost(best) - CostTolerance <= SolutionCost(x)
  }

  /** Adding a candidate the incumbent rejects keeps the pool sound. */
  lemma AddRejected(cfg: Config, clients: seq<Node>, best: Solution, pool: seq<Solution>, x: Solution)
    requires PoolSound(cfg, clients, best, pool) && WellFormed(cfg, clients, x.routes)
    requires SolutionCost(best) - CostTolerance <= SolutionCost(x)
    ensures PoolSound(cfg, clients, best, PoolAdd(pool, x))
  {
    PoolAddContents(pool, x);
    if !HasCost(pool, SolutionCost(x)) {
      assert best in multiset(PoolAdd(pool, x));
    }
  }

  /** Adding a new incumbent, cheaper than the old one by more than the
      tolerance, keeps the pool sound for it. */
  lemma AddImproving(cfg: Config, clients: seq<Node>, best: Solution, pool: seq<Solution>, x: Solution)
    requires PoolSound(cfg, clients, best, pool) && WellFormed(cfg, clients, x.routes)
    requires SolutionCost(x) < SolutionCost(best) - CostTolerance
    ensures PoolSound(cfg, clients, x, PoolAdd(pool, x))
  {
    PoolAddContents(pool, x);
    assert !HasCost(pool, SolutionCost(x));
    assert x in multiset(PoolAdd(pool, x));
  }

  /** An offer followed by adding the candidate to the pool keeps the pool
      sound for whichever solution is then the incumbent. */
  lemma OfferAndAdd(cfg: Config, clients: seq<Node>, st: SearchState, pool: seq<Solution>, x: Solution, now: real)
    requires PoolSound(cfg, clients, st.best, pool) && WellFormed(cfg, clients, x.routes)
    ensures PoolSound(cfg, clients, Offer(st, x, now).best, PoolAdd(pool, x))
  {
    if Adopts(st, x) {
      AddImproving(cfg, clients, st.best, pool, x);
    } else {
      AddRejected(cfg, clients, st.best, pool, x);
    }
  }

  /** The solver: given the subproblem's links and a time limit in seconds,
      the solutions it reports, best first. */
  type Solver = (set<Link>, real) -> seq<Solution>

  /** The solver reports only solutions that serve every client. */
  ghost predicate SolverSound(cfg: Config, clients: seq<Node>, solver: Solver)
  {
    forall links, limit, x :: x in solver(links, limit) ==> WellFormed(cfg, clients, x.routes)
  }

  /** The local search's duration in milliseconds between two clock
      readings in seconds. */
  function Millis(clock: nat -> real, c: nat): real
  {
    (clock(c + 1) - clock(c)) * 1000.0
  }

  /** Lines 91-101 as written: the pool is reset to the incumbent and the
      solver's best is offered. On adoption the local search runs on the
      adopted solution itself, so the incumbent becomes the searched
      solution (status "LocalSearch", gap 0.0), the comparison of that
      solution with itself counts nothing, and the gap the clique-size
      update then reads is the searched solution's 0.0. The shuffles read
      the generator of `Collections.shuffle` from draw s0 on. Clock
      readings: one for the adoption stamp and two around the local
      search. */
  method AdoptStep(cfg: Config, clients: seq<Node>, st: SearchState, cplexBest: Solution,
                   shuffle: nat -> nat, s0: nat, clock: nat -> real, c0: nat)
    returns (next: SearchState, pool: seq<Solution>, gap: real, s: nat, c: nat)
    requires ValidConfig(cfg) && WellFormed(cfg, clients, st.best.routes) && WellFormed(cfg, clients, cplexBest.routes)
    ensures PoolSound(cfg, clients, next.best, pool) && st.best in pool && Progress(st, next)
    ensures !Adopts(st, cplexBest) ==> next == st && gap == cplexBest.gap && pool == [st.best]
    ensures Adopts(st, cplexBest) ==>
              && next.improvementCount == st.improvementCount + 1
              && next.timeToBest == clock(c0) && next.iterationToBest == st.iterationCounter
              && next.best.status == "LocalSearch" && next.best.gap == 0.0 && gap == 0.0
              && SolutionCost(next.best) <= SolutionCost(cplexBest)
    ensures next.cliqueSize == st.cliqueSize && next.iterationCounter == st.iterationCounter
    ensures s >= s0 && c >= c0
  {
    pool, s, c := [st.best], s0, c0;
    assert PoolSound(cfg, clients, st.best, pool);
    if Adopts(st, cplexBest) {
      var now := clock(c);
      var searched;
      searched, s := LocalSearch.Run(cfg, clients, cplexBest, shuffle, s, Millis(clock, c + 1));
      var r := AdoptAsWritten(st, cplexBest, searched, now, now);
      next, gap := r.0, r.1;
      AddImproving(cfg, clients, st.best, pool, next.best);
      pool := PoolAdd(pool, next.best);
      c := c + 3;
    } else {
      next, gap := st, cplexBest.gap;
    }
  }

  /** What a run of offers keeps relative to its starting state and pool:
      progress, every earlier pool member, the clique size and iteration,
      and an iteration of the best that is either unchanged or the current
      one. */
  ghost predicate Follows(st0: SearchState, pool0: seq<Solution>, st: SearchState, pool: seq<Solution>)
  {
    && Progress(st0, st)
    && (forall x :: x in pool0 ==> x in pool)
    && st.cliqueSize == st0.cliqueSize && st.iterationCounter == st0.iterationCounter
    && (st.iterationToBest == st0.iterationToBest || st.iterationToBest == st0.iterationCounter)
  }

  /** One offer-and-add keeps the pool sound and extends a run of offers. */
  lemma OfferStep(cfg: Config, clients: seq<Node>, st0: SearchState, pool0: seq<Solution>,
                  st: SearchState, pool: seq<Solution>, x: Solution, now: real)
    requires PoolSound(cfg, clients, st.best, pool) && Follows(st0, pool0, st, pool)
    requires WellFormed(cfg, clients, x.routes)
    ensures PoolSound(cfg, clients, Offer(st, x, now).best, PoolAdd(pool, x))
    ensures Follows(st0, pool0, Offer(st, x, now), PoolAdd(pool, x))
  {
    OfferAndAdd(cfg, clients, st, pool, x, now);
    OfferProgress(st, x, now);
    ProgressTransitive(st0, st, Offer(st, x, now));
    PoolAddContents(pool, x);
  }

  /** Lines 105-110: each remaining solver solution is searched, offered
      and added to the pool. Each run takes two clock readings around the
      local search, and a third for the stamp when it is adopted; the
      shuffles read the generator of `Collections.shuffle` from draw s0 on.
      Every searched solution carries the gap 0.0, so an incumbent with
      gap 0.0 keeps one. */
  method SearchRest(cfg: Config, clients: seq<Node>, st: SearchState, pool0: seq<Solution>, rest: seq<Solution>,
                    shuffle: nat -> nat, s0: nat, clock: nat -> real, c0: nat)
    returns (next: SearchState, pool: seq<Solution>, s: nat, c: nat)
    requires ValidConfig(cfg) && PoolSound(cfg, clients, st.best, pool0)
    requires forall x :: x in rest ==> WellFormed(cfg, clients, x.routes)
    ensures PoolSound(cfg, clients, next.best, pool) && Progress(st, next)
    ensures forall x :: x in pool0 ==> x in pool
    ensures next.cliqueSize == st.cliqueSize && next.iterationCounter == st.iterationCounter
    ensures next.iterationToBest == st.iterationToBest || next.iterationToBest == st.iterationCounter
    ensures st.best.gap == 0.0 ==> next.best.gap == 0.0
    ensures s >= s0 && c >= c0 + 2 * |rest|
  {
    next, pool, s, c := st, pool0, s0, c0;
    var k := 0;
    while k < |rest|
      invariant k <= |rest| && s >= s0 && c >= c0 + 2 * k
      invariant PoolSound(cfg, clients, next.best, pool) && Follows(st, pool0, next, pool)
      invariant st.best.gap == 0.0 ==> next.best.gap == 0.0
    {
      var searched;
      searched, s := LocalSearch.Run(cfg, clients, rest[k], shuffle, s, Millis(clock, c));
      c := c + 2;
      var now := clock(c);
      OfferStep(cfg, clients, st, pool0, next, pool, searched, now);
      if Adopts(next, searched) {
        c := c + 1;
      }
      next, pool := Offer(next, searched, now), PoolAdd(pool, searched);
      k := k + 1;
    }
  }

  /** What the main loop keeps between iterations: a sound pool, the clique
      size within its bounds, the iteration of the best before the
      current one, the remaining nodes distinct clients, and an incumbent
      whose gap the local search has set to 0.0 (every incumbent is a
      searched solution). */
  ghost predicate Sound(cfg: Config, clients: seq<Node>, st: SearchState, pool: seq<Solution>, remaining: seq<Node>)
  {
    && PoolSound(cfg, clients, st.best, pool)
    && MinCliqueSize <= st.cliqueSize <= |clients| + 1
    && st.iterationToBest < st.iterationCounter
    && Distinct(remaining) && (forall x :: x in remaining ==> x in clients)
    && st.best.gap == 0.0
  }

  /** A sequence without repeats inside another, missing one of its
      values, is shorter. */
  lemma DistinctShorter<T>(a: seq<T>, b: seq<T>, x: T)
    requires Distinct(a) && x in b && x !in a && forall y :: y in a ==> y in b
    ensures |a| < |b|
  {
    DistinctCounts(a);
    var ma, mb := multiset(a), multiset(b) - multiset{x};
    forall y ensures ma[y] <= mb[y] {
      if y in a {
        assert y in multiset(b);
        assert y != x;
      }
    }
    assert ma <= mb;
    assert mb == ma + (mb - ma);
    assert |multiset(b)| == |mb| + 1 by {
      assert multiset(b) == mb + multiset{x};
    }
  }

  /** The incumbents in the pool and the clique meet the conditions under
      which the subproblem has no self-loop. */
  lemma SubproblemLoopFree(cfg: Config, clients: seq<Node>, clique: seq<Node>, pool: seq<Solution>)
    requires ValidConfig(cfg) && ValidClients(clients)
    requires forall x :: x in pool ==> WellFormed(cfg, clients, x.routes)
    requires |clique| >= 1 && clique[0] == cfg.depot && Distinct(clique[1..])
    requires forall k :: 1 <= k < |clique| ==> clique[k] in clients
    ensures (forall s :: s in Top(pool) ==> LoopFree(s)) && DistinctIds(clique)
  {
    forall s | s in Top(pool) ensures LoopFree(s) {
      SolutionLoopFree(cfg, clients, s);
    }
    forall i, j | 0 <= i < j < |clique| ensures clique[i].id != clique[j].id {
      var q :| 0 <= q < |clients| && clients[q] == clique[j];
      if i > 0 {
        var p :| 0 <= p < |clients| && clients[p] == clique[i];
        assert clique[1..][i - 1] != clique[1..][j - 1];
        assert p < q || q < p;
      }
    }
  }

  /** Lines 72-77: refill the remaining nodes when fewer than the clique
      size are left, build the clique and the subproblem's links. */
  method Subproblem(cfg: Config, clients: seq<Node>, st: SearchState, pool: seq<Solution>, remaining: seq<Node>,
                    random: nat -> nat, t0: nat)
    returns (links: set<Link>, left: seq<Node>, t: nat)
    requires ValidConfig(cfg) && ValidClients(clients)
    requires Sound(cfg, clients, st, pool, remaining)
    ensures Distinct(left) && forall x :: x in left ==> x in clients
    ensures |left| < if |remaining| < st.cliqueSize then |clients| else |remaining|
    ensures |remaining| >= st.cliqueSize ==> forall x :: x in left ==> x in remaining
    ensures forall l :: l in links ==> l.origin.id != l.destiny.id
    ensures t > t0
  {
    ValidClientsDistinct(clients);
    var from := if |remaining| < st.cliqueSize then clients else remaining;
    var clique;
    clique, left, t := BuildClique(cfg, clients, from, st.cliqueSize, random, t0);
    DistinctShorter(left, from, clique[1]);
    links := BuildSubproblemLinks(cfg, clique, pool);
    SubproblemLoopFree(cfg, clients, clique, pool);
  }

  /** Lines 79-88: the time limit from one or two clock readings, the
      solver's solutions, and the incumbent alone when it reports none. */
  method Solve(cfg: Config, clients: seq<Node>, best: Solution, links: set<Link>, solver: Solver,
               subproblemTimeLimit: real, solverTimeLimit: real, clock: nat -> real, c0: nat)
    returns (reported: seq<Solution>, c: nat)
    requires SolverSound(cfg, clients, solver) && WellFormed(cfg, clients, best.routes)
    ensures |reported| > 0 && forall x :: x in reported ==> WellFormed(cfg, clients, x.routes)
    ensures c == c0 + 1 || c == c0 + 2
  {
    var first := clock(c0);
    var second := first;
    c := c0 + 1;
    if first + subproblemTimeLimit > solverTimeLimit {
      second, c := clock(c), c + 1;
    }
    var found := solver(links, TimeLimit(first, second, subproblemTimeLimit, solverTimeLimit));
    reported := if |found| == 0 then [best] else found;
  }

  /** One pass of the do-while loop (lines 70-112): the subproblem, the
      solver, the offer of its best solution, the clique-size update from
      the solver's gap, and the search and offer of the rest of the
      solver's solutions whose cost the pool does not hold. */
  method Iteration(cfg: Config, clients: seq<Node>, st: SearchState, pool: seq<Solution>, remaining: seq<Node>,
                   solver: Solver, subproblemTimeLimit: real, solverTimeLimit: real,
                   random: nat -> nat, t0: nat, shuffle: nat -> nat, s0: nat, clock: nat -> real, c0: nat)
    returns (next: SearchState, nextPool: seq<Solution>, nextRemaining: seq<Node>, t: nat, s: nat, c: nat)
    requires ValidConfig(cfg) && ValidClients(clients) && SolverSound(cfg, clients, solver)
    requires Sound(cfg, clients, st, pool, remaining)
    ensures Sound(cfg, clients, next, nextPool, nextRemaining)
    ensures Progress(st, next) && next.iterationCounter == st.iterationCounter + 1
    ensures |nextRemaining| < if |remaining| < st.cliqueSize then |clients| else |remaining|
    ensures |remaining| >= st.cliqueSize ==> forall x :: x in nextRemaining ==> x in remaining
    ensures t > t0 && s >= s0 && c > c0
  {
    var links, left, t1 := Subproblem(cfg, clients, st, pool, remaining, random, t0);
    var reported, c1 := Solve(cfg, clients, st.best, links, solver, subproblemTimeLimit, solverTimeLimit, clock, c0);
    var adopted, pool1, gap, s1, c2 := AdoptStep(cfg, clients, st, reported[0], shuffle, s0, clock, c1);
    var resized := adopted.(cliqueSize := NextCliqueSize(st.cliqueSize, gap, |clients| + 1));
    var rest := RemoveByCost(reported[1..], pool1);
    var searched, pool2, s2, c3 := SearchRest(cfg, clients, resized, pool1, rest, shuffle, s1, clock, c2);
    ProgressTransitive(st, resized, searched);
    next := searched.(iterationCounter := searched.iterationCounter + 1);
    nextPool, nextRemaining, t, s, c := pool2, left, t1, s2, c3;
  }

  /** The search's starting state after the greedy solution: clique size
      MIN_CLIQUE_SIZE, one iteration counted, nothing improved yet. */
  function Start(initial: Solution): (st: SearchState)
    ensures st.best == initial && st.cliqueSize == MinCliqueSize && st.iterationCounter == 1
    ensures st.improvementCount == 0 && st.iterationToBest == 0
  {
    SearchState(initial, MinCliqueSize, 0.0, 1, 0, 0)
  }

  /** `executeLNSAlgoritm`: the greedy solution, then iterations until a
      clock reading taken after an iteration exceeds the solver's time
      limit. The clock is nondecreasing and eventually passes the limit;
      readings are taken in program order from reading 0 on: the start and
      the end of the construction, the start and the end of its local
      search, then the loop's. The readings `exportSolution` takes through
      `getElapsedTime` (lines 62, 120 and 135) are omitted, since the
      export is left out. The program's three generators are separate
      streams, each read from draw 0 on: Greedy's `random` (pick), the one
      behind `Collections.shuffle` (shuffle), and the `new Random()` of each
      VDNS pick (random). Returns the greedy solution, the final state and
      the number of readings taken. */
  method Execute(cfg: Config, clients: seq<Node>, solver: Solver, subproblemTimeLimit: real, solverTimeLimit: real,
                 pick: nat -> nat, shuffle: nat -> nat, random: nat -> nat, clock: nat -> real)
    returns (initial: Solution, st: SearchState, c: nat)
    requires ValidConfig(cfg) && ValidClients(clients) && |clients| >= MinCliqueSize - 1
    requires Greedy.AllFitAlone(cfg, clients) && SolverSound(cfg, clients, solver)
    requires forall i: nat, j: nat :: i <= j ==> clock(i) <= clock(j)
    requires exists n: nat :: clock(n) > solverTimeLimit
    ensures WellFormed(cfg, clients, initial.routes) && initial.status == "Greedy"
    ensures WellFormed(cfg, clients, st.best.routes) && Progress(Start(initial), st)
    ensures MinCliqueSize <= st.cliqueSize <= |clients| + 1
    ensures st.iterationCounter >= 2 && st.iterationToBest < st.iterationCounter
    ensures c > 0 && clock(c - 1) > solverTimeLimit
  {
    ValidClientsDistinct(clients);
    var s;
    initial, s := Greedy.Run(cfg, clients, pick, shuffle, 0, Millis(clock, 0), Millis(clock, 2));
    st := Start(initial);
    var pool, remaining, t := [initial], clients, 0;
    c := 4;
    ghost var deadline: nat :| clock(deadline) > solverTimeLimit;
    deadline := if deadline < c then c else deadline;
    var going := true;
    while going
      invariant Sound(cfg, clients, st, pool, remaining) && Progress(Start(initial), st)
      invariant going ==> c <= deadline && st.iterationCounter >= 1
      invariant !going ==> c > 0 && clock(c - 1) > solverTimeLimit && st.iterationCounter >= 2
      decreases if going then deadline + 1 - c else 0
    {
      var before := st;
      st, pool, remaining, t, s, c := Iteration(cfg, clients, st, pool, remaining, solver, subproblemTimeLimit,
                                                solverTimeLimit, random, t, shuffle, s, clock, c);
      ProgressTransitive(Start(initial), before, st);
      going := clock(c) <= solverTimeLimit;
      c := c + 1;
      assert c - 1 < deadline || clock(deadline) <= clock(c - 1);
    }
  }
}
