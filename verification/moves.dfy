/** The candidate routes the local-search operators build, as pure sequence
    rewrites, and the capacity facts that make their bookkeeping sound. */
module Moves {
  import opened Common
  import opened Instance
  import opened Routes

  /** Cost changes smaller than this do not count as improvements. */
  const CostTolerance: real := 0.001

  /** A candidate replaces an incumbent of the given cost only when it is
      feasible and cheaper by more than the tolerance. */
  predicate Improves(candidate: Route, incumbentCost: real)
  {
    candidate.isFeasible && candidate.totalCost < incumbentCost - CostTolerance
  }

  /** Ranking used for termination: every accepted move lowers it. */
  function Rank(cost: real): int
  {
    (cost * 1000.0).Floor
  }

  lemma RankDecreases(before: real, after: real)
    requires after < before - CostTolerance
    ensures Rank(after) < Rank(before)
  {
  }

  lemma RankNonNegative(cost: real)
    requires cost >= 0.0
    ensures Rank(cost) >= 0
  {
  }

  // ---------------------------------------------------------------------
  // 2-opt
  // ---------------------------------------------------------------------

  /** The 2-opt candidate: positions first..last (inclusive) reversed. */
  function TwoOptNodes<T>(nodes: seq<T>, first: nat, last: nat): (r: seq<T>)
    requires first <= last < |nodes|
    ensures |r| == |nodes|
    ensures forall k :: 0 <= k < |nodes| && (k < first || last < k) ==> r[k] == nodes[k]
    ensures forall k :: first <= k <= last ==> r[k] == nodes[first + last - k]
    ensures multiset(r) == multiset(nodes)
  {
    var r := nodes[..first] + Reverse(nodes[first..last + 1]) + nodes[last + 1..];
    assert nodes == nodes[..first] + nodes[first..last + 1] + nodes[last + 1..];
    r
  }

  /** Reversing the same segment twice restores the route. */
  lemma TwoOptInvolution<T>(nodes: seq<T>, first: nat, last: nat)
    requires first <= last < |nodes|
    ensures TwoOptNodes(TwoOptNodes(nodes, first, last), first, last) == nodes
  {
  }

  // ---------------------------------------------------------------------
  // Crossover
  // ---------------------------------------------------------------------

  /** The two crossover candidates: A's prefix with B's suffix, and B's
      prefix with A's suffix. */
  function CrossoverNodes<T>(a: seq<T>, b: seq<T>, cutA: nat, cutB: nat): (r: (seq<T>, seq<T>))
    requires cutA <= |a| && cutB <= |b|
    ensures multiset(r.0) + multiset(r.1) == multiset(a) + multiset(b)
    ensures |r.0| + |r.1| == |a| + |b|
    ensures |r.0| == cutA + |b| - cutB && |r.1| == cutB + |a| - cutA
  {
    assert a == a[..cutA] + a[cutA..];
    assert b == b[..cutB] + b[cutB..];
    (a[..cutA] + b[cutB..], b[..cutB] + a[cutA..])
  }

  /** Crossing the results again at the same cuts gives back both routes. */
  lemma CrossoverInvolution<T>(a: seq<T>, b: seq<T>, cutA: nat, cutB: nat)
    requires cutA <= |a| && cutB <= |b|
    ensures CrossoverNodes(CrossoverNodes(a, b, cutA, cutB).0, CrossoverNodes(a, b, cutA, cutB).1, cutA, cutB) == (a, b)
  {
    var (a', b') := CrossoverNodes(a, b, cutA, cutB);
    assert a'[..cutA] == a[..cutA] && a'[cutA..] == b[cutB..];
    assert b'[..cutB] == b[..cutB] && b'[cutB..] == a[cutA..];
    assert a'[..cutA] + b'[cutB..] == a;
    assert b'[..cutB] + a'[cutA..] == b;
  }

  // ---------------------------------------------------------------------
  // Sums over edited client lists
  // ---------------------------------------------------------------------

  lemma {:induction false} SumsConcat(a: seq<Node>, b: seq<Node>)
    ensures SumDelivery(a + b) == SumDelivery(a) + SumDelivery(b)
    ensures SumPickup(a + b) == SumPickup(a) + SumPickup(b)
    decreases |b|
  {
    if |b| > 0 {
      var b' := b[..|b| - 1];
      assert (a + b)[..|a + b| - 1] == a + b';
      SumsConcat(a, b');
    } else {
      assert a + b == a;
    }
  }

  lemma SumsInsert(s: seq<Node>, k: nat, x: Node)
    requires k <= |s|
    ensures SumDelivery(InsertAt(s, k, x)) == SumDelivery(s) + x.delivery
    ensures SumPickup(InsertAt(s, k, x)) == SumPickup(s) + x.pickup
  {
    assert s == s[..k] + s[k..];
    SumsConcat(s[..k], s[k..]);
    SumsConcat(s[..k] + [x], s[k..]);
    SumsConcat(s[..k], [x]);
    assert [x][..0] == [];
  }

  lemma SumsRemove(s: seq<Node>, i: nat)
    requires i < |s|
    ensures SumDelivery(s) == SumDelivery(RemoveAt(s, i)) + s[i].delivery
    ensures SumPickup(s) == SumPickup(RemoveAt(s, i)) + s[i].pickup
  {
    var a, b := s[..i], s[i + 1..];
    assert s[..i + 1] == a + [s[i]];
    assert s == s[..i + 1] + b;
    assert RemoveAt(s, i) == a + b;
    SumsConcat(a + [s[i]], b);
    SumsConcat(a, [s[i]]);
    SumsConcat(a, b);
    SumsSingle(s[i]);
  }

  lemma SumsSingle(x: Node)
    ensures SumDelivery([x]) == x.delivery && SumPickup([x]) == x.pickup
  {
    assert [x][..0] == [];
  }

  // ---------------------------------------------------------------------
  // Capacity facts
  // ---------------------------------------------------------------------

  /** Removing a client from a route within capacity leaves it within
      capacity: demands are nonnegative, so every load can only drop. */
  lemma RemoveKeepsCapacity(capacity: int, s: seq<Node>, i: nat)
    requires i < |s| && WithinCapacity(capacity, s)
    ensures WithinCapacity(capacity, RemoveAt(s, i))
  {
    var t := RemoveAt(s, i);
    SumsRemove(s, i);
    forall j | 1 <= j <= |t|
      ensures LoadAfter(t, j) <= capacity
    {
      if j <= i {
        assert t[..j] == s[..j];
        assert LoadAfter(t, j) == LoadAfter(s, j) - s[i].delivery;
      } else {
        assert t[..j] == RemoveAt(s[..j + 1], i);
        SumsRemove(s[..j + 1], i);
        assert LoadAfter(t, j) == LoadAfter(s, j + 1) - s[i].pickup;
      }
    }
  }

  /** The source's cheap pre-check before trying insertions into a route:
      when the route's delivery total or pickup total plus the client's
      demand already exceeds capacity, no insertion position is feasible. */
  lemma InsertionPrecheckSound(capacity: int, s: seq<Node>, x: Node, k: nat)
    requires k <= |s|
    requires SumDelivery(s) + x.delivery > capacity || SumPickup(s) + x.pickup > capacity
    ensures !WithinCapacity(capacity, InsertAt(s, k, x))
  {
    SumsInsert(s, k, x);
  }

  lemma {:induction false} MemberDemandsBounded(s: seq<Node>, i: nat)
    requires i < |s|
    ensures s[i].delivery <= SumDelivery(s) && s[i].pickup <= SumPickup(s)
  {
    SumsRemove(s, i);
  }

  /** A client taken from a route within capacity can be served alone. */
  lemma SingletonFeasible(capacity: int, s: seq<Node>, i: nat)
    requires i < |s| && WithinCapacity(capacity, s)
    ensures WithinCapacity(capacity, [s[i]])
  {
    MemberDemandsBounded(s, i);
    var t := [s[i]];
    SumsSingle(s[i]);
    assert t[..1] == t;
    assert LoadAfter(t, 1) == s[i].pickup;
  }

  /** Exchanging a client between two routes keeps the pair's clients. */
  lemma ExchangeKeepsClients(r: seq<Node>, i: nat, s: seq<Node>, j: nat)
    requires i < |r| && j < |s|
    ensures multiset(r[i := s[j]]) + multiset(s[j := r[i]]) == multiset(r) + multiset(s)
  {
    assert r == r[..i] + [r[i]] + r[i + 1..];
    assert r[i := s[j]] == r[..i] + [s[j]] + r[i + 1..];
    assert s == s[..j] + [s[j]] + s[j + 1..];
    assert s[j := r[i]] == s[..j] + [r[i]] + s[j + 1..];
  }

  // ---------------------------------------------------------------------
  // Moves inside one route
  // ---------------------------------------------------------------------

  /** The two same-route neighbourhoods: move the client at position i to
      position k (insertion), or swap it with the client at k (interchange). */
  datatype InRouteMove = Relocate | Exchange

  function Rewrite<T>(move: InRouteMove, s: seq<T>, i: nat, k: nat): (r: seq<T>)
    requires i < |s| && k < |s|
    ensures |r| == |s| && multiset(r) == multiset(s)
    ensures r[k] == s[i]
  {
    match move
    case Relocate => InsertAt(RemoveAt(s, i), k, s[i])
    case Exchange => Swap(s, i, k)
  }

  /** Moving a client onto its own position changes nothing, which is why
      the source skips k = i. */
  lemma RewriteInPlace<T>(move: InRouteMove, s: seq<T>, i: nat)
    requires i < |s|
    ensures Rewrite(move, s, i, i) == s
  {
    if move == Relocate {
      assert InsertAt(RemoveAt(s, i), i, s[i]) == s;
    }
  }

  /** Swapping back undoes an interchange; moving back undoes a relocation. */
  lemma RewriteUndo<T>(move: InRouteMove, s: seq<T>, i: nat, k: nat)
    requires i < |s| && k < |s|
    ensures Rewrite(move, Rewrite(move, s, i, k), k, i) == s
  {
    if move == Relocate {
      RemoveInserted(RemoveAt(s, i), k, s[i]);
      InsertRemoved(s, i);
    }
  }

  lemma RemoveInserted<T>(s: seq<T>, k: nat, x: T)
    requires k <= |s|
    ensures RemoveAt(InsertAt(s, k, x), k) == s
  {
    var r := RemoveAt(InsertAt(s, k, x), k);
    forall j | 0 <= j < |s|
      ensures r[j] == s[j]
    {
    }
  }

  lemma InsertRemoved<T>(s: seq<T>, i: nat)
    requires i < |s|
    ensures InsertAt(RemoveAt(s, i), i, s[i]) == s
  {
    var r := InsertAt(RemoveAt(s, i), i, s[i]);
    forall j | 0 <= j < |s|
      ensures r[j] == s[j]
    {
    }
  }
}
