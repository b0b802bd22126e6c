/** A directed arc between two nodes. Equality and hashing look only at the
    two endpoints; the distance (and the solver variables the source attaches
    to a link, not modelled) play no part. */
module Links {
  import opened Common
  import opened Instance

  datatype Link = Link(origin: Node, destiny: Node, distance: real)

  /** The link the instance's link matrix holds for (a, b). */
  function LinkOf(cfg: Config, a: Node, b: Node): (l: Link)
    ensures l.origin == a && l.destiny == b
  {
    Link(a, b, cfg.dist(a.id, b.id))
  }

  /** The identity of a link as far as `equals` and `hashCode` can see. */
  function Key(l: Link): (Node, Node)
  {
    (l.origin, l.destiny)
  }

  /** `Link.equals(Object)`. */
  function Equals(l: Link, o: Ref<Link>): (b: bool)
    ensures b <==> o.Same? && o.value.origin == l.origin && o.value.destiny == l.destiny
  {
    match o
    case Null => false
    case Foreign => false
    case Same(other) => l.origin == other.origin && l.destiny == other.destiny
  }

  /** `Link.hashCode()` = `Objects.hash(origin, destiny)`, in 32-bit
      arithmetic, for a given hash of nodes. */
  function Hash(l: Link, nodeHash: Node -> int): (h: int)
    ensures -TwoTo31 <= h < TwoTo31
  {
    Int32(31 * Int32(31 + nodeHash(l.origin)) + nodeHash(l.destiny))
  }

  lemma EqualsReflexive(l: Link)
    ensures Equals(l, Same(l))
  {
  }

  lemma EqualsSymmetric(a: Link, b: Link)
    ensures Equals(a, Same(b)) <==> Equals(b, Same(a))
  {
  }

  lemma NeverEqualsNullOrForeign(l: Link)
    ensures !Equals(l, Null) && !Equals(l, Foreign)
  {
  }

  /** Equality ignores the distance: it is equality of keys. */
  lemma EqualsIsKeyEquality(a: Link, b: Link)
    ensures Equals(a, Same(b)) <==> Key(a) == Key(b)
  {
  }

  /** Equal links hash equally, whatever the node hash. */
  lemma HashRespectsEquals(a: Link, b: Link, nodeHash: Node -> int)
    requires Equals(a, Same(b))
    ensures Hash(a, nodeHash) == Hash(b, nodeHash)
  {
  }
}
