/** The sparse link matrix: cell [i][j] holds the link from node i to node
    j, or nothing. */
module LinkMatrix {
  import opened Common
  import opened Instance
  import opened Links

  datatype LinkManager = LinkManager(cells: seq<seq<Option<Link>>>)

  /** An n x n matrix (n = number of nodes of the instance). */
  ghost predicate Square(m: LinkManager, n: nat)
  {
    |m.cells| == n && forall i :: 0 <= i < n ==> |m.cells[i]| == n
  }

  /** Every stored link sits in the cell of its own endpoints. */
  ghost predicate Consistent(m: LinkManager)
  {
    forall i, j :: 0 <= i < |m.cells| && 0 <= j < |m.cells[i]| && m.cells[i][j].Some? ==>
      m.cells[i][j].value.origin.id == i && m.cells[i][j].value.destiny.id == j
  }

  /** `new LinkManager()`: an n x n matrix with no links. */
  function Empty(n: nat): (m: LinkManager)
    ensures Square(m, n) && Consistent(m)
    ensures forall i, j :: 0 <= i < n && 0 <= j < n ==> m.cells[i][j] == None
  {
    LinkManager(seq(n, i => seq(n, j => None)))
  }

  /** `get(originId, destinyId)`. */
  function Get(m: LinkManager, i: nat, j: nat): (r: Option<Link>)
    requires i < |m.cells| && j < |m.cells[i]|
    ensures Consistent(m) && r.Some? ==> r.value.origin.id == i && r.value.destiny.id == j
  {
    m.cells[i][j]
  }

  /** `set(link)`: store the link in the cell of its endpoints. */
  function Set(m: LinkManager, l: Link): (r: LinkManager)
    requires l.origin.id < |m.cells| && l.destiny.id < |m.cells[l.origin.id]|
    ensures |r.cells| == |m.cells|
    ensures forall i :: 0 <= i < |m.cells| ==> |r.cells[i]| == |m.cells[i]|
    ensures Get(r, l.origin.id, l.destiny.id) == Some(l)
    ensures forall i, j :: 0 <= i < |m.cells| && 0 <= j < |m.cells[i]| && (i, j) != (l.origin.id, l.destiny.id) ==>
              r.cells[i][j] == m.cells[i][j]
    ensures Consistent(m) ==> Consistent(r)
  {
    LinkManager(m.cells[l.origin.id := m.cells[l.origin.id][l.destiny.id := Some(l)]])
  }

  /** The links of a set are told apart by their endpoint ids (a Java
      `HashSet<Link>` holds at most one link per pair of endpoints, and node
      ids identify nodes). */
  ghost predicate KeyedByIds(links: set<Link>)
  {
    forall a, b :: a in links && b in links && a.origin.id == b.origin.id && a.destiny.id == b.destiny.id ==> a == b
  }

  ghost predicate Fits(m: LinkManager, links: set<Link>)
  {
    forall l :: l in links ==> l.origin.id < |m.cells| && l.destiny.id < |m.cells[l.origin.id]|
  }

  /** Some link of the set has endpoints (i, j). */
  ghost predicate Claims(links: set<Link>, i: nat, j: nat)
  {
    exists l :: l in links && l.origin.id == i && l.destiny.id == j
  }

  /** The state of `setAll` once the links of `done` are stored: same shape,
      those links in their cells, every other cell as it was. */
  ghost predicate SetAllState(m: LinkManager, done: set<Link>, r: LinkManager)
  {
    && |r.cells| == |m.cells| && (forall i :: 0 <= i < |m.cells| ==> |r.cells[i]| == |m.cells[i]|)
    && (forall l :: l in done ==>
          l.origin.id < |r.cells| && l.destiny.id < |r.cells[l.origin.id]| && r.cells[l.origin.id][l.destiny.id] == Some(l))
    && (forall i, j :: 0 <= i < |m.cells| && 0 <= j < |m.cells[i]| && !Claims(done, i, j) ==>
                       r.cells[i][j] == m.cells[i][j])
    && (Consistent(m) ==> Consistent(r))
  }

  lemma SetAllStep(m: LinkManager, links: set<Link>, done: set<Link>, r: LinkManager, l: Link)
    requires KeyedByIds(links) && Fits(m, links) && done <= links && l in links && l !in done
    requires SetAllState(m, done, r)
    ensures SetAllState(m, done + {l}, Set(r, l))
  {
    var r' := Set(r, l);
    forall k | k in done + {l}
      ensures k.origin.id < |r'.cells| && k.destiny.id < |r'.cells[k.origin.id]|
      ensures r'.cells[k.origin.id][k.destiny.id] == Some(k)
    {
      if k != l {
        assert (k.origin.id, k.destiny.id) != (l.origin.id, l.destiny.id);
      }
    }
    forall i, j | 0 <= i < |m.cells| && 0 <= j < |m.cells[i]| && !Claims(done + {l}, i, j)
      ensures r'.cells[i][j] == m.cells[i][j]
    {
      assert !Claims(done, i, j);
      assert (i, j) != (l.origin.id, l.destiny.id);
    }
  }

  /** `setAll(links)`: `set` on every link of the set, in any order. */
  method SetAll(m: LinkManager, links: set<Link>) returns (r: LinkManager)
    requires KeyedByIds(links) && Fits(m, links)
    ensures |r.cells| == |m.cells| && forall i :: 0 <= i < |m.cells| ==> |r.cells[i]| == |m.cells[i]|
    ensures forall l :: l in links ==> Get(r, l.origin.id, l.destiny.id) == Some(l)
    ensures forall i, j ::
              (0 <= i < |m.cells| && 0 <= j < |m.cells[i]| &&
               forall l :: l in links ==> (l.origin.id, l.destiny.id) != (i, j))
              ==> r.cells[i][j] == m.cells[i][j]
    ensures Consistent(m) ==> Consistent(r)
  {
    r := m;
    var todo := links;
    var done: set<Link> := {};
    while todo != {}
      invariant todo <= links && done == links - todo
      invariant SetAllState(m, done, r)
      decreases todo
    {
      var l :| l in todo;
      SetAllStep(m, links, done, r, l);
      r := Set(r, l);
      todo, done := todo - {l}, done + {l};
    }
    assert done == links;
  }

  /** `new LinkManager(links)`: an empty n x n matrix filled by `setAll`. */
  method FromSet(n: nat, links: set<Link>) returns (r: LinkManager)
    requires KeyedByIds(links) && forall l :: l in links ==> l.origin.id < n && l.destiny.id < n
    ensures Square(r, n) && Consistent(r)
    ensures forall i, j :: 0 <= i < n && 0 <= j < n ==>
              (r.cells[i][j].Some? <==> exists l :: l in links && l.origin.id == i && l.destiny.id == j)
    ensures forall l :: l in links ==> Get(r, l.origin.id, l.destiny.id) == Some(l)
  {
    r := SetAll(Empty(n), links);
  }

  // ---------------------------------------------------------------------
  // Reading the matrix back.
  // ---------------------------------------------------------------------

  /** The stored links of one row or column, in index order. */
  function Present(cells: seq<Option<Link>>): seq<Link>
  {
    if |cells| == 0 then []
    else Present(cells[..|cells| - 1]) + (if cells[|cells| - 1].Some? then [cells[|cells| - 1].value] else [])
  }

  /** All stored links, row after row. */
  function RowMajor(rows: seq<seq<Option<Link>>>): seq<Link>
  {
    if |rows| == 0 then [] else RowMajor(rows[..|rows| - 1]) + Present(rows[|rows| - 1])
  }

  lemma {:induction false} PresentMember(cells: seq<Option<Link>>, l: Link)
    ensures l in Present(cells) <==> exists j :: 0 <= j < |cells| && cells[j] == Some(l)
  {
    if |cells| > 0 {
      var init := cells[..|cells| - 1];
      PresentMember(init, l);
      assert forall j :: 0 <= j < |init| ==> init[j] == cells[j];
    }
  }

  /** Each stored link appears once per cell holding it. */
  lemma {:induction false} PresentCount(cells: seq<Option<Link>>)
    ensures |Present(cells)| == |set j | 0 <= j < |cells| && cells[j].Some?|
  {
    if |cells| > 0 {
      var n := |cells| - 1;
      PresentCount(cells[..n]);
      var before := set j | 0 <= j < n && cells[..n][j].Some?;
      var now := set j | 0 <= j < |cells| && cells[j].Some?;
      if cells[n].Some? {
        assert now == before + {n};
      } else {
        assert now == before;
      }
    }
  }

  lemma {:induction false} RowMajorMember(rows: seq<seq<Option<Link>>>, l: Link)
    ensures l in RowMajor(rows) <==> exists i, j :: 0 <= i < |rows| && 0 <= j < |rows[i]| && rows[i][j] == Some(l)
  {
    if |rows| > 0 {
      var init := rows[..|rows| - 1];
      RowMajorMember(init, l);
      PresentMember(rows[|rows| - 1], l);
      assert forall i :: 0 <= i < |init| ==> init[i] == rows[i];
    }
  }

  lemma PresentStep(cells: seq<Option<Link>>, j: nat)
    requires j < |cells|
    ensures Present(cells[..j + 1]) == Present(cells[..j]) + (if cells[j].Some? then [cells[j].value] else [])
  {
    assert cells[..j + 1][..j] == cells[..j];
  }

  /** `getAll()`: every stored link, row-major. */
  method GetAll(m: LinkManager) returns (all: seq<Link>)
    ensures all == RowMajor(m.cells)
    ensures forall l :: l in all <==> exists i, j :: 0 <= i < |m.cells| && 0 <= j < |m.cells[i]| && m.cells[i][j] == Some(l)
  {
    all := [];
    var i := 0;
    while i < |m.cells|
      invariant 0 <= i <= |m.cells|
      invariant all == RowMajor(m.cells[..i])
    {
      var row := m.cells[i];
      var j := 0;
      while j < |row|
        invariant 0 <= j <= |row|
        invariant all == RowMajor(m.cells[..i]) + Present(row[..j])
      {
        PresentStep(row, j);
        if row[j].Some? {
          all := all + [row[j].value];
        }
        j := j + 1;
      }
      assert row[..j] == row;
      assert m.cells[..i + 1][..i] == m.cells[..i];
      i := i + 1;
    }
    assert m.cells[..i] == m.cells;
    forall l ensures l in all <==> exists i, j :: 0 <= i < |m.cells| && 0 <= j < |m.cells[i]| && m.cells[i][j] == Some(l) {
      RowMajorMember(m.cells, l);
    }
  }

  /** Column `node` of the matrix. */
  function Column(m: LinkManager, node: nat): seq<Option<Link>>
    requires Square(m, |m.cells|) && node < |m.cells|
  {
    seq(|m.cells|, i requires 0 <= i < |m.cells| => m.cells[i][node])
  }

  /** `getAllIncomingLinks(node)`: the stored links [i][node] for i = 0, 1, ... */
  method GetAllIncomingLinks(m: LinkManager, node: nat) returns (incoming: seq<Link>)
    requires Square(m, |m.cells|) && node < |m.cells|
    ensures incoming == Present(Column(m, node))
    ensures forall l :: l in incoming <==> exists i :: 0 <= i < |m.cells| && m.cells[i][node] == Some(l)
    ensures Consistent(m) ==> forall l :: l in incoming ==> l.destiny.id == node
  {
    var column := Column(m, node);
    incoming := [];
    var i := 0;
    while i < |m.cells|
      invariant 0 <= i <= |m.cells|
      invariant incoming == Present(column[..i])
    {
      PresentStep(column, i);
      var link := Get(m, i, node);
      if link.Some? {
        incoming := incoming + [link.value];
      }
      i := i + 1;
    }
    assert column[..i] == column;
    assert forall k :: 0 <= k < |m.cells| ==> column[k] == m.cells[k][node];
    forall l ensures l in incoming <==> exists i :: 0 <= i < |m.cells| && m.cells[i][node] == Some(l) {
      PresentMember(column, l);
    }
  }

  /** `getAllOutgoingLinks(node)`: the stored links [node][j] for j = 0, 1, ... */
  method GetAllOutgoingLinks(m: LinkManager, node: nat) returns (outgoing: seq<Link>)
    requires Square(m, |m.cells|) && node < |m.cells|
    ensures outgoing == Present(m.cells[node])
    ensures forall l :: l in outgoing <==> exists j :: 0 <= j < |m.cells| && m.cells[node][j] == Some(l)
    ensures Consistent(m) ==> forall l :: l in outgoing ==> l.origin.id == node
  {
    var row := m.cells[node];
    outgoing := [];
    var j := 0;
    while j < |m.cells|
      invariant 0 <= j <= |m.cells|
      invariant outgoing == Present(row[..j])
    {
      PresentStep(row, j);
      var link := Get(m, node, j);
      if link.Some? {
        outgoing := outgoing + [link.value];
      }
      j := j + 1;
    }
    assert row[..j] == row;
    forall l ensures l in outgoing <==> exists j :: 0 <= j < |m.cells| && m.cells[node][j] == Some(l) {
      PresentMember(row, l);
    }
  }
}
