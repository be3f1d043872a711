/** `a_star` (algorithm/a_star.py): best-first search on the grid with a
    heap of (f, node) pairs, lazy duplicate entries and no closed set. The
    visualiser hooks are not modelled. */
module Search {
  import opened Costs
  import opened Nodes
  import opened Grids
  import opened Paths
  import opened Frontier
  import Potential

  /** What every cell keeps true during a search from `start` to `endNode`:
      f == g + h; an unreached cell keeps its initial h and has no parent; a
      reached one has the heuristic to the goal as h; the only reached cell
      without a parent is the start; a cell with a parent is open, is not the
      start, and its parent link is sound. */
  ghost predicate CellOk(grid: Grid, n: Node, start: Node, endNode: Node)
    reads n, Cells(grid)
  {
    n.f == Add(n.g, n.h) &&
    (n.g.Inf? ==> n.h == 0 && n.parent.None?) &&
    (n.g.Fin? ==> n.h == Heuristic(n, endNode)) &&
    (n.g.Fin? && n.parent.None? ==> n == start) &&
    (n.parent.Some? ==> !n.isWall && n != start) &&
    LinkOk(grid, n)
  }

  ghost predicate SearchState(grid: Grid, start: Node, endNode: Node)
    reads Cells(grid)
  {
    In(grid, start) &&
    start.g == Fin(0) && start.parent.None? &&
    forall r, c {:trigger CellOk(grid, grid[r][c], start, endNode)} :: InBounds(grid, r, c) ==> CellOk(grid, grid[r][c], start, endNode)
  }

  lemma SearchStateLinks(grid: Grid, start: Node, endNode: Node)
    requires SearchState(grid, start, endNode)
    ensures ParentLinks(grid)
  {
    forall r, c | InBounds(grid, r, c)
      ensures LinkOk(grid, grid[r][c])
    {
      assert CellOk(grid, grid[r][c], start, endNode);
    }
  }

  /** A wall other than the start is never relaxed: it keeps g = Inf and no
      parent. */
  lemma WallsUnreached(grid: Grid, start: Node, endNode: Node, r: int, c: int)
    requires SearchState(grid, start, endNode)
    requires InBounds(grid, r, c) && grid[r][c].isWall && grid[r][c] != start
    ensures grid[r][c].g == Inf && grid[r][c].parent == None
  {
    assert CellOk(grid, grid[r][c], start, endNode);
  }

  /** A cell with a parent costs at least one step more than that parent. */
  lemma ParentCostBelow(grid: Grid, start: Node, endNode: Node, r: int, c: int)
    requires SearchState(grid, start, endNode)
    requires InBounds(grid, r, c) && grid[r][c].parent.Some?
    ensures var p := grid[r][c].parent.value;
      InBounds(grid, p.row, p.col) && grid[p.row][p.col].g.Fin? && grid[r][c].g.Fin? &&
      grid[p.row][p.col].g.n + 1 <= grid[r][c].g.n
  {
    assert CellOk(grid, grid[r][c], start, endNode);
  }

  /** Every open neighbour of the reached cell `n` has a g at most one above n's. */
  ghost predicate Settled(grid: Grid, n: Node)
    reads n, Cells(grid)
  {
    n.g.Fin? &&
    forall r, c :: InBounds(grid, r, c) && Adjacent(n, grid[r][c]) && !grid[r][c].isWall ==>
      grid[r][c].g.Fin? && grid[r][c].g.n <= n.g.n + 1
  }

  /** The open set holds reached cells of the grid, and every reached cell
      either still has an entry or has been expanded since its g last fell
      (and then it is not the goal, whose expansion ends the search). */
  ghost predicate FrontierOk(grid: Grid, open: seq<Entry>, endNode: Node)
    reads Cells(grid)
  {
    (forall e :: e in open ==> In(grid, e.node) && e.node.g.Fin?) &&
    forall r, c :: InBounds(grid, r, c) && grid[r][c].g.Fin? ==>
      grid[r][c] in OpenCells(open) || (Settled(grid, grid[r][c]) && grid[r][c] != endNode)
  }

  /** The g values of the grid, row by row. */
  ghost function GVals(grid: Grid): seq<seq<Cost>>
    reads Cells(grid)
  {
    seq(|grid|, r requires 0 <= r < |grid| reads Cells(grid) =>
      seq(|grid[r]|, c requires 0 <= c < |grid[r]| reads Cells(grid) => grid[r][c].g))
  }

  /** The frontier facts for every reached cell but `current`, the one being
      expanded. */
  ghost predicate FrontierOkBut(grid: Grid, open: seq<Entry>, endNode: Node, current: Node)
    reads Cells(grid)
  {
    (forall e :: e in open ==> In(grid, e.node) && e.node.g.Fin?) &&
    forall r, c :: InBounds(grid, r, c) && grid[r][c].g.Fin? && grid[r][c] != current ==>
      grid[r][c] in OpenCells(open) || (Settled(grid, grid[r][c]) && grid[r][c] != endNode)
  }

  /** The body of the `for neighbor` loop: skip a wall; otherwise, if the route
      through `current` is strictly shorter, make `current` the parent, set g,
      h and f, and push the neighbour. `neighbor` is the only object changed. */
  method Relax(grid: Grid, start: Node, endNode: Node, current: Node, neighbor: Node, open: seq<Entry>)
    returns (pushed: seq<Entry>, improved: bool)
    requires WellFormed(grid) && SearchState(grid, start, endNode)
    requires In(grid, current) && current.g.Fin?
    requires In(grid, neighbor) && Adjacent(current, neighbor)
    requires FrontierOkBut(grid, open, endNode, current)
    modifies neighbor
    ensures SearchState(grid, start, endNode)
    ensures FrontierOkBut(grid, pushed, endNode, current)
    ensures improved == (!neighbor.isWall && Lt(Add(old(current.g), 1), old(neighbor.g)))
    ensures improved ==>
      neighbor.parent == Some(current.At()) &&
      neighbor.g == Add(old(current.g), 1) &&
      neighbor.h == Heuristic(neighbor, endNode) &&
      neighbor.f == Add(neighbor.g, neighbor.h) &&
      neighbor.isWall == old(neighbor.isWall) &&
      pushed == open + [Entry(neighbor.f, neighbor)]
    ensures !improved ==> unchanged(neighbor) && pushed == open
    ensures Relaxed(current, neighbor)
    ensures Le(neighbor.g, old(neighbor.g)) && neighbor.isWall == old(neighbor.isWall)
    ensures current.g == old(current.g)
  {
    if neighbor.isWall {
      return open, false;
    }
    var tentative := Add(current.g, 1);
    if Lt(tentative, neighbor.g) {
      assert neighbor != start && neighbor != current;
      neighbor.parent := Some(current.At());
      neighbor.g := tentative;
      neighbor.h := Heuristic(neighbor, endNode);
      neighbor.f := Add(neighbor.g, neighbor.h);
      pushed := open + [Entry(neighbor.f, neighbor)];
      improved := true;
      OpenCellsPush(open, Entry(neighbor.f, neighbor));
      forall r, c | InBounds(grid, r, c)
        ensures CellOk(grid, grid[r][c], start, endNode)
      {
        var n := grid[r][c];
        if n != neighbor {
          assert old(CellOk(grid, n, start, endNode));
          assert old(LinkOk(grid, n));
        }
      }
      forall r, c | InBounds(grid, r, c) && grid[r][c].g.Fin? && grid[r][c] != current
        ensures grid[r][c] in OpenCells(pushed) || (Settled(grid, grid[r][c]) && grid[r][c] != endNode)
      {
        var n := grid[r][c];
        if n != neighbor && n !in OpenCells(open) {
          assert old(Settled(grid, n));
          assert Settled(grid, n);
        }
      }
    } else {
      pushed, improved := open, false;
    }
  }

  /** The parent chain `ReconstructPath` returns for the goal, as the facts
      `FoundPath` starts from. */
  ghost predicate GoalChain(grid: Grid, endNode: Node, path: seq<Node>)
    reads endNode, Cells(grid)
  {
    |path| > 0 && path[|path| - 1] == endNode && endNode.g.Fin? &&
    (forall i :: 0 <= i < |path| ==> In(grid, path[i])) &&
    path[0].parent.None? &&
    (forall i :: 0 <= i < |path| - 1 ==> Linked(path[i + 1], path[i]))
  }

  lemma ChainFromStart(grid: Grid, start: Node, endNode: Node, path: seq<Node>)
    requires WellFormed(grid) && SearchState(grid, start, endNode) && GoalChain(grid, endNode, path)
    ensures path[0] == start
  {
    if |path| > 1 {
      assert Linked(path[1], path[0]);
    }
    assert CellOk(grid, grid[path[0].row][path[0].col], start, endNode);
  }

  lemma ChainOpen(grid: Grid, start: Node, endNode: Node, path: seq<Node>)
    requires WellFormed(grid) && SearchState(grid, start, endNode) && GoalChain(grid, endNode, path)
    ensures forall i :: 0 < i < |path| ==> !path[i].isWall
  {
    forall i | 0 < i < |path|
      ensures !path[i].isWall
    {
      assert Linked(path[i], path[i - 1]);
      assert CellOk(grid, grid[path[i].row][path[i].col], start, endNode);
    }
  }

  lemma ChainSteps(grid: Grid, endNode: Node, path: seq<Node>)
    requires GoalChain(grid, endNode, path)
    ensures Steps(path)
  {
    forall i | 0 <= i < |path| - 1
      ensures Adjacent(path[i], path[i + 1])
    {
      assert Linked(path[i + 1], path[i]);
    }
  }

  /** The goal's parent chain, read as coordinates, is a walk from the start;
      when the goal is the start, the chain is the start alone. */
  lemma FoundPath(grid: Grid, start: Node, endNode: Node, path: seq<Node>)
    requires WellFormed(grid) && SearchState(grid, start, endNode) && GoalChain(grid, endNode, path)
    ensures path[0] == start
    ensures forall i :: 0 < i < |path| ==> !path[i].isWall
    ensures Steps(path)
    ensures Reachable(grid, start, endNode)
    ensures start == endNode ==> path == [start]
  {
    ChainFromStart(grid, start, endNode, path);
    ChainOpen(grid, start, endNode, path);
    ChainSteps(grid, endNode, path);
    var w := Trace(path);
    forall i | 0 <= i < |w| - 1
      ensures PosAdjacent(w[i], w[i + 1])
    {
      assert Adjacent(path[i], path[i + 1]);
    }
    forall i | 0 < i < |w|
      ensures !grid[w[i].row][w[i].col].isWall
    {
      assert In(grid, path[i]);
    }
    assert IsWalk(grid, w, start, endNode);
    if |path| > 1 {
      assert Linked(path[|path| - 1], path[|path| - 2]);
    }
    if start == endNode {
      assert |path| == 1;
    }
  }

  /** Once the open set is empty, every reached cell is expanded and none is
      the goal; the reached cells are then closed under open steps, so no walk
      leads from the start to the goal. */
  lemma ClosedSearchUnreachable(grid: Grid, start: Node, endNode: Node)
    requires WellFormed(grid) && SearchState(grid, start, endNode) && In(grid, endNode)
    requires FrontierOk(grid, [], endNode)
    ensures !Reachable(grid, start, endNode)
    ensures start != endNode
  {
    assert OpenCells([]) == {};
    forall w | IsWalk(grid, w, start, endNode)
      ensures false
    {
      WalkStaysReached(grid, start, endNode, w, |w| - 1);
    }
  }

  lemma {:induction false} WalkStaysReached(grid: Grid, start: Node, endNode: Node, w: seq<Pos>, i: nat)
    requires WellFormed(grid) && SearchState(grid, start, endNode)
    requires forall r, c :: InBounds(grid, r, c) && grid[r][c].g.Fin? ==> Settled(grid, grid[r][c])
    requires IsWalk(grid, w, start, endNode) && i < |w|
    ensures grid[w[i].row][w[i].col].g.Fin?
  {
    if i > 0 {
      WalkStaysReached(grid, start, endNode, w, i - 1);
      var p, q := w[i - 1], w[i];
      assert Settled(grid, grid[p.row][p.col]);
      assert Adjacent(grid[p.row][p.col], grid[q.row][q.col]);
    }
  }

  /** The fields an improved neighbour gets: `current` as parent, g one
      above current's, the heuristic as h and f = g + h. */
  ghost predicate Improved(n: Node, current: Node, endNode: Node)
    reads n, current
  {
    n.parent == Some(current.At()) && n.g == Add(current.g, 1) &&
    n.h == Heuristic(n, endNode) && n.f == Add(n.g, n.h)
  }

  /** The neighbours in `ns` whose flag in `better` is set, in order. */
  ghost function Chosen(ns: seq<Node>, better: seq<bool>): (chosen: seq<Node>)
    requires |better| == |ns|
    ensures forall n :: n in chosen ==> exists j :: 0 <= j < |ns| && better[j] && ns[j] == n
  {
    if ns == [] then []
    else
      var k := |ns| - 1;
      Chosen(ns[..k], better[..k]) + (if better[k] then [ns[k]] else [])
  }

  /** The nodes of a run of heap entries, in order. */
  ghost function NodesOf(es: seq<Entry>): seq<Node>
  {
    seq(|es|, k requires 0 <= k < |es| => es[k].node)
  }

  lemma ChosenSnoc(ns: seq<Node>, better: seq<bool>, n: Node, b: bool)
    requires |better| == |ns|
    ensures Chosen(ns + [n], better + [b]) == Chosen(ns, better) + (if b then [n] else [])
  {
    assert (ns + [n])[..|ns|] == ns;
    assert (better + [b])[..|ns|] == better;
  }

  lemma PushAssoc(open: seq<Entry>, added: seq<Entry>, e: Entry)
    ensures open + added + [e] == open + (added + [e])
  {
  }

  lemma NodesOfSnoc(es: seq<Entry>, e: Entry)
    ensures NodesOf(es + [e]) == NodesOf(es) + [e.node]
  {
  }

  /** The heap `pushed` is `open` followed by `added`, one entry per
      neighbour of `seen` whose flag in `better` is set, in order, each keyed
      by the cost through a cell of cost `g`. */
  ghost predicate Pushed(open: seq<Entry>, pushed: seq<Entry>, added: seq<Entry>, seen: seq<Node>, better: seq<bool>, g: Cost, endNode: Node)
  {
    |better| == |seen| && pushed == open + added &&
    NodesOf(added) == Chosen(seen, better) &&
    forall e :: e in added ==> e.key == Add(Add(g, 1), Heuristic(e.node, endNode))
  }

  /** One more neighbour keeps `Pushed`. */
  lemma PushedStep(open: seq<Entry>, pushed: seq<Entry>, added: seq<Entry>, seen: seq<Node>, better: seq<bool>, g: Cost, endNode: Node,
                   n: Node, b: bool, pushed': seq<Entry>)
    requires Pushed(open, pushed, added, seen, better, g, endNode)
    requires b ==> pushed' == pushed + [Entry(Add(Add(g, 1), Heuristic(n, endNode)), n)]
    requires !b ==> pushed' == pushed
    ensures Pushed(open, pushed', pushed'[|open|..], seen + [n], better + [b], g, endNode)
  {
    ChosenSnoc(seen, better, n, b);
    if b {
      var e := Entry(Add(Add(g, 1), Heuristic(n, endNode)), n);
      NodesOfSnoc(added, e);
      PushAssoc(open, added, e);
      assert pushed'[|open|..] == added + [e];
    } else {
      assert pushed'[|open|..] == added;
    }
  }

  /** The search fields of one cell, as a value. */
  datatype Fields = Fields(g: Cost, h: nat, f: Cost, parent: Option<Pos>, isWall: bool)

  ghost function FieldsOf(n: Node): Fields
    reads n
  {
    Fields(n.g, n.h, n.f, n.parent, n.isWall)
  }

  /** `before` has the shape of `grid`. */
  ghost predicate Shaped(grid: Grid, before: seq<seq<Fields>>)
  {
    |before| == |grid| && forall r :: 0 <= r < |grid| ==> |before[r]| == |grid[r]|
  }

  /** `before` records the fields of the cell at (r, c). */
  ghost predicate Recorded(grid: Grid, before: seq<seq<Fields>>, r: int, c: int)
    reads Cells(grid)
  {
    InBounds(grid, r, c) && r < |before| && c < |before[r]| && before[r][c] == FieldsOf(grid[r][c])
  }

  /** `before` records the fields of every cell of `grid`. */
  ghost predicate IsSnapshot(grid: Grid, before: seq<seq<Fields>>)
    reads Cells(grid)
  {
    Shaped(grid, before) &&
    forall r, c {:trigger Recorded(grid, before, r, c)} :: InBounds(grid, r, c) ==> Recorded(grid, before, r, c)
  }

  /** The g values a snapshot records, row by row. */
  ghost function Gs(before: seq<seq<Fields>>): seq<seq<Cost>>
  {
    seq(|before|, r requires 0 <= r < |before| =>
      seq(|before[r]|, c requires 0 <= c < |before[r]| => before[r][c].g))
  }

  /** The wall flags a snapshot records, row by row. */
  ghost function WallsOf(before: seq<seq<Fields>>): seq<seq<bool>>
  {
    seq(|before|, r requires 0 <= r < |before| =>
      seq(|before[r]|, c requires 0 <= c < |before[r]| => before[r][c].isWall))
  }

  /** The wall flags of the grid, row by row. */
  ghost function Walls(grid: Grid): seq<seq<bool>>
    reads Cells(grid)
  {
    seq(|grid|, r requires 0 <= r < |grid| reads Cells(grid) =>
      seq(|grid[r]|, c requires 0 <= c < |grid[r]| reads Cells(grid) => grid[r][c].isWall))
  }

  /** Wall flags that agree cell by cell with the grid are its `Walls`. */
  lemma SameWalls(grid: Grid, w: seq<seq<bool>>)
    requires |w| == |grid| && forall r :: 0 <= r < |grid| ==> |w[r]| == |grid[r]|
    requires forall r, c :: InBounds(grid, r, c) ==> grid[r][c].isWall == w[r][c]
    ensures Walls(grid) == w
  {
    forall r | 0 <= r < |grid|
      ensures Walls(grid)[r] == w[r]
    {
      assert forall c :: 0 <= c < |grid[r]| ==> InBounds(grid, r, c);
    }
  }

  /** A snapshot records the g values and the walls of the grid. */
  lemma SnapshotValues(grid: Grid, before: seq<seq<Fields>>)
    requires IsSnapshot(grid, before)
    ensures Gs(before) == GVals(grid)
    ensures WallsOf(before) == Walls(grid)
  {
    forall r | 0 <= r < |grid|
      ensures Gs(before)[r] == GVals(grid)[r]
      ensures WallsOf(before)[r] == Walls(grid)[r]
    {
      forall c | 0 <= c < |grid[r]|
        ensures Gs(before)[r][c] == GVals(grid)[r][c]
        ensures WallsOf(before)[r][c] == Walls(grid)[r][c]
      {
        assert Recorded(grid, before, r, c);
      }
    }
  }

  /** The search fields of the grid, row by row. */
  ghost function Snapshot(grid: Grid): seq<seq<Fields>>
    reads Cells(grid)
  {
    seq(|grid|, r requires 0 <= r < |grid| reads Cells(grid) =>
      seq(|grid[r]|, c requires 0 <= c < |grid[r]| reads Cells(grid) => FieldsOf(grid[r][c])))
  }

  /** The fields a snapshot records at `n`'s coordinates. */
  ghost function Was(before: seq<seq<Fields>>, n: Node): Fields
  {
    if 0 <= n.row < |before| && 0 <= n.col < |before[n.row]| then before[n.row][n.col]
    else Fields(Inf, 0, Inf, None, false)
  }

  /** What relaxing neighbour `n` from `current` did to a cell whose fields
      were `was`: `b` says whether it is open and the route through `current`
      is strictly shorter (`tentative_g < neighbor.g`); if so, `n` got the
      fields of `Improved`, and otherwise it kept `was`. */
  ghost predicate Outcome(n: Node, was: Fields, b: bool, current: Node, endNode: Node)
    reads n, current
  {
    b == (!was.isWall && Lt(Add(current.g, 1), was.g)) &&
    if b then Improved(n, current, endNode) && n.isWall == was.isWall
    else FieldsOf(n) == was
  }

  /** The loop `for neighbor in get_neighbors(grid, current)`: relax each
      neighbour in turn. Only the
      neighbours change; `better[j]` records whether `neighbors[j]` was
      improved, and `added` holds the entries pushed, in order. */
  method RelaxAll(grid: Grid, start: Node, endNode: Node, current: Node, neighbors: seq<Node>, open: seq<Entry>,
                  ghost was: seq<Fields>)
    returns (pushed: seq<Entry>, improved: bool, ghost better: seq<bool>, ghost added: seq<Entry>)
    requires WellFormed(grid) && SearchState(grid, start, endNode)
    requires In(grid, current) && current.g.Fin?
    requires forall i :: 0 <= i < |neighbors| ==> In(grid, neighbors[i]) && Adjacent(current, neighbors[i])
    requires forall i, j :: 0 <= i < j < |neighbors| ==> neighbors[i] != neighbors[j]
    requires FrontierOkBut(grid, open, endNode, current)
    requires |was| == |neighbors| && forall j :: 0 <= j < |neighbors| ==> FieldsOf(neighbors[j]) == was[j]
    modifies set j | 0 <= j < |neighbors| :: neighbors[j]
    ensures SearchState(grid, start, endNode)
    ensures FrontierOkBut(grid, pushed, endNode, current)
    ensures |better| == |neighbors|
    ensures forall j :: 0 <= j < |neighbors| ==> Outcome(neighbors[j], was[j], better[j], current, endNode)
    ensures Pushed(open, pushed, added, neighbors, better, current.g, endNode)
    ensures improved == (true in better)
    ensures !improved ==> |pushed| == |open|
  {
    pushed, improved, better, added := open, false, [], [];
    ghost var seen: seq<Node> := [];
    assert current !in neighbors;
    for i := 0 to |neighbors|
      invariant SearchState(grid, start, endNode)
      invariant FrontierOkBut(grid, pushed, endNode, current)
      invariant |better| == i
      invariant unchanged(current)
      invariant forall j {:trigger was[j]} :: 0 <= j < |neighbors| ==>
        if j < i then Outcome(neighbors[j], was[j], better[j], current, endNode) else FieldsOf(neighbors[j]) == was[j]
      invariant |seen| == i && forall j :: 0 <= j < i ==> seen[j] == neighbors[j]
      invariant Pushed(open, pushed, added, seen, better, current.g, endNode)
      invariant improved == (true in better)
      invariant !improved ==> |pushed| == |open|
    {
      var neighbor := neighbors[i];
      var b;
      ghost var prior := pushed;
      label step:
      pushed, b := Relax(grid, start, endNode, current, neighbor, pushed);
      PushedStep(open, prior, added, seen, better, current.g, endNode, neighbor, b, pushed);
      added := pushed[|open|..];
      assert forall j :: 0 <= j < |neighbors| && j != i ==> neighbors[j] != neighbor;
      seen, better := seen + [neighbor], better + [b];
      improved := improved || b;
    }
    assert seen == neighbors;
  }

  /** What the outcomes of the neighbours give about the whole grid: only
      improved neighbours changed, walls stayed walls and no g rose. */
  lemma OutcomesBelow(grid: Grid, current: Node, endNode: Node, neighbors: seq<Node>, better: seq<bool>,
                      before: seq<seq<Fields>>)
    requires WellFormed(grid) && Shaped(grid, before) && current.g.Fin?
    requires forall i :: 0 <= i < |neighbors| ==> In(grid, neighbors[i])
    requires |better| == |neighbors|
    requires forall j :: 0 <= j < |neighbors| ==> Outcome(neighbors[j], Was(before, neighbors[j]), better[j], current, endNode)
    requires forall r, c :: InBounds(grid, r, c) && grid[r][c] !in neighbors ==> FieldsOf(grid[r][c]) == before[r][c]
    ensures forall r, c :: InBounds(grid, r, c) ==>
      grid[r][c].isWall == before[r][c].isWall && Le(grid[r][c].g, before[r][c].g)
  {
    forall r, c | InBounds(grid, r, c)
      ensures grid[r][c].isWall == before[r][c].isWall && Le(grid[r][c].g, before[r][c].g)
    {
      if grid[r][c] in neighbors {
        var j :| 0 <= j < |neighbors| && neighbors[j] == grid[r][c];
        assert Outcome(neighbors[j], Was(before, neighbors[j]), better[j], current, endNode);
      }
    }
  }

  /** After relaxing, every neighbour is a wall or within one step of
      `current`'s g, and each pushed key is its node's new f. */
  lemma OutcomesRelaxed(current: Node, endNode: Node, neighbors: seq<Node>, better: seq<bool>, added: seq<Entry>,
                        before: seq<seq<Fields>>)
    requires current.g.Fin? && |better| == |neighbors|
    requires forall j :: 0 <= j < |neighbors| ==> Outcome(neighbors[j], Was(before, neighbors[j]), better[j], current, endNode)
    requires NodesOf(added) == Chosen(neighbors, better)
    requires forall e :: e in added ==> e.key == Add(Add(current.g, 1), Heuristic(e.node, endNode))
    ensures forall j :: 0 <= j < |neighbors| ==> Relaxed(current, neighbors[j])
    ensures forall e :: e in added ==> e.key == e.node.f
  {
    forall j | 0 <= j < |neighbors|
      ensures Relaxed(current, neighbors[j])
    {
      assert Outcome(neighbors[j], Was(before, neighbors[j]), better[j], current, endNode);
    }
    forall e | e in added
      ensures e.key == e.node.f
    {
      var k :| 0 <= k < |added| && added[k] == e;
      assert e.node == NodesOf(added)[k];
      assert e.node in Chosen(neighbors, better);
      var j :| 0 <= j < |neighbors| && better[j] && neighbors[j] == e.node;
      assert Outcome(neighbors[j], Was(before, neighbors[j]), better[j], current, endNode);
    }
  }

  /** What expanding `current` did, as `Expand` states it: `neighbors` are
      the grid cells one step from `current`; each was relaxed with the
      outcome `better[j]` from the fields `before` recorded; no other cell
      changed; `added` holds one entry per improved neighbour, in order,
      keyed by its new f; and `current` is expanded. */
  ghost predicate Expanded(grid: Grid, current: Node, endNode: Node, neighbors: seq<Node>, better: seq<bool>,
                           added: seq<Entry>, before: seq<seq<Fields>>)
    reads Cells(grid), current, neighbors, set e | e in added :: e.node
  {
    (forall i :: 0 <= i < |neighbors| ==> In(grid, neighbors[i]) && Adjacent(current, neighbors[i])) &&
    (forall r, c :: InBounds(grid, r, c) && Adjacent(current, grid[r][c]) ==> grid[r][c] in neighbors) &&
    |better| == |neighbors| && Shaped(grid, before) &&
    (forall j :: 0 <= j < |neighbors| ==> Outcome(neighbors[j], Was(before, neighbors[j]), better[j], current, endNode)) &&
    (forall r, c :: InBounds(grid, r, c) && grid[r][c] !in neighbors ==> FieldsOf(grid[r][c]) == before[r][c]) &&
    NodesOf(added) == Chosen(neighbors, better) &&
    (forall e :: e in added ==> e.key == e.node.f) &&
    Settled(grid, current)
  }

  /** The facts `Expanded` bundles, one by one. */
  lemma ExpandedIntro(grid: Grid, current: Node, endNode: Node, neighbors: seq<Node>, better: seq<bool>,
                      added: seq<Entry>, before: seq<seq<Fields>>)
    requires WellFormed(grid)
    requires forall i :: 0 <= i < |neighbors| ==> In(grid, neighbors[i]) && Adjacent(current, neighbors[i])
    requires forall m :: In(grid, m) && Adjacent(current, m) ==> m in neighbors
    requires |better| == |neighbors| && Shaped(grid, before)
    requires forall j :: 0 <= j < |neighbors| ==> Outcome(neighbors[j], Was(before, neighbors[j]), better[j], current, endNode)
    requires forall r, c :: InBounds(grid, r, c) && grid[r][c] !in neighbors ==> FieldsOf(grid[r][c]) == before[r][c]
    requires NodesOf(added) == Chosen(neighbors, better)
    requires forall e :: e in added ==> e.key == e.node.f
    requires Settled(grid, current)
    ensures Expanded(grid, current, endNode, neighbors, better, added, before)
  {
    forall r, c | InBounds(grid, r, c) && Adjacent(current, grid[r][c])
      ensures grid[r][c] in neighbors
    {
      assert In(grid, grid[r][c]);
    }
  }

  /** The expansion of a popped cell: relax every open neighbour of `current`, which is then
      expanded at its present g. `before` holds the fields every cell had;
      `better[j]` records whether `neighbors[j]` was improved; the entries
      pushed are `added`, in order. */
  method Expand(grid: Grid, start: Node, endNode: Node, current: Node, neighbors: seq<Node>, open: seq<Entry>,
                ghost before: seq<seq<Fields>>)
    returns (pushed: seq<Entry>, improved: bool, ghost better: seq<bool>, ghost added: seq<Entry>)
    requires WellFormed(grid) && SearchState(grid, start, endNode)
    requires In(grid, current) && current.g.Fin? && current != endNode
    requires forall i :: 0 <= i < |neighbors| ==> In(grid, neighbors[i]) && Adjacent(current, neighbors[i])
    requires forall i, j :: 0 <= i < j < |neighbors| ==> neighbors[i] != neighbors[j]
    requires forall m :: In(grid, m) && Adjacent(current, m) ==> m in neighbors
    requires FrontierOkBut(grid, open, endNode, current)
    requires IsSnapshot(grid, before)
    modifies Cells(grid)
    ensures SearchState(grid, start, endNode)
    ensures FrontierOk(grid, pushed, endNode)
    ensures Expanded(grid, current, endNode, neighbors, better, added, before)
    ensures pushed == open + added
    ensures forall r, c :: InBounds(grid, r, c) ==>
      grid[r][c].isWall == before[r][c].isWall && Le(grid[r][c].g, before[r][c].g)
    ensures improved == (true in better)
    ensures !improved ==> |pushed| == |open|
  {
    forall j | 0 <= j < |neighbors|
      ensures neighbors[j] in Cells(grid)
      ensures FieldsOf(neighbors[j]) == Was(before, neighbors[j])
    {
      InCells(grid, neighbors[j]);
      assert Recorded(grid, before, neighbors[j].row, neighbors[j].col);
    }
    ghost var was := seq(|neighbors|, j requires 0 <= j < |neighbors| => Was(before, neighbors[j]));
    pushed, improved, better, added := RelaxAll(grid, start, endNode, current, neighbors, open, was);
    assert forall j :: 0 <= j < |neighbors| ==> was[j] == Was(before, neighbors[j]);
    forall r, c | InBounds(grid, r, c) && grid[r][c] !in neighbors
      ensures FieldsOf(grid[r][c]) == before[r][c]
    {
      assert old(Recorded(grid, before, r, c));
    }
    OutcomesBelow(grid, current, endNode, neighbors, better, before);
    OutcomesRelaxed(current, endNode, neighbors, better, added, before);
    ExpandedSettled(grid, current, neighbors);
    CloseFrontier(grid, pushed, endNode, current);
    ExpandedIntro(grid, current, endNode, neighbors, better, added, before);
  }

  /** No g rose since `before`, and an improved neighbour's g fell: the
      measure of `Potential` falls, or, with no neighbour improved, stays
      while the open set shrinks from n to m. */
  lemma ExpandProgress(grid: Grid, before: seq<seq<Fields>>, current: Node, endNode: Node, neighbors: seq<Node>,
                       better: seq<bool>, added: seq<Entry>, m: nat, n: nat)
    requires WellFormed(grid) && Shaped(grid, before)
    requires forall r, c :: InBounds(grid, r, c) ==> Le(grid[r][c].g, before[r][c].g)
    requires Expanded(grid, current, endNode, neighbors, better, added, before)
    requires !(true in better) ==> m < n
    ensures Potential.Progress(GVals(grid), m, Gs(before), n)
  {
    var now, snap := GVals(grid), Gs(before);
    assert Potential.Below(now, snap) by {
      forall r | 0 <= r < |snap|
        ensures |now[r]| == |snap[r]|
        ensures forall c :: 0 <= c < |snap[r]| ==> Le(now[r][c], snap[r][c])
      {
        forall c | 0 <= c < |snap[r]|
          ensures Le(now[r][c], snap[r][c])
        {
          assert InBounds(grid, r, c);
        }
      }
    }
    Potential.Descent(now, snap);
    if true in better {
      var j :| 0 <= j < |neighbors| && better[j];
      assert Outcome(neighbors[j], Was(before, neighbors[j]), true, current, endNode);
      Potential.StrictDescent(now, snap, neighbors[j].row, neighbors[j].col);
    }
  }

  /** Expanding `current` completes the frontier facts. */
  lemma CloseFrontier(grid: Grid, open: seq<Entry>, endNode: Node, current: Node)
    requires FrontierOkBut(grid, open, endNode, current)
    requires Settled(grid, current) && current != endNode
    ensures FrontierOk(grid, open, endNode)
  {
  }

  /** `m` is a wall or has been given a g at most one above current's. */
  ghost predicate Relaxed(current: Node, m: Node)
    reads current, m
  {
    m.isWall || (m.g.Fin? && current.g.Fin? && m.g.n <= current.g.n + 1)
  }

  /** After the loop over all neighbours, `current` is expanded. */
  lemma ExpandedSettled(grid: Grid, current: Node, neighbors: seq<Node>)
    requires WellFormed(grid) && In(grid, current) && current.g.Fin?
    requires forall m :: In(grid, m) && Adjacent(current, m) ==> m in neighbors
    requires forall j :: 0 <= j < |neighbors| ==> Relaxed(current, neighbors[j])
    ensures Settled(grid, current)
  {
    forall r, c | InBounds(grid, r, c) && Adjacent(current, grid[r][c]) && !grid[r][c].isWall
      ensures grid[r][c].g.Fin? && grid[r][c].g.n <= current.g.n + 1
    {
      assert In(grid, grid[r][c]);
      var j :| 0 <= j < |neighbors| && neighbors[j] == grid[r][c];
      assert Relaxed(current, neighbors[j]);
    }
  }

  /** The set-up before the loop: push the start with its initial f, then give it g = 0 and
      its heuristic. */
  method Begin(grid: Grid, start: Node, endNode: Node) returns (open: seq<Entry>)
    requires WellFormed(grid) && In(grid, start) && FreshSearch(grid)
    modifies start
    ensures open == [Entry(old(start.f), start)]
    ensures start.g == Fin(0) && start.h == Heuristic(start, endNode) && start.f == Fin(start.h)
    ensures start.parent == old(start.parent) && start.isWall == old(start.isWall)
    ensures SearchState(grid, start, endNode)
    ensures FrontierOk(grid, open, endNode)
  {
    open := [Entry(start.f, start)];
    start.g := Fin(0);
    start.h := Heuristic(start, endNode);
    start.f := Add(start.g, start.h);
    forall r, c | InBounds(grid, r, c)
      ensures CellOk(grid, grid[r][c], start, endNode)
    {
      if grid[r][c] != start {
        assert old(Untouched(grid[r][c]));
      }
    }
    assert OpenCells(open) == {start} by {
      assert open[0] in open;
    }
  }

  /** Taking an entry off the open set leaves the frontier facts for every
      cell but the one taken, which is reached. */
  lemma PopFrontier(grid: Grid, open: seq<Entry>, endNode: Node, e: Entry, rest: seq<Entry>)
    requires FrontierOk(grid, open, endNode)
    requires multiset(rest) + multiset{e} == multiset(open)
    ensures In(grid, e.node) && e.node.g.Fin?
    ensures FrontierOkBut(grid, rest, endNode, e.node)
  {
    assert e in multiset(open);
    OpenCellsPop(open, e, rest);
    forall x | x in rest
      ensures In(grid, x.node) && x.node.g.Fin?
    {
      assert x in multiset(rest);
      assert x in multiset(open);
    }
  }

  /** What `a_star` promises of a path it returns: it runs from `start` to
      `endNode` through cells of the grid, enters no wall after the first
      cell, follows parent links and grid steps, and shows the goal
      reachable; a search that starts at the goal returns `[start]`. */
  ghost predicate Answer(grid: Grid, start: Node, endNode: Node, path: seq<Node>)
    reads Cells(grid), path
  {
    path != [] && path[0] == start && path[|path| - 1] == endNode &&
    (forall i :: 0 <= i < |path| ==> In(grid, path[i])) &&
    (forall i :: 0 < i < |path| ==> !path[i].isWall) &&
    (forall i :: 0 <= i < |path| - 1 ==> Linked(path[i + 1], path[i])) &&
    Steps(path) && Reachable(grid, start, endNode) &&
    (start == endNode ==> path == [start])
  }

  /** The branch `if current == end`: the goal has been popped, and its parent chain is the
      answer: a walk of open cells from the start to the goal, along links of
      rising g. */
  method Finish(grid: Grid, start: Node, endNode: Node) returns (path: seq<Node>)
    requires WellFormed(grid) && SearchState(grid, start, endNode)
    requires In(grid, endNode) && endNode.g.Fin?
    ensures path != []
    ensures path[0] == start && path[|path| - 1] == endNode
    ensures forall i :: 0 <= i < |path| ==> In(grid, path[i])
    ensures forall i :: 0 < i < |path| ==> !path[i].isWall
    ensures forall i :: 0 <= i < |path| - 1 ==> Linked(path[i + 1], path[i])
    ensures Steps(path)
    ensures Reachable(grid, start, endNode)
    ensures start == endNode ==> path == [start]
  {
    SearchStateLinks(grid, start, endNode);
    path := ReconstructPath(grid, endNode);
    forall r, c | InBounds(grid, r, c)
      ensures CellOk(grid, grid[r][c], start, endNode)
    {
      assert old(CellOk(grid, grid[r][c], start, endNode));
    }
    assert GoalChain(grid, endNode, path);
    FoundPath(grid, start, endNode, path);
  }

  /** The expansion of a popped cell that is not the goal: expand `current`
      over the `neighbors` returned by `get_neighbors`, relaxing each as
      `Expand` does and pushing `added`. This lowers the measure of
      `Potential` or, with every g as it was, leaves the open set no larger
      than before the pop. */
  method Advance(grid: Grid, start: Node, endNode: Node, current: Node, open: seq<Entry>,
                 ghost before: seq<seq<Fields>>)
    returns (rest: seq<Entry>, neighbors: seq<Node>, ghost better: seq<bool>, ghost added: seq<Entry>)
    requires WellFormed(grid) && SearchState(grid, start, endNode)
    requires In(grid, current) && current.g.Fin? && current != endNode
    requires FrontierOkBut(grid, open, endNode, current)
    requires IsSnapshot(grid, before)
    modifies Cells(grid)
    ensures SearchState(grid, start, endNode)
    ensures forall r, c :: InBounds(grid, r, c) ==> grid[r][c].isWall == before[r][c].isWall
    ensures Expanded(grid, current, endNode, neighbors, better, added, before)
    ensures forall i, j :: 0 <= i < j < |neighbors| ==> Direction(current, neighbors[i]) < Direction(current, neighbors[j])
    ensures rest == open + added
    ensures FrontierOk(grid, rest, endNode)
    ensures Potential.Progress(GVals(grid), |rest|, Gs(before), |open| + 1)
  {
    neighbors := GetNeighbors(grid, current);
    assert forall i, j :: 0 <= i < j < |neighbors| ==> neighbors[i] != neighbors[j];
    assert IsSnapshot(grid, before);
    var improved;
    rest, improved, better, added := Expand(grid, start, endNode, current, neighbors, open, before);
    ExpandProgress(grid, before, current, endNode, neighbors, better, added, |rest|, |open| + 1);
  }

  /** The loop body after the pop, for a popped cell `current`: at the goal, return
      its parent chain and change nothing; otherwise `Advance` from it, with
      `before` the fields every cell had. */
  method Step(grid: Grid, start: Node, endNode: Node, current: Node, open: seq<Entry>, ghost before: seq<seq<Fields>>)
    returns (rest: seq<Entry>, done: bool, path: seq<Node>, neighbors: seq<Node>,
             ghost better: seq<bool>, ghost added: seq<Entry>)
    requires WellFormed(grid) && SearchState(grid, start, endNode) && In(grid, endNode)
    requires In(grid, current) && current.g.Fin?
    requires FrontierOkBut(grid, open, endNode, current)
    requires IsSnapshot(grid, before)
    modifies Cells(grid)
    ensures SearchState(grid, start, endNode)
    ensures Walls(grid) == WallsOf(before)
    ensures done <==> current == endNode
    ensures done ==> Answer(grid, start, endNode, path)
    ensures done ==> rest == open && IsSnapshot(grid, before)
    ensures !done ==> rest == open + added
    ensures !done ==> Expanded(grid, current, endNode, neighbors, better, added, before)
    ensures !done ==> forall i, j :: 0 <= i < j < |neighbors| ==>
      Direction(current, neighbors[i]) < Direction(current, neighbors[j])
    ensures !done ==> FrontierOk(grid, rest, endNode)
    ensures !done ==> Potential.Progress(GVals(grid), |rest|, Gs(before), |open| + 1)
  {
    if current == endNode {
      path := Finish(grid, start, endNode);
      SnapshotValues(grid, before);
      return open, true, path, [], [], [];
    }
    rest, neighbors, better, added := Advance(grid, start, endNode, current, open, before);
    SameWalls(grid, WallsOf(before));
    done, path := false, [];
  }

  /** One round of `while open_set`: pop an entry `popped` of least f, then
      `Step` from its node with `before` the fields every cell had. A round
      at the goal returns its parent chain and changes nothing; one that
      goes on lowers the measure of `Potential` or, with every g as it was,
      shrinks the open set. */
  method Round(grid: Grid, start: Node, endNode: Node, open: seq<Entry>)
    returns (rest: seq<Entry>, done: bool, path: seq<Node>, ghost popped: Entry, neighbors: seq<Node>,
             ghost before: seq<seq<Fields>>, ghost better: seq<bool>, ghost added: seq<Entry>)
    requires WellFormed(grid) && SearchState(grid, start, endNode) && In(grid, endNode)
    requires FrontierOk(grid, open, endNode) && |open| > 0
    modifies Cells(grid)
    ensures SearchState(grid, start, endNode)
    ensures Walls(grid) == old(Walls(grid))
    ensures IsMin(open, popped)
    ensures done <==> popped.node == endNode
    ensures before == old(Snapshot(grid))
    ensures done ==> Answer(grid, start, endNode, path)
    ensures done ==> multiset(rest) + multiset{popped} == multiset(open)
    ensures done ==> IsSnapshot(grid, before)
    ensures !done ==> multiset(rest) + multiset{popped} == multiset(open) + multiset(added)
    ensures !done ==> Expanded(grid, popped.node, endNode, neighbors, better, added, before)
    ensures !done ==> forall i, j :: 0 <= i < j < |neighbors| ==>
      Direction(popped.node, neighbors[i]) < Direction(popped.node, neighbors[j])
    ensures !done ==> FrontierOk(grid, rest, endNode)
    ensures !done ==> Potential.Progress(GVals(grid), |rest|, old(GVals(grid)), |open|)
  {
    before := Snapshot(grid);
    SnapshotValues(grid, before);
    var entry, left := Pop(open);
    popped := entry;
    PopFrontier(grid, open, endNode, entry, left);
    rest, done, path, neighbors, better, added := Step(grid, start, endNode, entry.node, left, before);
  }

  /** `a_star` on a grid no search has touched yet. */
  method AStar(grid: Grid, start: Node, endNode: Node) returns (path: seq<Node>)
    requires WellFormed(grid) && In(grid, start) && In(grid, endNode)
    requires FreshSearch(grid)
    modifies Cells(grid)
    ensures SearchState(grid, start, endNode)
    ensures forall r, c :: InBounds(grid, r, c) ==> grid[r][c].isWall == old(grid[r][c].isWall)
    ensures path != [] ==>
      path[0] == start && path[|path| - 1] == endNode &&
      (forall i :: 0 <= i < |path| ==> In(grid, path[i])) &&
      (forall i :: 0 < i < |path| ==> !path[i].isWall) &&
      (forall i :: 0 <= i < |path| - 1 ==> Linked(path[i + 1], path[i])) &&
      Steps(path)
    ensures path != [] <==> Reachable(grid, start, endNode)
    ensures start == endNode ==> path == [start]
  {
    InCells(grid, start);
    var open := Begin(grid, start, endNode);
    SameWalls(grid, old(Walls(grid)));
    while |open| > 0
      invariant SearchState(grid, start, endNode)
      invariant FrontierOk(grid, open, endNode)
      invariant Walls(grid) == old(Walls(grid))
      decreases Potential.InfCount2(GVals(grid)), Potential.FinSum2(GVals(grid)), |open|
    {
      var done;
      ghost var popped, before, better, added;
      var neighbors;
      open, done, path, popped, neighbors, before, better, added := Round(grid, start, endNode, open);
      if done {
        return;
      }
    }
    assert open == [];
    path := [];
    ClosedSearchUnreachable(grid, start, endNode);
  }
}
