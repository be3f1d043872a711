/** Paths through the grid: walks of grid steps, the parent links a search
    leaves behind, and `reconstruct_path`, which follows them back from a cell. */
module Paths {
  import opened Costs
  import opened Nodes
  import opened Grids

  /** Every step of `w` moves to an adjacent cell. */
  predicate Steps(w: seq<Node>)
  {
    forall i :: 0 <= i < |w| - 1 ==> Adjacent(w[i], w[i + 1])
  }

  /** One grid step between two coordinates. */
  predicate PosAdjacent(p: Pos, q: Pos)
  {
    Abs(p.row - q.row) + Abs(p.col - q.col) == 1
  }

  /** The coordinates of the cells of a path. */
  function Trace(path: seq<Node>): (t: seq<Pos>)
    ensures |t| == |path|
    ensures forall i :: 0 <= i < |path| ==> t[i] == path[i].At()
  {
    if path == [] then [] else [path[0].At()] + Trace(path[1..])
  }

  /** A walk from `a` to `b`, as coordinates: in bounds, one step apart, every
      cell after the first open (the first, where a search starts, may itself
      be a wall). */
  ghost predicate IsWalk(grid: Grid, w: seq<Pos>, a: Node, b: Node)
    reads Cells(grid)
  {
    |w| > 0 && w[0] == a.At() && w[|w| - 1] == b.At() &&
    (forall i :: 0 <= i < |w| ==> InBounds(grid, w[i].row, w[i].col)) &&
    (forall i :: 0 < i < |w| ==> !grid[w[i].row][w[i].col].isWall) &&
    (forall i :: 0 <= i < |w| - 1 ==> PosAdjacent(w[i], w[i + 1]))
  }

  /** Some walk leads from `a` to `b`. */
  ghost predicate Reachable(grid: Grid, a: Node, b: Node)
    reads Cells(grid)
  {
    exists w :: IsWalk(grid, w, a, b)
  }

  /** Admissibility of the heuristic: no walk is shorter than the Manhattan
      distance of its ends. */
  lemma {:induction false} HeuristicAdmissible(w: seq<Node>)
    requires |w| > 0 && Steps(w)
    ensures Heuristic(w[0], w[|w| - 1]) <= |w| - 1
  {
    if |w| > 1 {
      HeuristicAdmissible(w[1..]);
      HeuristicConsistent(w[0], w[1], w[|w| - 1]);
    }
  }

  /** The parent link of `n`, if it has one, names an adjacent cell of the grid
      whose g is finite and smaller than n's. */
  ghost predicate LinkOk(grid: Grid, n: Node)
    reads n, Cells(grid)
  {
    n.parent.Some? ==>
      var p := n.parent.value;
      InBounds(grid, p.row, p.col) &&
      Adjacent(grid[p.row][p.col], n) &&
      n.g.Fin? && grid[p.row][p.col].g.Fin? &&
      grid[p.row][p.col].g.n < n.g.n
  }

  ghost predicate ParentLinks(grid: Grid)
    reads Cells(grid)
  {
    forall r, c {:trigger LinkOk(grid, grid[r][c])} :: InBounds(grid, r, c) ==> LinkOk(grid, grid[r][c])
  }

  /** Python's `s[::-1]`. */
  function Reverse<T>(s: seq<T>): (r: seq<T>)
    ensures |r| == |s|
    ensures forall i :: 0 <= i < |s| ==> r[i] == s[|s| - 1 - i]
  {
    if s == [] then [] else Reverse(s[1..]) + [s[0]]
  }

  /** `child` names `p` as its parent, `p` is one step away, and both have
      finite g with p's the smaller. */
  ghost predicate Linked(child: Node, p: Node)
    reads child, p
  {
    child.parent == Some(p.At()) && Adjacent(p, child) &&
    p.g.Fin? && child.g.Fin? && p.g.n < child.g.n
  }

  /** `reconstruct_path`: the chain of parents that ends in `current`, from
      the cell without a parent up to `current`. */
  method ReconstructPath(grid: Grid, current: Node) returns (path: seq<Node>)
    requires WellFormed(grid) && In(grid, current) && ParentLinks(grid)
    ensures |path| > 0 && path[|path| - 1] == current
    ensures path[0].parent.None?
    ensures forall i :: 0 <= i < |path| ==> In(grid, path[i])
    ensures forall i :: 0 <= i < |path| - 1 ==> Linked(path[i + 1], path[i])
  {
    var reversed: seq<Node> := [];
    var node: Node? := current;
    while node != null
      invariant node != null ==> In(grid, node)
      invariant reversed == [] ==> node == current
      invariant reversed != [] ==> reversed[0] == current
      invariant forall i :: 0 <= i < |reversed| ==> In(grid, reversed[i])
      invariant forall i :: 0 <= i < |reversed| - 1 ==> Linked(reversed[i], reversed[i + 1])
      invariant reversed != [] && node != null ==> Linked(reversed[|reversed| - 1], node)
      invariant reversed != [] && node == null ==> reversed[|reversed| - 1].parent.None?
      decreases if node == null then 0 else if node.g.Fin? then node.g.n + 2 else 1
    {
      reversed := reversed + [node];
      assert LinkOk(grid, grid[node.row][node.col]);
      node := match node.parent
        case None => null
        case Some(p) => grid[p.row][p.col];
    }
    path := Reverse(reversed);
  }
}
