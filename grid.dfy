/** The grid of cells and the helpers of algorithm/a_star.py that work on it:
    the Manhattan heuristic, neighbour enumeration and grid construction. */
module Grids {
  import opened Costs
  import opened Nodes

  /** The source's List[List[Node]]: row r holds the cells of that row. */
  type Grid = seq<seq<Node>>

  predicate InBounds(grid: Grid, r: int, c: int)
  {
    0 <= r < |grid| && 0 <= c < |grid[r]|
  }

  /** `n` is the cell the grid stores at `n`'s own coordinates. */
  predicate In(grid: Grid, n: Node)
  {
    InBounds(grid, n.row, n.col) && grid[n.row][n.col] == n
  }

  /** Every row as long as the first, which is what `len(grid[0])` assumes. */
  ghost predicate Rectangular(grid: Grid)
  {
    forall r :: 0 <= r < |grid| ==> |grid[r]| == |grid[0]|
  }

  /** A rectangular grid whose cell at (r, c) has coordinates (r, c), as every
      grid built by `InitializeGrid` is. Distinct places then hold distinct nodes. */
  ghost predicate WellFormed(grid: Grid)
  {
    Rectangular(grid) &&
    forall r, c :: InBounds(grid, r, c) ==> grid[r][c].row == r && grid[r][c].col == c
  }

  /** All cells of the grid: what a search may read and update. */
  ghost function Cells(grid: Grid): set<Node>
  {
    set r, c | 0 <= r < |grid| && 0 <= c < |grid[r]| :: grid[r][c]
  }

  lemma InCells(grid: Grid, n: Node)
    requires In(grid, n)
    ensures n in Cells(grid)
  {
  }

  /** The search fields as `Node.__init__` leaves them. */
  ghost predicate Untouched(n: Node)
    reads n
  {
    n.g == Inf && n.h == 0 && n.f == Inf && n.parent == None
  }

  /** Every cell still carries the initial search fields (walls may be set). */
  ghost predicate FreshSearch(grid: Grid)
    reads Cells(grid)
  {
    forall r, c :: InBounds(grid, r, c) ==> Untouched(grid[r][c])
  }

  function Abs(x: int): nat
  {
    if x < 0 then -x else x
  }

  /** `heuristic`: the Manhattan distance between two cells. */
  function Heuristic(node: Node, endNode: Node): (r: nat)
    ensures r == 0 <==> node.row == endNode.row && node.col == endNode.col
  {
    Abs(node.row - endNode.row) + Abs(node.col - endNode.col)
  }

  lemma HeuristicSymmetric(a: Node, b: Node)
    ensures Heuristic(a, b) == Heuristic(b, a)
  {
  }

  /** One grid step: the two cells are at Manhattan distance exactly 1. */
  predicate Adjacent(a: Node, b: Node)
  {
    Heuristic(a, b) == 1
  }

  /** Consistency: one step changes the estimate to any goal by at most one. */
  lemma HeuristicConsistent(a: Node, b: Node, goal: Node)
    requires Adjacent(a, b)
    ensures Heuristic(a, goal) <= Heuristic(b, goal) + 1
  {
  }

  /** The offsets `get_neighbors` tries, in its order: right, down, left, up. */
  const Offsets: seq<(int, int)> := [(0, 1), (1, 0), (0, -1), (-1, 0)]

  /** The position of `m`'s offset from `n` in `Offsets`, or 4 if `m` is not one step away. */
  function Direction(n: Node, m: Node): nat
  {
    var dr, dc := m.row - n.row, m.col - n.col;
    if dr == 0 && dc == 1 then 0
    else if dr == 1 && dc == 0 then 1
    else if dr == 0 && dc == -1 then 2
    else if dr == -1 && dc == 0 then 3
    else 4
  }

  lemma DirectionIff(n: Node, m: Node, k: nat)
    requires k < |Offsets|
    ensures Direction(n, m) == k <==> (m.row - n.row, m.col - n.col) == Offsets[k]
  {
  }

  lemma AdjacentIffDirection(n: Node, m: Node)
    ensures Adjacent(n, m) <==> Direction(n, m) < 4
  {
  }

  /** The cells `get_neighbors` has collected after trying the first `k`
      offsets. */
  function NeighborsUpTo(grid: Grid, node: Node, k: nat): seq<Node>
    requires Rectangular(grid) && k <= |Offsets|
  {
    if k == 0 then []
    else
      var prev := NeighborsUpTo(grid, node, k - 1);
      var r, c := node.row + Offsets[k - 1].0, node.col + Offsets[k - 1].1;
      if 0 <= r < |grid| && 0 <= c < |grid[0]| then prev + [grid[r][c]] else prev
  }

  /** After `k` offsets, the collected cells are the grid cells whose direction
      is below `k`, each once, in the order of the offsets. */
  lemma {:induction false} NeighborsUpToFacts(grid: Grid, node: Node, k: nat)
    requires WellFormed(grid) && k <= |Offsets|
    ensures |NeighborsUpTo(grid, node, k)| <= k
    ensures forall i :: 0 <= i < |NeighborsUpTo(grid, node, k)| ==>
      In(grid, NeighborsUpTo(grid, node, k)[i]) && Direction(node, NeighborsUpTo(grid, node, k)[i]) < k
    ensures forall i, j :: 0 <= i < j < |NeighborsUpTo(grid, node, k)| ==>
      Direction(node, NeighborsUpTo(grid, node, k)[i]) < Direction(node, NeighborsUpTo(grid, node, k)[j])
    ensures forall m :: In(grid, m) && Direction(node, m) < k ==> m in NeighborsUpTo(grid, node, k)
  {
    if k > 0 {
      NeighborsUpToFacts(grid, node, k - 1);
      var prev := NeighborsUpTo(grid, node, k - 1);
      var r, c := node.row + Offsets[k - 1].0, node.col + Offsets[k - 1].1;
      if 0 <= r < |grid| && 0 <= c < |grid[0]| {
        var cell := grid[r][c];
        assert cell.row == r && cell.col == c;
        DirectionIff(node, cell, k - 1);
        var next := prev + [cell];
        assert NeighborsUpTo(grid, node, k) == next;
        forall i | 0 <= i < |next|
          ensures In(grid, next[i]) && Direction(node, next[i]) < k
        {
          if i < |prev| {
            assert next[i] == prev[i];
          }
        }
        forall i, j | 0 <= i < j < |next|
          ensures Direction(node, next[i]) < Direction(node, next[j])
        {
          assert next[i] == prev[i];
          if j < |prev| {
            assert next[j] == prev[j];
          }
        }
        forall m | In(grid, m) && Direction(node, m) < k
          ensures m in next
        {
          if Direction(node, m) == k - 1 {
            DirectionIff(node, m, k - 1);
            assert m == cell;
          }
        }
      } else {
        forall m | In(grid, m)
          ensures Direction(node, m) != k - 1
        {
          DirectionIff(node, m, k - 1);
          assert |grid[m.row]| == |grid[0]|;
        }
      }
    }
  }

  /** `get_neighbors`: the in-bounds cells one step from `node`, in the order
      right, down, left, up, walls included. */
  method GetNeighbors(grid: Grid, node: Node) returns (neighbors: seq<Node>)
    requires WellFormed(grid)
    ensures |neighbors| <= 4
    ensures forall i :: 0 <= i < |neighbors| ==> In(grid, neighbors[i]) && Adjacent(node, neighbors[i])
    ensures forall m :: In(grid, m) && Adjacent(node, m) ==> m in neighbors
    ensures forall i, j :: 0 <= i < j < |neighbors| ==> Direction(node, neighbors[i]) < Direction(node, neighbors[j])
  {
    neighbors := [];
    for k := 0 to |Offsets|
      invariant neighbors == NeighborsUpTo(grid, node, k)
    {
      var (dr, dc) := Offsets[k];
      var r, c := node.row + dr, node.col + dc;
      if 0 <= r < |grid| && 0 <= c < |grid[0]| {
        neighbors := neighbors + [grid[r][c]];
      }
    }
    NeighborsUpToFacts(grid, node, |Offsets|);
    AdjacentNeighbors(grid, node, neighbors);
  }

  /** A cell is one step away exactly when its direction is one of the four. */
  lemma AdjacentNeighbors(grid: Grid, node: Node, neighbors: seq<Node>)
    requires forall i :: 0 <= i < |neighbors| ==> Direction(node, neighbors[i]) < 4
    requires forall m :: In(grid, m) && Direction(node, m) < 4 ==> m in neighbors
    ensures forall i :: 0 <= i < |neighbors| ==> Adjacent(node, neighbors[i])
    ensures forall m :: In(grid, m) && Adjacent(node, m) ==> m in neighbors
  {
    forall m | In(grid, m) && Adjacent(node, m)
      ensures m in neighbors
    {
      AdjacentIffDirection(node, m);
    }
    forall i | 0 <= i < |neighbors|
      ensures Adjacent(node, neighbors[i])
    {
      AdjacentIffDirection(node, neighbors[i]);
    }
  }

  function Count(n: int): nat
  {
    if n < 0 then 0 else n
  }

  /** `initialize_grid`: `rows` rows of `cols` new nodes, the node at (r, c)
      having coordinates (r, c) and the initial field values. A negative count
      gives no rows (or empty rows), as Python's `range` does. */
  method InitializeGrid(rows: int, cols: int) returns (grid: Grid)
    ensures |grid| == Count(rows)
    ensures forall r :: 0 <= r < |grid| ==> |grid[r]| == Count(cols)
    ensures WellFormed(grid)
    ensures forall r, c :: InBounds(grid, r, c) ==>
      fresh(grid[r][c]) && Untouched(grid[r][c]) && !grid[r][c].isWall
  {
    grid := [];
    for r := 0 to Count(rows)
      invariant |grid| == r
      invariant forall i :: 0 <= i < r ==> |grid[i]| == Count(cols)
      invariant forall i, c :: InBounds(grid, i, c) ==>
        grid[i][c].row == i && grid[i][c].col == c &&
        fresh(grid[i][c]) && Untouched(grid[i][c]) && !grid[i][c].isWall
    {
      var line: seq<Node> := [];
      for c := 0 to Count(cols)
        invariant |line| == c
        invariant forall j :: 0 <= j < c ==>
          line[j].row == r && line[j].col == j &&
          fresh(line[j]) && Untouched(line[j]) && !line[j].isWall
        invariant forall i, c' :: InBounds(grid, i, c') ==>
          Untouched(grid[i][c']) && !grid[i][c'].isWall
      {
        var n := new Node(r, c);
        line := line + [n];
      }
      grid := grid + [line];
    }
  }
}
