# A* grid search, modelled in Dafny

This project models the core of a small A* path finder on a 4-connected grid
with unit step costs:

- the mutable cell record `Node` (`models/node.py`);
- the helpers in `algorithm/a_star.py`: the Manhattan heuristic, neighbour
  enumeration, path reconstruction and grid construction;
- the main loop `a_star`. Its open set is a heap of `(f, node)` pairs. It
  keeps duplicate entries instead of a closed set, skips walls, relaxes a
  neighbour only on a strict improvement, and stops when the goal is popped
  or the heap is empty.

Layout, one module per file:

- `costs.dfy` (`Costs`): path costs. A cost is a natural number or the
  `Inf` sentinel that stands for `float('inf')`. It models Python's `+ 1`
  and `<` on these values.
- `node.dfy` (`Nodes`): `Node` as a class. Its coordinates are constant and
  its search fields are mutable. `__lt__` becomes `Less`.
- `grid.dfy` (`Grids`): the grid as a sequence of rows of nodes,
  `heuristic`, `get_neighbors` and `initialize_grid`.
- `paths.dfy` (`Paths`): walks, parent links and `reconstruct_path`.
- `frontier.dfy` (`Frontier`): the open set as a sequence of entries. `Pop`
  has the contract of `heapq.heappop`: it removes some entry of least key.
- `potential.dfy` (`Potential`): the termination measure of the main loop.
  It is the number of unreached cells, then the sum of the finite g values,
  then the size of the open set.
- `astar.dfy` (`Search`): `a_star`. The `Search.SearchState` invariant
  bundles what every cell keeps true:
  - `f == g + h`;
  - an unreached cell has no parent;
  - only the start is reached without a parent;
  - a cell with a parent is not a wall and is not the start;
  - each parent link names an adjacent cell of strictly smaller g.

  `Search.FrontierOk` says that every reached cell is either still in the
  open set or has been expanded since its g last fell. It is what makes an
  empty open set mean "unreachable".

  One round of the loop is split into `Round` (the pop), `Step` (the goal
  test), `Advance` (`get_neighbors`), `Expand` and `RelaxAll` (the inner
  loop) and `Relax` (one neighbour). `Round` returns a ghost `before`: a value copy of
  every cell's search fields at the start of the round (`old(Snapshot(grid))`).
  It hands `before` to `Step`, which passes it to `Advance` and `Expand`. Their contracts state
  the new state against it. `Search.Expanded` bundles what an expansion did to the grid,
  and `Search.Answer` bundles what a returned path satisfies.

A `parent` is stored as the coordinates of the parent cell, not as a
reference. `ReconstructPath` therefore takes the grid and looks each parent
up in it.

## Model

| member | source | states |
|---|---|---|
| `Costs.Add` | algorithm/a_star.py:76 | `g + 1` never lowers a cost, strictly raises a finite one, and is infinite exactly when the cost is `inf` |
| `Costs.Lt` | algorithm/a_star.py:77 | `<` holds only for a finite left side, always holds for a finite cost against `inf`, and never holds between equal costs |
| `Costs.LtIrreflexive` | models/node.py:14-15 | no cost is below itself, `inf < inf` included |
| `Costs.LtTransitive` | models/node.py:14-15 | `<` on costs is transitive |
| `Costs.LtAsymmetric` | models/node.py:14-15 | `<` on costs is asymmetric |
| `Costs.LtTrichotomy` | models/node.py:14-15 | two costs are equal or one is below the other |
| `Nodes.Node.constructor` | models/node.py:5-12 | a new node has the given coordinates, g = f = Inf, h = 0, no parent, and is not a wall |
| `Nodes.Node.Less` | models/node.py:14-15 | `self < other` only when `self.f` is finite and differs from `other.f`; a finite f is always below `inf` |
| `Nodes.LessIrreflexive` | models/node.py:14-15 | `n < n` is false for every node |
| `Nodes.LessTransitive` | models/node.py:14-15 | `__lt__` is transitive |
| `Nodes.LessAsymmetric` | models/node.py:14-15 | `__lt__` is asymmetric |
| `Nodes.NotLessEitherWayIffEqualF` | models/node.py:14-15 | two nodes are mutually not-less exactly when their f are equal, so `__lt__` fixes no order among them |
| `Grids.HeuristicSymmetric` | algorithm/a_star.py:7-9 | the Manhattan distance is symmetric (it is a `nat`, so never negative) |
| `Grids.Heuristic` | algorithm/a_star.py:7-9 | the distance is 0 exactly when the two cells have the same coordinates |
| `Grids.HeuristicConsistent` | algorithm/a_star.py:7-9 | one grid step changes the distance to any goal by at most one |
| `Grids.DirectionIff` | algorithm/a_star.py:14 | `Direction` gives the position of a cell's offset in the list right, down, left, up |
| `Grids.AdjacentIffDirection` | algorithm/a_star.py:14-15 | a cell is one step away exactly when it lies at one of the four offsets |
| `Grids.NeighborsUpToFacts` | algorithm/a_star.py:13-17 | after trying k offsets, the list holds exactly the grid cells at the first k offsets, once each, in offset order |
| `Grids.AdjacentNeighbors` | algorithm/a_star.py:14-17 | in-bounds cells at the four offsets are exactly the in-bounds cells at distance 1 |
| `Grids.GetNeighbors` | algorithm/a_star.py:11-18 | at most 4 cells; each is in the grid and one step away; every in-bounds cell one step away is included, walls too; the order is right, down, left, up |
| `Grids.InitializeGrid` | algorithm/a_star.py:28-30 | `rows` rows of `cols` fresh nodes (no rows when `rows <= 0`, empty rows when `cols <= 0`, as `range` gives); `grid[r][c]` has coordinates (r, c), the initial fields and no wall |
| `Paths.HeuristicAdmissible` | algorithm/a_star.py:7-9 | no walk of grid steps is shorter than the Manhattan distance between its ends |
| `Paths.Reverse` | algorithm/a_star.py:26 | `s[::-1]`: same length, element i is element `len-1-i` of the input |
| `Paths.ReconstructPath` | algorithm/a_star.py:20-26 | the path ends at `current`; its first cell has no parent; each cell is the recorded parent of the next, is one step from it and has a smaller g; the loop ends because g falls along parent links |
| `Frontier.MinExists` | algorithm/a_star.py:60 | a non-empty open set has an entry of least key |
| `Frontier.Pop` | algorithm/a_star.py:60 | `heappop` returns an entry of least key and leaves the others; among equal keys any one may come out |
| `Frontier.OpenCellsPush` | algorithm/a_star.py:82 | a push adds exactly the pushed node to the nodes of the open set |
| `Frontier.OpenCellsPop` | algorithm/a_star.py:60 | a pop removes at most the popped node from the nodes of the open set |
| `Potential.Descent` | algorithm/a_star.py:59-82 | lowering g values never raises the termination measure |
| `Potential.StrictDescent` | algorithm/a_star.py:76-82 | a strict improvement of one g strictly lowers the measure |
| `Search.SearchStateLinks` | algorithm/a_star.py:76-79 | during a search every parent link is sound, which `reconstruct_path` needs |
| `Search.WallsUnreached` | algorithm/a_star.py:73-74 | a wall other than the start never gains a parent and keeps g = Inf |
| `Search.ParentCostBelow` | algorithm/a_star.py:76-79 | a cell with parent p has `p.g + 1 <= g` |
| `Search.Relax` | algorithm/a_star.py:73-82 | a wall is skipped. Otherwise the update happens exactly when `current.g + 1 < neighbor.g`; it sets parent, g, h, f and pushes `(f, neighbor)`. g never rises, and the search invariants are kept |
| `Search.ChainFromStart` | algorithm/a_star.py:20-26 | the goal's parent chain starts at the start cell |
| `Search.ChainOpen` | algorithm/a_star.py:73-78 | every cell of the chain after the first is open |
| `Search.ChainSteps` | algorithm/a_star.py:20-26 | consecutive cells of the chain are 4-adjacent |
| `Search.FoundPath` | algorithm/a_star.py:66-70 | the returned chain is a walk from start to goal through open cells, and is `[start]` when start is the goal |
| `Search.ClosedSearchUnreachable` | algorithm/a_star.py:59-87 | when the open set empties, no walk leads from start to goal (and start is not the goal) |
| `Search.WalkStaysReached` | algorithm/a_star.py:72-82 | once the open set is spent, every cell of a walk from the start has been reached |
| `Search.RelaxAll` | algorithm/a_star.py:72-82 | for each neighbour j, in order: it is improved exactly when it is not a wall and `current.g + 1 < g` held for its fields on entry; an improved one gets parent, g, h and f of lines 78-81, any other keeps its fields; the pushed list is the old one plus one entry `(f, n)` per improved neighbour, in order; the search invariants are kept |
| `Search.OutcomesBelow` | algorithm/a_star.py:73-79 | relaxation changes no wall flag and raises no g anywhere in the grid |
| `Search.OutcomesRelaxed` | algorithm/a_star.py:76-82 | after the loop every neighbour is a wall or has g at most current's g + 1, and every pushed key is its node's present f |
| `Search.Expand` | algorithm/a_star.py:72-85 | against the fields `before` recorded for every cell: each neighbour is improved exactly when it is open and `current.g + 1 < g`, with parent, g, h, f as lines 78-81 set them; every other neighbour and every non-neighbour cell is unchanged; the result is the old open set plus one entry per improved neighbour, in order, keyed by its new f; `current` is expanded; no g rises, walls stay, the invariants are kept |
| `Search.ExpandProgress` | algorithm/a_star.py:72-82 | an expansion lowers the termination measure if some neighbour improved, and otherwise keeps it while the open set shrinks |
| `Search.ExpandedSettled` | algorithm/a_star.py:72-82 | after the loop every open neighbour has g at most current's g + 1 |
| `Search.CloseFrontier` | algorithm/a_star.py:72-85 | an expanded non-goal cell needs no heap entry for the frontier facts |
| `Search.Begin` | algorithm/a_star.py:47-52 | the start is pushed with its stale f, then gets g = 0, h = heuristic and f = h; this sets up the search invariants |
| `Search.PopFrontier` | algorithm/a_star.py:60 | the popped node is a reached cell, and the frontier facts hold for all other cells |
| `Search.Finish` | algorithm/a_star.py:66-70 | when the goal is popped, its parent chain runs from start to goal along sound links through open cells, so the goal is reachable |
| `Search.Advance` | algorithm/a_star.py:72-85 | expanding a non-goal cell over the cells `get_neighbors` returns gives the `Expand` outcome, with the neighbours in right, down, left, up order, and lowers the termination measure against the state before the pop |
| `Search.Step` | algorithm/a_star.py:66-85 | the popped cell is the goal exactly when `done`; then the path is the answer and nothing changes; otherwise the cell is expanded as by `Advance`, neighbours in offset order; walls never change |
| `Search.Round` | algorithm/a_star.py:59-85 | one pass pops an entry `popped` of least key; `done` exactly when its node is the goal, and then the path is the answer, the open set is the rest and no cell changed; otherwise the open set is the rest plus the pushed entries, the grid changed as `Expand` states with the neighbours (and so the pushes) in right, down, left, up order, and the termination measure fell or the open set shrank |
| `Search.AStar` | algorithm/a_star.py:32-87 | the result is not empty exactly when a walk from start to goal through open cells exists. A non-empty result starts at `start`, ends at `end`, takes grid steps, enters no wall and follows parent links. `start == end` gives `[start]`. Walls are unchanged and `f == g + h` holds in every cell |

## Left out

- The visualiser and `pygame` calls inside `a_star` (lines 55-57, 62-64,
  68-69, 83-85) are left out: they only draw and wait. `frontend/visualization.py`
  is not part of this model.
- `main.py` is not part of this model: its event loop, mouse handling and
  random obstacles are UI code.
- `float('inf')` becomes the `Inf` case of `Cost`. No other floating point
  occurs.
- `heapq` is modelled only by its contract. `Pop` may return any entry of
  least key; the real heap breaks ties by comparing the nodes' current f.
- `Search.AStar` requires a fresh grid, one whose search fields are still
  at their initial values. Re-running on a grid left by an earlier search
  is outside the model.
- `Search.AStar` requires `start` and `end` to be cells of the grid. The
  code does not check this.
- `Search.AStar` does not state that the path is a shortest one. Optimality
  is not proved.
- `Grids.GetNeighbors` requires a rectangular grid whose cells carry their
  own coordinates, as every grid from `initialize_grid` is. The code only
  reads `len(grid[0])`.
- `Grids.InitializeGrid` is a method with loops, not a function, because it
  allocates nodes. As with Python's `range`, `rows <= 0` gives no rows at all
  and `cols <= 0` gives `rows` empty rows. Neither raises an error.
- A wall start is still expanded: the wall test only applies to neighbours.
  `Paths.IsWalk` therefore lets the first cell of a walk be a wall.
- The stale key pushed for the start (line 48) is modelled as written. It is
  harmless because the start is the only entry then.
