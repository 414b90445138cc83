# Grid pathfinding engine (Dijkstra, A*, breadth-first search) in Dafny

This project models the search engine of a small grid pathfinder:

- `SquareGrid`: a `width` x `height` grid with a list of wall cells. Its
  `neighbors` lists the four axis-aligned cells east, west, north, south.
  On cells with even `x + y` the order is reversed. Only in-bounds,
  passable cells are kept.
- `GridWithWeights`: a grid whose `cost(from, to)` is the cost of the first
  rectangular cost area that contains `to`. When no area contains it, the
  cost is the sparse weight of `to`, and 1.0 when `to` has none.
  `add_cost_area` always appends the area. It only warns when its bounds
  check fails: when a corner lies outside the grid, and also when the
  rectangle is inverted, such as `(3, 0, 2, 0)` on a 10 x 10 grid.
- `GridWithAdjustedWeights`: adds a 0.001 parity nudge to that cost.
- `PriorityQueue` (a `heapq` min-heap of `(priority, item)` pairs) and
  `Queue` (a FIFO).
- `dijkstra_search`, `a_star_search` and `breadth_first_search`. Each
  returns the predecessor map `came_from`. The two weighted searches also
  return `cost_so_far`.
- `reconstruct_path`, `heuristic` (Manhattan distance) and `from_id_width`.

Modules, one file each:

- `Locations` (`locations.dfy`): cells, `from_id_width`, `heuristic`.
- `SquareGrids` (`square_grid.dfy`).
- `WeightedGrids` (`weighted_grid.dfy`): the cost model and the
  `GridWithWeights` class.
- `Frontiers` (`frontiers.dfy`): the two queues as classes.
- `Paths` (`paths.dfy`): `reconstruct_path` and when it ends.
- `Walks` (`walks.dfy`): walks of grid moves and their summed cost, the
  measure for the searches' recorded costs.
- `Search` (`search.dfy`): the three searches, as methods with loops.
- `Routes` (`routes.dfy`): what the returned maps say about walks on the
  grid.

`Wrappers` holds `Option`.

The two weighted searches have the same loop and differ only in the
priority they push. They are modelled as one `BestFirstSearch`, driven by
a `Strategy` that says which priority to use.

Python's floats are modelled as reals.

`passable` (`src/implementation.py:110-111`) consults only the wall list,
so a cell outside the grid that is not a wall is passable. Only `neighbors`
checks the bounds as well, and it never offers an off-grid cell
(`PassableOutsideGrid`).

The weighted searches are proved to record a shortest cost for a goal they
pop: Dijkstra when every cost is positive, A* when every cost is at least
1.0. Below 1.0 the Manhattan heuristic can overestimate the remaining cost.

## Model

| member | source | states |
|---|---|---|
| Locations.FromIdWidth | src/implementation.py:49-50 | A zero width gives no cell (Python raises `ZeroDivisionError`). Otherwise the cell `(x, y)` satisfies `id == y * width + x`, with `x` in `[0, width)` for a positive width and in `(width, 0]` for a negative one, as Python's `%` and `//` give. |
| Locations.FromIdWidthRoundTrip | src/implementation.py:49-50 | For every non-zero width, `from_id_width` maps the row-major index `y * width + x` back to `(x, y)`. |
| Locations.Heuristic | src/implementation.py:243-246 | The Manhattan distance is never negative, and it is zero exactly when the two cells are equal. |
| Locations.HeuristicSymmetric | src/implementation.py:243-246 | The heuristic is the same with its arguments swapped. |
| Locations.UnitStepIsDistanceOne | src/implementation.py:243-246 | A cell is one of the four candidate neighbours exactly when it is at Manhattan distance 1. |
| Locations.HeuristicBoundsSteps | src/implementation.py:243-246 | Along any chain of unit steps, the heuristic between its ends is at most the number of steps, so A*'s estimate never exceeds the length of a grid walk. |
| SquareGrids.SquareGrid.KeepOpen | src/implementation.py:117-118 | The two filters keep exactly the candidates that are in bounds and passable. |
| SquareGrids.SquareGrid.InBounds | src/implementation.py:106-108 | `in_bounds`: both coordinates lie in `[0, width)` and `[0, height)`. |
| SquareGrids.SquareGrid.Passable | src/implementation.py:110-111 | `passable`: the cell is not in the wall list. |
| SquareGrids.SquareGrid.KeepOpenSorted | src/implementation.py:117-118 | Filtering keeps the relative order of the candidates. |
| SquareGrids.SquareGrid.Neighbors | src/implementation.py:113-119 | A cell is listed exactly when it is one unit step away, in bounds and not a wall. |
| SquareGrids.SquareGrid.NeighborsOrdered | src/implementation.py:115-118 | `neighbors` lists each cell once, in the checkerboard order: east, west, north, south on odd cells and the reverse on even cells. |
| SquareGrids.SquareGrid.NeighborsDistinct | src/implementation.py:113-119 | `neighbors` never lists a cell twice, and never lists the cell itself. |
| SquareGrids.EnumerationOrder | src/implementation.py:115-116 | When all four candidates are open, the result is exactly south, north, west, east on even `x + y` and east, west, north, south on odd `x + y`. |
| SquareGrids.OutOfBoundsRejected | src/implementation.py:106-108 | A cell with a negative coordinate, or with a coordinate at or beyond the width or height, is not in bounds. |
| SquareGrids.PassableOutsideGrid | src/implementation.py:110-119 | For every grid and cell, `passable` holds exactly when the cell is not a wall, whatever the bounds. A cell outside the grid is never listed by `neighbors` of any cell. |
| WeightedGrids.FirstMatch | src/implementation.py:164-169 | The scan returns the index of the first area, in list order, whose inclusive rectangle contains the cell. It returns none exactly when no area contains it. |
| WeightedGrids.WeightedCost | src/implementation.py:152-172 | The cost is the cost of the first area containing `to`. When no area contains `to`, it is the weight of `to` if one is recorded, else 1.0. |
| WeightedGrids.AppendAreaCost | src/implementation.py:148-169 | Appending an area changes the cost only of cells that no earlier area contains and that the new area contains. Those cells take the new area's cost, so earlier areas keep precedence. |
| WeightedGrids.NudgeOnStep | src/implementation.py:311-319 | On a unit step the nudge is paid exactly for a horizontal move out of an even cell or a vertical move out of an odd cell. The adjusted cost is the base cost, or the base cost plus 0.001. |
| WeightedGrids.Nudge | src/implementation.py:314-319 | The parity nudge: 1 for a move that changes x out of a cell with even `x + y`, or changes y out of a cell with odd `x + y`, and 0 otherwise. |
| WeightedGrids.AdjustedCost | src/implementation.py:312-319 | The adjusted cost: the base cost plus 0.001 times the nudge. |
| WeightedGrids.CostModel.Cost | src/implementation.py:152-172 | The cost of a move: the weighted cost of the target cell, adjusted by the nudge on a `GridWithAdjustedWeights`. |
| WeightedGrids.GridWithWeights.Cost | src/implementation.py:152-172 | `cost` read from the grid's current areas, weights and nudge setting. |
| WeightedGrids.CostModel.CostPositive | src/implementation.py:311-319 | When every area cost and every weight is positive, every move costs more than zero, with or without the nudge. |
| WeightedGrids.CostModel.CostAtLeastOne | src/implementation.py:152-172 | When every area cost and every weight is at least 1.0, every move costs at least 1.0. |
| WeightedGrids.CostModel.CostIgnoresSource | src/implementation.py:152-172 | The weighted cost depends only on the target cell; `from_node` is ignored. |
| WeightedGrids.GridWithWeights.constructor | src/implementation.py:124-129 | A new weighted grid has the given dimensions, no walls, no weights and no areas. |
| WeightedGrids.GridWithWeights.Adjusted | src/implementation.py:311-313 | A new adjusted grid is the same, with the nudge switched on. |
| WeightedGrids.GridWithWeights.AreaWithinGridIffInside | src/implementation.py:143-144 | For a non-empty rectangle, the bounds check passes exactly when every cell of the rectangle is in bounds. |
| WeightedGrids.GridWithWeights.AddCostArea | src/implementation.py:131-149 | The area is always appended at the end of the list. The warning is issued exactly when the bounds check fails. Walls and weights are unchanged. |
| Frontiers.EntryLeqTotalOrder | src/implementation.py:193-197 | The tuple order `heapq` uses on `(priority, (x, y))` is total, antisymmetric and transitive. |
| Frontiers.LeastPairUnique | src/implementation.py:196-197 | A list holds at most one pair that is no greater than every stored pair, so the pair `heappop` returns is determined by the stored pairs. |
| Frontiers.PriorityQueue.constructor | src/implementation.py:187-188 | A new priority queue is empty. |
| Frontiers.PriorityQueue.Empty | src/implementation.py:190-191 | `empty`: no pair is stored. |
| Frontiers.PriorityQueue.Put | src/implementation.py:193-194 | `put` adds exactly the one pair `(priority, item)`. |
| Frontiers.PriorityQueue.Get | src/implementation.py:196-197 | `get` removes one stored pair that is no greater than any stored pair, returns its item, and leaves the other pairs in place. |
| Frontiers.LeastIndex | src/implementation.py:196-197 | The returned position holds a pair no greater than every pair of the list. |
| Frontiers.ItemsRemove | src/implementation.py:196-197 | Removing the pair at one position keeps every pair stored at any other position, and so every item stored at another position, even a stale duplicate of the removed item. It adds no pair and no item. |
| Frontiers.Queue.constructor | src/implementation.py:36-37 | A new queue is empty. |
| Frontiers.Queue.Empty | src/implementation.py:39-40 | `empty`: no element is queued. |
| Frontiers.Queue.Put | src/implementation.py:42-43 | `put` appends at the back. |
| Frontiers.Queue.Get | src/implementation.py:45-46 | `get` removes and returns the front element, and the rest keeps its order. |
| Paths.TracePath | src/implementation.py:233-235 | A traced route runs from `start` to the node. Each of its cells after the first is a key whose recorded predecessor is the cell before it, and `start` appears only first. |
| Paths.Reversed | src/implementation.py:236-237 | `path.reverse()`: the result has the same length, and its `i`-th element is the input's `i`-th from the end. |
| Paths.ReconstructPath | src/implementation.py:226-238 | The path is empty exactly when `goal` is not a key. Otherwise it begins at `start`, ends at `goal`, and each cell's recorded predecessor is the cell before it. |
| Paths.RankedTreeTraces | src/implementation.py:233-235 | If every predecessor ranks strictly below its successor, the links from any key reach `start`. |
| Paths.RankedTreeLinksToStart | src/implementation.py:233-235 | In such a ranked tree the loop of `reconstruct_path` ends for every key, within as many steps as there are keys. |
| Walks.PathCostSplit | src/implementation.py:214 | A walk cut at any of its cells costs the sum of its two pieces. |
| Walks.PathCostNonNegative | src/implementation.py:214 | With positive costs no walk costs less than zero. |
| Walks.PathCostAtLeastMoves | src/implementation.py:214 | With every cost at least 1.0 a walk costs at least its number of moves. |
| Walks.HeuristicAdmissible | src/implementation.py:243-246 | With every cost at least 1.0 the Manhattan distance between the ends of a walk is at most the walk's cost. |
| Search.Priority | src/implementation.py:266 | Dijkstra pushes the new cost (line 217). A* pushes at least the new cost, and exactly the new cost only for the goal. |
| Search.EstimateAdmissible | src/implementation.py:243-266 | Under the strategy's admissible costs (positive for Dijkstra, at least 1.0 for A*), the estimate added at the head of a walk to the goal is at most the walk's cost. |
| Search.Relax | src/implementation.py:214-219 | When `next` is new or strictly cheaper through `current`, both maps record it, with `current` as predecessor, at the new cost, and one pair is pushed with the strategy's priority. Otherwise nothing changes. |
| Search.RelaxKeepsEdge | src/implementation.py:215-216 | Lowering the cost of `next` keeps every other tree edge valid. |
| Search.RelaxKeepsTree | src/implementation.py:213-219 | One relaxation keeps the tree relation. The maps have the same keys, and `start` is the only key without a predecessor. Each other key's predecessor is a key one grid move away, and the key costs at least the predecessor's cost plus the move. |
| Search.RelaxKeepsStart | src/implementation.py:204-215 | With positive costs, `start` (cost 0) is never rewritten and no recorded cost is negative. |
| Search.RelaxPreserves | src/implementation.py:213-219 | A pass of the inner loop keeps the tree and the settled start, and adds `next` to the keys. It raises no cost, and it changes an entry only for `next` and only when the test passes. |
| Search.RelaxNeighbors | src/implementation.py:213-219 | The exact new maps: each neighbour of `current` that is new or strictly cheaper through `current` is recorded with predecessor `current` at that cost, and every other entry is unchanged. The frontier is the old one followed by one pair per admitted neighbour, in `neighbors` order, at the strategy's priority for its new cost. The tree relation and the settled start are kept. |
| Search.PushedMembers | src/implementation.py:213-219 | The pairs pushed over a list of neighbours are exactly pairs of admitted neighbours at their new priority, and every admitted neighbour has its pair among them. |
| Search.PushedStep | src/implementation.py:213-219 | One more neighbour extends the pushed pairs by its own pair when the test admits it, and leaves them unchanged otherwise. |
| Search.ExpandStep | src/implementation.py:213-219 | One more pass of the inner loop extends the expansion over the neighbours seen so far to one more neighbour. Because `neighbors` never repeats a cell or lists `current`, the test sees the costs from before the loop. |
| Search.ExpandedExtend | src/implementation.py:213-219 | A relaxation of a neighbour not seen before, whose test agrees with the one on the costs from before the loop, extends the expansion by that neighbour. |
| Search.RelaxStep | src/implementation.py:213-219 | One pass of the inner loop keeps the tree and the settled start, extends the expansion by one neighbour, and extends the frontier by exactly the pair that neighbour contributes. |
| Search.RelaxPushed | src/implementation.py:213-219 | The pair one pass pushes is the pair the expansion assigns to that neighbour, so the frontier stays the old one followed by the pushed pairs. |
| Search.ExpandCosts | src/implementation.py:213-219 | After an expansion the keys are the old keys plus the neighbours. The cost of `current` is unchanged, no cost has risen, every neighbour costs at most the cost through `current`, and only admitted neighbours have a new cost. |
| Search.TrackedAfterExpand | src/implementation.py:207-219 | After `current` is popped and expanded, every recorded cell is still queued at a priority no more than its cost gives, or settled: all its neighbours cost at most its cost plus the move. |
| Search.ExpandKeepsFrontier | src/implementation.py:207-219 | One outer pass keeps the frontier invariant: the frontier stores only keys, no pair of the goal is cheaper than the goal's cost, a recorded goal stays queued, and every key is queued or settled. |
| Search.TrackedStep | src/implementation.py:213-219 | Under the frontier invariant a recorded cell is queued, or each of its grid moves leads to a recorded cell no dearer than its cost plus the move. |
| Search.WalkMeetsFrontier | src/implementation.py:207-219 | Among the first `n` cells of every walk from a recorded cell there is a recorded cell whose cost is at most the head's recorded cost plus the walk's cost up to that cell. Unless it is the `n`-th cell, it is queued. |
| Search.GoalPopShortest | src/implementation.py:207-211 | When the goal is popped as a least pair, under the strategy's admissible costs, no walk from `start` to the goal costs less than its recorded cost. |
| Search.GoalWalkBound | src/implementation.py:207-219 | Under admissible costs, a walk from `start` to the goal costs at least the goal's recorded cost when the goal's pair was the least stored pair. |
| Search.FrontierEmptyClosed | src/implementation.py:207-219 | When the frontier has run empty the goal is not recorded, and the keys are closed under `neighbors`. |
| Search.SearchTreeRanked | src/implementation.py:213-219 | With positive costs every predecessor is strictly cheaper than its successor. |
| Search.BestFirstSearch | src/implementation.py:199-270 | The maps have the same keys and the tree relation holds. If the goal was popped, it is a key. If the frontier ran empty, the goal is absent and the keys are closed under `neighbors`. With positive costs, `start` maps to no predecessor at cost 0 and every key links back to `start`. If the goal was popped under the strategy's admissible costs, no walk from `start` to the goal costs less than the recorded goal cost. |
| Search.DijkstraSearch | src/implementation.py:199-221 | The guarantees of `BestFirstSearch`, run with the Dijkstra strategy (its priority is stated by `Search.Priority` and `Search.RelaxNeighbors`). When the goal was popped and every cost is positive, no walk from `start` to the goal costs less than `cost_so_far[goal]`. |
| Search.AStarSearch | src/implementation.py:248-270 | The guarantees of `BestFirstSearch`, run with the A* strategy (its priority is stated by `Search.Priority` and `Search.RelaxNeighbors`). When the goal was popped and every cost is at least 1.0, no walk from `start` to the goal costs less than `cost_so_far[goal]`. |
| Search.Discover | src/implementation.py:285-287 | A cell not yet recorded is queued and recorded with `current` as predecessor. A recorded cell leaves the map and the queue unchanged. |
| Search.DiscoverNeighbors | src/implementation.py:284-287 | After the inner loop every neighbour is a key. Entries recorded before are unchanged, and new entries point to `current`. The queue is the old queue followed by the neighbours of `current` not recorded before, in `neighbors` order, each once. |
| Search.NewCells | src/implementation.py:284-287 | The cells queued for a list of neighbours are exactly those of the list not recorded before, and there are no more of them than neighbours. |
| Search.NewCellsDistinct | src/implementation.py:284-287 | A list without repetitions yields new cells without repetitions, so no cell is queued twice in one expansion. |
| Search.NewCellsStep | src/implementation.py:284-287 | One more neighbour adds itself to the new cells exactly when it was not recorded before. |
| Search.DiscoverMaps | src/implementation.py:284-287 | One pass of the inner loop records the neighbour with predecessor `current` exactly when it was not recorded before the loop, and leaves every earlier entry unchanged. |
| Search.DiscoverQueue | src/implementation.py:284-287 | One pass of the inner loop appends the neighbour to the queue exactly when it was not recorded before the loop. |
| Search.DiscoverKeepsTree | src/implementation.py:284-287 | Expanding a cell keeps the discovery tree: new cells are grid moves from `current` and rank after every recorded cell. |
| Search.QueueGrows | src/implementation.py:278-287 | After an expansion the queue holds what it held plus the new cells. It keeps its length when no cell was recorded, and it grows when some cell was. |
| Search.ExpandKeeps | src/implementation.py:278-287 | An outer pass keeps three things: every queued cell is recorded, every recorded cell is expanded or queued, and every neighbour of an expanded cell is recorded. |
| Search.QueueRecorded | src/implementation.py:278-287 | After a pass every queued cell is recorded in `came_from`. |
| Search.RecordedCovered | src/implementation.py:278-287 | After a pass every recorded cell has been expanded or is still queued. |
| Search.ExpandedClosed | src/implementation.py:284-287 | After `current` is expanded, every neighbour of every expanded cell is recorded. |
| Search.FewerUnvisited | src/implementation.py:278-287 | Recording new cells strictly shrinks the set of grid cells not yet recorded, so the outer loop ends. |
| Search.BreadthFirstSearch | src/implementation.py:272-289 | `start` maps to no predecessor. Every other key was reached by a grid move from its recorded predecessor. Every key links back to `start`, so `reconstruct_path` ends. Either the goal is a key, or the keys are closed under `neighbors`. |
| Routes.ClosedContainsWalk | src/implementation.py:278-287 | A key set closed under `neighbors` contains every cell of every grid walk that starts in it. |
| Routes.GoalUnreachable | src/implementation.py:207-221 | When a search ran out of frontier without reaching the goal, no grid walk leads from `start` to the goal. |
| Routes.TracedRouteBound | src/implementation.py:213-235 | In a weighted search tree the route traced back from a key is a grid walk. Its summed move cost is at most the key's recorded cost minus that of `start`. |
| Routes.WeightedRouteBound | src/implementation.py:199-238 | With positive costs, the path `reconstruct_path` returns for a reached goal is a grid walk from `start` to the goal whose cost is at most `cost_so_far[goal]`. |
| Routes.ShortestRoute | src/implementation.py:199-238 | After a search that proved its goal cost shortest, the path `reconstruct_path` returns costs exactly `cost_so_far[goal]`, and no walk from `start` to the goal costs less. |
| Routes.SearchesAgree | src/implementation.py:199-270 | Two searches of the same grid that both proved their goal cost shortest, such as Dijkstra and A* with every cost at least 1.0, record the same goal cost. |
| Routes.GoalWalk | src/implementation.py:199-238 | With positive costs every recorded goal ends a walk from `start` whose cost is at most the recorded cost. |
| Routes.DiscoveredRouteIsWalk | src/implementation.py:284-287 | The route traced through a breadth-first map is a walk of grid moves. |
| Routes.NudgedPathBound | src/implementation.py:311-319 | Over any walk, the adjusted grid costs at least the plain weighted grid and at most 0.001 more per move. |

## Left out

- Drawing (`draw_tile`, `draw_grid`), the `print` calls, and the diagram
  fixtures (`DIAGRAM1_WALLS`, `diagram4`, `diagram_nopath`) are output or
  demo data, not engine behaviour. So are the `SimpleGraph` example at the
  top of `src/implementation.py` and the command-line driver `main.py`.
  `add_cost_area`'s printed warning is returned as the boolean `warned`.
- `SquareGridNeighborOrder` and `test_with_custom_order` are test scaffolding
  with a caller-chosen neighbour order; they are not modelled.
- The `Graph`/`WeightedGraph` protocols are specialised to the grids: the
  weighted searches take a `GridWithWeights`, and `breadth_first_search`
  takes a `SquareGrid`. Any object with `neighbors` and `cost` is not
  covered.
- `Frontiers.PriorityQueue`: the binary-heap layout of `heapq` is
  abstracted to the list of stored pairs. `Get` removes a least pair under
  the tuple order, which is the one `heappop` returns; the sift operations
  are not modelled.
- `Search.BestFirstSearch`, `Search.DijkstraSearch` and `Search.AStarSearch`
  take an expansion `budget` and may stop with `BudgetSpent`. The Python loop has
  no bound, and with negative costs its loop need not end. So termination
  is not proved, and a run longer than the budget is not described.
- `Search.BestFirstSearch`: `start` keeping `None` at cost 0, and every key
  linking back to `start`, are proved only when all area costs and weights
  are positive. With a negative cost the Python searches can rewrite `start`
  or form a predecessor cycle, and then `reconstruct_path` does not end.
- `Search.DijkstraSearch`: the shortest goal cost is proved only when every
  cost is positive and the goal was popped. Nothing is claimed for a run
  that spent its budget, or for zero or negative costs.
- `Search.AStarSearch`: the shortest goal cost is proved only when every
  cost is at least 1.0 and the goal was popped. Below 1.0 the Manhattan
  heuristic can exceed the true remaining cost, so A* may pop the goal
  with a dearer cost. Nothing is claimed for a run that spent its budget.
- `Paths.ReconstructPath` requires that, when `goal` is a key, its links
  reach `start`. On other maps `reconstruct_path` loops forever or raises
  `KeyError`. Every map the searches return meets this requirement under
  the conditions above.
- Python floats are modelled as exact reals, so rounding in the summed
  costs and in the `0.001` nudge is not modelled.
- `neighbors` returns a lazy `filter` object; it is modelled as the list it
  yields.
- The generic element type `T` of `PriorityQueue` is fixed to grid cells.
