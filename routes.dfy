/** What the maps the searches return say about routes on the grid: the
    path `reconstruct_path` reads off them is a walk of grid moves, its
    cost is bounded by the recorded cost, and a search that ran out of
    frontier without meeting the goal proves the goal unreachable. */
module Routes {

  import opened Wrappers
  import opened Locations
  import opened SquareGrids
  import opened WeightedGrids
  import opened Paths
  import opened Search
  import opened Walks

  /** A set of cells that holds every neighbour of each of its cells holds
      every cell of every walk that starts in it. */
  lemma {:induction false} ClosedContainsWalk(grid: SquareGrid, keys: set<Loc>, p: seq<Loc>)
    requires Closed(grid, keys) && IsWalk(grid, p) && |p| > 0 && p[0] in keys
    ensures forall i :: 0 <= i < |p| ==> p[i] in keys
  {
    if |p| > 1 {
      var q := p[..|p| - 1];
      assert IsWalk(grid, q) by {
        forall i | 1 <= i < |q| ensures grid.Move(q[i - 1], q[i]) {
          assert q[i - 1] == p[i - 1] && q[i] == p[i];
        }
      }
      ClosedContainsWalk(grid, keys, q);
      assert p[|p| - 2] == q[|q| - 1];
      assert grid.Move(p[|p| - 2], p[|p| - 1]);
      forall i | 0 <= i < |p| ensures p[i] in keys {
        if i < |p| - 1 {
          assert p[i] == q[i];
        }
      }
    }
  }

  /** When a search stops with its map closed and the goal absent (the
      frontier ran empty), no walk leads from `start` to the goal. */
  lemma GoalUnreachable(grid: SquareGrid, cameFrom: CameFrom, start: Loc, goal: Loc, p: seq<Loc>)
    requires start in cameFrom && goal !in cameFrom && Closed(grid, cameFrom.Keys)
    requires IsWalk(grid, p) && |p| > 0 && p[0] == start
    ensures p[|p| - 1] != goal
  {
    ClosedContainsWalk(grid, cameFrom.Keys, p);
  }

  /** In a search tree the route traced back from any key is a walk, and
      it costs at most the difference between the costs recorded at its
      two ends. */
  lemma {:induction false} TracedRouteBound(grid: SquareGrid, model: CostModel, start: Loc, cameFrom: CameFrom,
                                            costSoFar: map<Loc, real>, node: Loc, fuel: nat)
    requires SearchTree(grid, model, start, cameFrom, costSoFar) && node in cameFrom
    requires TracePath(cameFrom, start, node, fuel).Some?
    ensures IsWalk(grid, TracePath(cameFrom, start, node, fuel).value)
    ensures PathCost(model, TracePath(cameFrom, start, node, fuel).value) <= costSoFar[node] - costSoFar[start]
    decreases fuel
  {
    var path := TracePath(cameFrom, start, node, fuel).value;
    if node != start {
      var parent := cameFrom[node].value;
      assert TreeEdge(grid, model, cameFrom, costSoFar, node);
      var front := TracePath(cameFrom, start, parent, fuel - 1).value;
      TracedRouteBound(grid, model, start, cameFrom, costSoFar, parent, fuel - 1);
      assert path == front + [node];
      assert path[..|path| - 1] == front;
      assert path[|path| - 2] == parent;
      forall i | 1 <= i < |path| ensures grid.Move(path[i - 1], path[i]) {
        if i < |path| - 1 {
          assert path[i - 1] == front[i - 1] && path[i] == front[i];
        }
      }
    }
  }

  /** With positive costs the path `reconstruct_path` returns for a
      weighted search's goal is a walk from `start` to the goal whose cost
      is at most the cost recorded for the goal. */
  lemma WeightedRouteBound(grid: SquareGrid, model: CostModel, start: Loc, goal: Loc, cameFrom: CameFrom,
                           costSoFar: map<Loc, real>, outcome: Outcome, path: seq<Loc>)
    requires WeightedSearchResult(grid, model, start, goal, cameFrom, costSoFar, outcome)
    requires model.PositiveCosts() && goal in cameFrom
    requires Some(path) == TracePath(cameFrom, start, goal, |cameFrom|)
    ensures IsWalk(grid, path) && path[0] == start && path[|path| - 1] == goal
    ensures PathCost(model, path) <= costSoFar[goal]
  {
    TracedRouteBound(grid, model, start, cameFrom, costSoFar, goal, |cameFrom|);
  }

  /** After a search that proved its goal cost shortest (Dijkstra under
      positive costs, A* under costs of at least 1.0, stopped at the goal),
      the path `reconstruct_path` returns costs exactly the recorded cost
      and no walk from `start` to the goal is cheaper. */
  lemma ShortestRoute(grid: SquareGrid, model: CostModel, start: Loc, goal: Loc, cameFrom: CameFrom,
                      costSoFar: map<Loc, real>, outcome: Outcome, path: seq<Loc>)
    requires WeightedSearchResult(grid, model, start, goal, cameFrom, costSoFar, outcome)
    requires model.PositiveCosts() && ShortestTo(grid, model, start, goal, costSoFar)
    requires Some(path) == TracePath(cameFrom, start, goal, |cameFrom|)
    ensures PathCost(model, path) == costSoFar[goal]
    ensures forall p :: IsWalk(grid, p) && |p| > 0 && p[0] == start && p[|p| - 1] == goal ==>
              PathCost(model, path) <= PathCost(model, p)
  {
    WeightedRouteBound(grid, model, start, goal, cameFrom, costSoFar, outcome, path);
  }

  /** Two weighted searches of the same grid that both proved their goal
      cost shortest (Dijkstra and A* stopped at the goal with every cost
      at least 1.0, say) record the same cost for the goal. */
  lemma SearchesAgree(grid: SquareGrid, model: CostModel, start: Loc, goal: Loc,
                      cameFrom1: CameFrom, costSoFar1: map<Loc, real>, outcome1: Outcome,
                      cameFrom2: CameFrom, costSoFar2: map<Loc, real>, outcome2: Outcome)
    requires WeightedSearchResult(grid, model, start, goal, cameFrom1, costSoFar1, outcome1)
    requires WeightedSearchResult(grid, model, start, goal, cameFrom2, costSoFar2, outcome2)
    requires model.PositiveCosts()
    requires ShortestTo(grid, model, start, goal, costSoFar1) && ShortestTo(grid, model, start, goal, costSoFar2)
    ensures costSoFar1[goal] == costSoFar2[goal]
  {
    var p1 := GoalWalk(grid, model, start, goal, cameFrom1, costSoFar1, outcome1);
    var p2 := GoalWalk(grid, model, start, goal, cameFrom2, costSoFar2, outcome2);
    assert costSoFar2[goal] <= PathCost(model, p1);
    assert costSoFar1[goal] <= PathCost(model, p2);
  }

  /** With positive costs every goal a weighted search recorded is the end
      of a walk from `start` that costs at most the recorded cost. */
  lemma GoalWalk(grid: SquareGrid, model: CostModel, start: Loc, goal: Loc, cameFrom: CameFrom,
                 costSoFar: map<Loc, real>, outcome: Outcome) returns (p: seq<Loc>)
    requires WeightedSearchResult(grid, model, start, goal, cameFrom, costSoFar, outcome)
    requires model.PositiveCosts() && goal in costSoFar
    ensures IsWalk(grid, p) && |p| > 0 && p[0] == start && p[|p| - 1] == goal
    ensures PathCost(model, p) <= costSoFar[goal]
  {
    assert LinksToStart(cameFrom, start, goal);
    p := TracePath(cameFrom, start, goal, |cameFrom|).value;
    WeightedRouteBound(grid, model, start, goal, cameFrom, costSoFar, outcome, p);
  }

  /** The route traced back through a breadth-first discovery map is a
      walk of grid moves. */
  lemma {:induction false} DiscoveredRouteIsWalk(grid: SquareGrid, start: Loc, cameFrom: CameFrom, node: Loc, fuel: nat)
    requires forall k :: k in cameFrom && k != start ==> cameFrom[k].Some? && grid.Move(cameFrom[k].value, k)
    requires TracePath(cameFrom, start, node, fuel).Some?
    ensures IsWalk(grid, TracePath(cameFrom, start, node, fuel).value)
  {
    var path := TracePath(cameFrom, start, node, fuel).value;
    forall i | 1 <= i < |path| ensures grid.Move(path[i - 1], path[i]) {
      assert path[i] in cameFrom && path[i] != start && cameFrom[path[i]] == Some(path[i - 1]);
    }
  }

  /** Over a walk the nudge of `GridWithAdjustedWeights` adds between
      nothing and 0.001 per move to the cost of the same walk on the
      plain weighted grid. */
  lemma {:induction false} NudgedPathBound(areas: seq<Area>, weights: map<Loc, real>, p: seq<Loc>)
    ensures var plain := PathCost(CostModel(areas, weights, false), p);
            var nudged := PathCost(CostModel(areas, weights, true), p);
            plain <= nudged && (|p| > 0 ==> nudged <= plain + 0.001 * (|p| - 1) as real)
  {
    if |p| > 1 {
      NudgedPathBound(areas, weights, p[..|p| - 1]);
    }
  }
}
