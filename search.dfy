/** The searches: `dijkstra_search` and `a_star_search`, which share one
    expansion loop over a `PriorityQueue` and differ only in the priority
    they give a relaxed cell, and `breadth_first_search` over a `Queue`. */
module Search {

  import opened Wrappers
  import opened Locations
  import opened SquareGrids
  import opened WeightedGrids
  import opened Frontiers
  import opened Paths
  import opened Walks

  /** The priority formula: the new cost (Dijkstra) or the new cost plus
      the heuristic distance to the goal (A*). */
  datatype Strategy = Dijkstra | AStar

  /** Why the loop stopped: the goal was popped (the `break` of the Python loop),
      the frontier ran empty, or the expansion budget ran out. */
  datatype Outcome = GoalReached | FrontierExhausted | BudgetSpent

  /** The relations the two maps of a weighted search keep: the same keys;
      `start` recorded; only `start` without a predecessor, and then at
      cost 0; every other key reached from a recorded grid neighbour, at
      a cost no less than that neighbour's plus the cost of the move. */
  ghost predicate SearchTree(grid: SquareGrid, model: CostModel, start: Loc, cameFrom: CameFrom, costSoFar: map<Loc, real>)
  {
    && cameFrom.Keys == costSoFar.Keys
    && start in cameFrom
    && (forall k :: k in cameFrom && cameFrom[k].None? ==> k == start && costSoFar[k] == 0.0)
    && (forall k {:trigger TreeEdge(grid, model, cameFrom, costSoFar, k)} ::
          k in cameFrom && cameFrom[k].Some? ==> TreeEdge(grid, model, cameFrom, costSoFar, k))
  }

  /** The recorded predecessor `p` of `k` is a key, `k` is a grid
      neighbour of `p`, and `k` costs at least `p` plus the move. */
  ghost predicate TreeEdge(grid: SquareGrid, model: CostModel, cameFrom: CameFrom, costSoFar: map<Loc, real>, k: Loc)
  {
    && k in cameFrom && cameFrom[k].Some? && k in costSoFar
    && var p := cameFrom[k].value;
    && p in cameFrom && p in costSoFar
    && grid.Move(p, k)
    && costSoFar[k] >= costSoFar[p] + model.Cost(p, k)
  }

  /** With positive costs: `start` keeps no predecessor and no cost is
      negative. */
  ghost predicate StartSettled(model: CostModel, start: Loc, cameFrom: CameFrom, costSoFar: map<Loc, real>)
  {
    model.PositiveCosts() ==>
      start in cameFrom && cameFrom[start].None? && forall k :: k in costSoFar ==> costSoFar[k] >= 0.0
  }

  /** Every neighbour of every cell of `keys` is in `keys`. */
  ghost predicate Closed(grid: SquareGrid, keys: set<Loc>)
  {
    forall k :: k in keys ==> forall n :: n in grid.Neighbors(k) ==> n in keys
  }

  /** Everything `dijkstra_search` and `a_star_search` promise about their
      result. */
  ghost predicate WeightedSearchResult(grid: SquareGrid, model: CostModel, start: Loc, goal: Loc,
                                      cameFrom: CameFrom, costSoFar: map<Loc, real>, outcome: Outcome)
  {
    && SearchTree(grid, model, start, cameFrom, costSoFar)
    && (outcome == GoalReached ==> goal in cameFrom)
    && (outcome == FrontierExhausted ==> goal !in cameFrom && Closed(grid, cameFrom.Keys))
    && (model.PositiveCosts() ==> cameFrom[start] == None && costSoFar[start] == 0.0)
    && (model.PositiveCosts() ==> forall k :: k in cameFrom ==> LinksToStart(cameFrom, start, k))
  }

  /** A relaxation of `next` keeps every other edge of the tree: a cost
      only falls, so an edge into `next`'s successors still holds. */
  lemma RelaxKeepsEdge(grid: SquareGrid, model: CostModel, cameFrom: CameFrom, costSoFar: map<Loc, real>,
                       k: Loc, current: Loc, next: Loc, newCost: real)
    requires TreeEdge(grid, model, cameFrom, costSoFar, k) && k != next
    requires next !in costSoFar || newCost < costSoFar[next]
    ensures TreeEdge(grid, model, cameFrom[next := Some(current)], costSoFar[next := newCost], k)
  {
    var p := cameFrom[k].value;
    assert costSoFar[next := newCost][p] <= costSoFar[p];
  }

  /** One relaxation keeps the search tree: `next`, a neighbour of
      `current`, is recorded with `current` as predecessor, which the
      Python code does only when `next` is new or the new cost is strictly
      smaller. */
  lemma RelaxKeepsTree(grid: SquareGrid, model: CostModel, start: Loc, cameFrom: CameFrom, costSoFar: map<Loc, real>,
                       current: Loc, next: Loc, newCost: real)
    requires SearchTree(grid, model, start, cameFrom, costSoFar)
    requires current in cameFrom && next in grid.Neighbors(current)
    requires newCost == costSoFar[current] + model.Cost(current, next)
    requires next !in costSoFar || newCost < costSoFar[next]
    ensures SearchTree(grid, model, start, cameFrom[next := Some(current)], costSoFar[next := newCost])
  {
    var cf, cs := cameFrom[next := Some(current)], costSoFar[next := newCost];
    assert grid.Move(current, next);
    assert TreeEdge(grid, model, cf, cs, next);
    forall k | k in cf && cf[k].Some? && k != next ensures TreeEdge(grid, model, cf, cs, k) {
      RelaxKeepsEdge(grid, model, cameFrom, costSoFar, k, current, next, newCost);
    }
    SearchTreeIntro(grid, model, start, cf, cs);
  }

  /** The four conditions of `SearchTree`, checked one by one. */
  lemma SearchTreeIntro(grid: SquareGrid, model: CostModel, start: Loc, cameFrom: CameFrom, costSoFar: map<Loc, real>)
    requires cameFrom.Keys == costSoFar.Keys && start in cameFrom
    requires forall k :: k in cameFrom && cameFrom[k].None? ==> k == start && costSoFar[k] == 0.0
    requires forall k :: k in cameFrom && cameFrom[k].Some? ==> TreeEdge(grid, model, cameFrom, costSoFar, k)
    ensures SearchTree(grid, model, start, cameFrom, costSoFar)
  {
  }

  /** With positive costs a relaxation costs more than zero, so `start`,
      at cost 0, is never relaxed and no cost becomes negative. */
  lemma RelaxKeepsStart(model: CostModel, start: Loc, cameFrom: CameFrom, costSoFar: map<Loc, real>,
                        current: Loc, next: Loc, newCost: real)
    requires StartSettled(model, start, cameFrom, costSoFar) && cameFrom.Keys == costSoFar.Keys
    requires current in costSoFar
    requires newCost == costSoFar[current] + model.Cost(current, next)
    requires next !in costSoFar || newCost < costSoFar[next]
    requires start in cameFrom && (cameFrom[start].None? ==> costSoFar[start] == 0.0)
    ensures StartSettled(model, start, cameFrom[next := Some(current)], costSoFar[next := newCost])
  {
    if model.PositiveCosts() {
      model.CostPositive(current, next);
      assert next != start;
    }
  }

  /** With positive costs every predecessor is strictly cheaper than its
      successor, so the costs rank the tree. */
  lemma SearchTreeRanked(grid: SquareGrid, model: CostModel, start: Loc, cameFrom: CameFrom, costSoFar: map<Loc, real>)
    requires SearchTree(grid, model, start, cameFrom, costSoFar) && model.PositiveCosts()
    ensures RankedTree(cameFrom, start, costSoFar)
  {
    forall k | k in cameFrom && k != start
      ensures cameFrom[k].Some? && cameFrom[k].value in cameFrom && costSoFar[cameFrom[k].value] < costSoFar[k]
    {
      assert TreeEdge(grid, model, cameFrom, costSoFar, k);
      model.CostPositive(cameFrom[k].value, k);
    }
  }

  /** What the priority adds to the new cost: nothing (`dijkstra_search`)
      or the Manhattan distance to the goal (`a_star_search`). */
  function Estimate(strategy: Strategy, next: Loc, goal: Loc): real
  {
    match strategy
    case Dijkstra => 0.0
    case AStar => Heuristic(next, goal) as real
  }

  /** The priority a relaxed cell is pushed with: its new cost
      (`dijkstra_search`) or its new cost plus its Manhattan distance to
      the goal (`a_star_search`). */
  function Priority(strategy: Strategy, newCost: real, next: Loc, goal: Loc): (r: real)
    ensures strategy == Dijkstra ==> r == newCost
    ensures strategy == AStar ==> r >= newCost && (r == newCost <==> next == goal)
  {
    newCost + Estimate(strategy, next, goal)
  }

  /** The costs under which the strategy's estimate never exceeds the cost
      of a walk to the goal: positive costs for Dijkstra, costs of at least
      1.0 for A* (below that the Manhattan distance can overestimate). */
  ghost predicate Admissible(strategy: Strategy, model: CostModel)
  {
    match strategy
    case Dijkstra => model.PositiveCosts()
    case AStar => model.UnitCosts()
  }

  /** Under admissible costs the estimate at the head of a walk to the goal
      is at most the walk's cost, and every cost is positive. */
  lemma EstimateAdmissible(grid: SquareGrid, model: CostModel, strategy: Strategy, goal: Loc, p: seq<Loc>)
    requires Admissible(strategy, model) && IsWalk(grid, p) && |p| > 0 && p[|p| - 1] == goal
    ensures model.PositiveCosts()
    ensures Estimate(strategy, p[0], goal) <= PathCost(model, p)
  {
    match strategy
    case Dijkstra => PathCostNonNegative(model, p);
    case AStar => HeuristicAdmissible(grid, model, p);
  }

  /** `goal` is recorded, and no walk from `start` to `goal` costs less
      than the cost recorded for it. */
  ghost predicate ShortestTo(grid: SquareGrid, model: CostModel, start: Loc, goal: Loc, costSoFar: map<Loc, real>)
  {
    && goal in costSoFar
    && forall p :: IsWalk(grid, p) && |p| > 0 && p[0] == start && p[|p| - 1] == goal ==>
         costSoFar[goal] <= PathCost(model, p)
  }

  /** The test of the inner loop: `next` is new, or strictly cheaper
      through `current` than its recorded cost. */
  ghost predicate Improves(model: CostModel, current: Loc, next: Loc, costSoFar: map<Loc, real>)
    requires current in costSoFar
  {
    var newCost := costSoFar[current] + model.Cost(current, next);
    next !in costSoFar || newCost < costSoFar[next]
  }

  /** The maps after one pass of the inner loop body: when the test
      passes, `next` is recorded with `current` as predecessor at the new
      cost; otherwise both maps are unchanged. */
  ghost predicate Relaxed(model: CostModel, current: Loc, next: Loc, cameFrom0: CameFrom, costSoFar0: map<Loc, real>,
                          cameFrom: CameFrom, costSoFar: map<Loc, real>)
    requires current in costSoFar0
  {
    if Improves(model, current, next, costSoFar0) then
      && cameFrom == cameFrom0[next := Some(current)]
      && costSoFar == costSoFar0[next := costSoFar0[current] + model.Cost(current, next)]
    else
      cameFrom == cameFrom0 && costSoFar == costSoFar0
  }

  /** One pass of the inner loop body, for `next`: the maps are updated as
      `Relaxed` says, and the frontier receives `next` exactly when the
      test passes. */
  method Relax(graph: GridWithWeights, goal: Loc, strategy: Strategy, current: Loc, next: Loc,
               frontier: PriorityQueue, cameFrom0: CameFrom, costSoFar0: map<Loc, real>)
    returns (cameFrom: CameFrom, costSoFar: map<Loc, real>)
    requires current in costSoFar0
    modifies frontier
    ensures Relaxed(graph.Model(), current, next, cameFrom0, costSoFar0, cameFrom, costSoFar)
    ensures Improves(graph.Model(), current, next, costSoFar0) ==>
              frontier.elements == old(frontier.elements) + [Entry(Priority(strategy, costSoFar[next], next, goal), next)]
    ensures !Improves(graph.Model(), current, next, costSoFar0) ==> frontier.elements == old(frontier.elements)
  {
    cameFrom, costSoFar := cameFrom0, costSoFar0;
    var stepCost := graph.Cost(current, next);
    var newCost := costSoFar[current] + stepCost;
    if next !in costSoFar || newCost < costSoFar[next] {
      costSoFar := costSoFar[next := newCost];
      var priority := Priority(strategy, newCost, next, goal);
      frontier.Put(next, priority);
      cameFrom := cameFrom[next := Some(current)];
    }
    assert graph.Cost(current, next) == stepCost;
  }

  /** A pass of the inner loop body keeps the search tree and the settled
      start, adds `next` to the keys, lowers no cost, and changes no entry
      but `next`'s, and that only when the test passes. */
  lemma RelaxPreserves(grid: SquareGrid, model: CostModel, start: Loc, current: Loc, next: Loc,
                       cameFrom0: CameFrom, costSoFar0: map<Loc, real>, cameFrom: CameFrom, costSoFar: map<Loc, real>)
    requires SearchTree(grid, model, start, cameFrom0, costSoFar0) && StartSettled(model, start, cameFrom0, costSoFar0)
    requires current in cameFrom0 && next in grid.Neighbors(current)
    requires Relaxed(model, current, next, cameFrom0, costSoFar0, cameFrom, costSoFar)
    ensures SearchTree(grid, model, start, cameFrom, costSoFar) && StartSettled(model, start, cameFrom, costSoFar)
    ensures cameFrom.Keys == cameFrom0.Keys + {next}
    ensures forall k :: k in costSoFar0 ==> costSoFar[k] <= costSoFar0[k]
    ensures forall k :: k in cameFrom && (k !in cameFrom0 || cameFrom[k] != cameFrom0[k]) ==>
              k == next && Improves(model, current, next, costSoFar0)
  {
    if Improves(model, current, next, costSoFar0) {
      var newCost := costSoFar0[current] + model.Cost(current, next);
      RelaxKeepsTree(grid, model, start, cameFrom0, costSoFar0, current, next, newCost);
      RelaxKeepsStart(model, start, cameFrom0, costSoFar0, current, next, newCost);
    }
  }

  /** The maps after `current` is expanded over the cells `ns`: each cell
      of `ns` that the test admits is recorded with `current` as
      predecessor at the cost through `current`; every other entry is as
      it was. */
  ghost predicate Expanded(model: CostModel, current: Loc, ns: seq<Loc>, cameFrom0: CameFrom, costSoFar0: map<Loc, real>,
                           cameFrom: CameFrom, costSoFar: map<Loc, real>)
    requires current in costSoFar0
  {
    && (forall k :: k in cameFrom <==> k in cameFrom0 || k in ns)
    && (forall k :: k in costSoFar <==> k in costSoFar0 || k in ns)
    && forall k :: k in cameFrom ==>
         if k in ns && Improves(model, current, k, costSoFar0) then
           cameFrom[k] == Some(current) && costSoFar[k] == costSoFar0[current] + model.Cost(current, k)
         else
           k in cameFrom0 && k in costSoFar0 && cameFrom[k] == cameFrom0[k] && costSoFar[k] == costSoFar0[k]
  }

  /** The pair pushed for an admitted cell `k`: `k` at the priority of its
      cost through `current`. */
  function PushedEntry(model: CostModel, strategy: Strategy, goal: Loc, current: Loc, k: Loc,
                       costSoFar0: map<Loc, real>): Entry
    requires current in costSoFar0
  {
    Entry(Priority(strategy, costSoFar0[current] + model.Cost(current, k), k, goal), k)
  }

  /** The pairs the expansion of `current` over `ns` pushes, in order: one
      for each cell the test admits, at that cell's new priority. */
  ghost function Pushed(model: CostModel, strategy: Strategy, goal: Loc, current: Loc, ns: seq<Loc>,
                        costSoFar0: map<Loc, real>): seq<Entry>
    requires current in costSoFar0
  {
    if ns == [] then []
    else if Improves(model, current, ns[|ns| - 1], costSoFar0) then
      var k := ns[|ns| - 1];
      Pushed(model, strategy, goal, current, ns[..|ns| - 1], costSoFar0) +
        [PushedEntry(model, strategy, goal, current, k, costSoFar0)]
    else
      Pushed(model, strategy, goal, current, ns[..|ns| - 1], costSoFar0)
  }

  /** The pairs pushed are exactly one per admitted cell of `ns`, each at
      the priority of that cell's cost through `current`. */
  lemma {:induction false} PushedMembers(model: CostModel, strategy: Strategy, goal: Loc, current: Loc, ns: seq<Loc>,
                                         costSoFar0: map<Loc, real>)
    requires current in costSoFar0
    ensures forall e :: e in Pushed(model, strategy, goal, current, ns, costSoFar0) ==>
              && e.item in ns && Improves(model, current, e.item, costSoFar0)
              && e.priority == Priority(strategy, costSoFar0[current] + model.Cost(current, e.item), e.item, goal)
    ensures forall k :: k in ns && Improves(model, current, k, costSoFar0) ==>
              PushedEntry(model, strategy, goal, current, k, costSoFar0) in
                Pushed(model, strategy, goal, current, ns, costSoFar0)
  {
    if ns != [] {
      var init, k := ns[..|ns| - 1], ns[|ns| - 1];
      PushedMembers(model, strategy, goal, current, init, costSoFar0);
      assert ns == init + [k];
      assert forall n :: n in ns <==> n in init || n == k;
    }
  }

  /** One more cell of a repetition-free `ns` relaxed: the test sees the
      same costs it would have seen before the expansion began, and the
      maps are those of the expansion over the longer prefix. */
  lemma ExpandStep(model: CostModel, current: Loc, ns: seq<Loc>, i: nat, cameFrom0: CameFrom, costSoFar0: map<Loc, real>,
                   cf: CameFrom, cs: map<Loc, real>, cameFrom: CameFrom, costSoFar: map<Loc, real>)
    requires cameFrom0.Keys == costSoFar0.Keys && current in cameFrom0 && i < |ns| && current !in ns
    requires forall j :: 0 <= j < i ==> ns[j] != ns[i]
    requires Expanded(model, current, ns[..i], cameFrom0, costSoFar0, cf, cs)
    requires current in cs && Relaxed(model, current, ns[i], cf, cs, cameFrom, costSoFar)
    ensures cs[current] == costSoFar0[current]
    ensures Improves(model, current, ns[i], cs) == Improves(model, current, ns[i], costSoFar0)
    ensures Expanded(model, current, ns[..i + 1], cameFrom0, costSoFar0, cameFrom, costSoFar)
  {
    var next, pre := ns[i], ns[..i];
    assert next !in pre by {
      forall j | 0 <= j < |pre| ensures pre[j] != next {
        assert pre[j] == ns[j];
      }
    }
    assert current !in pre by {
      forall j | 0 <= j < |pre| ensures pre[j] != current {
        assert pre[j] == ns[j];
      }
    }
    ExpandedOutside(model, current, pre, cameFrom0, costSoFar0, cf, cs, current);
    ExpandedOutside(model, current, pre, cameFrom0, costSoFar0, cf, cs, next);
    assert Improves(model, current, next, cs) == Improves(model, current, next, costSoFar0);
    PrefixSnoc(ns, i);
    ExpandedExtend(model, current, pre, next, cameFrom0, costSoFar0, cf, cs, cameFrom, costSoFar);
  }

  /** A prefix one longer is the prefix followed by the next element. */
  lemma PrefixSnoc(ns: seq<Loc>, i: nat)
    requires i < |ns|
    ensures ns[..i + 1] == ns[..i] + [ns[i]]
  {
  }

  /** A cell outside the expanded cells keeps its entries. */
  lemma ExpandedOutside(model: CostModel, current: Loc, ns: seq<Loc>, cameFrom0: CameFrom, costSoFar0: map<Loc, real>,
                        cameFrom: CameFrom, costSoFar: map<Loc, real>, k: Loc)
    requires cameFrom0.Keys == costSoFar0.Keys && current in costSoFar0 && k !in ns
    requires Expanded(model, current, ns, cameFrom0, costSoFar0, cameFrom, costSoFar)
    ensures k in costSoFar <==> k in costSoFar0
    ensures k in cameFrom <==> k in cameFrom0
    ensures k in costSoFar ==> costSoFar[k] == costSoFar0[k] && cameFrom[k] == cameFrom0[k]
  {
    if k in costSoFar0 {
      assert k in cameFrom0 && k in cameFrom;
    }
  }

  /** Relaxing a cell `next` not yet expanded, with the costs the
      expansion began from, extends the expansion by `next`. */
  lemma ExpandedExtend(model: CostModel, current: Loc, pre: seq<Loc>, next: Loc,
                       cameFrom0: CameFrom, costSoFar0: map<Loc, real>,
                       cf: CameFrom, cs: map<Loc, real>, cameFrom: CameFrom, costSoFar: map<Loc, real>)
    requires cameFrom0.Keys == costSoFar0.Keys && current in costSoFar0 && next !in pre
    requires Expanded(model, current, pre, cameFrom0, costSoFar0, cf, cs)
    requires current in cs && cs[current] == costSoFar0[current]
    requires Improves(model, current, next, cs) == Improves(model, current, next, costSoFar0)
    requires next in cf <==> next in cameFrom0
    requires Relaxed(model, current, next, cf, cs, cameFrom, costSoFar)
    ensures Expanded(model, current, pre + [next], cameFrom0, costSoFar0, cameFrom, costSoFar)
  {
    var post := pre + [next];
    assert forall n :: n in post <==> n in pre || n == next;
    if Improves(model, current, next, cs) {
      assert cameFrom.Keys == cf.Keys + {next} && costSoFar.Keys == cs.Keys + {next};
    } else {
      assert next in cf;
    }
    assert forall k :: k in cameFrom <==> k in cameFrom0 || k in post;
    assert forall k :: k in costSoFar <==> k in costSoFar0 || k in post;
    forall k | k in cameFrom
      ensures if k in post && Improves(model, current, k, costSoFar0) then
                cameFrom[k] == Some(current) && costSoFar[k] == costSoFar0[current] + model.Cost(current, k)
              else
                k in cameFrom0 && k in costSoFar0 && cameFrom[k] == cameFrom0[k] && costSoFar[k] == costSoFar0[k]
    {
      if k != next {
        assert k in cf && cameFrom[k] == cf[k] && costSoFar[k] == cs[k];
      }
    }
    ExpandedIntro(model, current, post, cameFrom0, costSoFar0, cameFrom, costSoFar);
  }

  /** The three conditions of `Expanded`, checked one by one. */
  lemma ExpandedIntro(model: CostModel, current: Loc, ns: seq<Loc>, cameFrom0: CameFrom, costSoFar0: map<Loc, real>,
                      cameFrom: CameFrom, costSoFar: map<Loc, real>)
    requires current in costSoFar0
    requires forall k :: k in cameFrom <==> k in cameFrom0 || k in ns
    requires forall k :: k in costSoFar <==> k in costSoFar0 || k in ns
    requires forall k :: k in cameFrom ==>
               if k in ns && Improves(model, current, k, costSoFar0) then
                 cameFrom[k] == Some(current) && k in costSoFar && costSoFar[k] == costSoFar0[current] + model.Cost(current, k)
               else
                 k in cameFrom0 && k in costSoFar0 && k in costSoFar && cameFrom[k] == cameFrom0[k] && costSoFar[k] == costSoFar0[k]
    ensures Expanded(model, current, ns, cameFrom0, costSoFar0, cameFrom, costSoFar)
  {
  }

  /** The pairs pushed over one more cell are those pushed before, then
      that cell's pair if the test admits it. */
  lemma PushedStep(model: CostModel, strategy: Strategy, goal: Loc, current: Loc, ns: seq<Loc>, i: nat,
                   costSoFar0: map<Loc, real>)
    requires current in costSoFar0 && i < |ns|
    ensures Improves(model, current, ns[i], costSoFar0) ==>
              Pushed(model, strategy, goal, current, ns[..i + 1], costSoFar0) ==
                Pushed(model, strategy, goal, current, ns[..i], costSoFar0) +
                  [PushedEntry(model, strategy, goal, current, ns[i], costSoFar0)]
    ensures !Improves(model, current, ns[i], costSoFar0) ==>
              Pushed(model, strategy, goal, current, ns[..i + 1], costSoFar0) ==
                Pushed(model, strategy, goal, current, ns[..i], costSoFar0)
  {
    var m := ns[..i + 1];
    assert m[..|m| - 1] == ns[..i] && m[|m| - 1] == ns[i];
    if Improves(model, current, ns[i], costSoFar0) {
      var e := PushedEntry(model, strategy, goal, current, ns[i], costSoFar0);
      assert Pushed(model, strategy, goal, current, m, costSoFar0) ==
               Pushed(model, strategy, goal, current, m[..|m| - 1], costSoFar0) + [e];
    }
  }

  /** One pass of the loop of `RelaxNeighbors` keeps its invariant. */
  lemma RelaxStep(grid: SquareGrid, model: CostModel, strategy: Strategy, start: Loc, goal: Loc, current: Loc,
                  ns: seq<Loc>, i: nat, cameFrom0: CameFrom, costSoFar0: map<Loc, real>,
                  cf: CameFrom, cs: map<Loc, real>, cameFrom: CameFrom, costSoFar: map<Loc, real>,
                  queued: seq<Entry>, entries0: seq<Entry>, entries: seq<Entry>)
    requires ns == grid.Neighbors(current) && i < |ns|
    requires SearchTree(grid, model, start, cameFrom0, costSoFar0) && current in cameFrom0
    requires SearchTree(grid, model, start, cf, cs) && StartSettled(model, start, cf, cs)
    requires Expanded(model, current, ns[..i], cameFrom0, costSoFar0, cf, cs)
    requires entries0 == queued + Pushed(model, strategy, goal, current, ns[..i], costSoFar0)
    requires Relaxed(model, current, ns[i], cf, cs, cameFrom, costSoFar)
    requires Improves(model, current, ns[i], cs) ==>
               entries == entries0 + [Entry(Priority(strategy, costSoFar[ns[i]], ns[i], goal), ns[i])]
    requires !Improves(model, current, ns[i], cs) ==> entries == entries0
    ensures SearchTree(grid, model, start, cameFrom, costSoFar) && StartSettled(model, start, cameFrom, costSoFar)
    ensures Expanded(model, current, ns[..i + 1], cameFrom0, costSoFar0, cameFrom, costSoFar)
    ensures entries == queued + Pushed(model, strategy, goal, current, ns[..i + 1], costSoFar0)
  {
    grid.NeighborsDistinct(current);
    ExpandStep(model, current, ns, i, cameFrom0, costSoFar0, cf, cs, cameFrom, costSoFar);
    RelaxPreserves(grid, model, start, current, ns[i], cf, cs, cameFrom, costSoFar);
    RelaxPushed(model, strategy, goal, current, ns, i, costSoFar0, cs, costSoFar, queued, entries0, entries);
  }

  /** One more cell relaxed appends to the frontier what `Pushed` appends
      for it, when the test sees the costs it saw before the expansion. */
  lemma RelaxPushed(model: CostModel, strategy: Strategy, goal: Loc, current: Loc, ns: seq<Loc>, i: nat,
                    costSoFar0: map<Loc, real>, cs: map<Loc, real>, costSoFar: map<Loc, real>,
                    queued: seq<Entry>, entries0: seq<Entry>, entries: seq<Entry>)
    requires i < |ns| && current in costSoFar0 && current in cs && cs[current] == costSoFar0[current]
    requires Improves(model, current, ns[i], cs) == Improves(model, current, ns[i], costSoFar0)
    requires Improves(model, current, ns[i], cs) ==>
               ns[i] in costSoFar && costSoFar[ns[i]] == cs[current] + model.Cost(current, ns[i])
    requires entries0 == queued + Pushed(model, strategy, goal, current, ns[..i], costSoFar0)
    requires Improves(model, current, ns[i], cs) ==>
               entries == entries0 + [Entry(Priority(strategy, costSoFar[ns[i]], ns[i], goal), ns[i])]
    requires !Improves(model, current, ns[i], cs) ==> entries == entries0
    ensures entries == queued + Pushed(model, strategy, goal, current, ns[..i + 1], costSoFar0)
  {
    PushedStep(model, strategy, goal, current, ns, i, costSoFar0);
    var next := ns[i];
    var before := Pushed(model, strategy, goal, current, ns[..i], costSoFar0);
    if Improves(model, current, next, costSoFar0) {
      var e := PushedEntry(model, strategy, goal, current, next, costSoFar0);
      assert Improves(model, current, next, cs);
      assert costSoFar[next] == costSoFar0[current] + model.Cost(current, next);
      assert Entry(Priority(strategy, costSoFar[next], next, goal), next) == e;
      assert entries == entries0 + [e];
      assert entries == queued + (before + [e]);
    } else {
      assert entries == entries0;
    }
  }

  /** The `for next in graph.neighbors(current)` loop of both searches:
      every neighbour the test admits (new, or strictly cheaper through
      `current`) is recorded with `current` as predecessor at its new cost
      and pushed at its new priority, in `neighbors` order; nothing else
      changes. */
  method RelaxNeighbors(graph: GridWithWeights, start: Loc, goal: Loc, strategy: Strategy, current: Loc,
                        frontier: PriorityQueue, cameFrom0: CameFrom, costSoFar0: map<Loc, real>)
    returns (cameFrom: CameFrom, costSoFar: map<Loc, real>)
    requires SearchTree(graph.Grid(), graph.Model(), start, cameFrom0, costSoFar0)
    requires StartSettled(graph.Model(), start, cameFrom0, costSoFar0)
    requires current in cameFrom0
    modifies frontier
    ensures SearchTree(graph.Grid(), graph.Model(), start, cameFrom, costSoFar)
    ensures StartSettled(graph.Model(), start, cameFrom, costSoFar)
    ensures Expanded(graph.Model(), current, graph.Grid().Neighbors(current), cameFrom0, costSoFar0, cameFrom, costSoFar)
    ensures frontier.elements ==
              old(frontier.elements) + Pushed(graph.Model(), strategy, goal, current, graph.Grid().Neighbors(current), costSoFar0)
  {
    ghost var grid, model := graph.Grid(), graph.Model();
    cameFrom, costSoFar := cameFrom0, costSoFar0;
    var neighbors := graph.Grid().Neighbors(current);
    for i := 0 to |neighbors|
      invariant SearchTree(grid, model, start, cameFrom, costSoFar)
      invariant StartSettled(model, start, cameFrom, costSoFar)
      invariant Expanded(model, current, neighbors[..i], cameFrom0, costSoFar0, cameFrom, costSoFar)
      invariant frontier.elements == old(frontier.elements) + Pushed(model, strategy, goal, current, neighbors[..i], costSoFar0)
    {
      var next := neighbors[i];
      ghost var cf, cs, entries0 := cameFrom, costSoFar, frontier.elements;
      cameFrom, costSoFar := Relax(graph, goal, strategy, current, next, frontier, cameFrom, costSoFar);
      RelaxStep(grid, model, strategy, start, goal, current, neighbors, i, cameFrom0, costSoFar0,
                cf, cs, cameFrom, costSoFar, old(frontier.elements), entries0, frontier.elements);
    }
    assert neighbors[..|neighbors|] == neighbors;
  }

  /** A queued cell has a stored pair whose priority is no more than the
      priority its recorded cost gives it. */
  ghost predicate Queued(strategy: Strategy, goal: Loc, costSoFar: map<Loc, real>, entries: seq<Entry>, u: Loc)
  {
    u in costSoFar && exists e :: e in entries && e.item == u && e.priority <= Priority(strategy, costSoFar[u], u, goal)
  }

  /** A settled cell has offered every neighbour a cost no greater than
      its own plus the move. */
  ghost predicate Settled(grid: SquareGrid, model: CostModel, costSoFar: map<Loc, real>, u: Loc)
  {
    u in costSoFar && forall n :: n in grid.Neighbors(u) ==> n in costSoFar && costSoFar[n] <= costSoFar[u] + model.Cost(u, n)
  }

  ghost predicate Tracked(grid: SquareGrid, model: CostModel, strategy: Strategy, goal: Loc, costSoFar: map<Loc, real>,
                          entries: seq<Entry>, u: Loc)
  {
    Queued(strategy, goal, costSoFar, entries, u) || Settled(grid, model, costSoFar, u)
  }

  /** What the frontier of a weighted search keeps: it stores only
      recorded cells, no pair of the goal is cheaper than the goal's
      cost, the goal stays queued once recorded, and every recorded cell
      is queued or settled. */
  ghost predicate FrontierInvariant(grid: SquareGrid, model: CostModel, strategy: Strategy, goal: Loc,
                                    costSoFar: map<Loc, real>, entries: seq<Entry>)
  {
    && (forall e :: e in entries ==> e.item in costSoFar && (e.item == goal ==> costSoFar[goal] <= e.priority))
    && (goal in costSoFar ==> goal in Items(entries))
    && forall u {:trigger Tracked(grid, model, strategy, goal, costSoFar, entries, u)} ::
         u in costSoFar ==> Tracked(grid, model, strategy, goal, costSoFar, entries, u)
  }

  /** The costs after `current` is expanded over `ns`: the cost of
      `current` stays, no cost rises, every cell of `ns` costs at most the
      move through `current`, and a cell keeps its cost unless the test
      admitted it. */
  lemma ExpandCosts(model: CostModel, current: Loc, ns: seq<Loc>, cameFrom0: CameFrom, costSoFar0: map<Loc, real>,
                    cameFrom: CameFrom, costSoFar: map<Loc, real>)
    requires cameFrom0.Keys == costSoFar0.Keys && current in costSoFar0 && current !in ns
    requires Expanded(model, current, ns, cameFrom0, costSoFar0, cameFrom, costSoFar)
    ensures costSoFar.Keys == costSoFar0.Keys + set k | k in ns
    ensures costSoFar[current] == costSoFar0[current]
    ensures forall k :: k in costSoFar0 ==> costSoFar[k] <= costSoFar0[k]
    ensures forall k :: k in ns ==> costSoFar[k] <= costSoFar0[current] + model.Cost(current, k)
    ensures forall k :: k in costSoFar ==>
              if k in ns && Improves(model, current, k, costSoFar0) then
                costSoFar[k] == costSoFar0[current] + model.Cost(current, k)
              else
                k in costSoFar0 && costSoFar[k] == costSoFar0[k]
  {
    forall k | k in costSoFar
      ensures if k in ns && Improves(model, current, k, costSoFar0) then
                costSoFar[k] == costSoFar0[current] + model.Cost(current, k)
              else
                k in costSoFar0 && costSoFar[k] == costSoFar0[k]
    {
      assert k in costSoFar0 || k in ns;
      assert k in cameFrom;
    }
    assert current in cameFrom0;
  }

  /** After the expansion the frontier still stores only recorded cells,
      and no pair of the goal is cheaper than its cost. */
  lemma EntriesAfterExpand(model: CostModel, strategy: Strategy, goal: Loc, current: Loc, ns: seq<Loc>,
                           costSoFar0: map<Loc, real>, entries0: seq<Entry>, costSoFar: map<Loc, real>, entries: seq<Entry>)
    requires current in costSoFar0 && current != goal
    requires forall e :: e in entries0 ==> e.item in costSoFar0 && (e.item == goal ==> costSoFar0[goal] <= e.priority)
    requires forall k :: k in costSoFar0 ==> k in costSoFar && costSoFar[k] <= costSoFar0[k]
    requires forall k :: k in ns && Improves(model, current, k, costSoFar0) ==>
               k in costSoFar && costSoFar[k] == costSoFar0[current] + model.Cost(current, k)
    requires forall e :: e in entries ==> e in entries0 || e in Pushed(model, strategy, goal, current, ns, costSoFar0)
    ensures forall e :: e in entries ==> e.item in costSoFar && (e.item == goal ==> costSoFar[goal] <= e.priority)
  {
    PushedMembers(model, strategy, goal, current, ns, costSoFar0);
    forall e | e in entries ensures e.item in costSoFar && (e.item == goal ==> costSoFar[goal] <= e.priority) {
      if e !in entries0 {
        assert e.item in ns && Improves(model, current, e.item, costSoFar0);
      }
    }
  }

  /** After the expansion a recorded goal is still queued. */
  lemma GoalAfterExpand(model: CostModel, strategy: Strategy, goal: Loc, current: Loc, ns: seq<Loc>,
                        costSoFar0: map<Loc, real>, entries0: seq<Entry>, removed: Entry,
                        costSoFar: map<Loc, real>, entries: seq<Entry>)
    requires current in costSoFar0 && removed.item == current && current != goal
    requires goal in costSoFar0 ==> goal in Items(entries0)
    requires forall k :: k in costSoFar ==> k in costSoFar0 || k in ns
    requires forall k :: k in costSoFar ==> k in costSoFar0 || Improves(model, current, k, costSoFar0)
    requires forall e :: e in entries0 && e != removed ==> e in entries
    requires forall e :: e in Pushed(model, strategy, goal, current, ns, costSoFar0) ==> e in entries
    ensures goal in costSoFar ==> goal in Items(entries)
  {
    PushedMembers(model, strategy, goal, current, ns, costSoFar0);
    if goal in costSoFar {
      if goal in costSoFar0 {
        var e :| e in entries0 && e.item == goal;
        assert e in entries;
      } else {
        var e := PushedEntry(model, strategy, goal, current, goal, costSoFar0);
        assert e in Pushed(model, strategy, goal, current, ns, costSoFar0);
        assert e in entries;
      }
    }
  }

  /** After the expansion a recorded cell is still queued or settled:
      `current` is settled, an admitted neighbour is queued at its new
      priority, and any other cell keeps its pair, or its settledness
      since costs only fall. */
  lemma TrackedAfterExpand(grid: SquareGrid, model: CostModel, strategy: Strategy, goal: Loc, current: Loc,
                           costSoFar0: map<Loc, real>, entries0: seq<Entry>, removed: Entry,
                           costSoFar: map<Loc, real>, entries: seq<Entry>, u: Loc)
    requires current in costSoFar0 && removed.item == current && u in costSoFar
    requires u in costSoFar0 && u != current ==> Tracked(grid, model, strategy, goal, costSoFar0, entries0, u)
    requires costSoFar.Keys == costSoFar0.Keys + set k | k in grid.Neighbors(current)
    requires costSoFar[current] == costSoFar0[current]
    requires forall k :: k in costSoFar0 ==> costSoFar[k] <= costSoFar0[k]
    requires forall k :: k in grid.Neighbors(current) ==> costSoFar[k] <= costSoFar0[current] + model.Cost(current, k)
    requires if u in grid.Neighbors(current) && Improves(model, current, u, costSoFar0) then
               costSoFar[u] == costSoFar0[current] + model.Cost(current, u)
             else
               u in costSoFar0 && costSoFar[u] == costSoFar0[u]
    requires forall e :: e in entries0 && e != removed ==> e in entries
    requires forall e :: e in Pushed(model, strategy, goal, current, grid.Neighbors(current), costSoFar0) ==> e in entries
    ensures Tracked(grid, model, strategy, goal, costSoFar, entries, u)
  {
    var ns := grid.Neighbors(current);
    if u == current {
      assert forall n :: n in ns ==> n in costSoFar;
      ExpandedSettled(grid, model, current, costSoFar0, costSoFar);
    } else if u in ns && Improves(model, current, u, costSoFar0) {
      AdmittedQueued(model, strategy, goal, current, ns, costSoFar0, costSoFar, entries, u);
    } else if Queued(strategy, goal, costSoFar0, entries0, u) {
      QueuedKept(strategy, goal, costSoFar0, entries0, removed, costSoFar, entries, u);
    } else {
      SettledKept(grid, model, costSoFar0, costSoFar, u);
    }
  }

  /** The expanded cell is settled: every neighbour is recorded at no more
      than the cost through it. */
  lemma ExpandedSettled(grid: SquareGrid, model: CostModel, current: Loc, costSoFar0: map<Loc, real>,
                        costSoFar: map<Loc, real>)
    requires current in costSoFar0 && current in costSoFar && costSoFar[current] == costSoFar0[current]
    requires forall k :: k in grid.Neighbors(current) ==>
               k in costSoFar && costSoFar[k] <= costSoFar0[current] + model.Cost(current, k)
    ensures Settled(grid, model, costSoFar, current)
  {
  }

  /** A cell the expansion admitted is queued at its new priority. */
  lemma AdmittedQueued(model: CostModel, strategy: Strategy, goal: Loc, current: Loc, ns: seq<Loc>,
                       costSoFar0: map<Loc, real>, costSoFar: map<Loc, real>, entries: seq<Entry>, u: Loc)
    requires current in costSoFar0 && u in ns && Improves(model, current, u, costSoFar0)
    requires u in costSoFar && costSoFar[u] == costSoFar0[current] + model.Cost(current, u)
    requires forall e :: e in Pushed(model, strategy, goal, current, ns, costSoFar0) ==> e in entries
    ensures Queued(strategy, goal, costSoFar, entries, u)
  {
    PushedMembers(model, strategy, goal, current, ns, costSoFar0);
    var e := PushedEntry(model, strategy, goal, current, u, costSoFar0);
    assert e in Pushed(model, strategy, goal, current, ns, costSoFar0);
    assert e in entries;
  }

  /** A queued cell whose cost has not changed stays queued while its pair
      is not the one removed. */
  lemma QueuedKept(strategy: Strategy, goal: Loc, costSoFar0: map<Loc, real>, entries0: seq<Entry>, removed: Entry,
                   costSoFar: map<Loc, real>, entries: seq<Entry>, u: Loc)
    requires Queued(strategy, goal, costSoFar0, entries0, u) && u != removed.item
    requires u in costSoFar && costSoFar[u] == costSoFar0[u]
    requires forall e :: e in entries0 && e != removed ==> e in entries
    ensures Queued(strategy, goal, costSoFar, entries, u)
  {
    var e :| e in entries0 && e.item == u && e.priority <= Priority(strategy, costSoFar0[u], u, goal);
    assert e in entries;
  }

  /** A settled cell whose cost has not changed stays settled when no
      cost rises. */
  lemma SettledKept(grid: SquareGrid, model: CostModel, costSoFar0: map<Loc, real>, costSoFar: map<Loc, real>, u: Loc)
    requires Settled(grid, model, costSoFar0, u)
    requires u in costSoFar && costSoFar[u] == costSoFar0[u]
    requires forall k :: k in costSoFar0 ==> k in costSoFar && costSoFar[k] <= costSoFar0[k]
    ensures Settled(grid, model, costSoFar, u)
  {
  }

  /** Popping `current` and expanding it keeps the frontier invariant. */
  lemma ExpandKeepsFrontier(grid: SquareGrid, model: CostModel, strategy: Strategy, goal: Loc, current: Loc,
                            entries0: seq<Entry>, index: nat, cameFrom0: CameFrom, costSoFar0: map<Loc, real>,
                            cameFrom: CameFrom, costSoFar: map<Loc, real>, entries: seq<Entry>)
    requires FrontierInvariant(grid, model, strategy, goal, costSoFar0, entries0)
    requires index < |entries0| && entries0[index].item == current && current != goal
    requires cameFrom0.Keys == costSoFar0.Keys && current in costSoFar0
    requires Expanded(model, current, grid.Neighbors(current), cameFrom0, costSoFar0, cameFrom, costSoFar)
    requires entries == entries0[..index] + entries0[index + 1..] +
                        Pushed(model, strategy, goal, current, grid.Neighbors(current), costSoFar0)
    ensures FrontierInvariant(grid, model, strategy, goal, costSoFar, entries)
  {
    var ns := grid.Neighbors(current);
    var pushed := Pushed(model, strategy, goal, current, ns, costSoFar0);
    var removed := entries0[index];
    ItemsRemove(entries0, index);
    assert forall e :: e in entries <==> e in entries0[..index] + entries0[index + 1..] || e in pushed;
    grid.NeighborsDistinct(current);
    ExpandCosts(model, current, ns, cameFrom0, costSoFar0, cameFrom, costSoFar);
    EntriesAfterExpand(model, strategy, goal, current, ns, costSoFar0, entries0, costSoFar, entries);
    GoalAfterExpand(model, strategy, goal, current, ns, costSoFar0, entries0, removed, costSoFar, entries);
    forall u | u in costSoFar ensures Tracked(grid, model, strategy, goal, costSoFar, entries, u) {
      assert u in costSoFar0 ==> Tracked(grid, model, strategy, goal, costSoFar0, entries0, u);
      TrackedAfterExpand(grid, model, strategy, goal, current, costSoFar0, entries0, removed, costSoFar, entries, u);
    }
  }

  /** A walk from a recorded cell meets the frontier within its first `n`
      cells: one of them is recorded at no more than the head's cost plus
      the cost of the walk up to it, and is queued unless it is the `n`th. */
  lemma {:induction false} WalkMeetsFrontier(grid: SquareGrid, model: CostModel, strategy: Strategy, goal: Loc,
                                             costSoFar: map<Loc, real>, entries: seq<Entry>, p: seq<Loc>, n: nat)
    returns (i: nat)
    requires forall u {:trigger Tracked(grid, model, strategy, goal, costSoFar, entries, u)} ::
               u in costSoFar ==> Tracked(grid, model, strategy, goal, costSoFar, entries, u)
    requires IsWalk(grid, p) && 0 < n <= |p| && p[0] in costSoFar
    ensures i < n && p[i] in costSoFar
    ensures costSoFar[p[i]] <= costSoFar[p[0]] + PathCost(model, p[..i + 1])
    ensures i < n - 1 ==> Queued(strategy, goal, costSoFar, entries, p[i])
  {
    if n == 1 {
      i := 0;
      assert p[..1] == [p[0]];
    } else {
      var u, v := p[n - 2], p[n - 1];
      assert grid.Move(p[n - 1 - 1], p[n - 1]);
      var j := WalkMeetsFrontier(grid, model, strategy, goal, costSoFar, entries, p, n - 1);
      if j < n - 2 {
        i := j;
      } else {
        assert p[j] == u;
        TrackedStep(grid, model, strategy, goal, costSoFar, entries, u, v);
        if Queued(strategy, goal, costSoFar, entries, u) {
          i := j;
        } else {
          i := n - 1;
          MeetSettled(model, costSoFar, p, n);
        }
      }
    }
  }

  /** A cell recorded within the cost through the cell before it is
      recorded within the cost of the walk up to it. */
  lemma MeetSettled(model: CostModel, costSoFar: map<Loc, real>, p: seq<Loc>, n: nat)
    requires 1 < n <= |p| && p[0] in costSoFar && p[n - 2] in costSoFar && p[n - 1] in costSoFar
    requires costSoFar[p[n - 2]] <= costSoFar[p[0]] + PathCost(model, p[..n - 1])
    requires costSoFar[p[n - 1]] <= costSoFar[p[n - 2]] + model.Cost(p[n - 2], p[n - 1])
    ensures costSoFar[p[n - 1]] <= costSoFar[p[0]] + PathCost(model, p[..n])
  {
    var r := p[..n];
    assert r[..|r| - 1] == p[..n - 1] && r[|r| - 2] == p[n - 2] && r[|r| - 1] == p[n - 1];
    PathCostLast(model, r);
  }

  /** A move out of a tracked cell leaves a queued cell, or reaches a cell
      recorded at no more than the cost through the settled one. */
  lemma TrackedStep(grid: SquareGrid, model: CostModel, strategy: Strategy, goal: Loc,
                    costSoFar: map<Loc, real>, entries: seq<Entry>, u: Loc, v: Loc)
    requires forall w {:trigger Tracked(grid, model, strategy, goal, costSoFar, entries, w)} ::
               w in costSoFar ==> Tracked(grid, model, strategy, goal, costSoFar, entries, w)
    requires grid.Move(u, v) && u in costSoFar
    ensures Queued(strategy, goal, costSoFar, entries, u) || (v in costSoFar && costSoFar[v] <= costSoFar[u] + model.Cost(u, v))
  {
    assert Tracked(grid, model, strategy, goal, costSoFar, entries, u);
    assert v in grid.Neighbors(u);
  }

  /** The tail of a walk is a walk. */
  lemma WalkSuffix(grid: SquareGrid, p: seq<Loc>, i: nat)
    requires IsWalk(grid, p) && i < |p|
    ensures IsWalk(grid, p[i..])
  {
    forall j | 1 <= j < |p[i..]| ensures grid.Move(p[i..][j - 1], p[i..][j]) {
      assert p[i..][j - 1] == p[i + j - 1] && p[i..][j] == p[i + j];
    }
  }

  /** When the goal is popped, it is popped with a least pair; every walk
      from `start` meets the frontier at a queued cell whose pair is no
      cheaper, or reaches the goal through settled cells, so under
      admissible costs no walk to the goal is cheaper than its recorded
      cost. */
  lemma GoalPopShortest(grid: SquareGrid, model: CostModel, strategy: Strategy, start: Loc, goal: Loc,
                        cameFrom: CameFrom, costSoFar: map<Loc, real>, entries: seq<Entry>, index: nat)
    requires SearchTree(grid, model, start, cameFrom, costSoFar) && StartSettled(model, start, cameFrom, costSoFar)
    requires FrontierInvariant(grid, model, strategy, goal, costSoFar, entries)
    requires index < |entries| && entries[index].item == goal
    requires forall e :: e in entries ==> EntryLeq(entries[index], e)
    ensures Admissible(strategy, model) ==> ShortestTo(grid, model, start, goal, costSoFar)
  {
    if Admissible(strategy, model) {
      var m := entries[index];
      assert m in entries;
      assert goal in costSoFar && costSoFar[goal] <= m.priority;
      forall p | IsWalk(grid, p) && |p| > 0 && p[0] == start && p[|p| - 1] == goal
        ensures costSoFar[goal] <= PathCost(model, p)
      {
        EstimateAdmissible(grid, model, strategy, goal, p);
        assert costSoFar[start] == 0.0;
        GoalWalkBound(grid, model, strategy, start, goal, costSoFar, entries, m, p);
      }
    }
  }

  /** A walk from `start` to the goal, popped as the pair `m` no greater
      than any stored pair, costs at least the goal's recorded cost: the
      walk meets the frontier at a cell whose stored priority bounds the
      walk's cost from below (under admissible costs), and `m` is no
      dearer than that pair. */
  lemma GoalWalkBound(grid: SquareGrid, model: CostModel, strategy: Strategy, start: Loc, goal: Loc,
                      costSoFar: map<Loc, real>, entries: seq<Entry>, m: Entry, p: seq<Loc>)
    requires Admissible(strategy, model)
    requires forall u {:trigger Tracked(grid, model, strategy, goal, costSoFar, entries, u)} ::
               u in costSoFar ==> Tracked(grid, model, strategy, goal, costSoFar, entries, u)
    requires m.item == goal && goal in costSoFar && costSoFar[goal] <= m.priority
    requires forall e :: e in entries ==> EntryLeq(m, e)
    requires start in costSoFar && costSoFar[start] == 0.0
    requires IsWalk(grid, p) && |p| > 0 && p[0] == start && p[|p| - 1] == goal
    ensures costSoFar[goal] <= PathCost(model, p)
  {
    var i := WalkMeetsFrontier(grid, model, strategy, goal, costSoFar, entries, p, |p|);
    if i < |p| - 1 {
      var e :| e in entries && e.item == p[i] && e.priority <= Priority(strategy, costSoFar[p[i]], p[i], goal);
      assert EntryLeq(m, e);
      WalkSuffix(grid, p, i);
      EstimateAdmissible(grid, model, strategy, goal, p[i..]);
      PathCostSplit(model, p, i);
    } else {
      assert p[..i + 1] == p;
    }
  }

  /** With the frontier empty every recorded cell is settled, so the keys
      hold every neighbour of every key, and the goal was never recorded. */
  lemma FrontierEmptyClosed(grid: SquareGrid, model: CostModel, strategy: Strategy, goal: Loc, costSoFar: map<Loc, real>)
    requires FrontierInvariant(grid, model, strategy, goal, costSoFar, [])
    ensures goal !in costSoFar && Closed(grid, costSoFar.Keys)
  {
    forall k | k in costSoFar ensures forall n :: n in grid.Neighbors(k) ==> n in costSoFar {
      assert Tracked(grid, model, strategy, goal, costSoFar, [], k);
    }
  }

  /** The loop shared by `dijkstra_search` and `a_star_search`. Whether it
      ends depends on the costs (a negative cost can make it relax forever),
      so it expands at most `budget` cells. When it pops the goal under
      admissible costs, the goal's recorded cost is that of a cheapest
      walk. */
  method BestFirstSearch(graph: GridWithWeights, start: Loc, goal: Loc, strategy: Strategy, budget: nat)
    returns (cameFrom: CameFrom, costSoFar: map<Loc, real>, outcome: Outcome)
    ensures WeightedSearchResult(graph.Grid(), graph.Model(), start, goal, cameFrom, costSoFar, outcome)
    ensures outcome == GoalReached && Admissible(strategy, graph.Model()) ==>
              ShortestTo(graph.Grid(), graph.Model(), start, goal, costSoFar)
  {
    ghost var grid, model := graph.Grid(), graph.Model();
    var frontier := new PriorityQueue();
    frontier.Put(start, 0.0);
    cameFrom := map[start := None];
    costSoFar := map[start := 0.0];
    var budgetLeft := budget;
    outcome := FrontierExhausted;
    assert Queued(strategy, goal, costSoFar, frontier.elements, start) by {
      assert Entry(0.0, start) in frontier.elements;
    }
    assert Items(frontier.elements) == {start} by {
      ItemsAppend([], Entry(0.0, start));
    }

    while !frontier.Empty()
      invariant fresh(frontier) && outcome == FrontierExhausted
      invariant SearchTree(grid, model, start, cameFrom, costSoFar)
      invariant StartSettled(model, start, cameFrom, costSoFar)
      invariant FrontierInvariant(grid, model, strategy, goal, costSoFar, frontier.elements)
      decreases budgetLeft
    {
      if budgetLeft == 0 {
        outcome := BudgetSpent;
        break;
      }
      budgetLeft := budgetLeft - 1;

      ghost var before := frontier.elements;
      var current, index := frontier.Get();
      assert before[index] in before;
      if current == goal {
        outcome := GoalReached;
        GoalPopShortest(grid, model, strategy, start, goal, cameFrom, costSoFar, before, index);
        break;
      }
      ghost var cf0, cs0 := cameFrom, costSoFar;
      cameFrom, costSoFar := RelaxNeighbors(graph, start, goal, strategy, current, frontier, cameFrom, costSoFar);
      ExpandKeepsFrontier(grid, model, strategy, goal, current, before, index, cf0, cs0, cameFrom, costSoFar, frontier.elements);
    }

    if outcome == FrontierExhausted {
      FrontierEmptyClosed(grid, model, strategy, goal, costSoFar);
    }
    if model.PositiveCosts() {
      SearchTreeRanked(grid, model, start, cameFrom, costSoFar);
      RankedTreeLinksToStart(cameFrom, start, costSoFar);
    }
  }

  /** `dijkstra_search`: the priority of a relaxed cell is its new cost.
      With positive costs, a goal it pops is recorded at the cost of a
      cheapest walk. */
  method DijkstraSearch(graph: GridWithWeights, start: Loc, goal: Loc, budget: nat)
    returns (cameFrom: CameFrom, costSoFar: map<Loc, real>, outcome: Outcome)
    ensures WeightedSearchResult(graph.Grid(), graph.Model(), start, goal, cameFrom, costSoFar, outcome)
    ensures outcome == GoalReached && graph.Model().PositiveCosts() ==>
              ShortestTo(graph.Grid(), graph.Model(), start, goal, costSoFar)
  {
    cameFrom, costSoFar, outcome := BestFirstSearch(graph, start, goal, Dijkstra, budget);
  }

  /** `a_star_search`: the priority of a relaxed cell is its new cost plus
      its Manhattan distance to the goal. With every cost at least 1.0, a
      goal it pops is recorded at the cost of a cheapest walk. */
  method AStarSearch(graph: GridWithWeights, start: Loc, goal: Loc, budget: nat)
    returns (cameFrom: CameFrom, costSoFar: map<Loc, real>, outcome: Outcome)
    ensures WeightedSearchResult(graph.Grid(), graph.Model(), start, goal, cameFrom, costSoFar, outcome)
    ensures outcome == GoalReached && graph.Model().UnitCosts() ==>
              ShortestTo(graph.Grid(), graph.Model(), start, goal, costSoFar)
  {
    cameFrom, costSoFar, outcome := BestFirstSearch(graph, start, goal, AStar, budget);
  }

  /** The tree `breadth_first_search` grows: `start` is the root, every
      other key is reached by a grid move from its recorded predecessor,
      and the order of discovery ranks the tree (`nextRank` is the rank
      the next discovered cell gets). */
  ghost predicate DiscoveryTree(grid: SquareGrid, start: Loc, cameFrom: CameFrom, rank: map<Loc, real>, nextRank: real)
  {
    && start in cameFrom && cameFrom[start] == None
    && RankedTree(cameFrom, start, rank)
    && (forall k :: k in rank ==> rank[k] < nextRank)
    && (forall k {:trigger cameFrom[k]} :: k in cameFrom && k != start ==> cameFrom[k].Some? && grid.Move(cameFrom[k].value, k))
  }

  /** Expanding `current` keeps the discovery tree when the entries
      already recorded stay as they were and every new entry is a grid
      neighbour of `current` recorded with `current` as predecessor; the
      new cells all share the next rank. */
  lemma DiscoverKeepsTree(grid: SquareGrid, start: Loc, current: Loc, cameFrom0: CameFrom, cameFrom: CameFrom,
                          rank0: map<Loc, real>, nextRank0: real, rank: map<Loc, real>)
    requires DiscoveryTree(grid, start, cameFrom0, rank0, nextRank0) && current in cameFrom0
    requires forall k :: k in cameFrom0 ==> k in cameFrom && cameFrom[k] == cameFrom0[k]
    requires forall k :: k in cameFrom && k !in cameFrom0 ==> cameFrom[k] == Some(current) && grid.Move(current, k)
    requires rank == map k | k in cameFrom :: if k in cameFrom0 then rank0[k] else nextRank0
    ensures DiscoveryTree(grid, start, cameFrom, rank, nextRank0 + 1.0)
  {
    forall k | k in cameFrom && k != start
      ensures cameFrom[k].Some? && cameFrom[k].value in cameFrom && rank[cameFrom[k].value] < rank[k]
    {
      if k in cameFrom0 {
        assert cameFrom0[k].Some?;
      }
    }
    assert RankedTree(cameFrom, start, rank);
    forall k | k in cameFrom && k != start ensures cameFrom[k].Some? && grid.Move(cameFrom[k].value, k) {
      if k in cameFrom0 {
        assert cameFrom0[k].Some? && grid.Move(cameFrom0[k].value, k);
      }
    }
  }

  /** The cells of `ns` not recorded in `cameFrom0`, in the order of `ns`. */
  function NewCells(ns: seq<Loc>, cameFrom0: CameFrom): (r: seq<Loc>)
    ensures forall k :: k in r <==> k in ns && k !in cameFrom0
    ensures |r| <= |ns|
  {
    if ns == [] then []
    else if ns[|ns| - 1] in cameFrom0 then NewCells(ns[..|ns| - 1], cameFrom0)
    else
      assert forall k :: k in ns <==> k in ns[..|ns| - 1] || k == ns[|ns| - 1];
      NewCells(ns[..|ns| - 1], cameFrom0) + [ns[|ns| - 1]]
  }

  /** Filtering a sequence without repetition gives one without
      repetition. */
  lemma {:induction false} NewCellsDistinct(ns: seq<Loc>, cameFrom0: CameFrom)
    requires forall i, j :: 0 <= i < j < |ns| ==> ns[i] != ns[j]
    ensures forall i, j :: 0 <= i < j < |NewCells(ns, cameFrom0)| ==> NewCells(ns, cameFrom0)[i] != NewCells(ns, cameFrom0)[j]
  {
    if ns != [] {
      var init, last := ns[..|ns| - 1], ns[|ns| - 1];
      assert forall i, j :: 0 <= i < j < |init| ==> init[i] != init[j] by {
        forall i, j | 0 <= i < j < |init| ensures init[i] != init[j] {
          assert init[i] == ns[i] && init[j] == ns[j];
        }
      }
      NewCellsDistinct(init, cameFrom0);
      assert last !in init by {
        forall j | 0 <= j < |init| ensures init[j] != last {
          assert init[j] == ns[j];
        }
      }
    }
  }

  /** Filtering one more cell of `ns` appends it exactly when it is not
      recorded. */
  lemma NewCellsStep(ns: seq<Loc>, i: nat, cameFrom0: CameFrom)
    requires i < |ns|
    ensures ns[i] in cameFrom0 ==> NewCells(ns[..i + 1], cameFrom0) == NewCells(ns[..i], cameFrom0)
    ensures ns[i] !in cameFrom0 ==> NewCells(ns[..i + 1], cameFrom0) == NewCells(ns[..i], cameFrom0) + [ns[i]]
  {
    var m := ns[..i + 1];
    assert m[..|m| - 1] == ns[..i] && m[|m| - 1] == ns[i];
  }

  /** In a sequence without repetition, the cell at `i` is not among
      those before it. */
  lemma PrefixStep(ns: seq<Loc>, i: nat)
    requires i < |ns| && forall a, b :: 0 <= a < b < |ns| ==> ns[a] != ns[b]
    ensures ns[i] !in ns[..i]
    ensures forall k :: k in ns[..i + 1] <==> k in ns[..i] || k == ns[i]
  {
    assert ns[..i + 1] == ns[..i] + [ns[i]];
    forall j | 0 <= j < i ensures ns[..i][j] != ns[i] {
      assert ns[..i][j] == ns[j];
    }
  }

  /** One pass of the loop of `DiscoverNeighbors` keeps its invariant on
      the map: a cell is recorded for the first time exactly when it is
      new to the expansion and was not recorded before it. */
  lemma DiscoverMaps(ns: seq<Loc>, i: nat, current: Loc, cameFrom0: CameFrom, cf: CameFrom, cameFrom: CameFrom)
    requires i < |ns| && forall a, b :: 0 <= a < b < |ns| ==> ns[a] != ns[b]
    requires forall k :: k in cf <==> k in cameFrom0 || k in ns[..i]
    requires forall k :: k in cameFrom0 ==> cf[k] == cameFrom0[k]
    requires forall k :: k in cf && k !in cameFrom0 ==> cf[k] == Some(current)
    requires ns[i] in cf ==> cameFrom == cf
    requires ns[i] !in cf ==> cameFrom == cf[ns[i] := Some(current)]
    ensures ns[i] in cf <==> ns[i] in cameFrom0
    ensures forall k :: k in cameFrom <==> k in cameFrom0 || k in ns[..i + 1]
    ensures forall k :: k in cameFrom0 ==> cameFrom[k] == cameFrom0[k]
    ensures forall k :: k in cameFrom && k !in cameFrom0 ==> cameFrom[k] == Some(current)
  {
    PrefixStep(ns, i);
  }

  /** One pass of the loop of `DiscoverNeighbors` keeps its invariant on
      the queue: it holds what it held, then the new cells so far. */
  lemma DiscoverQueue(ns: seq<Loc>, i: nat, cameFrom0: CameFrom, queued: seq<Loc>, elements0: seq<Loc>, elements: seq<Loc>)
    requires i < |ns|
    requires elements0 == queued + NewCells(ns[..i], cameFrom0)
    requires ns[i] in cameFrom0 ==> elements == elements0
    requires ns[i] !in cameFrom0 ==> elements == elements0 + [ns[i]]
    ensures elements == queued + NewCells(ns[..i + 1], cameFrom0)
  {
    NewCellsStep(ns, i, cameFrom0);
    if ns[i] !in cameFrom0 {
      assert elements == queued + (NewCells(ns[..i], cameFrom0) + [ns[i]]);
    }
  }

  /** The `for next in graph.neighbors(current)` loop of
      `breadth_first_search`: every neighbour ends up recorded; a cell
      already recorded keeps its entry (a cell enters the map at most
      once); each new cell gets `current` as predecessor and is queued
      behind what the queue already held, and only new cells are queued. */
  method DiscoverNeighbors(grid: SquareGrid, current: Loc, frontier: Queue<Loc>, cameFrom0: CameFrom)
    returns (cameFrom: CameFrom)
    modifies frontier
    ensures forall k :: k in cameFrom <==> k in cameFrom0 || k in grid.Neighbors(current)
    ensures forall k :: k in cameFrom0 ==> cameFrom[k] == cameFrom0[k]
    ensures forall k :: k in cameFrom && k !in cameFrom0 ==> cameFrom[k] == Some(current)
    ensures |old(frontier.elements)| <= |frontier.elements|
    ensures frontier.elements[..|old(frontier.elements)|] == old(frontier.elements)
    ensures forall k :: k in frontier.elements[|old(frontier.elements)|..] <==> k in cameFrom && k !in cameFrom0
    ensures frontier.elements == old(frontier.elements) + NewCells(grid.Neighbors(current), cameFrom0)
  {
    cameFrom := cameFrom0;
    ghost var queued := frontier.elements;
    var neighbors := grid.Neighbors(current);
    grid.NeighborsDistinct(current);
    for i := 0 to |neighbors|
      invariant forall k :: k in cameFrom <==> k in cameFrom0 || k in neighbors[..i]
      invariant forall k :: k in cameFrom0 ==> cameFrom[k] == cameFrom0[k]
      invariant forall k :: k in cameFrom && k !in cameFrom0 ==> cameFrom[k] == Some(current)
      invariant frontier.elements == queued + NewCells(neighbors[..i], cameFrom0)
    {
      var next := neighbors[i];
      ghost var cf, elements0 := cameFrom, frontier.elements;
      cameFrom := Discover(current, next, frontier, cameFrom);
      DiscoverMaps(neighbors, i, current, cameFrom0, cf, cameFrom);
      DiscoverQueue(neighbors, i, cameFrom0, queued, elements0, frontier.elements);
    }
    assert neighbors[..|neighbors|] == neighbors;
    assert frontier.elements[|queued|..] == NewCells(neighbors, cameFrom0);
  }

  /** One pass of the inner loop body of `breadth_first_search`, for
      `next`: a cell not yet recorded is queued and recorded with
      `current` as predecessor; a recorded one is left alone. */
  method Discover(current: Loc, next: Loc, frontier: Queue<Loc>, cameFrom0: CameFrom) returns (cameFrom: CameFrom)
    modifies frontier
    ensures next in cameFrom0 ==> cameFrom == cameFrom0 && frontier.elements == old(frontier.elements)
    ensures next !in cameFrom0 ==>
              cameFrom == cameFrom0[next := Some(current)] && frontier.elements == old(frontier.elements) + [next]
  {
    cameFrom := cameFrom0;
    if next !in cameFrom {
      frontier.Put(next);
      cameFrom := cameFrom[next := Some(current)];
    }
  }

  /** The queue after a pass of the outer loop: what it held stays queued,
      and it grew exactly when new cells were recorded. */
  lemma QueueGrows(rest: seq<Loc>, queue: seq<Loc>, cameFrom0: CameFrom, cameFrom: CameFrom)
    requires |rest| <= |queue| && queue[..|rest|] == rest
    requires forall k :: k in queue[|rest|..] <==> k in cameFrom && k !in cameFrom0
    ensures forall k :: k in rest ==> k in queue
    ensures forall k :: k in cameFrom && k !in cameFrom0 ==> k in queue
    ensures forall k :: k in queue ==> k in rest || k in cameFrom
    ensures cameFrom.Keys <= cameFrom0.Keys ==> |queue| == |rest|
    ensures !(cameFrom.Keys <= cameFrom0.Keys) ==> |queue| > |rest|
  {
    forall k | k in rest ensures k in queue {
      assert k in queue[..|rest|];
    }
    forall k | k in cameFrom && k !in cameFrom0 ensures k in queue {
      assert k in queue[|rest|..];
    }
    forall k | k in queue ensures k in rest || k in cameFrom {
      var i :| 0 <= i < |queue| && queue[i] == k;
      if i < |rest| {
        assert queue[..|rest|][i] == k;
      } else {
        assert queue[|rest|..][i - |rest|] == k;
      }
    }
    if |rest| < |queue| {
      assert queue[|rest|] in queue[|rest|..];
    }
    if !(cameFrom.Keys <= cameFrom0.Keys) {
      var k :| k in cameFrom && k !in cameFrom0;
      assert k in queue[|rest|..];
    }
  }

  /** A pass of the outer loop of `breadth_first_search` keeps its
      bookkeeping: every queued cell is recorded, every recorded cell is
      expanded or queued, and every neighbour of an expanded cell is
      recorded. */
  lemma ExpandKeeps(grid: SquareGrid, current: Loc, queued: seq<Loc>, rest: seq<Loc>, queue: seq<Loc>,
                    cameFrom0: CameFrom, cameFrom: CameFrom, expanded: set<Loc>)
    requires forall k :: k in queued ==> k in cameFrom0
    requires forall k :: k in cameFrom0 ==> k in expanded || k in queued
    requires forall k :: k in expanded ==> forall n :: n in grid.Neighbors(k) ==> n in cameFrom0
    requires queued == [current] + rest
    requires forall k :: k in cameFrom <==> k in cameFrom0 || k in grid.Neighbors(current)
    requires |rest| <= |queue| && queue[..|rest|] == rest
    requires forall k :: k in queue[|rest|..] <==> k in cameFrom && k !in cameFrom0
    ensures forall k :: k in queue ==> k in cameFrom
    ensures forall k :: k in cameFrom ==> k in expanded + {current} || k in queue
    ensures forall k :: k in expanded + {current} ==> forall n :: n in grid.Neighbors(k) ==> n in cameFrom
    ensures cameFrom.Keys <= cameFrom0.Keys ==> |queue| < |queued|
  {
    QueueGrows(rest, queue, cameFrom0, cameFrom);
    QueueRecorded(current, queued, rest, queue, cameFrom0, cameFrom);
    RecordedCovered(grid, current, queued, rest, queue, cameFrom0, cameFrom, expanded);
    ExpandedClosed(grid, current, cameFrom0, cameFrom, expanded);
  }

  /** After a pass every queued cell is recorded. */
  lemma QueueRecorded(current: Loc, queued: seq<Loc>, rest: seq<Loc>, queue: seq<Loc>,
                      cameFrom0: CameFrom, cameFrom: CameFrom)
    requires forall k :: k in queued ==> k in cameFrom0
    requires queued == [current] + rest
    requires forall k :: k in cameFrom0 ==> k in cameFrom
    requires forall k :: k in queue ==> k in rest || k in cameFrom
    ensures forall k :: k in queue ==> k in cameFrom
  {
    assert forall k :: k in rest ==> k in queued;
  }

  /** After a pass every recorded cell is expanded, is `current`, or is
      queued. */
  lemma RecordedCovered(grid: SquareGrid, current: Loc, queued: seq<Loc>, rest: seq<Loc>, queue: seq<Loc>,
                        cameFrom0: CameFrom, cameFrom: CameFrom, expanded: set<Loc>)
    requires forall k :: k in cameFrom0 ==> k in expanded || k in queued
    requires queued == [current] + rest
    requires forall k :: k in rest ==> k in queue
    requires forall k :: k in cameFrom && k !in cameFrom0 ==> k in queue
    ensures forall k :: k in cameFrom ==> k in expanded + {current} || k in queue
  {
    assert forall k :: k in queued ==> k == current || k in rest;
  }

  /** After `current` is expanded, every neighbour of an expanded cell is
      recorded. */
  lemma ExpandedClosed(grid: SquareGrid, current: Loc, cameFrom0: CameFrom, cameFrom: CameFrom, expanded: set<Loc>)
    requires forall k :: k in expanded ==> forall n :: n in grid.Neighbors(k) ==> n in cameFrom0
    requires forall k :: k in cameFrom <==> k in cameFrom0 || k in grid.Neighbors(current)
    ensures forall k :: k in expanded + {current} ==> forall n :: n in grid.Neighbors(k) ==> n in cameFrom
  {
  }

  /** Every recorded cell but `start` is a cell of the grid, so recording
      new cells leaves fewer unrecorded ones: the outer loop of
      `breadth_first_search` ends. */
  lemma FewerUnvisited(grid: SquareGrid, start: Loc, cameFrom0: CameFrom, cameFrom: CameFrom,
                       rank: map<Loc, real>, nextRank: real)
    requires DiscoveryTree(grid, start, cameFrom, rank, nextRank)
    requires cameFrom0.Keys < cameFrom.Keys
    ensures grid.Cells() + {start} - cameFrom.Keys < grid.Cells() + {start} - cameFrom0.Keys
  {
    var k :| k in cameFrom && k !in cameFrom0;
    if k != start {
      assert grid.Move(cameFrom[k].value, k);
      grid.InBoundsInCells(k);
    }
    assert k in grid.Cells() + {start} - cameFrom0.Keys;
  }

  /** `breadth_first_search`: the map it returns roots `start`, records
      for every other cell a grid neighbour it was reached from, links
      every cell back to `start` (so `ReconstructPath` ends), and, when
      the goal was not reached, holds every neighbour of every cell it
      holds, so no cell outside it is reachable from `start`. */
  method BreadthFirstSearch(grid: SquareGrid, start: Loc, goal: Loc) returns (cameFrom: CameFrom)
    ensures start in cameFrom && cameFrom[start] == None
    ensures forall k :: k in cameFrom && k != start ==> cameFrom[k].Some? && grid.Move(cameFrom[k].value, k)
    ensures forall k :: k in cameFrom ==> LinksToStart(cameFrom, start, k)
    ensures goal in cameFrom || Closed(grid, cameFrom.Keys)
  {
    var frontier := new Queue<Loc>();
    frontier.Put(start);
    cameFrom := map[start := None];
    ghost var rank: map<Loc, real> := map[start := 0.0];
    ghost var nextRank := 1.0;
    ghost var expanded: set<Loc> := {};

    while !frontier.Empty()
      invariant fresh(frontier)
      invariant DiscoveryTree(grid, start, cameFrom, rank, nextRank)
      invariant forall k :: k in frontier.elements ==> k in cameFrom
      invariant forall k :: k in cameFrom ==> k in expanded || k in frontier.elements
      invariant forall k :: k in expanded ==> forall n :: n in grid.Neighbors(k) ==> n in cameFrom
      decreases grid.Cells() + {start} - cameFrom.Keys, |frontier.elements|
    {
      ghost var queued := frontier.elements;
      var current := frontier.Get();
      if current == goal {
        break;
      }
      ghost var cameFrom0, rest := cameFrom, frontier.elements;
      cameFrom := DiscoverNeighbors(grid, current, frontier, cameFrom);
      ghost var rank0 := rank;
      rank := map k | k in cameFrom :: if k in cameFrom0 then rank0[k] else nextRank;
      DiscoverKeepsTree(grid, start, current, cameFrom0, cameFrom, rank0, nextRank, rank);
      nextRank := nextRank + 1.0;
      ExpandKeeps(grid, current, queued, rest, frontier.elements, cameFrom0, cameFrom, expanded);
      expanded := expanded + {current};
      if cameFrom.Keys != cameFrom0.Keys {
        FewerUnvisited(grid, start, cameFrom0, cameFrom, rank, nextRank);
      }
    }
    RankedTreeLinksToStart(cameFrom, start, rank);
  }
}
