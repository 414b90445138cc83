/** Walks on the grid and what they cost: the yardstick against which the
    searches' recorded costs are measured. */
module Walks {

  import opened Locations
  import opened SquareGrids
  import opened WeightedGrids

  /** `p` is a sequence of moves that `neighbors` offers. */
  ghost predicate IsWalk(grid: SquareGrid, p: seq<Loc>)
  {
    forall i :: 1 <= i < |p| ==> grid.Move(p[i - 1], p[i])
  }

  /** The cost of walking `p`: the sum of `cost` over its moves. */
  function PathCost(model: CostModel, p: seq<Loc>): real
  {
    if |p| <= 1 then 0.0 else PathCost(model, p[..|p| - 1]) + model.Cost(p[|p| - 2], p[|p| - 1])
  }

  /** A walk cut at one of its cells costs what its two pieces cost. */
  lemma {:induction false} PathCostSplit(model: CostModel, p: seq<Loc>, i: nat)
    requires i < |p|
    ensures PathCost(model, p) == PathCost(model, p[..i + 1]) + PathCost(model, p[i..])
    decreases |p|
  {
    if i < |p| - 1 {
      var q, r := p[..|p| - 1], p[i..];
      assert q[..i + 1] == p[..i + 1];
      assert |r| > 1 && r[..|r| - 1] == q[i..] && r[|r| - 2] == p[|p| - 2] && r[|r| - 1] == p[|p| - 1];
      PathCostLast(model, p);
      PathCostLast(model, r);
      PathCostSplit(model, q, i);
    } else {
      assert p[..i + 1] == p;
    }
  }

  /** The cost of a walk of two or more cells is that of the walk without
      its last cell plus its last move. */
  lemma PathCostLast(model: CostModel, p: seq<Loc>)
    requires |p| > 1
    ensures PathCost(model, p) == PathCost(model, p[..|p| - 1]) + model.Cost(p[|p| - 2], p[|p| - 1])
  {
  }

  /** With positive costs no walk costs less than nothing. */
  lemma {:induction false} PathCostNonNegative(model: CostModel, p: seq<Loc>)
    requires model.PositiveCosts()
    ensures PathCost(model, p) >= 0.0
  {
    if |p| > 1 {
      PathCostNonNegative(model, p[..|p| - 1]);
      model.CostPositive(p[|p| - 2], p[|p| - 1]);
    }
  }

  /** With every cost at least 1.0 a walk costs at least its number of
      moves. */
  lemma {:induction false} PathCostAtLeastMoves(model: CostModel, p: seq<Loc>)
    requires model.UnitCosts() && |p| > 0
    ensures PathCost(model, p) >= (|p| - 1) as real
  {
    if |p| > 1 {
      PathCostAtLeastMoves(model, p[..|p| - 1]);
      model.CostAtLeastOne(p[|p| - 2], p[|p| - 1]);
    }
  }

  /** With every cost at least 1.0 the Manhattan heuristic between the
      ends of a walk is at most the walk's cost: it is admissible. */
  lemma HeuristicAdmissible(grid: SquareGrid, model: CostModel, p: seq<Loc>)
    requires model.UnitCosts() && IsWalk(grid, p) && |p| > 0
    ensures Heuristic(p[0], p[|p| - 1]) as real <= PathCost(model, p)
  {
    forall i | 0 <= i < |p| - 1 ensures UnitStep(p[i], p[i + 1]) {
      assert grid.Move(p[i + 1 - 1], p[i + 1]);
    }
    HeuristicBoundsSteps(p);
    PathCostAtLeastMoves(model, p);
  }
}
