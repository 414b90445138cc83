/** `GridWithWeights`: a square grid whose cells carry movement costs,
    resolved from an ordered list of rectangular cost areas (first match
    wins), then a sparse per-cell weight map, then the default 1.0; and
    `GridWithAdjustedWeights`, which adds a parity nudge to that cost. */
module WeightedGrids {

  import opened Wrappers
  import opened Locations
  import opened SquareGrids

  /** An inclusive rectangle `(x_min, y_min, x_max, y_max)`. */
  datatype Rect = Rect(xMin: int, yMin: int, xMax: int, yMax: int)
  {
    predicate Contains(id: Loc)
    {
      xMin <= id.x <= xMax && yMin <= id.y <= yMax
    }

    predicate NonEmpty()
    {
      xMin <= xMax && yMin <= yMax
    }
  }

  /** One entry of `area_definitions`: `{'rect': ..., 'cost': ...}`. */
  datatype Area = Area(rect: Rect, cost: real)

  /** `i` is the first area, in list order, whose rectangle contains `to`. */
  ghost predicate IsFirstMatch(areas: seq<Area>, to: Loc, i: int)
  {
    && 0 <= i < |areas|
    && areas[i].rect.Contains(to)
    && forall j :: 0 <= j < i ==> !areas[j].rect.Contains(to)
  }

  /** The scan of `cost` over `area_definitions`: the index of the first
      area containing `to`, or `None` when no area does. */
  function FirstMatch(areas: seq<Area>, to: Loc): (r: Option<nat>)
    ensures r.Some? ==> IsFirstMatch(areas, to, r.value)
    ensures r.None? ==> forall i :: 0 <= i < |areas| ==> !areas[i].rect.Contains(to)
  {
    if areas == [] then None
    else if areas[0].rect.Contains(to) then Some(0)
    else match FirstMatch(areas[1..], to)
      case None => None
      case Some(i) => Some(i + 1)
  }

  /** `GridWithWeights.cost(from, to)`: the cost of entering `to`. It is
      the cost of the first area containing `to`; when no area contains
      it, the sparse weight of `to` if one is recorded, else 1.0. */
  function WeightedCost(areas: seq<Area>, weights: map<Loc, real>, to: Loc): (r: real)
    ensures forall i :: IsFirstMatch(areas, to, i) ==> r == areas[i].cost
    ensures (forall i :: 0 <= i < |areas| ==> !areas[i].rect.Contains(to)) ==>
              r == (if to in weights then weights[to] else 1.0)
  {
    match FirstMatch(areas, to)
    case Some(i) => areas[i].cost
    case None => if to in weights then weights[to] else 1.0
  }

  /** Appending an area changes the cost only of cells that no earlier
      area contains and that the new area does contain. */
  lemma AppendAreaCost(areas: seq<Area>, a: Area, weights: map<Loc, real>, to: Loc)
    ensures WeightedCost(areas + [a], weights, to) ==
              if FirstMatch(areas, to).None? && a.rect.Contains(to) then a.cost
              else WeightedCost(areas, weights, to)
  {
    var all := areas + [a];
    match FirstMatch(areas, to)
    case Some(i) =>
      assert IsFirstMatch(all, to, i) by {
        forall j | 0 <= j < i ensures !all[j].rect.Contains(to) {
          assert all[j] == areas[j];
        }
      }
    case None =>
      if a.rect.Contains(to) {
        assert IsFirstMatch(all, to, |areas|) by {
          forall j | 0 <= j < |areas| ensures !all[j].rect.Contains(to) {
            assert all[j] == areas[j];
          }
        }
      } else {
        forall i | 0 <= i < |all| ensures !all[i].rect.Contains(to) {
          if i < |areas| { assert all[i] == areas[i]; }
        }
      }
  }

  /** The nudge of `GridWithAdjustedWeights.cost`: 1 when the cell moved from
      has even `x + y` and the move changes x, or odd `x + y` and the move
      changes y; 0 otherwise. */
  function Nudge(fromNode: Loc, toNode: Loc): nat
  {
    if (fromNode.x + fromNode.y) % 2 == 0 && toNode.x != fromNode.x then 1
    else if (fromNode.x + fromNode.y) % 2 == 1 && toNode.y != fromNode.y then 1
    else 0
  }

  /** `GridWithAdjustedWeights.cost`: the base cost plus `0.001 * nudge`. */
  function AdjustedCost(baseCost: real, fromNode: Loc, toNode: Loc): real
  {
    baseCost + 0.001 * Nudge(fromNode, toNode) as real
  }

  /** On a single grid step the nudge penalises horizontal moves out of
      even cells and vertical moves out of odd cells, and nothing else;
      the penalty is either nothing or exactly 0.001. */
  lemma NudgeOnStep(fromNode: Loc, toNode: Loc, baseCost: real)
    requires UnitStep(fromNode, toNode)
    ensures Nudge(fromNode, toNode) == 1 <==>
              (((fromNode.x + fromNode.y) % 2 == 0) == (toNode.y == fromNode.y))
    ensures AdjustedCost(baseCost, fromNode, toNode) == baseCost ||
            AdjustedCost(baseCost, fromNode, toNode) == baseCost + 0.001
  {
  }

  /** What the cost of a move depends on: the area list, the sparse
      weights, and whether the grid is a `GridWithAdjustedWeights`. */
  datatype CostModel = CostModel(areas: seq<Area>, weights: map<Loc, real>, nudged: bool)
  {
    /** `cost(from, to)`: the weighted cost of entering `to`, plus the
        nudge for `GridWithAdjustedWeights`. */
    function Cost(fromNode: Loc, toNode: Loc): real
    {
      var baseCost := WeightedCost(areas, weights, toNode);
      if nudged then AdjustedCost(baseCost, fromNode, toNode) else baseCost
    }

    /** Every configured cost is positive. */
    ghost predicate PositiveCosts()
    {
      && (forall i :: 0 <= i < |areas| ==> areas[i].cost > 0.0)
      && (forall id :: id in weights ==> weights[id] > 0.0)
    }

    /** With positive configured costs every move costs more than nothing. */
    lemma CostPositive(fromNode: Loc, toNode: Loc)
      requires PositiveCosts()
      ensures Cost(fromNode, toNode) > 0.0
    {
    }

    /** Every configured cost is at least 1.0, the cost of an unweighted
        cell: the condition under which the Manhattan heuristic never
        overestimates. */
    ghost predicate UnitCosts()
    {
      && (forall i :: 0 <= i < |areas| ==> areas[i].cost >= 1.0)
      && (forall id :: id in weights ==> weights[id] >= 1.0)
    }

    /** With every configured cost at least 1.0 every move costs at least
        1.0, with or without the nudge. */
    lemma CostAtLeastOne(fromNode: Loc, toNode: Loc)
      requires UnitCosts()
      ensures Cost(fromNode, toNode) >= 1.0
    {
    }

    /** Without the nudge the cost is a function of the target cell alone. */
    lemma CostIgnoresSource(a: Loc, b: Loc, toNode: Loc)
      requires !nudged
      ensures Cost(a, toNode) == Cost(b, toNode)
    {
    }
  }

  /** A weighted grid (`GridWithWeights`), or, when `nudged`, the variant
      `GridWithAdjustedWeights`, whose cost adds the parity nudge. */
  class GridWithWeights {
    const width: int
    const height: int
    const nudged: bool
    var walls: seq<Loc>
    var weights: map<Loc, real>
    var areaDefinitions: seq<Area>

    constructor (width: int, height: int)
      ensures this.width == width && this.height == height && !nudged
      ensures walls == [] && weights == map[] && areaDefinitions == []
    {
      this.width, this.height, nudged := width, height, false;
      walls, weights, areaDefinitions := [], map[], [];
    }

    constructor Adjusted(width: int, height: int)
      ensures this.width == width && this.height == height && nudged
      ensures walls == [] && weights == map[] && areaDefinitions == []
    {
      this.width, this.height, nudged := width, height, true;
      walls, weights, areaDefinitions := [], map[], [];
    }

    /** The `SquareGrid` this grid extends: dimensions and walls. */
    function Grid(): SquareGrid
      reads this
    {
      SquareGrid(width, height, walls)
    }

    /** The state its cost function reads. */
    function Model(): CostModel
      reads this
    {
      CostModel(areaDefinitions, weights, nudged)
    }

    /** The check `add_cost_area` makes before recording an area. */
    predicate AreaWithinGrid(xMin: int, yMin: int, xMax: int, yMax: int)
    {
      0 <= xMin < width && 0 <= yMin < height &&
      xMin <= xMax < width && yMin <= yMax < height
    }

    /** For a non-empty rectangle the check passes exactly when every cell
        of the rectangle is inside the grid. */
    lemma AreaWithinGridIffInside(r: Rect)
      requires r.NonEmpty()
      ensures AreaWithinGrid(r.xMin, r.yMin, r.xMax, r.yMax) <==>
                forall id :: r.Contains(id) ==> Grid().InBounds(id)
    {
      if !AreaWithinGrid(r.xMin, r.yMin, r.xMax, r.yMax) {
        var lo, hi := Loc(r.xMin, r.yMin), Loc(r.xMax, r.yMax);
        assert r.Contains(lo) && r.Contains(hi);
        assert !Grid().InBounds(lo) || !Grid().InBounds(hi);
      }
    }

    /** `add_cost_area`: always appends the area, whether or not it lies in
        the grid; `warned` tells whether the Python code prints its warning. */
    method AddCostArea(xMin: int, yMin: int, xMax: int, yMax: int, areaCost: real)
      returns (warned: bool)
      modifies this`areaDefinitions
      ensures warned <==> !AreaWithinGrid(xMin, yMin, xMax, yMax)
      ensures areaDefinitions == old(areaDefinitions) + [Area(Rect(xMin, yMin, xMax, yMax), areaCost)]
      ensures walls == old(walls) && weights == old(weights)
    {
      warned := !AreaWithinGrid(xMin, yMin, xMax, yMax);
      areaDefinitions := areaDefinitions + [Area(Rect(xMin, yMin, xMax, yMax), areaCost)];
    }

    /** `cost(from, to)`. */
    function Cost(fromNode: Loc, toNode: Loc): real
      reads this
    {
      Model().Cost(fromNode, toNode)
    }
  }
}
