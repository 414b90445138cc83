/** Grid locations and the coordinate helpers of the pathfinding engine:
    `from_id_width` (an index into a row-major grid) and the Manhattan
    `heuristic` used by A*. */
module Locations {

  import opened Wrappers

  /** A grid location `(x, y)`; Python's `GridLocation = Tuple[int, int]`. */
  datatype Loc = Loc(x: int, y: int)

  function Abs(n: int): (r: nat)
    ensures r == n || r == -n
  {
    if n < 0 then -n else n
  }

  /** The four axis-aligned neighbours of a cell. */
  function East(id: Loc): Loc { Loc(id.x + 1, id.y) }
  function West(id: Loc): Loc { Loc(id.x - 1, id.y) }
  function North(id: Loc): Loc { Loc(id.x, id.y - 1) }
  function South(id: Loc): Loc { Loc(id.x, id.y + 1) }

  /** `b` is one unit step away from `a` along exactly one axis. */
  predicate UnitStep(a: Loc, b: Loc)
  {
    b == East(a) || b == West(a) || b == North(a) || b == South(a)
  }

  /** Python's `//`: the quotient rounded towards minus infinity. */
  function FloorDiv(a: int, b: int): int
    requires b != 0
  {
    if b > 0 then a / b else (-a) / (-b)
  }

  /** `from_id_width`: the cell `(id % width, id // width)` under Python's
      floor division; a zero width raises `ZeroDivisionError`, modelled as
      `None`. The result is the unique pair with `id == y * width + x` and
      `x` in the range Python's `%` gives for the sign of `width`. */
  function FromIdWidth(id: int, width: int): (r: Option<Loc>)
    ensures r.None? <==> width == 0
    ensures r.Some? ==> id == r.value.y * width + r.value.x
    ensures r.Some? && width > 0 ==> 0 <= r.value.x < width
    ensures r.Some? && width < 0 ==> width < r.value.x <= 0
  {
    if width == 0 then None
    else
      var q := FloorDiv(id, width);
      Some(Loc(id - width * q, q))
  }

  /** A non-zero multiple of `w` is at least as far from zero as `w`. */
  lemma MultipleAtLeast(d: int, w: int)
    ensures d != 0 ==> Abs(d * w) >= Abs(w)
  {
    if d != 0 {
      var n, m := Abs(d) - 1, Abs(w);
      assert n * m >= 0;
      assert Abs(d) * m == n * m + m;
      if d < 0 && w < 0 { assert d * w == (-d) * (-w); }
      else if d < 0 { assert -(d * w) == (-d) * w; }
      else if w < 0 { assert -(d * w) == d * (-w); }
    }
  }

  /** Two writings `q * w + r` with `r` in the same half-open range of
      width `|w|` are the same writing. */
  lemma QuotientUnique(w: int, q1: int, r1: int, q2: int, r2: int)
    requires w != 0
    requires q1 * w + r1 == q2 * w + r2
    requires w > 0 ==> 0 <= r1 < w && 0 <= r2 < w
    requires w < 0 ==> w < r1 <= 0 && w < r2 <= 0
    ensures q1 == q2 && r1 == r2
  {
    assert (q1 - q2) * w == r2 - r1 by {
      assert q1 * w - q2 * w == (q1 - q2) * w;
    }
    MultipleAtLeast(q1 - q2, w);
  }

  /** `from_id_width` inverts the row-major numbering `y * width + x` of
      the cells of any grid row. */
  lemma FromIdWidthRoundTrip(x: int, y: int, width: int)
    requires width > 0 ==> 0 <= x < width
    requires width < 0 ==> width < x <= 0
    requires width != 0
    ensures FromIdWidth(y * width + x, width) == Some(Loc(x, y))
  {
    var r := FromIdWidth(y * width + x, width);
    QuotientUnique(width, r.value.y, r.value.x, y, x);
  }

  /** `heuristic`: the Manhattan distance `|x1 - x2| + |y1 - y2|`. */
  function Heuristic(a: Loc, b: Loc): (r: int)
    ensures r >= 0
    ensures r == 0 <==> a == b
  {
    Abs(a.x - b.x) + Abs(a.y - b.y)
  }

  /** The heuristic does not depend on the order of its arguments. */
  lemma HeuristicSymmetric(a: Loc, b: Loc)
    ensures Heuristic(a, b) == Heuristic(b, a)
  {
  }

  /** A unit step is exactly a move at Manhattan distance one. */
  lemma UnitStepIsDistanceOne(a: Loc, b: Loc)
    ensures UnitStep(a, b) <==> Heuristic(a, b) == 1
  {
  }

  /** Along a chain of unit steps the heuristic never exceeds the number
      of steps taken: it never overestimates the length of a grid walk. */
  lemma {:induction false} HeuristicBoundsSteps(p: seq<Loc>)
    requires |p| >= 1
    requires forall i :: 0 <= i < |p| - 1 ==> UnitStep(p[i], p[i + 1])
    ensures Heuristic(p[0], p[|p| - 1]) <= |p| - 1
  {
    if |p| > 1 {
      var q := p[1..];
      assert forall i :: 0 <= i < |q| - 1 ==> UnitStep(q[i], q[i + 1]) by {
        forall i | 0 <= i < |q| - 1 ensures UnitStep(q[i], q[i + 1]) {
          assert q[i] == p[i + 1] && q[i + 1] == p[i + 2];
        }
      }
      HeuristicBoundsSteps(q);
      assert UnitStep(p[0], p[1]);
    }
  }
}
