/** `SquareGrid`: a `width` x `height` grid with a list of blocked cells,
    and its 4-neighbour enumeration with the checkerboard order reversal. */
module SquareGrids {

  import opened Locations

  /** Position of a neighbour of `id` in the order the grid enumerates
      them: east, west, north, south on odd cells (`(x + y) % 2 == 1`),
      the reverse (south, north, west, east) on even cells. Cells that
      are not neighbours of `id` come last. */
  function Rank(id: Loc, n: Loc): int
  {
    var d :=
      if n == East(id) then 0
      else if n == West(id) then 1
      else if n == North(id) then 2
      else if n == South(id) then 3
      else 4;
    if (id.x + id.y) % 2 == 0 && d < 4 then 3 - d else d
  }

  /** `s` lists neighbours of `id` in strictly increasing enumeration
      order (and so without repetition). */
  ghost predicate RankSorted(id: Loc, s: seq<Loc>)
  {
    forall i, j :: 0 <= i < j < |s| ==> Rank(id, s[i]) < Rank(id, s[j])
  }

  /** The tail of a sorted enumeration is sorted and ranks after its head. */
  lemma SortedTail(id: Loc, cs: seq<Loc>)
    requires |cs| > 0
    ensures RankSorted(id, cs) ==> RankSorted(id, cs[1..])
    ensures RankSorted(id, cs) ==> forall n :: n in cs[1..] ==> Rank(id, cs[0]) < Rank(id, n)
  {
    if RankSorted(id, cs) {
      forall n | n in cs[1..] ensures Rank(id, cs[0]) < Rank(id, n) {
        var k :| 0 <= k < |cs[1..]| && cs[1..][k] == n;
        assert cs[k + 1] == n;
      }
      forall i, j | 0 <= i < j < |cs[1..]| ensures Rank(id, cs[1..][i]) < Rank(id, cs[1..][j]) {
        assert cs[1..][i] == cs[i + 1] && cs[1..][j] == cs[j + 1];
      }
    }
  }

  datatype SquareGrid = SquareGrid(width: int, height: int, walls: seq<Loc>)
  {
    /** `in_bounds`: inside `[0, width) x [0, height)`. */
    predicate InBounds(id: Loc)
    {
      0 <= id.x < width && 0 <= id.y < height
    }

    /** `passable`: not listed in `walls`. The bounds are not consulted. */
    predicate Passable(id: Loc)
    {
      id !in walls
    }

    /** The four candidate cells in the order `neighbors` builds them. */
    function Candidates(id: Loc): seq<Loc>
    {
      var c := [East(id), West(id), North(id), South(id)];
      if (id.x + id.y) % 2 == 0 then [c[3], c[2], c[1], c[0]] else c
    }

    /** The filters `in_bounds` then `passable`, applied to `cs`, keeping
        the relative order of what survives. */
    function KeepOpen(cs: seq<Loc>): (r: seq<Loc>)
      ensures forall n :: n in r <==> n in cs && InBounds(n) && Passable(n)
    {
      if cs == [] then []
      else if InBounds(cs[0]) && Passable(cs[0]) then [cs[0]] + KeepOpen(cs[1..])
      else KeepOpen(cs[1..])
    }

    /** Filtering keeps a sorted enumeration sorted. */
    lemma {:induction false} KeepOpenSorted(id: Loc, cs: seq<Loc>)
      requires RankSorted(id, cs)
      ensures RankSorted(id, KeepOpen(cs))
    {
      if cs != [] {
        SortedTail(id, cs);
        KeepOpenSorted(id, cs[1..]);
      }
    }

    /** `neighbors`: exactly the unit-step cells of `id` that are in bounds
        and not walls. */
    function Neighbors(id: Loc): (r: seq<Loc>)
      ensures forall n :: n in r <==> UnitStep(id, n) && InBounds(n) && Passable(n)
    {
      var cs := Candidates(id);
      assert forall n :: n in cs <==> UnitStep(id, n);
      KeepOpen(cs)
    }

    /** `neighbors` lists each cell once, in the checkerboard enumeration
        order. */
    lemma NeighborsOrdered(id: Loc)
      ensures RankSorted(id, Neighbors(id))
    {
      var cs := Candidates(id);
      assert RankSorted(id, cs);
      KeepOpenSorted(id, cs);
    }

    /** `neighbors` never lists a cell twice, nor the cell itself. */
    lemma NeighborsDistinct(id: Loc)
      ensures forall i, j :: 0 <= i < j < |Neighbors(id)| ==> Neighbors(id)[i] != Neighbors(id)[j]
      ensures id !in Neighbors(id)
    {
      NeighborsOrdered(id);
    }

    /** A move from `a` to `b` that `neighbors(a)` offers: one unit step
        onto an in-bounds, passable cell. */
    predicate Move(a: Loc, b: Loc)
    {
      UnitStep(a, b) && InBounds(b) && Passable(b)
    }

    /** The cells of the grid, a finite set. */
    ghost function Cells(): set<Loc>
    {
      set x, y | 0 <= x < width && 0 <= y < height :: Loc(x, y)
    }

    lemma InBoundsInCells(id: Loc)
      requires InBounds(id)
      ensures id in Cells()
    {
      assert id == Loc(id.x, id.y);
    }
  }

  /** A cell with a negative coordinate, or one at or beyond the grid's
      dimension, is never in bounds. */
  lemma OutOfBoundsRejected(g: SquareGrid, id: Loc)
    requires id.x < 0 || id.y < 0 || id.x >= g.width || id.y >= g.height
    ensures !g.InBounds(id)
  {
  }

  /** Passability consults only the walls, whatever the bounds; a cell
      outside the grid is never offered by `neighbors`, which tests the
      bounds first. */
  lemma PassableOutsideGrid(g: SquareGrid, id: Loc)
    ensures g.Passable(id) <==> id !in g.walls
    ensures !g.InBounds(id) ==> forall a :: id !in g.Neighbors(a)
  {
  }

  /** On an even cell the enumeration order is south, north, west, east;
      on an odd cell east, west, north, south. */
  lemma EnumerationOrder(g: SquareGrid, id: Loc)
    requires g.InBounds(East(id)) && g.InBounds(West(id)) && g.InBounds(North(id)) && g.InBounds(South(id))
    requires g.Passable(East(id)) && g.Passable(West(id)) && g.Passable(North(id)) && g.Passable(South(id))
    ensures (id.x + id.y) % 2 == 0 ==> g.Neighbors(id) == [South(id), North(id), West(id), East(id)]
    ensures (id.x + id.y) % 2 == 1 ==> g.Neighbors(id) == [East(id), West(id), North(id), South(id)]
  {
    var r := g.Neighbors(id);
    g.NeighborsOrdered(id);
    var all := {East(id), West(id), North(id), South(id)};
    assert forall n :: n in r <==> n in all;
    assert |all| == 4;
    assert |r| == 4 by {
      assert forall i, j :: 0 <= i < j < |r| ==> r[i] != r[j];
      SeqCardinality(r, all);
    }
    RankedFour(id, r);
  }

  /** A repetition-free sequence holds as many elements as its set. */
  lemma {:induction false} SeqCardinality(r: seq<Loc>, s: set<Loc>)
    requires forall n :: n in r <==> n in s
    requires forall i, j :: 0 <= i < j < |r| ==> r[i] != r[j]
    ensures |r| == |s|
  {
    if r != [] {
      var t := s - {r[0]};
      forall n ensures n in r[1..] <==> n in t {
        if n in r[1..] {
          var k :| 1 <= k < |r| && r[k] == n;
          assert r[0] != r[k];
        }
        if n in t {
          assert n in r;
          var k :| 0 <= k < |r| && r[k] == n;
          assert k != 0;
          assert r[1..][k - 1] == n;
        }
      }
      forall i, j | 0 <= i < j < |r[1..]| ensures r[1..][i] != r[1..][j] {
        assert r[1..][i] == r[i + 1] && r[1..][j] == r[j + 1];
      }
      SeqCardinality(r[1..], t);
    }
  }

  /** Four neighbours in strictly increasing rank are the four neighbours
      in enumeration order. */
  lemma RankedFour(id: Loc, r: seq<Loc>)
    requires |r| == 4 && RankSorted(id, r)
    requires forall n :: n in r ==> UnitStep(id, n)
    ensures (id.x + id.y) % 2 == 0 ==> r == [South(id), North(id), West(id), East(id)]
    ensures (id.x + id.y) % 2 == 1 ==> r == [East(id), West(id), North(id), South(id)]
  {
    assert r[0] in r && r[1] in r && r[2] in r && r[3] in r;
    assert Rank(id, r[0]) < Rank(id, r[1]) < Rank(id, r[2]) < Rank(id, r[3]);
  }
}
