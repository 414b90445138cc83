/** `reconstruct_path`: the backward walk over the predecessor map
    `came_from`, and what makes that walk end. */
module Paths {

  import opened Wrappers
  import opened Locations

  /** `came_from`: each visited location mapped to its predecessor, the
      start to `None`. */
  type CameFrom = map<Loc, Option<Loc>>

  /** The route from `start` to `node` obtained by following predecessor
      links backward from `node` at most `fuel` times, or `None` when the
      links run out (a missing key or a `None` before `start`) or `fuel`
      does. */
  function TracePath(cameFrom: CameFrom, start: Loc, node: Loc, fuel: nat): (r: Option<seq<Loc>>)
    ensures r.Some? ==> 1 <= |r.value| <= fuel + 1
    ensures r.Some? ==> r.value[0] == start && r.value[|r.value| - 1] == node
    ensures r.Some? ==> forall i :: 1 <= i < |r.value| ==>
              r.value[i] != start && r.value[i] in cameFrom && cameFrom[r.value[i]] == Some(r.value[i - 1])
    decreases fuel
  {
    if node == start then Some([start])
    else if fuel == 0 || node !in cameFrom || cameFrom[node].None? then None
    else match TracePath(cameFrom, start, cameFrom[node].value, fuel - 1)
      case None => None
      case Some(p) => Some(p + [node])
  }

  /** Following the links from `goal` reaches `start`. A chain that
      reaches `start` at all does so within `|cameFrom|` steps, since each
      step before it passes a distinct key. */
  ghost predicate LinksToStart(cameFrom: CameFrom, start: Loc, goal: Loc)
  {
    TracePath(cameFrom, start, goal, |cameFrom|).Some?
  }

  /** `s` in reverse order. */
  function Reversed(s: seq<Loc>): (r: seq<Loc>)
    ensures |r| == |s| && forall i :: 0 <= i < |s| ==> r[i] == s[|s| - 1 - i]
  {
    if s == [] then [] else [s[|s| - 1]] + Reversed(s[..|s| - 1])
  }

  /** `reconstruct_path`: no path when `goal` was never reached; otherwise
      the route from `start` to `goal` along the recorded predecessors.
      The Python loop runs forever or raises `KeyError` on a map whose links
      from `goal` do not reach `start`; such maps are excluded. */
  method ReconstructPath(cameFrom: CameFrom, start: Loc, goal: Loc) returns (path: seq<Loc>)
    requires goal in cameFrom ==> LinksToStart(cameFrom, start, goal)
    ensures path == [] <==> goal !in cameFrom
    ensures goal in cameFrom ==> Some(path) == TracePath(cameFrom, start, goal, |cameFrom|)
    ensures path != [] ==> path[0] == start && path[|path| - 1] == goal
    ensures forall i :: 1 <= i < |path| ==> path[i] in cameFrom && cameFrom[path[i]] == Some(path[i - 1])
  {
    if goal !in cameFrom {
      return [];
    }
    var current := goal;
    path := [];
    ghost var fuel: nat := |cameFrom|;
    while current != start
      invariant TracePath(cameFrom, start, current, fuel).Some?
      invariant TracePath(cameFrom, start, goal, |cameFrom|).value ==
                  TracePath(cameFrom, start, current, fuel).value + Reversed(path)
      decreases fuel
    {
      ghost var before := TracePath(cameFrom, start, current, fuel).value;
      var previous := cameFrom[current].value;
      assert before == TracePath(cameFrom, start, previous, fuel - 1).value + [current];
      ReversedAppend(path, current);
      path := path + [current];
      current := previous;
      fuel := fuel - 1;
    }
    ReversedAppend(path, start);
    path := path + [start];
    path := Reversed(path);
  }

  lemma ReversedAppend(s: seq<Loc>, x: Loc)
    ensures Reversed(s + [x]) == [x] + Reversed(s)
  {
    assert (s + [x])[..|s|] == s;
  }

  lemma {:induction false} StrictSubsetSmaller(a: set<Loc>, b: set<Loc>)
    requires a < b
    ensures |a| < |b|
    decreases a
  {
    if a == {} {
      var x :| x in b;
      assert |b| >= 1 by { assert x in b; }
    } else {
      var x :| x in a;
      StrictSubsetSmaller(a - {x}, b - {x});
    }
  }

  /** Every key but `start` has a recorded predecessor that is itself a
      key of strictly smaller rank. */
  ghost predicate RankedTree(cameFrom: CameFrom, start: Loc, rank: map<Loc, real>)
  {
    && cameFrom.Keys <= rank.Keys
    && forall k {:trigger cameFrom[k]} :: k in cameFrom && k != start ==>
         cameFrom[k].Some? && cameFrom[k].value in cameFrom && rank[cameFrom[k].value] < rank[k]
  }

  /** The keys ranked strictly below `k`. */
  ghost function Below(cameFrom: CameFrom, rank: map<Loc, real>, k: Loc): set<Loc>
    requires cameFrom.Keys <= rank.Keys && k in rank
  {
    set j | j in cameFrom && rank[j] < rank[k]
  }

  /** In a ranked tree the links from `k` reach `start` within as many
      steps as there are keys ranked below `k`. */
  lemma {:induction false} RankedTreeTraces(cameFrom: CameFrom, start: Loc, rank: map<Loc, real>, k: Loc, fuel: nat)
    requires RankedTree(cameFrom, start, rank) && k in cameFrom
    requires fuel >= |Below(cameFrom, rank, k)|
    ensures TracePath(cameFrom, start, k, fuel).Some?
    decreases |Below(cameFrom, rank, k)|
  {
    if k != start {
      var p := cameFrom[k].value;
      assert Below(cameFrom, rank, p) < Below(cameFrom, rank, k) by {
        assert p in Below(cameFrom, rank, k);
        assert p !in Below(cameFrom, rank, p);
      }
      StrictSubsetSmaller(Below(cameFrom, rank, p), Below(cameFrom, rank, k));
      RankedTreeTraces(cameFrom, start, rank, p, fuel - 1);
    }
  }

  /** In a ranked tree the links from every key reach `start`, so
      `ReconstructPath` ends for every key. */
  lemma RankedTreeLinksToStart(cameFrom: CameFrom, start: Loc, rank: map<Loc, real>)
    requires RankedTree(cameFrom, start, rank)
    ensures forall k :: k in cameFrom ==> LinksToStart(cameFrom, start, k)
  {
    forall k | k in cameFrom ensures LinksToStart(cameFrom, start, k) {
      var below := Below(cameFrom, rank, k);
      assert below < cameFrom.Keys by {
        assert k !in below;
      }
      StrictSubsetSmaller(below, cameFrom.Keys);
      RankedTreeTraces(cameFrom, start, rank, k, |cameFrom|);
    }
  }
}
