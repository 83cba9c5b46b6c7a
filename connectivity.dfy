/**
 * 4-directional connectivity of land cells, and the islands of a grid:
 * its maximal 4-connected regions of land. This is the specification
 * the island counter is proved against.
 */
module Connectivity {
  import opened Grids

  /** A non-empty walk over land cells, each step to one of the four neighbours. */
  ghost predicate IsPath(grid: Grid, p: seq<Cell>) {
    && |p| > 0
    && (forall i :: 0 <= i < |p| ==> IsLand(grid, p[i]))
    && (forall i :: 0 <= i < |p| - 1 ==> Adjacent(p[i], p[i + 1]))
  }

  /** b can be reached from a by a walk over land. */
  ghost predicate Connected(grid: Grid, a: Cell, b: Cell) {
    exists p {:trigger IsPath(grid, p)} :: IsPath(grid, p) && p[0] == a && p[|p| - 1] == b
  }

  /** n is water, out of bounds, or in s. */
  ghost predicate Covered(grid: Grid, s: set<Cell>, n: Cell) {
    IsLand(grid, n) ==> n in s
  }

  /** Every land neighbour of x lies in s. */
  ghost predicate Expanded(grid: Grid, s: set<Cell>, x: Cell) {
    var ns := Neighbours(x);
    Covered(grid, s, ns[0]) && Covered(grid, s, ns[1]) && Covered(grid, s, ns[2]) && Covered(grid, s, ns[3])
  }

  /** No step from a cell of s to a land neighbour leaves s. */
  ghost predicate Closed(grid: Grid, s: set<Cell>) {
    forall x {:trigger Expanded(grid, s, x)} :: x in s ==> Expanded(grid, s, x)
  }

  /** Every two cells of s are connected by a walk over land. */
  ghost predicate Linked(grid: Grid, s: set<Cell>) {
    forall a, b :: a in s && b in s ==> Connected(grid, a, b)
  }

  /** A non-empty, connected set of land that no walk over land can leave. */
  ghost predicate IsRegion(grid: Grid, s: set<Cell>) {
    s != {} && s <= LandCells(grid) && Closed(grid, s) && Linked(grid, s)
  }

  /** The land cells reachable from a. */
  ghost function Component(grid: Grid, a: Cell): (k: set<Cell>)
    ensures forall b {:trigger b in k} :: b in k <==> IsLand(grid, b) && Connected(grid, a, b)
  {
    set b | b in LandCells(grid) && Connected(grid, a, b)
  }

  /** The components that the cells of s lie in. */
  ghost function ComponentsOf(grid: Grid, s: set<Cell>): set<set<Cell>> {
    set x | x in s :: Component(grid, x)
  }

  /** The islands of the grid: the component of every land cell. */
  ghost function Islands(grid: Grid): set<set<Cell>> {
    ComponentsOf(grid, LandCells(grid))
  }

  // ---------------------------------------------------------------------
  // Connectivity is an equivalence relation on land cells.

  lemma ConnectedReflexive(grid: Grid, a: Cell)
    requires IsLand(grid, a)
    ensures Connected(grid, a, a)
  {
    assert IsPath(grid, [a]);
  }

  lemma ConnectedStep(grid: Grid, a: Cell, b: Cell, c: Cell)
    requires Connected(grid, a, b) && Adjacent(b, c) && IsLand(grid, c)
    ensures Connected(grid, a, c)
  {
    var p :| IsPath(grid, p) && p[0] == a && p[|p| - 1] == b;
    var q := p + [c];
    assert forall i :: 0 <= i < |p| ==> q[i] == p[i];
    assert IsPath(grid, q) && q[0] == a && q[|q| - 1] == c;
  }

  lemma ConnectedSymmetric(grid: Grid, a: Cell, b: Cell)
    requires Connected(grid, a, b)
    ensures Connected(grid, b, a)
  {
    var p :| IsPath(grid, p) && p[0] == a && p[|p| - 1] == b;
    var q := Reversed(p);
    forall i | 0 <= i < |q|
      ensures IsLand(grid, q[i])
    {
      assert q[i] == p[|p| - 1 - i];
    }
    forall i | 0 <= i < |q| - 1
      ensures Adjacent(q[i], q[i + 1])
    {
      var j := |p| - 2 - i;
      assert q[i] == p[j + 1] && q[i + 1] == p[j];
      assert Adjacent(p[j], p[j + 1]);
      AdjacentSymmetric(p[j], p[j + 1]);
    }
    assert IsPath(grid, q) && q[0] == b && q[|q| - 1] == a;
  }

  function Reversed(p: seq<Cell>): (q: seq<Cell>)
    ensures |q| == |p|
    ensures forall i :: 0 <= i < |p| ==> q[i] == p[|p| - 1 - i]
  {
    seq(|p|, i requires 0 <= i < |p| => p[|p| - 1 - i])
  }

  lemma {:induction false} ConnectedAlong(grid: Grid, a: Cell, q: seq<Cell>)
    requires IsPath(grid, q) && Connected(grid, a, q[0])
    ensures Connected(grid, a, q[|q| - 1])
    decreases |q|
  {
    if |q| > 1 {
      ConnectedAlong(grid, a, q[..|q| - 1]);
      ConnectedStep(grid, a, q[|q| - 2], q[|q| - 1]);
    }
  }

  lemma ConnectedTransitive(grid: Grid, a: Cell, b: Cell, c: Cell)
    requires Connected(grid, a, b) && Connected(grid, b, c)
    ensures Connected(grid, a, c)
  {
    var q :| IsPath(grid, q) && q[0] == b && q[|q| - 1] == c;
    ConnectedAlong(grid, a, q);
  }

  /** Every cell of a path is connected to every other. */
  lemma PathLinked(grid: Grid, p: seq<Cell>)
    requires IsPath(grid, p)
    ensures forall a, b :: a in p && b in p ==> Connected(grid, a, b)
  {
    forall i | 0 <= i < |p|
      ensures Connected(grid, p[0], p[i])
    {
      ConnectedReflexive(grid, p[0]);
      ConnectedAlong(grid, p[0], p[..i + 1]);
    }
    forall a, b | a in p && b in p
      ensures Connected(grid, a, b)
    {
      ConnectedSymmetric(grid, p[0], a);
      ConnectedTransitive(grid, a, p[0], b);
    }
  }

  // ---------------------------------------------------------------------
  // Closed sets and components.

  lemma {:induction false} PathStaysInside(grid: Grid, s: set<Cell>, p: seq<Cell>)
    requires Closed(grid, s) && IsPath(grid, p) && p[0] in s
    ensures p[|p| - 1] in s
    decreases |p|
  {
    if |p| > 1 {
      var init := p[..|p| - 1];
      assert IsPath(grid, init);
      PathStaysInside(grid, s, init);
      assert Expanded(grid, s, p[|p| - 2]);
      assert Adjacent(p[|p| - 2], p[|p| - 1]);
    }
  }

  /** A closed set that holds a cell holds that cell's whole component. */
  lemma ClosedContainsComponent(grid: Grid, s: set<Cell>, a: Cell)
    requires Closed(grid, s) && a in s
    ensures Component(grid, a) <= s
  {
    forall b | b in Component(grid, a)
      ensures b in s
    {
      var p :| IsPath(grid, p) && p[0] == a && p[|p| - 1] == b;
      PathStaysInside(grid, s, p);
    }
  }

  /** A component is closed under stepping to land neighbours. */
  lemma ComponentClosed(grid: Grid, a: Cell)
    ensures Closed(grid, Component(grid, a))
  {
    var k := Component(grid, a);
    forall x | x in k
      ensures Expanded(grid, k, x)
    {
      forall n | n in Neighbours(x) && IsLand(grid, n)
        ensures n in k
      {
        ConnectedStep(grid, a, x, n);
      }
    }
  }

  /** Connected cells have the same component. */
  lemma SameComponent(grid: Grid, a: Cell, b: Cell)
    requires Connected(grid, a, b)
    ensures Component(grid, a) == Component(grid, b)
  {
    forall x | x in Component(grid, b)
      ensures x in Component(grid, a)
    {
      ConnectedTransitive(grid, a, b, x);
    }
    forall x | x in Component(grid, a)
      ensures x in Component(grid, b)
    {
      ConnectedSymmetric(grid, a, b);
      ConnectedTransitive(grid, b, a, x);
    }
  }

  /** A component that does not meet a closed set avoids it entirely. */
  lemma ClosedMissesComponent(grid: Grid, s: set<Cell>, a: Cell)
    requires Closed(grid, s) && IsLand(grid, a) && a !in s
    ensures s !! Component(grid, a)
  {
    forall x | x in s && x in Component(grid, a)
      ensures false
    {
      ConnectedSymmetric(grid, a, x);
      ClosedContainsComponent(grid, s, x);
    }
  }

  lemma ExpandedGrows(grid: Grid, s: set<Cell>, t: set<Cell>, x: Cell)
    requires Expanded(grid, s, x) && s <= t
    ensures Expanded(grid, t, x)
  {
  }

  lemma ClosedUnion(grid: Grid, s: set<Cell>, t: set<Cell>)
    requires Closed(grid, s) && Closed(grid, t)
    ensures Closed(grid, s + t)
  {
    forall x | x in s + t
      ensures Expanded(grid, s + t, x)
    {
      assert Expanded(grid, s, x) || Expanded(grid, t, x);
    }
  }

  // ---------------------------------------------------------------------
  // Islands.

  /** Each island is a maximal connected region of land. */
  lemma IslandIsRegion(grid: Grid, k: set<Cell>)
    requires k in Islands(grid)
    ensures IsRegion(grid, k)
  {
    var a :| a in LandCells(grid) && k == Component(grid, a);
    ConnectedReflexive(grid, a);
    assert a in k;
    ComponentClosed(grid, a);
    forall x, y | x in k && y in k
      ensures Connected(grid, x, y)
    {
      ConnectedSymmetric(grid, a, x);
      ConnectedTransitive(grid, x, a, y);
    }
  }

  /** Each maximal connected region of land is an island. */
  lemma RegionIsIsland(grid: Grid, k: set<Cell>)
    requires IsRegion(grid, k)
    ensures k in Islands(grid)
  {
    var a :| a in k;
    ClosedContainsComponent(grid, k, a);
    assert k == Component(grid, a);
  }

  /** Two different islands share no cell. */
  lemma IslandsDisjoint(grid: Grid, k: set<Cell>, l: set<Cell>)
    requires k in Islands(grid) && l in Islands(grid) && k != l
    ensures k !! l
  {
    var a :| a in LandCells(grid) && k == Component(grid, a);
    var b :| b in LandCells(grid) && l == Component(grid, b);
    forall x | x in k && x in l
      ensures false
    {
      ConnectedSymmetric(grid, b, x);
      ConnectedTransitive(grid, a, x, b);
      SameComponent(grid, a, b);
    }
  }

  lemma {:induction false} ComponentsOfBound(grid: Grid, s: set<Cell>)
    ensures |ComponentsOf(grid, s)| <= |s|
    decreases s
  {
    if s != {} {
      var x :| x in s;
      ComponentsOfBound(grid, s - {x});
      var smaller := ComponentsOf(grid, s - {x});
      assert ComponentsOf(grid, s) == smaller + {Component(grid, x)};
    }
  }

  /**
   * The island count is at most the number of land cells, and it is
   * zero exactly when the grid has no land.
   */
  lemma IslandCountBounds(grid: Grid)
    ensures |Islands(grid)| <= |LandCells(grid)|
    ensures |Islands(grid)| == 0 <==> LandCells(grid) == {}
  {
    ComponentsOfBound(grid, LandCells(grid));
    if a :| a in LandCells(grid) {
      assert Component(grid, a) in Islands(grid);
    }
  }

  /**
   * Filling the component of an unvisited land cell into a closed set of
   * land adds exactly one island to the islands that set covers.
   */
  lemma AddIsland(grid: Grid, visited: set<Cell>, seed: Cell)
    requires visited <= LandCells(grid) && Closed(grid, visited)
    requires IsLand(grid, seed) && seed !in visited
    ensures Component(grid, seed) !in ComponentsOf(grid, visited)
    ensures ComponentsOf(grid, visited + Component(grid, seed))
         == ComponentsOf(grid, visited) + {Component(grid, seed)}
    ensures |ComponentsOf(grid, visited + Component(grid, seed))| == |ComponentsOf(grid, visited)| + 1
    ensures visited + Component(grid, seed) <= LandCells(grid)
    ensures Closed(grid, visited + Component(grid, seed))
  {
    var k := Component(grid, seed);
    ConnectedReflexive(grid, seed);
    ClosedMissesComponent(grid, visited, seed);
    if k in ComponentsOf(grid, visited) {
      var x :| x in visited && k == Component(grid, x);
      assert seed in Component(grid, x);
      ClosedContainsComponent(grid, visited, x);
      assert false;
    }
    var before, after := ComponentsOf(grid, visited), ComponentsOf(grid, visited + k);
    forall l | l in after
      ensures l in before + {k}
    {
      var y :| y in visited + k && l == Component(grid, y);
      if y in k {
        SameComponent(grid, seed, y);
      }
    }
    forall l | l in before + {k}
      ensures l in after
    {
      if l == k {
        assert seed in visited + k;
      } else {
        var y :| y in visited && l == Component(grid, y);
        assert y in visited + k;
      }
    }
    assert after == before + {k};
    ComponentClosed(grid, seed);
    ClosedUnion(grid, visited, k);
  }
}
