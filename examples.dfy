/**
 * The island counts of the small grids the source's asserts use,
 * proved from the definition of an island: each island is written down as
 * a walk (a tour) over its land cells, and a grid's islands are counted by
 * showing that the tours are closed, disjoint and cover all land.
 */
module Examples {
  import opened Grids
  import opened Connectivity
  import opened NumberOfIslands

  /** The cells a tour steps on. */
  function Visits(tour: seq<Cell>): (s: set<Cell>)
    ensures forall x {:trigger x in s} :: x in s <==> x in tour
  {
    set x | x in tour
  }

  /**
   * `tours` lists the islands of `grid`: each tour is a walk over land
   * that no land walk can leave, no two tours share a cell, and every land
   * cell lies on some tour.
   */
  ghost predicate IslandTours(grid: Grid, tours: seq<seq<Cell>>) {
    && (forall i :: 0 <= i < |tours| ==> IsPath(grid, tours[i]) && Closed(grid, Visits(tours[i])))
    && (forall i, j :: 0 <= i < j < |tours| ==> Visits(tours[i]) !! Visits(tours[j]))
    && (forall x :: IsLand(grid, x) ==> exists i :: 0 <= i < |tours| && x in tours[i])
  }

  /** A closed tour is the island of every cell on it. */
  lemma TourIsIsland(grid: Grid, tour: seq<Cell>, x: Cell)
    requires IsPath(grid, tour) && Closed(grid, Visits(tour)) && x in tour
    ensures Component(grid, x) == Visits(tour)
  {
    PathLinked(grid, tour);
    ClosedContainsComponent(grid, Visits(tour), x);
  }

  /** As many distinct sets as entries. */
  lemma {:induction false} DistinctCard(s: seq<set<Cell>>)
    requires forall i, j :: 0 <= i < j < |s| ==> s[i] != s[j]
    ensures |set k | k in s| == |s|
  {
    if s != [] {
      var init := s[..|s| - 1];
      DistinctCard(init);
      assert (set k | k in s) == (set k | k in init) + {s[|s| - 1]};
    }
  }

  /** A tour is closed when each of its cells has its land neighbours on the tour. */
  lemma ClosedTour(grid: Grid, tour: seq<Cell>)
    requires forall i :: 0 <= i < |tour| ==> Expanded(grid, Visits(tour), tour[i])
    ensures Closed(grid, Visits(tour))
  {
    forall x | x in Visits(tour)
      ensures Expanded(grid, Visits(tour), x)
    {
      var i :| 0 <= i < |tour| && tour[i] == x;
    }
  }

  /** The cells of each tour. */
  function TourSets(tours: seq<seq<Cell>>): (sets: seq<set<Cell>>)
    ensures |sets| == |tours|
    ensures forall i :: 0 <= i < |tours| ==> sets[i] == Visits(tours[i])
  {
    seq(|tours|, i requires 0 <= i < |tours| => Visits(tours[i]))
  }

  /** The islands are exactly the cell sets of the tours. */
  lemma IslandsAreTours(grid: Grid, tours: seq<seq<Cell>>)
    requires IslandTours(grid, tours)
    ensures Islands(grid) == set k | k in TourSets(tours)
  {
    var sets := TourSets(tours);
    forall k | k in Islands(grid)
      ensures k in sets
    {
      var a :| a in LandCells(grid) && k == Component(grid, a);
      var i :| 0 <= i < |tours| && a in tours[i];
      TourIsIsland(grid, tours[i], a);
      assert k == sets[i];
    }
    forall i | 0 <= i < |tours|
      ensures sets[i] in Islands(grid)
    {
      var a := tours[i][0];
      TourIsIsland(grid, tours[i], a);
      assert a in LandCells(grid);
    }
  }

  /** Disjoint tours have distinct cell sets. */
  lemma TourSetsDistinct(grid: Grid, tours: seq<seq<Cell>>)
    requires IslandTours(grid, tours)
    ensures forall i, j :: 0 <= i < j < |tours| ==> TourSets(tours)[i] != TourSets(tours)[j]
  {
    forall i, j | 0 <= i < j < |tours|
      ensures TourSets(tours)[i] != TourSets(tours)[j]
    {
      assert tours[i][0] in TourSets(tours)[i];
    }
  }

  /** A grid has exactly as many islands as tours that list them. */
  lemma IslandsFromTours(grid: Grid, tours: seq<seq<Cell>>)
    requires IslandTours(grid, tours)
    ensures |Islands(grid)| == |tours|
  {
    IslandsAreTours(grid, tours);
    TourSetsDistinct(grid, tours);
    DistinctCard(TourSets(tours));
  }

  /** A grid without land has no islands. */
  lemma NoLandNoIslands(grid: Grid)
    requires forall x :: !IsLand(grid, x)
    ensures |Islands(grid)| == 0
  {
    IslandCountBounds(grid);
    assert LandCells(grid) == {};
  }

  const NoGrid: Grid := []
  const OneWater: Grid := [['0']]
  const OneLand: Grid := [['1']]
  const Checkerboard: Grid := [['1', '0', '1'], ['0', '1', '0'], ['1', '0', '1']]
  const Ring: Grid := [['1', '1', '1'], ['1', '0', '1'], ['1', '1', '1']]
  const Scattered: Grid :=
    [['1', '1', '0', '0', '0'],
     ['1', '1', '0', '0', '0'],
     ['0', '0', '1', '0', '0'],
     ['0', '0', '0', '1', '1']]

  lemma OneLandIslands()
    ensures |Islands(OneLand)| == 1
  {
    var tours := [[(0, 0)]];
    assert Closed(OneLand, Visits(tours[0]));
    IslandsFromTours(OneLand, tours);
  }

  /** The five single-cell islands of Checkerboard, row by row. */
  const CheckerboardTours: seq<seq<Cell>> := [[(0, 0)], [(0, 2)], [(1, 1)], [(2, 0)], [(2, 2)]]

  lemma CheckerboardToursClosed()
    ensures forall i :: 0 <= i < |CheckerboardTours| ==>
              IsPath(Checkerboard, CheckerboardTours[i]) && Closed(Checkerboard, Visits(CheckerboardTours[i]))
  {
    assert Closed(Checkerboard, Visits(CheckerboardTours[0]));
    assert Closed(Checkerboard, Visits(CheckerboardTours[1]));
    assert Closed(Checkerboard, Visits(CheckerboardTours[2]));
    assert Closed(Checkerboard, Visits(CheckerboardTours[3]));
    assert Closed(Checkerboard, Visits(CheckerboardTours[4]));
  }

  lemma CheckerboardIslands()
    ensures |Islands(Checkerboard)| == 5
  {
    CheckerboardToursClosed();
    forall x | IsLand(Checkerboard, x)
      ensures exists i :: 0 <= i < |CheckerboardTours| && x in CheckerboardTours[i]
    {
      var i := if x.0 == 0 then x.1 / 2 else if x.0 == 1 then 2 else 3 + x.1 / 2;
      assert x in CheckerboardTours[i];
    }
    IslandsFromTours(Checkerboard, CheckerboardTours);
  }

  /** The one island of Ring: a walk around the hole. */
  const RingTour: seq<Cell> := [(0, 0), (0, 1), (0, 2), (1, 2), (2, 2), (2, 1), (2, 0), (1, 0)]

  lemma RingFirstHalfExpanded()
    ensures forall i :: 0 <= i < 4 ==> Expanded(Ring, Visits(RingTour), RingTour[i])
  {
    var ring := Visits(RingTour);
    assert Expanded(Ring, ring, (0, 0)) && Expanded(Ring, ring, (0, 1));
    assert Expanded(Ring, ring, (0, 2)) && Expanded(Ring, ring, (1, 2));
  }

  lemma RingSecondHalfExpanded()
    ensures forall i :: 4 <= i < 8 ==> Expanded(Ring, Visits(RingTour), RingTour[i])
  {
    var ring := Visits(RingTour);
    assert Expanded(Ring, ring, (2, 2)) && Expanded(Ring, ring, (2, 1));
    assert Expanded(Ring, ring, (2, 0)) && Expanded(Ring, ring, (1, 0));
  }

  lemma RingTourIsPath()
    ensures IsPath(Ring, RingTour)
  {
    forall i | 0 <= i < |RingTour|
      ensures IsLand(Ring, RingTour[i])
    {
      assert i < 4 || 4 <= i < 8;
    }
    forall i | 0 <= i < |RingTour| - 1
      ensures Adjacent(RingTour[i], RingTour[i + 1])
    {
      assert i < 4 || 4 <= i < 7;
    }
  }

  lemma RingTourClosed()
    ensures IsPath(Ring, RingTour) && Closed(Ring, Visits(RingTour))
  {
    RingTourIsPath();
    RingFirstHalfExpanded();
    RingSecondHalfExpanded();
    ClosedTour(Ring, RingTour);
  }

  lemma RingIslands()
    ensures |Islands(Ring)| == 1
  {
    RingTourClosed();
    var tours := [RingTour];
    forall x | IsLand(Ring, x)
      ensures exists i :: 0 <= i < |tours| && x in tours[i]
    {
      assert x.0 == 0 || x.0 == 1 || x.0 == 2;
      assert x in tours[0];
    }
    IslandsFromTours(Ring, tours);
  }

  /** The three islands of Scattered: a 2x2 block, a single cell and a horizontal pair. */
  const ScatteredTours: seq<seq<Cell>> := [[(0, 0), (0, 1), (1, 1), (1, 0)], [(2, 2)], [(3, 3), (3, 4)]]

  lemma ScatteredBlockClosed()
    ensures IsPath(Scattered, ScatteredTours[0]) && Closed(Scattered, Visits(ScatteredTours[0]))
  {
    var block := Visits(ScatteredTours[0]);
    assert Expanded(Scattered, block, (0, 0)) && Expanded(Scattered, block, (0, 1));
    assert Expanded(Scattered, block, (1, 0)) && Expanded(Scattered, block, (1, 1));
  }

  lemma ScatteredToursClosed()
    ensures forall i :: 0 <= i < |ScatteredTours| ==>
              IsPath(Scattered, ScatteredTours[i]) && Closed(Scattered, Visits(ScatteredTours[i]))
  {
    ScatteredBlockClosed();
    assert Closed(Scattered, Visits(ScatteredTours[1]));
    assert Closed(Scattered, Visits(ScatteredTours[2]));
  }

  lemma ScatteredIslands()
    ensures |Islands(Scattered)| == 3
  {
    ScatteredToursClosed();
    forall x | IsLand(Scattered, x)
      ensures exists i :: 0 <= i < |ScatteredTours| && x in ScatteredTours[i]
    {
      var i := if x.0 <= 1 then 0 else x.0 - 1;
      assert x in ScatteredTours[i];
    }
    IslandsFromTours(Scattered, ScatteredTours);
  }

  /** The six grids counted with the default traversal, breadth-first. */
  method AssertedCases() returns (counts: seq<Result<nat>>)
    ensures counts == [Ok(0), Ok(0), Ok(1), Ok(5), Ok(1), Ok(3)]
  {
    NoLandNoIslands(OneWater);
    OneLandIslands();
    CheckerboardIslands();
    RingIslands();
    ScatteredIslands();
    var c1 := GetNumIslands(NoGrid);
    var c2 := GetNumIslands(OneWater);
    var c3 := GetNumIslands(OneLand);
    var c4 := GetNumIslands(Checkerboard);
    var c5 := GetNumIslands(Ring);
    var c6 := GetNumIslands(Scattered);
    counts := [c1, c2, c3, c4, c5, c6];
  }
}
