/**
 * The island counter: a row-major scan that flood-fills every unvisited
 * land cell it meets and counts the fills. The fill is breadth-first
 * (the frontier is a FIFO queue) or depth-first (a LIFO stack).
 */
module NumberOfIslands {
  import opened Grids
  import opened Connectivity

  /** Which end of the frontier a fill takes its next cell from. */
  datatype Traversal = Bfs | Dfs

  datatype Error = InvalidMethod

  datatype Result<T> = Ok(value: T) | Err(error: Error)

  /** No cell occurs twice in s. */
  ghost predicate Distinct(s: seq<Cell>) {
    forall i, j :: 0 <= i < j < |s| ==> s[i] != s[j]
  }

  lemma DistinctAppend(a: seq<Cell>, b: seq<Cell>)
    requires Distinct(a) && Distinct(b) && forall x :: x in a ==> x !in b
    ensures Distinct(a + b)
  {
    forall i, j | 0 <= i < j < |a + b|
      ensures (a + b)[i] != (a + b)[j]
    {
      if i < |a| <= j {
        assert (a + b)[i] in a && (a + b)[j] == b[j - |a|];
      }
    }
  }

  lemma SubsetCard(a: set<Cell>, b: set<Cell>)
    requires a <= b
    ensures |a| <= |b|
  {
    assert b == a + (b - a);
  }

  /** The land cells among the first k neighbours of `cell` that are not yet visited. */
  ghost function Fresh(grid: Grid, visited: set<Cell>, cell: Cell, k: nat): set<Cell>
    requires k <= 4
  {
    set n | n in Neighbours(cell)[..k] && IsLand(grid, n) && n !in visited
  }

  /** The cells of `ns` that are land and not in `visited`, in the order of `ns`. */
  ghost function FreshInOrder(grid: Grid, visited: set<Cell>, ns: seq<Cell>): seq<Cell> {
    if ns == [] then []
    else
      var last := ns[|ns| - 1];
      FreshInOrder(grid, visited, ns[..|ns| - 1]) + (if IsLand(grid, last) && last !in visited then [last] else [])
  }

  /** Filtering one more cell appends it when it is fresh land. */
  lemma FreshInOrderStep(grid: Grid, visited: set<Cell>, ns: seq<Cell>, i: nat)
    requires i < |ns|
    ensures FreshInOrder(grid, visited, ns[..i + 1])
            == FreshInOrder(grid, visited, ns[..i]) + (if IsLand(grid, ns[i]) && ns[i] !in visited then [ns[i]] else [])
  {
    assert ns[..i + 1][..i] == ns[..i];
  }

  /** The ordered filter keeps exactly the fresh land cells of `ns`, each once when `ns` repeats none. */
  lemma {:induction false} FreshInOrderMembers(grid: Grid, visited: set<Cell>, ns: seq<Cell>)
    ensures forall x :: x in FreshInOrder(grid, visited, ns) <==> x in ns && IsLand(grid, x) && x !in visited
    ensures Distinct(ns) ==> Distinct(FreshInOrder(grid, visited, ns))
    decreases |ns|
  {
    if ns != [] {
      var init, last := ns[..|ns| - 1], ns[|ns| - 1];
      FreshInOrderMembers(grid, visited, init);
      assert ns == init + [last];
      if Distinct(ns) {
        assert Distinct(init) by {
          forall i, j | 0 <= i < j < |init| ensures init[i] != init[j] {
            assert init[i] == ns[i] && init[j] == ns[j];
          }
        }
        assert last !in init;
        DistinctAppend(FreshInOrder(grid, visited, init),
                       if IsLand(grid, last) && last !in visited then [last] else []);
      }
    }
  }

  /**
   * One step of a flood fill after popping `cell`: every in-bounds land
   * neighbour that is not yet visited is marked visited and appended to
   * the frontier, in the order of Directions. `added` is what was appended.
   */
  method VisitNeighbours(grid: Grid, cell: Cell, visited: set<Cell>, frontier: seq<Cell>)
    returns (visited': set<Cell>, frontier': seq<Cell>, ghost added: seq<Cell>)
    ensures visited' == visited + Fresh(grid, visited, cell, 4)
    ensures frontier' == frontier + added
    ensures forall x :: x in added <==> x in Fresh(grid, visited, cell, 4)
    ensures added == FreshInOrder(grid, visited, Neighbours(cell))
    ensures Distinct(added)
  {
    visited', frontier', added := visited, frontier, [];
    for i := 0 to |Directions|
      invariant visited' == visited + Fresh(grid, visited, cell, i)
      invariant frontier' == frontier + added
      invariant added == FreshInOrder(grid, visited, Neighbours(cell)[..i])
    {
      var r, c := cell.0 + Directions[i].0, cell.1 + Directions[i].1;
      NeighbourAt(cell, i);
      assert Neighbours(cell)[..i + 1] == Neighbours(cell)[..i] + [(r, c)];
      FreshInOrderStep(grid, visited, Neighbours(cell), i);
      if 0 <= r < |grid| && 0 <= c < Cols(grid) && grid[r][c] == '1' && (r, c) !in visited' {
        frontier' := frontier' + [(r, c)];
        visited' := visited' + {(r, c)};
        added := added + [(r, c)];
      }
    }
    FreshListed(grid, visited, cell);
  }

  /** The ordered filter of all four neighbours lists the fresh cells, each once. */
  lemma FreshListed(grid: Grid, visited: set<Cell>, cell: Cell)
    ensures Neighbours(cell)[..4] == Neighbours(cell)
    ensures forall x :: x in FreshInOrder(grid, visited, Neighbours(cell)) <==> x in Fresh(grid, visited, cell, 4)
    ensures Distinct(FreshInOrder(grid, visited, Neighbours(cell)))
  {
    assert Neighbours(cell)[..4] == Neighbours(cell);
    FreshInOrderMembers(grid, visited, Neighbours(cell));
  }

  /**
   * The state of a flood fill from `seed` that started from the set
   * `visited`: every newly visited cell is land connected to the seed,
   * every frontier cell is newly visited, `pushed` lists each newly
   * visited cell once, and every visited cell off the frontier has all
   * its land neighbours visited.
   */
  ghost predicate FillState(grid: Grid, seed: Cell, visited: set<Cell>,
                            visited': set<Cell>, frontier: seq<Cell>, pushed: seq<Cell>)
  {
    && visited <= visited'
    && visited' - visited <= Component(grid, seed)
    && seed in visited'
    && (forall x :: x in frontier ==> x in visited' && x !in visited)
    && (forall x {:trigger x in pushed} :: x in pushed <==> x in visited' && x !in visited)
    && Distinct(pushed)
    && (forall x {:trigger Expanded(grid, visited', x)} ::
          x in visited' && x !in frontier ==> Expanded(grid, visited', x))
  }

  /** The cell a fill takes next from a non-empty frontier: the oldest for BFS, the newest for DFS. */
  function Next(order: Traversal, frontier: seq<Cell>): (cell: Cell)
    requires frontier != []
    ensures cell in frontier
  {
    if order == Bfs then frontier[0] else frontier[|frontier| - 1]
  }

  /** The frontier once Next has been taken from it. */
  function Rest(order: Traversal, frontier: seq<Cell>): (rest: seq<Cell>)
    requires frontier != []
    ensures frontier == [Next(order, frontier)] + rest || frontier == rest + [Next(order, frontier)]
  {
    if order == Bfs then frontier[1..] else frontier[..|frontier| - 1]
  }

  /**
   * The flood fill from `seed`: both the breadth-first and the depth-first
   * fill, which differ only in popping the oldest or the newest frontier
   * cell. `visited` is the set shared by all fills of one count; the new
   * set is returned as `visited'`. The ghost `pushed` records every cell
   * appended to the frontier, in order.
   */
  method FloodFill(grid: Grid, visited: set<Cell>, seed: Cell, order: Traversal)
    returns (visited': set<Cell>, ghost pushed: seq<Cell>)
    requires IsLand(grid, seed) && seed !in visited
    requires visited <= LandCells(grid) && Closed(grid, visited)
    ensures visited' == visited + Component(grid, seed)
    ensures visited !! Component(grid, seed)
    ensures forall x :: x in pushed <==> x in Component(grid, seed)
    ensures Distinct(pushed)
  {
    var frontier := [seed];
    visited' := visited + {seed};
    pushed := [seed];
    FillStarts(grid, seed, visited);

    while frontier != []
      invariant FillState(grid, seed, visited, visited', frontier, pushed)
      decreases |LandCells(grid) - visited'|, |frontier|
    {
      ghost var before, queued := visited', frontier;
      var cell: Cell;
      cell, frontier := Next(order, frontier), Rest(order, frontier);
      ghost var added;
      visited', frontier, added := VisitNeighbours(grid, cell, visited', frontier);
      FillSteps(grid, seed, visited, order, before, queued, pushed, added);
      pushed := pushed + added;
    }

    FillEnds(grid, seed, visited, visited', pushed);
  }

  /** A fill starts in FillState with only the seed visited and queued. */
  lemma FillStarts(grid: Grid, seed: Cell, visited: set<Cell>)
    requires IsLand(grid, seed) && seed !in visited && Closed(grid, visited)
    ensures FillState(grid, seed, visited, visited + {seed}, [seed], [seed])
  {
    ConnectedReflexive(grid, seed);
    forall x | x in visited
      ensures Expanded(grid, visited + {seed}, x)
    {
      ExpandedGrows(grid, visited, visited + {seed}, x);
    }
  }

  /**
   * One iteration of the fill keeps FillState, and it either visits a new
   * land cell or shortens the frontier.
   */
  lemma FillSteps(grid: Grid, seed: Cell, visited: set<Cell>, order: Traversal,
                  before: set<Cell>, queued: seq<Cell>, pushed: seq<Cell>, added: seq<Cell>)
    requires FillState(grid, seed, visited, before, queued, pushed) && queued != []
    requires forall x :: x in added <==> x in Fresh(grid, before, Next(order, queued), 4)
    requires Distinct(added)
    ensures FillState(grid, seed, visited, before + Fresh(grid, before, Next(order, queued), 4),
                      Rest(order, queued) + added, pushed + added)
    ensures var after := before + Fresh(grid, before, Next(order, queued), 4);
            || |LandCells(grid) - after| < |LandCells(grid) - before|
            || (after == before && |Rest(order, queued) + added| < |queued|)
  {
    var cell, rest := Next(order, queued), Rest(order, queued);
    var gained := Fresh(grid, before, cell, 4);
    assert cell in before - visited;
    StepStaysInIsland(grid, seed, before, cell);
    DistinctAppend(pushed, added);
    StepExpands(grid, before, queued, cell, rest, added);
    StepProgresses(grid, before, cell, added);
  }

  /** The cells a step visits are land connected to the seed, given that the popped cell is. */
  lemma StepStaysInIsland(grid: Grid, seed: Cell, before: set<Cell>, cell: Cell)
    requires Connected(grid, seed, cell)
    ensures Fresh(grid, before, cell, 4) <= Component(grid, seed)
  {
    forall x | x in Fresh(grid, before, cell, 4)
      ensures x in Component(grid, seed)
    {
      ConnectedStep(grid, seed, cell, x);
    }
  }

  /**
   * After a step, every visited cell that is off the new frontier has its
   * land neighbours visited: the popped cell because the step visited them,
   * the others because visiting more cells keeps them expanded.
   */
  lemma StepExpands(grid: Grid, before: set<Cell>, queued: seq<Cell>, cell: Cell,
                    rest: seq<Cell>, added: seq<Cell>)
    requires queued == [cell] + rest || queued == rest + [cell]
    requires forall x {:trigger Expanded(grid, before, x)} ::
               x in before && x !in queued ==> Expanded(grid, before, x)
    requires forall x :: x in added <==> x in Fresh(grid, before, cell, 4)
    ensures forall x {:trigger Expanded(grid, before + Fresh(grid, before, cell, 4), x)} ::
              x in before + Fresh(grid, before, cell, 4) && x !in rest + added ==>
              Expanded(grid, before + Fresh(grid, before, cell, 4), x)
  {
    var after := before + Fresh(grid, before, cell, 4);
    forall x | x in after && x !in rest + added
      ensures Expanded(grid, after, x)
    {
      if x != cell {
        assert x in before && x !in queued;
        ExpandedGrows(grid, before, after, x);
      }
    }
  }

  /** A step either visits a new land cell or appends nothing. */
  lemma StepProgresses(grid: Grid, before: set<Cell>, cell: Cell, added: seq<Cell>)
    requires forall x :: x in added <==> x in Fresh(grid, before, cell, 4)
    ensures var after := before + Fresh(grid, before, cell, 4);
            || |LandCells(grid) - after| < |LandCells(grid) - before|
            || (after == before && added == [])
  {
    var gained := Fresh(grid, before, cell, 4);
    if added != [] {
      assert added[0] in gained;
    }
    if gained != {} {
      var x :| x in gained;
      var left := LandCells(grid) - before;
      assert x in left;
      SubsetCard(LandCells(grid) - (before + gained), left - {x});
    }
  }

  /** A fill whose frontier is empty has visited exactly the seed's island. */
  lemma FillEnds(grid: Grid, seed: Cell, visited: set<Cell>, visited': set<Cell>, pushed: seq<Cell>)
    requires IsLand(grid, seed) && seed !in visited && Closed(grid, visited)
    requires FillState(grid, seed, visited, visited', [], pushed)
    ensures visited' == visited + Component(grid, seed)
    ensures visited !! Component(grid, seed)
    ensures forall x :: x in pushed <==> x in Component(grid, seed)
  {
    assert Closed(grid, visited') by {
      forall x | x in visited'
        ensures Expanded(grid, visited', x)
      {
      }
    }
    ClosedContainsComponent(grid, visited', seed);
    ClosedMissesComponent(grid, visited, seed);
  }

  /**
   * Counts the islands of `grid`, filling each with the traversal that
   * `traversal` names ("bfs" or "dfs"). Any other name is an error, but
   * only once the scan reaches an unvisited land cell.
   */
  method GetNumIslands(grid: Grid, traversal: string := "bfs") returns (r: Result<nat>)
    ensures |grid| == 0 ==> r == Ok(0)
    ensures r.Err? <==> traversal != "bfs" && traversal != "dfs" && LandCells(grid) != {}
    ensures r.Ok? ==> r.value == |Islands(grid)|
    ensures r.Ok? ==> r.value <= |LandCells(grid)| && (r.value == 0 <==> LandCells(grid) == {})
  {
    if |grid| == 0 {
      IslandCountBounds(grid);
      return Ok(0);
    }
    var rows, cols := |grid|, |grid[0]|;
    var visited: set<Cell> := {};
    var count := 0;
    for row := 0 to rows
      invariant visited <= LandCells(grid) && Closed(grid, visited)
      invariant count == |ComponentsOf(grid, visited)|
      invariant forall x :: IsLand(grid, x) && x.0 < row ==> x in visited
      invariant traversal != "bfs" && traversal != "dfs" ==> visited == {}
    {
      for col := 0 to cols
        invariant visited <= LandCells(grid) && Closed(grid, visited)
        invariant count == |ComponentsOf(grid, visited)|
        invariant forall x :: IsLand(grid, x) && (x.0 < row || (x.0 == row && x.1 < col)) ==> x in visited
        invariant traversal != "bfs" && traversal != "dfs" ==> visited == {}
      {
        if grid[row][col] == '1' && (row, col) !in visited {
          var seed := (row, col);
          ghost var pushed;
          AddIsland(grid, visited, seed);
          ConnectedReflexive(grid, seed);
          if traversal == "bfs" {
            visited, pushed := FloodFill(grid, visited, seed, Bfs);
          } else if traversal == "dfs" {
            visited, pushed := FloodFill(grid, visited, seed, Dfs);
          } else {
            assert seed in LandCells(grid);
            return Err(InvalidMethod);
          }
          count := count + 1;
        }
      }
    }
    assert visited == LandCells(grid);
    IslandCountBounds(grid);
    return Ok(count);
  }

  /** The breadth-first and the depth-first count agree on every grid. */
  method TraversalsAgree(grid: Grid) returns (bfs: Result<nat>, dfs: Result<nat>)
    ensures bfs == dfs == Ok(|Islands(grid)|)
  {
    bfs := GetNumIslands(grid, "bfs");
    dfs := GetNumIslands(grid, "dfs");
  }
}
