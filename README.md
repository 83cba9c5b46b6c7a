# Number of islands

A Dafny model of the island counter `Solution.get_num_islands`. It takes a
grid of `'1'` (land) and `'0'` (water) markers and scans it in row-major
order. Whenever the scan meets a land cell that is not yet visited, it
flood-fills that cell's island through the four directions and counts one
island. The flood fill runs breadth-first (a FIFO queue, `popleft`) or
depth-first (a LIFO stack, `pop`), as the `method` argument names (`'bfs'`
or `'dfs'`). Any other name raises `ValueError`.

The model is proved against an independent definition of an island. An
island is the set of land cells reachable from a land cell by a walk over
land that steps up, down, left or right (`Connectivity.Component`). The
islands of a grid are the components of its land cells
(`Connectivity.Islands`). The main results:

- The counter returns the number of islands.
- The count lies between 0 and the number of land cells, and it is 0
  exactly when there is no land.
- The breadth-first and the depth-first counts agree.
- Each fill visits exactly the island of its seed, and nothing already
  visited.
- Each fill appends every cell to its frontier at most once.
- Each fill terminates.
- The six grids the source asserts get the asserted counts.

Files:

- `grids.dfy` (module `Grids`): cells, rectangular grids, land cells and
  the four neighbours, in the order of the source's `directions` list.
- `connectivity.dfy` (module `Connectivity`): walks, components, islands,
  closed regions, and the lemmas that relate them.
- `number_of_islands.dfy` (module `NumberOfIslands`): the neighbour scan,
  the flood fill (one method with a `Traversal` parameter for BFS or DFS),
  the counter, and BFS/DFS agreement.
- `examples.dfy` (module `Examples`): island counts of the source's six test
  grids, and the counter's result on each, proved from its contract.

The counter raises `ValueError` for an unknown method name only when the
scan reaches its first unvisited land cell (number_of_islands.py:48-54).
So a grid with no land returns 0 whatever the method name is, and
`NumberOfIslands.GetNumIslands` states this case.

## Model

| member | source | states |
|---|---|---|
| Grids.LandCells | content/blog/ds-interviewing-number-of-islands/number_of_islands/number_of_islands.py:25-26 | a cell is in the land set iff it is within `range(rows)` × `range(cols)` and its marker is `'1'` |
| Grids.NeighbourAt | content/blog/ds-interviewing-number-of-islands/number_of_islands/number_of_islands.py:21-24 | stepping by the i-th entry of `directions` reaches the i-th of the four neighbours, which no earlier entry reaches |
| Connectivity.Component | content/blog/ds-interviewing-number-of-islands/number_of_islands/number_of_islands.py:14-28 | a cell is in a cell's island iff it is land and a land walk links the two |
| Connectivity.ConnectedStep | content/blog/ds-interviewing-number-of-islands/number_of_islands/number_of_islands.py:24-28 | a land neighbour of a cell reachable from the seed is itself reachable, which is what lets the fill enqueue it |
| Connectivity.ConnectedSymmetric | content/blog/ds-interviewing-number-of-islands/number_of_islands/number_of_islands.py:21 | the four directions come in opposite pairs, so reachability is symmetric |
| Connectivity.ConnectedTransitive | content/blog/ds-interviewing-number-of-islands/number_of_islands/number_of_islands.py:19-28 | two walks that meet join into one walk |
| Connectivity.ClosedContainsComponent | content/blog/ds-interviewing-number-of-islands/number_of_islands/number_of_islands.py:19-28 | a set closed under visiting land neighbours, and containing a cell, contains that cell's whole island |
| Connectivity.ClosedMissesComponent | content/blog/ds-interviewing-number-of-islands/number_of_islands/number_of_islands.py:48 | a closed set that misses a land cell shares no cell with that cell's island, so earlier fills never touched it |
| Connectivity.SameComponent | content/blog/ds-interviewing-number-of-islands/number_of_islands/number_of_islands.py:48 | connected cells have the same island, so a visited cell never starts a second count |
| Connectivity.ComponentClosed | content/blog/ds-interviewing-number-of-islands/number_of_islands/number_of_islands.py:19-28 | an island has all land neighbours of its cells inside it |
| Connectivity.IslandIsRegion | content/blog/ds-interviewing-number-of-islands/number_of_islands/number_of_islands.py:46-55 | every island is non-empty land, closed, and connected |
| Connectivity.RegionIsIsland | content/blog/ds-interviewing-number-of-islands/number_of_islands/number_of_islands.py:46-55 | every non-empty, closed, connected set of land is an island |
| Connectivity.IslandsDisjoint | content/blog/ds-interviewing-number-of-islands/number_of_islands/number_of_islands.py:46-55 | two different islands share no cell |
| Connectivity.IslandCountBounds | content/blog/ds-interviewing-number-of-islands/number_of_islands/number_of_islands.py:46-57 | there are at most as many islands as land cells, and none exactly when there is no land |
| Connectivity.AddIsland | content/blog/ds-interviewing-number-of-islands/number_of_islands/number_of_islands.py:48-55 | adding an unvisited cell's island to a closed visited set adds exactly one new island to those covered, and the set stays closed land |
| NumberOfIslands.FreshInOrderMembers | content/blog/ds-interviewing-number-of-islands/number_of_islands/number_of_islands.py:23-28 | filtering a list of neighbours for unvisited land keeps exactly the unvisited land cells of the list, and keeps each once when the list repeats none |
| NumberOfIslands.VisitNeighbours | content/blog/ds-interviewing-number-of-islands/number_of_islands/number_of_islands.py:21-28 | after one pop, the visited set gains exactly the in-bounds unvisited land neighbours, and these are appended once each to the frontier, in the order of `directions` |
| NumberOfIslands.Next | content/blog/ds-interviewing-number-of-islands/number_of_islands/number_of_islands.py:20 | the cell popped (`popleft` for BFS, `pop` for DFS) is on the frontier |
| NumberOfIslands.Rest | content/blog/ds-interviewing-number-of-islands/number_of_islands/number_of_islands.py:36 | the frontier is the popped cell followed or preceded by what remains |
| NumberOfIslands.FillStarts | content/blog/ds-interviewing-number-of-islands/number_of_islands/number_of_islands.py:15-17 | marking the seed visited and queuing it sets up the fill's invariant |
| NumberOfIslands.FillSteps | content/blog/ds-interviewing-number-of-islands/number_of_islands/number_of_islands.py:19-28 | one iteration keeps the fill's invariant and either visits a new land cell or shortens the frontier, so the loop terminates |
| NumberOfIslands.StepStaysInIsland | content/blog/ds-interviewing-number-of-islands/number_of_islands/number_of_islands.py:24-28 | the cells one iteration visits are in the seed's island |
| NumberOfIslands.StepExpands | content/blog/ds-interviewing-number-of-islands/number_of_islands/number_of_islands.py:23-28 | after an iteration, every visited cell off the frontier has all its land neighbours visited |
| NumberOfIslands.StepProgresses | content/blog/ds-interviewing-number-of-islands/number_of_islands/number_of_islands.py:25-28 | an iteration either visits a new land cell or appends nothing |
| NumberOfIslands.FillEnds | content/blog/ds-interviewing-number-of-islands/number_of_islands/number_of_islands.py:19 | once the frontier is empty, the newly visited cells are exactly the seed's island, which was disjoint from the old visited set |
| NumberOfIslands.FloodFill | content/blog/ds-interviewing-number-of-islands/number_of_islands/number_of_islands.py:14-44 | a BFS or DFS fill from an unvisited land seed adds exactly the seed's island to `visited`, and each of its cells is pushed exactly once |
| NumberOfIslands.GetNumIslands | content/blog/ds-interviewing-number-of-islands/number_of_islands/number_of_islands.py:6-57 | an empty grid gives 0; an error occurs iff the method is neither `'bfs'` nor `'dfs'` and the grid has land; otherwise the result is the number of islands, at most the number of land cells, and 0 iff there is no land |
| NumberOfIslands.TraversalsAgree | content/blog/ds-interviewing-number-of-islands/number_of_islands/number_of_islands.py:49-52 | the BFS and the DFS counts are equal, and both equal the number of islands |
| Examples.TourIsIsland | content/blog/ds-interviewing-number-of-islands/number_of_islands/number_of_islands.py:14-28 | a closed walk over land is the island of each cell on it |
| Examples.IslandsFromTours | content/blog/ds-interviewing-number-of-islands/number_of_islands/number_of_islands.py:46-57 | closed, disjoint walks that cover all land are as many as the islands |
| Examples.NoLandNoIslands | content/blog/ds-interviewing-number-of-islands/number_of_islands/number_of_islands.py:64-65 | a grid without land has no islands |
| Examples.OneLandIslands | content/blog/ds-interviewing-number-of-islands/number_of_islands/number_of_islands.py:67-68 | the single land cell grid has one island |
| Examples.CheckerboardIslands | content/blog/ds-interviewing-number-of-islands/number_of_islands/number_of_islands.py:70-73 | the 3×3 checkerboard has five islands |
| Examples.RingIslands | content/blog/ds-interviewing-number-of-islands/number_of_islands/number_of_islands.py:75-78 | the 3×3 ring around a water cell is one island |
| Examples.ScatteredIslands | content/blog/ds-interviewing-number-of-islands/number_of_islands/number_of_islands.py:80-84 | the 4×5 grid has three islands |
| Examples.AssertedCases | content/blog/ds-interviewing-number-of-islands/number_of_islands/number_of_islands.py:88-93 | the counter returns 0, 0, 1, 5, 1 and 3 on the six test grids |

## Left out

- `kmeans.py` and `auc.py` are not part of this model. They are floating-point numerics, separate from the island counter.
- The `__main__` block's `print` is left out. Its grids and asserted counts are modelled in `Examples`.
- Ragged grids: the `Grid` type requires every row to be as long as the first. The source reads the column count from row 0 and does not handle shorter rows.
- Grid cells are single characters. A Python cell string is compared with `'1'`, so a multi-character string is water in both; strings are not modelled beyond that.
- The `ValueError` message text is left out. The error is the value `Err(InvalidMethod)`.
- The closures' shared `visited` set is passed into `FloodFill` and returned from it, rather than captured and mutated in place.
- The `collections.deque` is a sequence. `popleft` takes its first element and `pop` its last.
- The per-iteration rebinding of `row, col` inside the fills is modelled as a fresh variable `cell`.
