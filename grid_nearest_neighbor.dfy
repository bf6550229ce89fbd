/**
 * The grid-bucketed nearest-neighbour policy
 * (phase2/policies/nearest_neigbor_policy_test.py): requests are put in
 * square cells of side `cell_size` by their pickup; each round scans, for
 * every IDLE driver in list order, the 3 x 3 block of cells around the
 * driver's cell (dx then dy from -1 to 1, each cell in insertion order), and
 * takes the first pair at the smallest distance. The matched driver leaves
 * the idle list, the matched request leaves its cell, and an emptied cell is
 * deleted. The rounds stop when a scan finds no candidate, even if drivers and
 * requests remain.
 *
 * Drivers are positions in the driver list and requests positions in the
 * request list; a cell holds the positions of its requests in increasing
 * order, which is the order they were appended in.
 */
module GridNearestNeighbor {
  import opened Wrappers
  import opened Geometry
  import opened Requests
  import opened DriverStatuses
  import opened Dispatch
  import opened NearestNeighbor

  type Cell = (int, int)

  const DefaultCellSize: real := 5.0

  /**
   * The cell of a point. The scan is written for any such function; the
   * policy uses `_cell_of` with its cell size, `CellFunctionOf(cellSize)`.
   */
  type CellFunction = Point -> Cell

  /** `_cell_of(p)`: the floors of the coordinates divided by the cell size. */
  function CellOf(p: Point, cellSize: real): Cell
    requires cellSize != 0.0
  {
    ((p.x / cellSize).Floor, (p.y / cellSize).Floor)
  }

  /** The cell's coordinates are the largest integers not above the scaled coordinates. */
  lemma CellOfFloors(p: Point, cellSize: real)
    requires cellSize != 0.0
    ensures CellOf(p, cellSize).0 as real <= p.x / cellSize < CellOf(p, cellSize).0 as real + 1.0
    ensures CellOf(p, cellSize).1 as real <= p.y / cellSize < CellOf(p, cellSize).1 as real + 1.0
  {
  }

  function CellFunctionOf(cellSize: real): CellFunction
    requires cellSize != 0.0
  {
    p => CellOf(p, cellSize)
  }

  /** With the default size 5: (12, -3) is in cell (2, -1) and (0, 4.9) in cell (0, 0). */
  lemma CellOfExamples()
    ensures CellOf(Point(12.0, -3.0), DefaultCellSize) == (2, -1)
    ensures CellOf(Point(0.0, 4.9), DefaultCellSize) == (0, 0)
  {
    var c := CellOf(Point(12.0, -3.0), DefaultCellSize);
    assert 12.0 / 5.0 == 2.4 && -3.0 / 5.0 == -0.6;
    assert c.0 == 2 && c.1 == -1;
    var c' := CellOf(Point(0.0, 4.9), DefaultCellSize);
    assert 0.0 / 5.0 == 0.0 && 4.9 / 5.0 == 0.98;
    assert c'.0 == 0 && c'.1 == 0;
  }

  function DriverCell(drivers: seq<DriverView>, cellOf: CellFunction, a: nat): Cell
    requires a < |drivers|
  {
    cellOf(drivers[a].position)
  }

  function RequestCell(requests: seq<RequestView>, cellOf: CellFunction, b: nat): Cell
    requires b < |requests|
  {
    cellOf(requests[b].pickup)
  }

  /** The request's cell is within one cell of the driver's on both axes. */
  predicate Near(drivers: seq<DriverView>, requests: seq<RequestView>, cellOf: CellFunction, a: nat, b: nat)
    requires a < |drivers| && b < |requests|
  {
    var d, r := DriverCell(drivers, cellOf, a), RequestCell(requests, cellOf, b);
    -1 <= r.0 - d.0 <= 1 && -1 <= r.1 - d.1 <= 1
  }

  /** The place of the request's cell in the scan of the driver's 3 x 3 block, 0 to 8. */
  function Rank(drivers: seq<DriverView>, requests: seq<RequestView>, cellOf: CellFunction, a: nat, b: nat): int
    requires a < |drivers| && b < |requests|
  {
    var d, r := DriverCell(drivers, cellOf, a), RequestCell(requests, cellOf, b);
    (r.0 - d.0 + 1) * 3 + (r.1 - d.1 + 1)
  }

  /** The scan meets (a, b) before (a', b'): an earlier driver, an earlier cell of its block, or an earlier request of the cell. */
  predicate ScanBefore(drivers: seq<DriverView>, requests: seq<RequestView>, cellOf: CellFunction,
                       a: nat, b: nat, a': nat, b': nat)
    requires a < |drivers| && b < |requests| && a' < |drivers| && b' < |requests|
  {
    a < a'
    || (a == a' && (Rank(drivers, requests, cellOf, a, b) < Rank(drivers, requests, cellOf, a', b')
                    || (Rank(drivers, requests, cellOf, a, b) == Rank(drivers, requests, cellOf, a', b') && b < b')))
  }

  /**
   * `m` is the pair chosen after the matches in `prefix`: a free IDLE driver
   * and a free request in neighbouring cells, at the smallest distance among
   * such pairs, and of those at that distance the first the scan meets.
   */
  ghost predicate IsClosestNearby(drivers: seq<DriverView>, requests: seq<RequestView>, dist: Metric, cellOf: CellFunction,
                                  prefix: seq<Match>, m: Match)
  {
    FreeDriver(drivers, prefix, m.driver) && FreeRequest(requests, prefix, m.request)
    && Near(drivers, requests, cellOf, m.driver, m.request)
    && forall a: nat, b: nat ::
         FreeDriver(drivers, prefix, a) && FreeRequest(requests, prefix, b) && Near(drivers, requests, cellOf, a, b) ==>
           PickupDistance(drivers, requests, dist, m.driver, m.request) <= PickupDistance(drivers, requests, dist, a, b)
           && (ScanBefore(drivers, requests, cellOf, a, b, m.driver, m.request) ==>
                 PickupDistance(drivers, requests, dist, m.driver, m.request) < PickupDistance(drivers, requests, dist, a, b))
  }

  /**
   * What `assign` returns: each pair the closest nearby pair after the ones
   * before it, and afterwards no free IDLE driver with a free request in a
   * neighbouring cell.
   */
  ghost predicate GridMatching(drivers: seq<DriverView>, requests: seq<RequestView>, dist: Metric, cellOf: CellFunction,
                               matches: seq<Match>)
  {
    (forall j :: 0 <= j < |matches| ==> IsClosestNearby(drivers, requests, dist, cellOf, matches[..j], matches[j]))
    && forall a: nat, b: nat :: FreeDriver(drivers, matches, a) && FreeRequest(requests, matches, b) ==>
         !Near(drivers, requests, cellOf, a, b)
  }

  // ---------------------------------------------------------------------------
  // The grid

  /**
   * The grid holds exactly the requests `matches` has not used, each in the
   * cell of its pickup, every cell non-empty and in increasing order.
   */
  ghost predicate GridHolds(requests: seq<RequestView>, cellOf: CellFunction, grid: map<Cell, seq<nat>>, matches: seq<Match>)
  {
    (forall c :: c in grid ==> |grid[c]| > 0 && Increasing(grid[c]))
    && (forall c, b :: c in grid && b in grid[c] ==> b < |requests|)
    && (forall c, b :: c in grid && b in grid[c] ==>
          b < |requests| && RequestCell(requests, cellOf, b) == c && b !in RequestsOf(matches))
    && (forall b: nat :: FreeRequest(requests, matches, b) ==>
          RequestCell(requests, cellOf, b) in grid && b in grid[RequestCell(requests, cellOf, b)])
  }

  /** The grid after the first k requests have been put in their cells. */
  ghost predicate GridUpTo(requests: seq<RequestView>, cellOf: CellFunction, grid: map<Cell, seq<nat>>, k: nat) {
    (forall c :: c in grid ==> |grid[c]| > 0 && Increasing(grid[c]))
    && (forall c, b :: c in grid && b in grid[c] ==> b < k && b < |requests|)
    && (forall c, b :: c in grid && b in grid[c] ==> b < |requests| && RequestCell(requests, cellOf, b) == c)
    && (forall b: nat :: b < k && b < |requests| ==>
          RequestCell(requests, cellOf, b) in grid && b in grid[RequestCell(requests, cellOf, b)])
  }

  /** `grid.setdefault(cell, []).append(request)` for request k. */
  lemma AppendToCell(requests: seq<RequestView>, cellOf: CellFunction, grid: map<Cell, seq<nat>>, k: nat)
    requires k < |requests| && GridUpTo(requests, cellOf, grid, k)
    ensures var cell := RequestCell(requests, cellOf, k);
      GridUpTo(requests, cellOf, grid[cell := CellRequests(grid, cell) + [k]], k + 1)
  {
    var cell := RequestCell(requests, cellOf, k);
    var cellList := CellRequests(grid, cell);
    assert forall j :: 0 <= j < |cellList| ==> cellList[j] in cellList;
    var grid' := grid[cell := cellList + [k]];
    forall c, b | c in grid' && b in grid'[c]
      ensures b < k + 1 && b < |requests| && RequestCell(requests, cellOf, b) == c
    {
      if c == cell && b != k {
        assert b in cellList;
      }
    }
  }

  /** The first loop of `assign`: every request is put in the cell of its pickup. */
  method BuildGrid(requests: seq<RequestView>, cellOf: CellFunction) returns (grid: map<Cell, seq<nat>>)
    ensures GridHolds(requests, cellOf, grid, [])
  {
    grid := map[];
    for k := 0 to |requests|
      invariant GridUpTo(requests, cellOf, grid, k)
    {
      var cell := RequestCell(requests, cellOf, k);
      AppendToCell(requests, cellOf, grid, k);
      grid := grid[cell := CellRequests(grid, cell) + [k]];
    }
  }

  /** The requests of a cell, or none: `grid.get(cell, [])`. */
  function CellRequests(grid: map<Cell, seq<nat>>, c: Cell): seq<nat> {
    if c in grid then grid[c] else []
  }

  // ---------------------------------------------------------------------------
  // One scan

  /** The positions in `idle` name IDLE drivers of the list, in increasing order. */
  ghost predicate IdleList(drivers: seq<DriverView>, idle: seq<nat>) {
    Increasing(idle) && forall p :: 0 <= p < |idle| ==> idle[p] < |drivers|
  }

  /** Driver idle[p] and request b are a pair the scan looks at. */
  ghost predicate Candidate(drivers: seq<DriverView>, requests: seq<RequestView>, cellOf: CellFunction,
                            idle: seq<nat>, grid: map<Cell, seq<nat>>, p: int, b: nat)
    requires IdleList(drivers, idle)
  {
    0 <= p < |idle| && b < |requests|
    && RequestCell(requests, cellOf, b) in grid && b in grid[RequestCell(requests, cellOf, b)]
    && Near(drivers, requests, cellOf, idle[p], b)
  }

  /**
   * The scan has met candidate (p, b) before the driver at position i, cell
   * `rank` of its block, and position k of that cell's list `cellList`.
   */
  ghost predicate Seen(drivers: seq<DriverView>, requests: seq<RequestView>, cellOf: CellFunction,
                       idle: seq<nat>, p: int, b: nat, i: int, rank: int, cellList: seq<nat>, k: nat)
    requires IdleList(drivers, idle) && 0 <= p < |idle| && b < |requests| && k <= |cellList|
  {
    p < i
    || (p == i && (Rank(drivers, requests, cellOf, idle[p], b) < rank
                   || (Rank(drivers, requests, cellOf, idle[p], b) == rank && b in cellList[..k])))
  }

  /**
   * The state of the scan at that point: `found` when a candidate has been
   * met; then (idle[bp], request) is one met, `best` its distance, no
   * candidate met is closer and every one met before it is strictly farther.
   */
  ghost predicate GridScanState(drivers: seq<DriverView>, requests: seq<RequestView>, dist: Metric, cellOf: CellFunction,
                                idle: seq<nat>, grid: map<Cell, seq<nat>>, i: int, rank: int, cellList: seq<nat>, k: nat,
                                found: bool, best: real, driver: nat, request: nat, bp: nat)
    requires IdleList(drivers, idle) && k <= |cellList|
  {
    (found ==> Candidate(drivers, requests, cellOf, idle, grid, bp, request) && driver == idle[bp]
               && Seen(drivers, requests, cellOf, idle, bp, request, i, rank, cellList, k)
               && best == PickupDistance(drivers, requests, dist, driver, request))
    && forall p, b: nat ::
         (Candidate(drivers, requests, cellOf, idle, grid, p, b)
          && Seen(drivers, requests, cellOf, idle, p, b, i, rank, cellList, k)) ==>
           found && best <= PickupDistance(drivers, requests, dist, idle[p], b)
           && (ScanBefore(drivers, requests, cellOf, idle[p], b, driver, request) ==>
                 best < PickupDistance(drivers, requests, dist, idle[p], b))
  }

  /**
   * `cellList` is the list of the cell at place `rank` of the block of driver
   * idle[i]: the requests in it are, in increasing order, exactly the
   * candidates of that driver at that place.
   */
  ghost predicate CellAtRank(drivers: seq<DriverView>, requests: seq<RequestView>, cellOf: CellFunction,
                             idle: seq<nat>, grid: map<Cell, seq<nat>>, i: nat, rank: int, cellList: seq<nat>)
    requires IdleList(drivers, idle) && i < |idle|
  {
    Increasing(cellList)
    && (forall k :: 0 <= k < |cellList| ==>
          cellList[k] < |requests| && Candidate(drivers, requests, cellOf, idle, grid, i, cellList[k])
          && Rank(drivers, requests, cellOf, idle[i], cellList[k]) == rank)
    && (forall b: nat ::
          (Candidate(drivers, requests, cellOf, idle, grid, i, b) && Rank(drivers, requests, cellOf, idle[i], b) == rank)
          ==> b in cellList)
  }

  /** `grid.get(cell, [])` for the cell (dx, dy) away from the driver's is the list of place `rank`. */
  lemma CellRequestsAtRank(drivers: seq<DriverView>, requests: seq<RequestView>, cellOf: CellFunction,
                           idle: seq<nat>, grid: map<Cell, seq<nat>>, i: nat, dx: int, dy: int,
                           rank: int, cellList: seq<nat>)
    requires IdleList(drivers, idle) && i < |idle| && -1 <= dx <= 1 && -1 <= dy <= 1
    requires forall c :: c in grid ==> Increasing(grid[c])
    requires forall c, b :: c in grid && b in grid[c] ==> b < |requests|
    requires forall c, b :: c in grid && b in grid[c] ==> b < |requests| && RequestCell(requests, cellOf, b) == c
    requires rank == (dx + 1) * 3 + (dy + 1)
    requires cellList == CellRequests(grid, (DriverCell(drivers, cellOf, idle[i]).0 + dx, DriverCell(drivers, cellOf, idle[i]).1 + dy))
    ensures CellAtRank(drivers, requests, cellOf, idle, grid, i, rank, cellList)
  {
    var d := DriverCell(drivers, cellOf, idle[i]);
    var cell := (d.0 + dx, d.1 + dy);
    forall k | 0 <= k < |cellList|
      ensures cellList[k] < |requests| && Candidate(drivers, requests, cellOf, idle, grid, i, cellList[k])
      ensures Rank(drivers, requests, cellOf, idle[i], cellList[k]) == rank
    {
      assert cell in grid && cellList[k] in grid[cell];
    }
  }

  /** Meeting request cellList[k] with driver idle[i] when it is the first met or strictly closer. */
  lemma ScanTake(drivers: seq<DriverView>, requests: seq<RequestView>, dist: Metric, cellOf: CellFunction,
                 idle: seq<nat>, grid: map<Cell, seq<nat>>, i: nat, rank: int, cellList: seq<nat>, k: nat,
                 found: bool, best: real, driver: nat, request: nat, bp: nat)
    requires IdleList(drivers, idle) && i < |idle| && k < |cellList|
    requires CellAtRank(drivers, requests, cellOf, idle, grid, i, rank, cellList)
    requires GridScanState(drivers, requests, dist, cellOf, idle, grid, i, rank, cellList, k,
                           found, best, driver, request, bp)
    requires !found || PickupDistance(drivers, requests, dist, idle[i], cellList[k]) < best
    ensures GridScanState(drivers, requests, dist, cellOf, idle, grid, i, rank, cellList, k + 1,
                          true, PickupDistance(drivers, requests, dist, idle[i], cellList[k]), idle[i], cellList[k], i)
  {
    var b := cellList[k];
    assert cellList[..k + 1] == cellList[..k] + [b];
    assert forall b' :: b' in cellList[..k] ==> b' < b by {
      forall b' | b' in cellList[..k] ensures b' < b {
        var j :| 0 <= j < k && cellList[j] == b';
      }
    }
    forall p, b': nat | Candidate(drivers, requests, cellOf, idle, grid, p, b')
                        && Seen(drivers, requests, cellOf, idle, p, b', i, rank, cellList, k + 1)
      ensures PickupDistance(drivers, requests, dist, idle[i], b) <= PickupDistance(drivers, requests, dist, idle[p], b')
      ensures ScanBefore(drivers, requests, cellOf, idle[p], b', idle[i], b) ==>
        PickupDistance(drivers, requests, dist, idle[i], b) < PickupDistance(drivers, requests, dist, idle[p], b')
    {
      if p < i {
        assert idle[p] < idle[i];
      }
    }
  }

  /** Meeting request cellList[k] with driver idle[i] when it is not strictly closer. */
  lemma ScanKeep(drivers: seq<DriverView>, requests: seq<RequestView>, dist: Metric, cellOf: CellFunction,
                 idle: seq<nat>, grid: map<Cell, seq<nat>>, i: nat, rank: int, cellList: seq<nat>, k: nat,
                 found: bool, best: real, driver: nat, request: nat, bp: nat)
    requires IdleList(drivers, idle) && i < |idle| && k < |cellList|
    requires CellAtRank(drivers, requests, cellOf, idle, grid, i, rank, cellList)
    requires GridScanState(drivers, requests, dist, cellOf, idle, grid, i, rank, cellList, k,
                           found, best, driver, request, bp)
    requires found && best <= PickupDistance(drivers, requests, dist, idle[i], cellList[k])
    ensures GridScanState(drivers, requests, dist, cellOf, idle, grid, i, rank, cellList, k + 1,
                          found, best, driver, request, bp)
  {
    var b := cellList[k];
    assert cellList[..k + 1] == cellList[..k] + [b];
    assert Seen(drivers, requests, cellOf, idle, bp, request, i, rank, cellList, k + 1);
    if bp == i && Rank(drivers, requests, cellOf, idle[i], request) == rank {
      var j :| 0 <= j < k && cellList[j] == request;
    }
  }

  /** The innermost loop: the requests of the cell (dx, dy) away from the cell of driver idle[i]. */
  method ScanCell(drivers: seq<DriverView>, requests: seq<RequestView>, dist: Metric, cellOf: CellFunction,
                  idle: seq<nat>, grid: map<Cell, seq<nat>>, i: nat, dx: int, dy: int, rank: int,
                  found0: bool, best0: real, driver0: nat, request0: nat, ghost bp0: nat)
    returns (found: bool, best: real, driver: nat, request: nat, ghost bp: nat)
    requires IdleList(drivers, idle)
    requires i < |idle| && -1 <= dx <= 1 && -1 <= dy <= 1 && rank == (dx + 1) * 3 + (dy + 1)
    requires forall c :: c in grid ==> Increasing(grid[c])
    requires forall c, b :: c in grid && b in grid[c] ==> b < |requests|
    requires forall c, b :: c in grid && b in grid[c] ==> b < |requests| && RequestCell(requests, cellOf, b) == c
    requires GridScanState(drivers, requests, dist, cellOf, idle, grid, i, rank, [], 0,
                           found0, best0, driver0, request0, bp0)
    ensures GridScanState(drivers, requests, dist, cellOf, idle, grid, i, rank + 1, [], 0,
                          found, best, driver, request, bp)
  {
    var dcell := DriverCell(drivers, cellOf, idle[i]);
    var cellList := CellRequests(grid, (dcell.0 + dx, dcell.1 + dy));
    CellRequestsAtRank(drivers, requests, cellOf, idle, grid, i, dx, dy, rank, cellList);
    found, best, driver, request, bp :=
      ScanCellList(drivers, requests, dist, cellOf, idle, grid, i, rank, cellList,
                   found0, best0, driver0, request0, bp0);
  }

  /** The loop over the list of one cell. */
  method ScanCellList(drivers: seq<DriverView>, requests: seq<RequestView>, dist: Metric, cellOf: CellFunction,
                      idle: seq<nat>, grid: map<Cell, seq<nat>>, i: nat, rank: int, cellList: seq<nat>,
                      found0: bool, best0: real, driver0: nat, request0: nat, ghost bp0: nat)
    returns (found: bool, best: real, driver: nat, request: nat, ghost bp: nat)
    requires IdleList(drivers, idle) && i < |idle|
    requires CellAtRank(drivers, requests, cellOf, idle, grid, i, rank, cellList)
    requires GridScanState(drivers, requests, dist, cellOf, idle, grid, i, rank, [], 0,
                           found0, best0, driver0, request0, bp0)
    ensures GridScanState(drivers, requests, dist, cellOf, idle, grid, i, rank + 1, [], 0,
                          found, best, driver, request, bp)
  {
    found, best, driver, request, bp := found0, best0, driver0, request0, bp0;
    EnterCell(drivers, requests, dist, cellOf, idle, grid, i, rank, cellList, found, best, driver, request, bp);
    for k := 0 to |cellList|
      invariant GridScanState(drivers, requests, dist, cellOf, idle, grid, i, rank, cellList, k,
                              found, best, driver, request, bp)
    {
      var distance := PickupDistance(drivers, requests, dist, idle[i], cellList[k]);
      if !found || distance < best {
        ScanTake(drivers, requests, dist, cellOf, idle, grid, i, rank, cellList, k, found, best, driver, request, bp);
        found := true;
        best := distance;
        driver, request := idle[i], cellList[k];
        bp := i;
      } else {
        ScanKeep(drivers, requests, dist, cellOf, idle, grid, i, rank, cellList, k, found, best, driver, request, bp);
      }
    }
    LeaveCell(drivers, requests, dist, cellOf, idle, grid, i, rank, cellList, found, best, driver, request, bp);
  }

  /** Before the first request of a cell, the scan has met what it had met before the cell. */
  lemma EnterCell(drivers: seq<DriverView>, requests: seq<RequestView>, dist: Metric, cellOf: CellFunction,
                  idle: seq<nat>, grid: map<Cell, seq<nat>>, i: nat, rank: int, cellList: seq<nat>,
                  found: bool, best: real, driver: nat, request: nat, bp: nat)
    requires IdleList(drivers, idle) && i < |idle|
    requires GridScanState(drivers, requests, dist, cellOf, idle, grid, i, rank, [], 0,
                           found, best, driver, request, bp)
    ensures GridScanState(drivers, requests, dist, cellOf, idle, grid, i, rank, cellList, 0,
                          found, best, driver, request, bp)
  {
    assert cellList[..0] == [];
  }

  /** After the last request of a cell, the scan has met all of the cell: it stands before the next cell. */
  lemma LeaveCell(drivers: seq<DriverView>, requests: seq<RequestView>, dist: Metric, cellOf: CellFunction,
                  idle: seq<nat>, grid: map<Cell, seq<nat>>, i: nat, rank: int, cellList: seq<nat>,
                  found: bool, best: real, driver: nat, request: nat, bp: nat)
    requires IdleList(drivers, idle) && i < |idle|
    requires CellAtRank(drivers, requests, cellOf, idle, grid, i, rank, cellList)
    requires GridScanState(drivers, requests, dist, cellOf, idle, grid, i, rank, cellList, |cellList|,
                           found, best, driver, request, bp)
    ensures GridScanState(drivers, requests, dist, cellOf, idle, grid, i, rank + 1, [], 0,
                          found, best, driver, request, bp)
  {
    assert cellList[..|cellList|] == cellList;
  }

  /** Past the ninth cell of the block of driver idle[i], the scan stands before the next driver. */
  lemma NextDriver(drivers: seq<DriverView>, requests: seq<RequestView>, dist: Metric, cellOf: CellFunction,
                   idle: seq<nat>, grid: map<Cell, seq<nat>>, i: nat,
                   found: bool, best: real, driver: nat, request: nat, bp: nat)
    requires IdleList(drivers, idle) && i < |idle|
    requires GridScanState(drivers, requests, dist, cellOf, idle, grid, i, 9, [], 0, found, best, driver, request, bp)
    ensures GridScanState(drivers, requests, dist, cellOf, idle, grid, i + 1, 0, [], 0, found, best, driver, request, bp)
  {
  }

  /** The scan of the 3 x 3 block of driver idle[i]: dx, then dy, from -1 to 1. */
  method ScanDriver(drivers: seq<DriverView>, requests: seq<RequestView>, dist: Metric, cellOf: CellFunction,
                    idle: seq<nat>, grid: map<Cell, seq<nat>>, i: nat,
                    found0: bool, best0: real, driver0: nat, request0: nat, ghost bp0: nat)
    returns (found: bool, best: real, driver: nat, request: nat, ghost bp: nat)
    requires IdleList(drivers, idle) && i < |idle|
    requires forall c :: c in grid ==> Increasing(grid[c])
    requires forall c, b :: c in grid && b in grid[c] ==> b < |requests|
    requires forall c, b :: c in grid && b in grid[c] ==> b < |requests| && RequestCell(requests, cellOf, b) == c
    requires GridScanState(drivers, requests, dist, cellOf, idle, grid, i, 0, [], 0, found0, best0, driver0, request0, bp0)
    ensures GridScanState(drivers, requests, dist, cellOf, idle, grid, i + 1, 0, [], 0, found, best, driver, request, bp)
  {
    found, best, driver, request, bp := found0, best0, driver0, request0, bp0;
    for dx := -1 to 2
      invariant GridScanState(drivers, requests, dist, cellOf, idle, grid, i, (dx + 1) * 3, [], 0,
                              found, best, driver, request, bp)
    {
      for dy := -1 to 2
        invariant GridScanState(drivers, requests, dist, cellOf, idle, grid, i, (dx + 1) * 3 + (dy + 1), [], 0,
                                found, best, driver, request, bp)
      {
        found, best, driver, request, bp :=
          ScanCell(drivers, requests, dist, cellOf, idle, grid, i, dx, dy, (dx + 1) * 3 + (dy + 1),
                   found, best, driver, request, bp);
      }
    }
    NextDriver(drivers, requests, dist, cellOf, idle, grid, i, found, best, driver, request, bp);
  }

  /** Request b is in the grid, in the cell of its pickup. */
  ghost predicate InGrid(requests: seq<RequestView>, cellOf: CellFunction, grid: map<Cell, seq<nat>>, b: nat) {
    b < |requests| && RequestCell(requests, cellOf, b) in grid && b in grid[RequestCell(requests, cellOf, b)]
  }

  /**
   * One round of `assign`: the first pair at the smallest distance among the
   * drivers in `idle` and the requests of their neighbouring cells, or
   * `found` false when no driver has a request nearby.
   */
  method ClosestNearPair(drivers: seq<DriverView>, requests: seq<RequestView>, dist: Metric, cellOf: CellFunction,
                         idle: seq<nat>, grid: map<Cell, seq<nat>>)
    returns (found: bool, driver: nat, request: nat)
    requires IdleList(drivers, idle)
    requires forall c :: c in grid ==> Increasing(grid[c])
    requires forall c, b :: c in grid && b in grid[c] ==> b < |requests|
    requires forall c, b :: c in grid && b in grid[c] ==> b < |requests| && RequestCell(requests, cellOf, b) == c
    ensures !found ==> forall a: nat, b: nat :: a in idle && InGrid(requests, cellOf, grid, b) ==>
      !Near(drivers, requests, cellOf, a, b)
    ensures found ==>
      driver in idle && InGrid(requests, cellOf, grid, request) && Near(drivers, requests, cellOf, driver, request)
    ensures found ==> forall a: nat, b: nat ::
      a in idle && InGrid(requests, cellOf, grid, b) && Near(drivers, requests, cellOf, a, b) ==>
        PickupDistance(drivers, requests, dist, driver, request) <= PickupDistance(drivers, requests, dist, a, b)
        && (ScanBefore(drivers, requests, cellOf, a, b, driver, request) ==>
              PickupDistance(drivers, requests, dist, driver, request) < PickupDistance(drivers, requests, dist, a, b))
  {
    var best := 0.0;
    ghost var bp := 0;
    found, driver, request := false, 0, 0;
    for i := 0 to |idle|
      invariant GridScanState(drivers, requests, dist, cellOf, idle, grid, i, 0, [], 0, found, best, driver, request, bp)
    {
      found, best, driver, request, bp := ScanDriver(drivers, requests, dist, cellOf, idle, grid, i,
                                                     found, best, driver, request, bp);
    }
    ClosestNearFromScan(drivers, requests, dist, cellOf, idle, grid, found, best, driver, request, bp);
  }

  /** The finished scan, restated over the drivers instead of their positions in `idle`. */
  lemma ClosestNearFromScan(drivers: seq<DriverView>, requests: seq<RequestView>, dist: Metric, cellOf: CellFunction,
                            idle: seq<nat>, grid: map<Cell, seq<nat>>,
                            found: bool, best: real, driver: nat, request: nat, bp: nat)
    requires IdleList(drivers, idle)
    requires GridScanState(drivers, requests, dist, cellOf, idle, grid, |idle|, 0, [], 0, found, best, driver, request, bp)
    ensures !found ==> forall a: nat, b: nat :: a in idle && InGrid(requests, cellOf, grid, b) ==>
      !Near(drivers, requests, cellOf, a, b)
    ensures found ==>
      driver in idle && InGrid(requests, cellOf, grid, request) && Near(drivers, requests, cellOf, driver, request)
    ensures found ==> forall a: nat, b: nat ::
      a in idle && InGrid(requests, cellOf, grid, b) && Near(drivers, requests, cellOf, a, b) ==>
        PickupDistance(drivers, requests, dist, driver, request) <= PickupDistance(drivers, requests, dist, a, b)
        && (ScanBefore(drivers, requests, cellOf, a, b, driver, request) ==>
              PickupDistance(drivers, requests, dist, driver, request) < PickupDistance(drivers, requests, dist, a, b))
  {
    forall a: nat, b: nat | a in idle && InGrid(requests, cellOf, grid, b) && Near(drivers, requests, cellOf, a, b)
      ensures found
      ensures PickupDistance(drivers, requests, dist, driver, request) <= PickupDistance(drivers, requests, dist, a, b)
      ensures ScanBefore(drivers, requests, cellOf, a, b, driver, request) ==>
        PickupDistance(drivers, requests, dist, driver, request) < PickupDistance(drivers, requests, dist, a, b)
    {
      var p :| 0 <= p < |idle| && idle[p] == a;
      assert Candidate(drivers, requests, cellOf, idle, grid, p, b);
    }
  }

  // ---------------------------------------------------------------------------
  // The rounds

  /** `grid[rcell].remove(request)`, then `del grid[rcell]` if the cell is left empty. */
  function Withdraw(grid: map<Cell, seq<nat>>, rcell: Cell, request: nat): (r: map<Cell, seq<nat>>)
    requires rcell in grid && Increasing(grid[rcell])
    ensures forall c :: c in r ==> c in grid && (c == rcell || r[c] == grid[c])
    ensures rcell in r ==> forall b :: b in r[rcell] <==> b in grid[rcell] && b != request
  {
    var rest := RemoveValue(grid[rcell], request);
    if |rest| == 0 then grid - {rcell} else grid[rcell := rest]
  }

  /** Taking the pair `m` out of the grid keeps it holding exactly the unused requests. */
  lemma WithdrawHolds(requests: seq<RequestView>, cellOf: CellFunction, grid: map<Cell, seq<nat>>,
                      matches: seq<Match>, m: Match)
    requires GridHolds(requests, cellOf, grid, matches)
    requires InGrid(requests, cellOf, grid, m.request)
    ensures GridHolds(requests, cellOf, Withdraw(grid, RequestCell(requests, cellOf, m.request), m.request), matches + [m])
  {
    var rcell := RequestCell(requests, cellOf, m.request);
    var grid' := Withdraw(grid, rcell, m.request);
    AppendMatch(matches, m);
    WithdrawCells(requests, cellOf, grid, matches, m);
    forall b: nat | FreeRequest(requests, matches + [m], b)
      ensures RequestCell(requests, cellOf, b) in grid' && b in grid'[RequestCell(requests, cellOf, b)]
    {
      assert FreeRequest(requests, matches, b);
      if RequestCell(requests, cellOf, b) == rcell {
        assert b in RemoveValue(grid[rcell], m.request);
      }
    }
  }

  /** After taking `m` out, every cell is non-empty and sorted and holds only unused requests of that cell. */
  lemma WithdrawCells(requests: seq<RequestView>, cellOf: CellFunction, grid: map<Cell, seq<nat>>,
                      matches: seq<Match>, m: Match)
    requires GridHolds(requests, cellOf, grid, matches)
    requires InGrid(requests, cellOf, grid, m.request)
    requires RequestsOf(matches + [m]) == RequestsOf(matches) + {m.request}
    ensures var grid' := Withdraw(grid, RequestCell(requests, cellOf, m.request), m.request);
      forall c :: c in grid' ==> |grid'[c]| > 0 && Increasing(grid'[c])
    ensures var grid' := Withdraw(grid, RequestCell(requests, cellOf, m.request), m.request);
      forall c, b :: c in grid' && b in grid'[c] ==>
        b < |requests| && RequestCell(requests, cellOf, b) == c && b !in RequestsOf(matches + [m])
  {
    var rcell := RequestCell(requests, cellOf, m.request);
    var grid' := Withdraw(grid, rcell, m.request);
    forall c, b | c in grid' && b in grid'[c]
      ensures b < |requests| && RequestCell(requests, cellOf, b) == c && b !in RequestsOf(matches + [m])
    {
      if c == rcell {
        assert b in RemoveValue(grid[rcell], m.request);
      } else {
        assert b in grid[c];
      }
    }
  }

  /**
   * The state between rounds: `idle` holds the free IDLE drivers in list
   * order, the grid the free requests, and each pair so far was the closest
   * nearby pair after the ones before it.
   */
  ghost predicate RoundsState(drivers: seq<DriverView>, requests: seq<RequestView>, dist: Metric, cellOf: CellFunction,
                              idle: seq<nat>, grid: map<Cell, seq<nat>>, matches: seq<Match>) {
    IdleList(drivers, idle)
    && (forall a: nat :: a in idle ==> a < |drivers|)
    && (forall a: nat :: a in idle <==> FreeDriver(drivers, matches, a))
    && |idle| + |matches| == |IdleIndices(drivers)|
    && GridHolds(requests, cellOf, grid, matches)
    && (forall j :: 0 <= j < |matches| ==> IsClosestNearby(drivers, requests, dist, cellOf, matches[..j], matches[j]))
    && AtMostOnce(matches, |drivers|, |requests|)
  }

  lemma FirstRound(drivers: seq<DriverView>, requests: seq<RequestView>, dist: Metric, cellOf: CellFunction,
                   grid: map<Cell, seq<nat>>)
    requires GridHolds(requests, cellOf, grid, [])
    ensures RoundsState(drivers, requests, dist, cellOf, IdleIndices(drivers), grid, [])
  {
    var idle := IdleIndices(drivers);
    assert forall p :: 0 <= p < |idle| ==> idle[p] in idle;
  }

  /** Taking the pair a round found moves to the next state between rounds. */
  lemma TakePair(drivers: seq<DriverView>, requests: seq<RequestView>, dist: Metric, cellOf: CellFunction,
                 idle: seq<nat>, grid: map<Cell, seq<nat>>, matches: seq<Match>, m: Match)
    requires RoundsState(drivers, requests, dist, cellOf, idle, grid, matches)
    requires m.driver in idle && InGrid(requests, cellOf, grid, m.request) && Near(drivers, requests, cellOf, m.driver, m.request)
    requires forall a: nat, b: nat ::
      a in idle && InGrid(requests, cellOf, grid, b) && Near(drivers, requests, cellOf, a, b) ==>
        PickupDistance(drivers, requests, dist, m.driver, m.request) <= PickupDistance(drivers, requests, dist, a, b)
        && (ScanBefore(drivers, requests, cellOf, a, b, m.driver, m.request) ==>
              PickupDistance(drivers, requests, dist, m.driver, m.request) < PickupDistance(drivers, requests, dist, a, b))
    ensures RoundsState(drivers, requests, dist, cellOf, RemoveValue(idle, m.driver),
                        Withdraw(grid, RequestCell(requests, cellOf, m.request), m.request), matches + [m])
  {
    ClosestIsNearby(drivers, requests, dist, cellOf, idle, grid, matches, m);
    var matches' := matches + [m];
    assert matches'[..|matches|] == matches;
    assert forall j :: 0 <= j < |matches| ==> matches'[..j] == matches[..j];
    AppendMatch(matches, m);
    WithdrawHolds(requests, cellOf, grid, matches, m);
    var idle' := RemoveValue(idle, m.driver);
    assert forall p :: 0 <= p < |idle'| ==> idle'[p] in idle';
    forall j | 0 <= j < |matches|
      ensures matches[j].driver != m.driver && matches[j].request != m.request
    {
      assert matches[j].driver in DriversOf(matches) && matches[j].request in RequestsOf(matches);
    }
  }

  /** `assign` for a given cell function: the rounds, until a round finds no pair or either side runs out. */
  method AssignInCells(drivers: seq<DriverView>, requests: seq<RequestView>, dist: Metric, cellOf: CellFunction)
    returns (matches: seq<Match>)
    ensures GridMatching(drivers, requests, dist, cellOf, matches)
    ensures |matches| <= Min(|IdleIndices(drivers)|, |requests|)
  {
    matches := [];
    var grid := BuildGrid(requests, cellOf);
    var idle := IdleIndices(drivers);
    FirstRound(drivers, requests, dist, cellOf, grid);
    while |idle| > 0 && |grid| > 0
      invariant RoundsState(drivers, requests, dist, cellOf, idle, grid, matches)
      decreases |idle|
    {
      var found, driver, request := ClosestNearPair(drivers, requests, dist, cellOf, idle, grid);
      if !found {
        NoNearPairLeft(drivers, requests, cellOf, idle, grid, matches);
        break;
      }
      TakePair(drivers, requests, dist, cellOf, idle, grid, matches, Match(driver, request));
      matches := matches + [Match(driver, request)];
      idle := RemoveValue(idle, driver);
      grid := Withdraw(grid, RequestCell(requests, cellOf, request), request);
    }
    MatchingSizeBound(matches, |drivers|, |requests|);
  }

  /** When a round finds no pair, no free IDLE driver has a free request nearby. */
  lemma NoNearPairLeft(drivers: seq<DriverView>, requests: seq<RequestView>, cellOf: CellFunction,
                       idle: seq<nat>, grid: map<Cell, seq<nat>>, matches: seq<Match>)
    requires forall a: nat :: a in idle ==> a < |drivers|
    requires forall a: nat :: a in idle <==> FreeDriver(drivers, matches, a)
    requires GridHolds(requests, cellOf, grid, matches)
    requires forall a: nat, b: nat :: a in idle && InGrid(requests, cellOf, grid, b) ==> !Near(drivers, requests, cellOf, a, b)
    ensures forall a: nat, b: nat :: FreeDriver(drivers, matches, a) && FreeRequest(requests, matches, b) ==>
      !Near(drivers, requests, cellOf, a, b)
  {
    forall a: nat, b: nat | FreeDriver(drivers, matches, a) && FreeRequest(requests, matches, b)
      ensures !Near(drivers, requests, cellOf, a, b)
    {
      assert a in idle && InGrid(requests, cellOf, grid, b);
    }
  }

  /** The pair a round finds is the closest nearby pair after the matches so far. */
  lemma ClosestIsNearby(drivers: seq<DriverView>, requests: seq<RequestView>, dist: Metric, cellOf: CellFunction,
                        idle: seq<nat>, grid: map<Cell, seq<nat>>, matches: seq<Match>, m: Match)
    requires forall a: nat :: a in idle ==> a < |drivers|
    requires forall a: nat :: a in idle <==> FreeDriver(drivers, matches, a)
    requires GridHolds(requests, cellOf, grid, matches)
    requires m.driver in idle && InGrid(requests, cellOf, grid, m.request) && Near(drivers, requests, cellOf, m.driver, m.request)
    requires forall a: nat, b: nat ::
      a in idle && InGrid(requests, cellOf, grid, b) && Near(drivers, requests, cellOf, a, b) ==>
        PickupDistance(drivers, requests, dist, m.driver, m.request) <= PickupDistance(drivers, requests, dist, a, b)
        && (ScanBefore(drivers, requests, cellOf, a, b, m.driver, m.request) ==>
              PickupDistance(drivers, requests, dist, m.driver, m.request) < PickupDistance(drivers, requests, dist, a, b))
    ensures IsClosestNearby(drivers, requests, dist, cellOf, matches, m)
  {
    forall a: nat, b: nat | FreeDriver(drivers, matches, a) && FreeRequest(requests, matches, b)
      ensures a in idle && InGrid(requests, cellOf, grid, b)
    {
    }
  }

  /**
   * `NearestNeighborPolicy(cell_size).assign(drivers, requests, time)`. A
   * zero cell size makes `_cell_of` divide by zero as soon as there is a
   * request; with no requests the grid stays empty and nothing is matched.
   */
  method Assign(drivers: seq<DriverView>, requests: seq<RequestView>, dist: Metric, cellSize: real)
    returns (result: Option<seq<Match>>)
    ensures result.None? <==> cellSize == 0.0 && |requests| > 0
    ensures result.Some? && cellSize == 0.0 ==> result.value == []
    ensures result.Some? && cellSize != 0.0 ==>
      GridMatching(drivers, requests, dist, CellFunctionOf(cellSize), result.value)
      && |result.value| <= Min(|IdleIndices(drivers)|, |requests|)
  {
    if cellSize == 0.0 {
      if |requests| > 0 {
        return None;
      }
      return Some([]);
    }
    var matches := AssignInCells(drivers, requests, dist, CellFunctionOf(cellSize));
    return Some(matches);
  }

  // ---------------------------------------------------------------------------
  // Properties of the matching

  /** Every pair joins an IDLE driver and a request of the lists, and neither is used twice. */
  lemma GridAtMostOnce(drivers: seq<DriverView>, requests: seq<RequestView>, dist: Metric, cellOf: CellFunction,
                       matches: seq<Match>)
    requires GridMatching(drivers, requests, dist, cellOf, matches)
    ensures AtMostOnce(matches, |drivers|, |requests|)
    ensures forall j :: 0 <= j < |matches| ==> drivers[matches[j].driver].status == Idle
    ensures forall j :: 0 <= j < |matches| ==> Near(drivers, requests, cellOf, matches[j].driver, matches[j].request)
  {
    forall j, k | 0 <= j < k < |matches|
      ensures matches[j].driver != matches[k].driver && matches[j].request != matches[k].request
    {
      assert IsClosestNearby(drivers, requests, dist, cellOf, matches[..k], matches[k]);
      assert matches[..k][j] == matches[j];
    }
  }

  /** There is one closest nearby pair: the choice leaves no freedom. */
  lemma ClosestNearbyUnique(drivers: seq<DriverView>, requests: seq<RequestView>, dist: Metric, cellOf: CellFunction,
                            prefix: seq<Match>, m: Match, m': Match)
    requires IsClosestNearby(drivers, requests, dist, cellOf, prefix, m)
    requires IsClosestNearby(drivers, requests, dist, cellOf, prefix, m')
    ensures m == m'
  {
  }

  /** Two matchings that fit the description agree on their common length. */
  lemma {:induction false} GridPrefixesAgree(drivers: seq<DriverView>, requests: seq<RequestView>, dist: Metric,
                                             cellOf: CellFunction, matches: seq<Match>, matches': seq<Match>, n: nat)
    requires GridMatching(drivers, requests, dist, cellOf, matches)
    requires GridMatching(drivers, requests, dist, cellOf, matches')
    requires n <= |matches| && n <= |matches'|
    ensures matches[..n] == matches'[..n]
  {
    var j := 0;
    while j < n
      invariant j <= n && matches[..j] == matches'[..j]
    {
      ClosestNearbyAt(drivers, requests, dist, cellOf, matches, j);
      ClosestNearbyAt(drivers, requests, dist, cellOf, matches', j);
      SameNextNearbyPair(drivers, requests, dist, cellOf, matches, matches', j);
      j := j + 1;
    }
  }

  /** The pair at `j` is the closest nearby pair after the first `j`. */
  lemma ClosestNearbyAt(drivers: seq<DriverView>, requests: seq<RequestView>, dist: Metric,
                        cellOf: CellFunction, matches: seq<Match>, j: nat)
    requires GridMatching(drivers, requests, dist, cellOf, matches) && j < |matches|
    ensures IsClosestNearby(drivers, requests, dist, cellOf, matches[..j], matches[j])
  {
  }

  /** Two matchings that agree on their first `j` pairs agree on the next one. */
  lemma SameNextNearbyPair(drivers: seq<DriverView>, requests: seq<RequestView>, dist: Metric,
                           cellOf: CellFunction, matches: seq<Match>, matches': seq<Match>, j: nat)
    requires j < |matches| && j < |matches'| && matches[..j] == matches'[..j]
    requires IsClosestNearby(drivers, requests, dist, cellOf, matches[..j], matches[j])
    requires IsClosestNearby(drivers, requests, dist, cellOf, matches'[..j], matches'[j])
    ensures matches[..j + 1] == matches'[..j + 1]
  {
    ClosestNearbyUnique(drivers, requests, dist, cellOf, matches[..j], matches[j], matches'[j]);
    assert matches[..j + 1] == matches[..j] + [matches[j]];
    assert matches'[..j + 1] == matches'[..j] + [matches'[j]];
  }

  /** The pair at position n of a matching is free and nearby after the pairs before it. */
  lemma NextPairNearby(drivers: seq<DriverView>, requests: seq<RequestView>, dist: Metric,
                       cellOf: CellFunction, matches: seq<Match>, n: nat)
    requires GridMatching(drivers, requests, dist, cellOf, matches)
    requires n < |matches|
    ensures FreeDriver(drivers, matches[..n], matches[n].driver) && FreeRequest(requests, matches[..n], matches[n].request)
    ensures matches[n].driver < |drivers| && matches[n].request < |requests|
    ensures Near(drivers, requests, cellOf, matches[n].driver, matches[n].request)
  {
    assert IsClosestNearby(drivers, requests, dist, cellOf, matches[..n], matches[n]);
  }

  /** A proper prefix of a matching that fits the description still leaves a free pair nearby. */
  lemma PrefixLeavesNearPair(drivers: seq<DriverView>, requests: seq<RequestView>, dist: Metric,
                             cellOf: CellFunction, prefix: seq<Match>, matches: seq<Match>)
    requires GridMatching(drivers, requests, dist, cellOf, matches)
    requires |prefix| < |matches| && matches[..|prefix|] == prefix
    ensures exists a: nat, b: nat :: FreeDriver(drivers, prefix, a) && FreeRequest(requests, prefix, b)
                                     && Near(drivers, requests, cellOf, a, b)
  {
    NextPairNearby(drivers, requests, dist, cellOf, matches, |prefix|);
  }

  /** A matching that fits the description is no shorter than any other that does: the rounds stop at the same point. */
  lemma GridNotShorter(drivers: seq<DriverView>, requests: seq<RequestView>, dist: Metric,
                       cellOf: CellFunction, matches: seq<Match>, matches': seq<Match>)
    requires GridMatching(drivers, requests, dist, cellOf, matches)
    requires GridMatching(drivers, requests, dist, cellOf, matches')
    ensures |matches'| <= |matches|
  {
    if |matches| < |matches'| {
      GridPrefixesAgree(drivers, requests, dist, cellOf, matches, matches', |matches|);
      PrefixLeavesNearPair(drivers, requests, dist, cellOf, matches, matches');
      assert false;
    }
  }

  /** The description pins the result down: `assign` is a function of its inputs. */
  lemma GridDeterministic(drivers: seq<DriverView>, requests: seq<RequestView>, dist: Metric,
                          cellOf: CellFunction, matches: seq<Match>, matches': seq<Match>)
    requires GridMatching(drivers, requests, dist, cellOf, matches)
    requires GridMatching(drivers, requests, dist, cellOf, matches')
    ensures matches == matches'
  {
    GridNotShorter(drivers, requests, dist, cellOf, matches, matches');
    GridNotShorter(drivers, requests, dist, cellOf, matches', matches);
    GridPrefixesAgree(drivers, requests, dist, cellOf, matches, matches', |matches|);
    assert matches[..|matches|] == matches && matches'[..|matches'|] == matches';
  }

  /**
   * With the default cell size, an IDLE driver at (0,0) and a request picked
   * up at (12,0) are two cells apart: `assign` matches nothing, although the
   * driver is free and the request waiting.
   */
  lemma GridFarRequestExample(dist: Metric, drivers: seq<DriverView>, requests: seq<RequestView>,
                              result: Option<seq<Match>>)
    requires |drivers| == 1 && |requests| == 1
    requires drivers[0].position == Point(0.0, 0.0) && drivers[0].status == Idle
    requires requests[0].pickup == Point(12.0, 0.0)
    requires result.Some?
    requires GridMatching(drivers, requests, dist, CellFunctionOf(DefaultCellSize), result.value)
    ensures result.value == []
  {
    var cellOf := CellFunctionOf(DefaultCellSize);
    assert 12.0 / 5.0 == 2.4 && 0.0 / 5.0 == 0.0;
    assert DriverCell(drivers, cellOf, 0) == (0, 0);
    assert RequestCell(requests, cellOf, 0) == (2, 0);
    assert !Near(drivers, requests, cellOf, 0, 0);
    if |result.value| > 0 {
      NextPairNearby(drivers, requests, dist, cellOf, result.value, 0);
      assert false;
    }
  }
}
