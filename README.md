# A* footman agent, modelled in Dafny

This project models the planning agent of `AstarAgent.java`, a SEPIA
agent that walks a footman to the enemy townhall and attacks it. The
model has three parts:

- **The search.** `AstarSearch` runs A* on an 8-connected grid. Every
  step costs 1 and the heuristic is the Chebyshev distance. Cells holding
  a resource or the enemy footman are blocked. The search returns a stack
  of waypoints that excludes both the start and the goal.
- **The controller.** Each turn, `middleStep` replans when the enemy
  footman stands on a cell still on the stack. It pops the next waypoint
  once the current one is reached. It then moves one step towards that
  waypoint, or attacks the townhall when no waypoint is left to walk to.
- **The helpers.** These are `getValidNeighbors`, `chebyshev`,
  `getNextDirection` and the ordering of `MapLocation`.

Files:

- `grid.dfy` (module `Grid`): cells and terrain, Chebyshev distance,
  adjacency, the neighbour scan, and `MapLocation.compareTo`.
- `directions.dfy` (module `Directions`): the eight move directions and
  `getNextDirection`.
- `search.dfy` (module `Search`):
  - `AstarSearch` as an imperative loop over an open set, a closed
    sequence, and `cost`/`cameFrom` maps.
  - The search-forest invariants.
  - The lemmas about the search's results.
  - The corrected search described under Findings.
- `shortest.dfy` (module `Shortest`): on a map with no resources and no
  enemy, every stack either search returns is a shortest plan, holding
  exactly Chebyshev(start, goal) - 1 cells.
- `controller.dfy` (module `Controller`): the class `AstarAgent`, with
  the fields `path` and `nextLoc` and the methods `InitialStep` and
  `Step`. The per-turn decisions are pure functions (`ShouldReplan`,
  `Advance`, `Act`).
- `scenarios.dfy` (module `Scenarios`): the 5×3 map documented above
  `AstarSearch`. A lemma proves that every run of the search returns the
  documented stack (1,0), (2,0), (3,1), (2,2), (1,2), however ties are
  broken.

How the model represents the source:

- **The waypoint stack.** A `Stack` is a `seq<Cell>` whose index 0 is the
  top. `pop` takes index 0, and `contains` is sequence membership. In the
  source the backtracking loop pushes the goal's predecessor first, so the
  child of the start ends on top.
- **Polling.** `PriorityQueue.poll` takes *some* open cell of least
  cost + heuristic, chosen nondeterministically. Java leaves the order of
  equal keys unspecified, so every property here holds for every
  tie-break.
- **The search forest.** The search also returns ghost values: the
  polling order, each cell's position in it, and the final `cameFrom`
  and `cost` maps. The properties about the search are stated on these
  values.
- **A null direction.** `getNextDirection` returns `null` for any other
  difference. That becomes `None`, and the move is then
  `Move(None)`.

## Model

| member | source | states |
|---|---|---|
| Grid.Chebyshev | src/edu/cwru/sepia/agent/AstarAgent.java:447-449 | the distance is the larger coordinate difference, and it is 0 exactly for equal cells |
| Grid.AdjacentIsChebyshevOne | src/edu/cwru/sepia/agent/AstarAgent.java:447-449 | one king move is exactly Chebyshev distance 1 |
| Grid.ChebyshevTriangle | src/edu/cwru/sepia/agent/AstarAgent.java:447-449 | Chebyshev distance obeys the triangle inequality |
| Grid.ChebyshevConsistent | src/edu/cwru/sepia/agent/AstarAgent.java:447-449 | the heuristic is consistent: one move changes it by at most 1 |
| Grid.CompareTo | src/edu/cwru/sepia/agent/AstarAgent.java:82-84 | the result is -1, 0 or 1, negative exactly when cost + heuristic is smaller and positive exactly when it is larger |
| Grid.CompareToIsPreorder | src/edu/cwru/sepia/agent/AstarAgent.java:76-84 | compareTo is antisymmetric in sign, transitive and total |
| Grid.GetValidNeighbors | src/edu/cwru/sepia/agent/AstarAgent.java:460-475 | the list holds exactly the 8-adjacent cells that are in bounds, hold no resource and are not the enemy's cell, without duplicates and at most 8 of them |
| Grid.GridSize | src/edu/cwru/sepia/agent/AstarAgent.java:463-465 | an xExtent-by-yExtent map has xExtent * yExtent cells, which bounds the number of polls |
| Directions.NextDirection | src/edu/cwru/sepia/agent/AstarAgent.java:486-524 | a direction is returned exactly for the eight unit steps, and its offset is the given difference; anything else gives null |
| Directions.DirectionBijection | src/edu/cwru/sepia/agent/AstarAgent.java:486-524 | getNextDirection and the direction offsets are inverse bijections |
| Directions.StepTowardsAdjacent | src/edu/cwru/sepia/agent/AstarAgent.java:222-230 | moving in the direction of the difference to an adjacent waypoint lands on it |
| Search.AstarSearch | src/edu/cwru/sepia/agent/AstarAgent.java:382-439 | the run builds a search forest: start polled first, each cell polled after the parent that discovered it first, every polled cell fully expanded, polls in non-decreasing cost + heuristic. A stack is returned only when the goal was polled last as a least open cell; it is the goal's cameFrom chain and a valid walk that excludes start and goal. NotFound means the open list ran dry. At most xExtent * yExtent polls |
| Search.ExpandNeighbors | src/edu/cwru/sepia/agent/AstarAgent.java:409-428 | each fresh valid neighbour gets cost + 1 and cameFrom = current. Closed and already-open cells are left alone. The forest invariant is restored |
| Search.BacktrackPath | src/edu/cwru/sepia/agent/AstarAgent.java:396-403 | the stack built by backtracking is the cameFrom chain from goal to start, the child of start on top, and a valid path |
| Search.LeastNodeExists | src/edu/cwru/sepia/agent/AstarAgent.java:407 | a non-empty open list always has a cell that compares at most equal to every other |
| Search.ExistsMinimum | src/edu/cwru/sepia/agent/AstarAgent.java:407 | a non-empty open list has an element of least cost + heuristic |
| Search.PollKeepsForest | src/edu/cwru/sepia/agent/AstarAgent.java:407-408 | polling a least cell and closing it keeps the polling order monotone and the forest consistent |
| Search.PollKeepsOrder | src/edu/cwru/sepia/agent/AstarAgent.java:407-408 | cells leave the open list in non-decreasing cost + heuristic |
| Search.DiscoverKeepsForest | src/edu/cwru/sepia/agent/AstarAgent.java:419-425 | adding a fresh neighbour with cameFrom = current keeps every forest invariant |
| Search.DiscoverKeepsOrder | src/edu/cwru/sepia/agent/AstarAgent.java:411-420 | a newly opened neighbour never has a smaller key than the cell just polled, because the heuristic is consistent |
| Search.ExpansionDone | src/edu/cwru/sepia/agent/AstarAgent.java:409-428 | once every valid neighbour of the polled cell is known, the forest invariant is whole again |
| Search.ExhaustedOutcome | src/edu/cwru/sepia/agent/AstarAgent.java:434-437 | leaving the loop with an empty open list ends in NotFound with every discovered cell polled |
| Search.LinksGiveValidPath | src/edu/cwru/sepia/agent/AstarAgent.java:396-403 | a path linked by cameFrom from start to goal is a valid plan, one cell shorter than the goal's cost |
| Search.CostAtLeastDistance | src/edu/cwru/sepia/agent/AstarAgent.java:411-413 | every discovered cell costs at least its Chebyshev distance from start (the heuristic is admissible) |
| Search.PolledBefore | src/edu/cwru/sepia/agent/AstarAgent.java:406-408 | a cell polled no later than another has no greater cost + heuristic |
| Shortest.PolledBeforeTight | src/edu/cwru/sepia/agent/AstarAgent.java:406-408 | a cell polled no later than a polled cell whose cost is its distance on a shortest route is such a cell too |
| Shortest.TightBoundsGoal | src/edu/cwru/sepia/agent/AstarAgent.java:395-431 | on a map without obstacles, from any polled cell whose cost is its distance on a shortest route, the goal's cost is at most Chebyshev(start, goal) |
| Shortest.GoalCostIsDistance | src/edu/cwru/sepia/agent/AstarAgent.java:395-431 | on a map without obstacles, once the goal has been polled as a least open cell, its cost is exactly Chebyshev(start, goal) |
| Shortest.ObstacleFreeShortest | src/edu/cwru/sepia/agent/AstarAgent.java:382-439 | on a map without resources or enemy, with start and goal on the map, a returned stack holds exactly Chebyshev(start, goal) - 1 cells: a shortest plan |
| Shortest.CorrectedObstacleFreeShortest | src/edu/cwru/sepia/agent/AstarAgent.java:382-439 | the same for the search with the corrected goal test |
| Search.PathAtLeastDistance | src/edu/cwru/sepia/agent/AstarAgent.java:343-372 | no plan holds fewer than Chebyshev(start, goal) - 1 cells |
| Search.WalkLength | src/edu/cwru/sepia/agent/AstarAgent.java:447-449 | a walk of k moves spans Chebyshev distance at most k |
| Search.ExhaustedCoversReachable | src/edu/cwru/sepia/agent/AstarAgent.java:407-428 | when every discovered cell has been polled, every cell reachable from start has been polled |
| Search.NotFoundMeansUnreachable | src/edu/cwru/sepia/agent/AstarAgent.java:434-436 | "No available path" with a reachable goal happens only when the goal was the last cell polled |
| Search.DiscoveredIsFree | src/edu/cwru/sepia/agent/AstarAgent.java:409-425 | every discovered cell except the start is a free cell of the map |
| Search.CorridorReportsNoPath | src/edu/cwru/sepia/agent/AstarAgent.java:395-436 | on a 3×1 corridor the goal is reachable, yet every run ends with NotFound |
| Search.AstarSearchCorrected | src/edu/cwru/sepia/agent/AstarAgent.java:382-439 | the same search with the goal test moved right after the goal's expansion. A stack is returned whenever the goal is polled, and the goal is then a least open cell. NotFound means the goal was never polled |
| Search.CorrectedNotFoundMeansUnreachable | src/edu/cwru/sepia/agent/AstarAgent.java:434-436 | with the corrected goal test, a reachable goal always yields a path |
| Controller.ShouldReplan | src/edu/cwru/sepia/agent/AstarAgent.java:288-301 | replan exactly when an enemy footman exists and stands on a cell still on the stack |
| Controller.FreshPlanAvoidsEnemy | src/edu/cwru/sepia/agent/AstarAgent.java:288-301 | a stack just planned never contains the enemy's cell, so it does not trigger a replan by itself |
| Controller.Advance | src/edu/cwru/sepia/agent/AstarAgent.java:214-220 | the next waypoint is popped exactly when the stack is non-empty and there is no waypoint or the waypoint is reached. A waypoint, once set, is never cleared |
| Controller.AdvanceKeepsOutstanding | src/edu/cwru/sepia/agent/AstarAgent.java:214-220 | advancing drops only the reached waypoint from the outstanding ones and keeps the rest in order |
| Controller.Act | src/edu/cwru/sepia/agent/AstarAgent.java:222-252 | moves exactly when a waypoint is set and not reached, onto that waypoint when it is adjacent and with a null direction otherwise. Otherwise: the task ends when the townhall is gone, nothing is done when the townhall is more than one cell away, and the townhall is attacked when it is within one cell |
| Controller.ExecutePops | src/edu/cwru/sepia/agent/AstarAgent.java:214-232 | with no unreached waypoint and a stack whose top is adjacent, a turn pops that top and moves onto it, and the remaining turns are those of the popped stack |
| Controller.PlanEndsInAttack | src/edu/cwru/sepia/agent/AstarAgent.java:214-252 | following a plan that walks to the townhall makes one move onto each waypoint in turn and then attacks |
| Controller.AstarAgent.constructor | src/edu/cwru/sepia/agent/AstarAgent.java:103-115 | a new agent has no stack and no waypoint |
| Controller.SearchedPlanShortest | src/edu/cwru/sepia/agent/AstarAgent.java:335 | a plan that a run of the corrected search returned, on a map without resources or enemy, holds exactly Chebyshev(footman, townhall) - 1 cells |
| Controller.AstarAgent.FindPath | src/edu/cwru/sepia/agent/AstarAgent.java:310-336 | plans from the footman to the townhall with the corrected search. The stack returned is a valid plan and is the result of a run of that search (SearchedPlan), so on a map without obstacles it holds exactly Chebyshev(footman, townhall) - 1 cells; when none is returned the townhall is unreachable |
| Controller.AstarAgent.Step | src/edu/cwru/sepia/agent/AstarAgent.java:196-256 | replans exactly when ShouldReplan holds on the old stack. A new plan is a search result (SearchedPlan), a valid path to the townhall and avoids the enemy. The new (stack, waypoint) is Advance of the plan and the old waypoint. The turn is Act of the new waypoint. A failed replan means the townhall is unreachable |
| Controller.AstarAgent.InitialStep | src/edu/cwru/sepia/agent/AstarAgent.java:118-193 | aborts without a townhall. Otherwise it plans with the search (SearchedPlan) a valid path to the townhall, shortest on a map without obstacles, and plays the first turn on it. When planning fails the townhall is unreachable and the stack and waypoint are unchanged |
| Scenarios.ExampleFindsDocumentedPath | src/edu/cwru/sepia/agent/AstarAgent.java:343-372 | on the documented 5×3 map every run returns the stack (1,0), (2,0), (3,1), (2,2), (1,2) |
| Scenarios.ExampleFinds | src/edu/cwru/sepia/agent/AstarAgent.java:343-372 | on the documented map the search never reports that there is no path |
| Scenarios.GoalChain | src/edu/cwru/sepia/agent/AstarAgent.java:343-372 | once the townhall of the documented map is polled, its cameFrom chain is the documented one, whatever the tie-breaking |
| Scenarios.CornerLeftOpen | src/edu/cwru/sepia/agent/AstarAgent.java:407-431 | when the townhall is polled, cell (4,2) is still open: its key of at least 8 exceeds the townhall's 6 |
| Scenarios.ChainDeterminesPath | src/edu/cwru/sepia/agent/AstarAgent.java:396-403 | the only path linked along the documented chain is the documented stack |

## Left out

- Unit discovery in `initialStep` (looking up the player and unit IDs, and the "Unknown unit type" message) is not modelled. The world arrives as a `World` value holding the footman's cell, the townhall's cell if any, and the enemy footman's cell if any.
- Reading resources out of the SEPIA state in `findPath` is not modelled. The resource cells arrive as a set.
- Timing (`System.nanoTime`, `totalPlanTime`, `totalExecutionTime`) is left out. So are the console output and `terminalStep`'s report. `terminalStep` appears only as the `TaskEnded` turn.
- `System.exit(0)` after "No available path" is not modelled as a process exit. It becomes the `NotFound` result, and in the controller the `SearchFailed` turn.
- SEPIA's `Action` and `Direction` classes and the action map are not modelled. A turn yields at most one `Turn` value for the footman.
- `savePlayerData`, `loadPlayerData`, `toString` and `hashCode` are left out. They are empty, or serve only Java's collections. `MapLocation.equals` is datatype equality on coordinates.
- The internals of `PriorityQueue` are not modelled. Among cells with equal keys the poll is nondeterministic. `float` costs are modelled as exact integers, because costs and distances on a map stay far below 2^24.
- Controller.AstarAgent.FindPath: it plans with `Search.AstarSearchCorrected` (see Findings), not with the search as written. On the 3×1 corridor of the finding it returns a stack, where the source's `findPath` prints "No available path" and exits.
- Controller.AstarAgent.InitialStep: it plans through `FindPath`, so with `Search.AstarSearchCorrected` (see Findings). On the 3×1 corridor it plays a first move, where the source exits.
- Controller.AstarAgent.Step: it plans with `Search.AstarSearchCorrected` (see Findings), not with the search as written. It also requires the townhall to exist whenever a replan fires, since otherwise `findPath` would dereference a missing unit. It requires the townhall to lie off the footman's cell, because the search requires `start != goal`.
- Search.AstarSearch: requires `start != goal`. With equal cells the source dereferences a null `cameFrom` once a neighbour of start is open. When start has no free neighbour it prints "No available path" and exits instead.
- Controller.ShouldReplan: a dead enemy footman (`getUnit` returning null while its ID is still set) is not modelled. The enemy is either present at a cell or absent.
- Controller.PlanEndsInAttack: it assumes that every move lands on its target and that nothing triggers a replan on the way. SEPIA's move execution is not part of this model.
- Search.AstarSearch: the result is shown to be a shortest path only on maps without resources or enemy (`Shortest.ObstacleFreeShortest`, and `Shortest.CorrectedObstacleFreeShortest` for `Search.AstarSearchCorrected`). With obstacles it need not be one, so nothing more is claimed. An open cell keeps the cost and `cameFrom` of its first discovery, because the test at line 421 always skips the update. For example, on a 5×4 map with resources at (0,3), (1,2), (2,2) and (3,1), searching from (4,0) to (1,3), some tie orders return the 4-cell stack (3,0), (2,1), (3,2), (2,3) instead of the 3-cell (4,1), (3,2), (2,3).

`shouldReplanPath` tests membership in the current `Stack`, which has lost every popped waypoint, so `Controller.ShouldReplan` tests only the waypoints still on the stack.

## Findings

| source | as written | input that shows it | evidently intended | confidence | as-written member | corrected member |
|---|---|---|---|---|---|---|
| src/edu/cwru/sepia/agent/AstarAgent.java:395-436 | `done` is checked only at the head of `while (nextLocs.peek() != null)`. If expanding the goal leaves the open list empty, the loop ends and the search reports "No available path" and exits, although the goal was reached | a 3×1 map with no resources and no enemy, footman at (0,0), townhall at (2,0) | return the stack holding (1,0) | not executed; high (proved for every run of the model) | Search.CorridorReportsNoPath | Search.AstarSearchCorrected |
