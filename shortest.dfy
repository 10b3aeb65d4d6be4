/**
 * On a map with no resources and no enemy every cell is free, and the
 * stack AstarAgent.AstarSearch returns is a shortest plan: it holds
 * exactly Chebyshev(start, goal) - 1 cells.
 *
 * The argument follows the cells that are discovered at their Chebyshev
 * distance from start and lie on a shortest route to the goal ("tight"
 * cells).  Start is one.  From a polled tight cell, the king move towards
 * the goal leads to a cell that is again tight, or else some tight cell
 * farther from start has been polled; climbing this way ends either at the
 * goal itself or at a tight cell still open, whose priority bounds the
 * goal's cost because the goal was polled as a least open cell.
 */
module Shortest {
  import opened Grid
  import opened Search

  /** The sign of n, as -1, 0 or 1. */
  function Sign(n: int): (s: int)
    ensures s == 0 <==> n == 0
    ensures n > 0 ==> s == 1
    ensures n < 0 ==> s == -1
  {
    if n > 0 then 1 else if n < 0 then -1 else 0
  }

  /** The king move from c straight towards goal: each coordinate one closer, or kept once equal. */
  function StepToward(c: Cell, goal: Cell): (n: Cell)
    requires c != goal
    ensures Adjacent(c, n)
    ensures Chebyshev(n, goal) + 1 == Chebyshev(c, goal)
  {
    Cell(c.x + Sign(goal.x - c.x), c.y + Sign(goal.y - c.y))
  }

  /** The step towards an on-map goal from an on-map cell stays on the map. */
  lemma StepTowardInBounds(t: Terrain, c: Cell, goal: Cell)
    requires c != goal && InBounds(t, c) && InBounds(t, goal)
    ensures InBounds(t, StepToward(c, goal))
  {
  }

  /** c was discovered at its distance from start, and lies on a shortest route from start to goal. */
  ghost predicate Tight(start: Cell, goal: Cell, cost: map<Cell, nat>, c: Cell)
  {
    c in cost && cost[c] == Chebyshev(start, c) && Chebyshev(start, c) + Chebyshev(c, goal) == Chebyshev(start, goal)
  }

  /**
   * A cell polled no later than a polled tight cell is tight: its priority
   * is at most that of the tight cell, Chebyshev(start, goal), and never
   * less, since costs are at least distances.
   */
  lemma PolledBeforeTight(t: Terrain, start: Cell, goal: Cell, order: seq<Cell>, rank: map<Cell, nat>,
                          parent: map<Cell, Cell>, cost: map<Cell, nat>, p: Cell, q: Cell)
    requires TreeLinks(t, start, rank, parent, cost) && Ranked(order, rank) && PollOrder(goal, order, cost)
    requires p in rank && q in rank && rank[q] <= rank[p] && Tight(start, goal, cost, p)
    ensures Tight(start, goal, cost, q)
  {
    PolledBefore(goal, order, rank, cost, q, p);
    var d := Chebyshev(start, goal);
    assert cost[q] + Chebyshev(q, goal) <= d;
    CostAtLeastDistance(t, start, rank, parent, cost, q);
    ChebyshevTriangle(start, q, goal);
  }

  /**
   * From a polled tight cell the goal's cost is bounded by its distance,
   * by induction on how much nearer the goal than start the cell lies.
   */
  lemma {:induction false} TightBoundsGoal(t: Terrain, start: Cell, goal: Cell, order: seq<Cell>, rank: map<Cell, nat>,
                                           parent: map<Cell, Cell>, cost: map<Cell, nat>, p: Cell)
    requires t.enemy == None && t.resources == {}
    requires SearchForest(t, start, goal, order, rank, parent, cost) && GoalLeast(goal, rank, cost)
    requires goal in cost && InBounds(t, goal) && InBounds(t, p)
    requires p in rank && Tight(start, goal, cost, p)
    ensures cost[goal] <= Chebyshev(start, goal)
    decreases Chebyshev(start, goal) - Chebyshev(start, p)
  {
    if p != goal {
      var n := StepToward(p, goal);
      StepTowardInBounds(t, p, goal);
      AdjacentIsChebyshevOne(p, n);
      ChebyshevTriangle(start, n, goal);
      ChebyshevTriangle(start, p, n);
      assert Chebyshev(start, n) == Chebyshev(start, p) + 1;
      assert ValidNeighbor(t, order[rank[p]], n);
      var q := parent[n];
      PolledBeforeTight(t, start, goal, order, rank, parent, cost, p, q);
      AdjacentIsChebyshevOne(q, n);
      ChebyshevTriangle(start, q, n);
      if Chebyshev(start, q) > Chebyshev(start, p) {
        DiscoveredIsFree(t, start, rank, parent, cost, q);
        TightBoundsGoal(t, start, goal, order, rank, parent, cost, q);
      } else if n in rank {
        TightBoundsGoal(t, start, goal, order, rank, parent, cost, n);
      } else {
        assert Priority(cost, goal, goal) <= Priority(cost, n, goal);
      }
    }
  }

  /** Start is polled first and is tight, so the goal costs at most its distance from start. */
  lemma GoalCostIsDistance(t: Terrain, start: Cell, goal: Cell, order: seq<Cell>, rank: map<Cell, nat>,
                           parent: map<Cell, Cell>, cost: map<Cell, nat>)
    requires t.enemy == None && t.resources == {}
    requires SearchForest(t, start, goal, order, rank, parent, cost) && GoalLeast(goal, rank, cost)
    requires |order| > 0 && goal in cost && InBounds(t, start) && InBounds(t, goal)
    ensures cost[goal] == Chebyshev(start, goal)
  {
    assert order[0] in rank;
    TightBoundsGoal(t, start, goal, order, rank, parent, cost, start);
    CostAtLeastDistance(t, start, rank, parent, cost, goal);
  }

  /** On a map with no obstacles and no enemy, the search as written returns a shortest stack. */
  lemma ObstacleFreeShortest(xExtent: int, yExtent: int, start: Cell, goal: Cell, r: SearchResult, order: seq<Cell>,
                             rank: map<Cell, nat>, parent: map<Cell, Cell>, cost: map<Cell, nat>)
    requires SearchOutcome(Terrain(xExtent, yExtent, None, {}), start, goal, r, order, rank, parent, cost)
    requires InBounds(Terrain(xExtent, yExtent, None, {}), start) && InBounds(Terrain(xExtent, yExtent, None, {}), goal)
    ensures r.Found? ==> |r.path| + 1 == Chebyshev(start, goal)
  {
    if r.Found? {
      var t := Terrain(xExtent, yExtent, None, {});
      LinksGiveValidPath(t, start, goal, r.path, rank, parent, cost);
      GoalCostIsDistance(t, start, goal, order, rank, parent, cost);
    }
  }

  /** The same for the search with the corrected goal test. */
  lemma CorrectedObstacleFreeShortest(xExtent: int, yExtent: int, start: Cell, goal: Cell, r: SearchResult,
                                      order: seq<Cell>, rank: map<Cell, nat>, parent: map<Cell, Cell>, cost: map<Cell, nat>)
    requires CorrectedOutcome(Terrain(xExtent, yExtent, None, {}), start, goal, r, order, rank, parent, cost)
    requires InBounds(Terrain(xExtent, yExtent, None, {}), start) && InBounds(Terrain(xExtent, yExtent, None, {}), goal)
    ensures r.Found? ==> |r.path| + 1 == Chebyshev(start, goal)
  {
    if r.Found? {
      var t := Terrain(xExtent, yExtent, None, {});
      LinksGiveValidPath(t, start, goal, r.path, rank, parent, cost);
      GoalCostIsDistance(t, start, goal, order, rank, parent, cost);
    }
  }
}
