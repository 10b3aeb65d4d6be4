/**
 * The A* grid search of AstarAgent.AstarSearch.
 *
 * The open list is a set of cells (a PriorityQueue whose membership test
 * is coordinate equality); each poll takes SOME cell of least
 * cost + heuristic, since Java's PriorityQueue leaves ties unspecified.
 * The closed list is the sequence of polled cells, in polling order.
 * Costs and back-pointers are maps keyed by cell: an open cell keeps the
 * cost and cameFrom of its first discovery, and closed cells are never
 * reopened.
 *
 * Besides its result the search hands back, as ghost values, the polling
 * order, the position of each polled cell in it, and the final cameFrom
 * and cost maps: the search forest that the properties below are stated on.
 */
module Search {
  import opened Grid

  datatype SearchResult = Found(path: seq<Cell>) | NotFound

  /** cost + heuristic of a discovered cell: the key the open list is ordered by. */
  function Priority(cost: map<Cell, nat>, c: Cell, goal: Cell): int
  {
    (if c in cost then cost[c] else 0) + Chebyshev(c, goal)
  }

  /** The search node of a discovered cell, as a MapLocation of the open list holds it. */
  function NodeOf(cost: map<Cell, nat>, c: Cell, goal: Cell): (n: Node)
    ensures n.loc == c && n.cost + n.heuristic == Priority(cost, c, goal)
  {
    Node(c, if c in cost then cost[c] else 0, Chebyshev(c, goal))
  }

  /** The start, the cells of a path (top of the stack first), then the goal. */
  function Ext(start: Cell, path: seq<Cell>, goal: Cell): (w: seq<Cell>)
    ensures |w| == |path| + 2 && w[0] == start && w[|w| - 1] == goal
    ensures forall i :: 0 <= i < |path| ==> w[i + 1] == path[i]
  {
    [start] + path + [goal]
  }

  /** Every step of w moves to a free neighbouring cell. */
  ghost predicate Walk(t: Terrain, w: seq<Cell>)
  {
    forall i :: 0 < i < |w| ==> ValidNeighbor(t, w[i - 1], w[i])
  }

  /**
   * A plan from start to goal: start, the path and goal form a walk of
   * 8-adjacent moves onto free cells, the path visits no cell twice and
   * contains neither start nor goal.
   */
  ghost predicate ValidPath(t: Terrain, start: Cell, path: seq<Cell>, goal: Cell)
  {
    Walk(t, Ext(start, path, goal)) && start !in path && goal !in path && Distinct(path)
  }

  /** rank gives the position of each polled cell in order; no cell is polled twice. */
  ghost predicate Ranked(order: seq<Cell>, rank: map<Cell, nat>)
  {
    && (forall i :: 0 <= i < |order| ==> order[i] in rank && rank[order[i]] == i)
    && (forall c :: c in rank ==> rank[c] < |order| && order[rank[c]] == c)
  }

  /**
   * The cameFrom links: start has none and costs 0; every other discovered
   * cell hangs off a polled parent of which it is a valid neighbour, and
   * costs one more than it.
   */
  ghost predicate TreeLinks(t: Terrain, start: Cell, rank: map<Cell, nat>, parent: map<Cell, Cell>, cost: map<Cell, nat>)
  {
    && start !in parent
    && start in cost && cost[start] == 0
    && (forall c :: c in cost <==> c in parent || c == start)
    && (forall c :: c in rank ==> c in cost)
    && (forall c :: c in parent ==>
          parent[c] in rank && parent[c] in cost && ValidNeighbor(t, parent[c], c) && cost[c] == cost[parent[c]] + 1)
  }

  /** Polling order: start first, every later cell polled after its parent. */
  ghost predicate Explored(start: Cell, order: seq<Cell>, rank: map<Cell, nat>, parent: map<Cell, Cell>)
  {
    && Ranked(order, rank)
    && (|order| > 0 ==> order[0] == start)
    && (forall c :: c in rank && c != start ==> c in parent && parent[c] in rank && rank[parent[c]] < rank[c])
  }

  /** A discovered cell's parent is the first polled cell that has it as a valid neighbour. */
  ghost predicate FirstDiscovered(t: Terrain, order: seq<Cell>, rank: map<Cell, nat>, parent: map<Cell, Cell>)
  {
    forall c, j :: c in parent && 0 <= j < |order| && ValidNeighbor(t, order[j], c) ==>
      parent[c] in rank && rank[parent[c]] <= j
  }

  /** Every valid neighbour of the first upto polled cells has been discovered. */
  ghost predicate Expanded(t: Terrain, order: seq<Cell>, upto: int, cost: map<Cell, nat>)
  {
    forall j, n :: 0 <= j < upto && j < |order| && ValidNeighbor(t, order[j], n) ==> n in cost
  }

  /** Cells are polled in order of non-decreasing cost + heuristic. */
  ghost predicate PollOrder(goal: Cell, order: seq<Cell>, cost: map<Cell, nat>)
  {
    forall i, j :: 0 <= i < j < |order| ==> Priority(cost, order[i], goal) <= Priority(cost, order[j], goal)
  }

  ghost predicate SearchForest(t: Terrain, start: Cell, goal: Cell, order: seq<Cell>, rank: map<Cell, nat>,
                               parent: map<Cell, Cell>, cost: map<Cell, nat>)
  {
    && TreeLinks(t, start, rank, parent, cost)
    && Explored(start, order, rank, parent)
    && FirstDiscovered(t, order, rank, parent)
    && Expanded(t, order, |order|, cost)
    && PollOrder(goal, order, cost)
  }

  /** path is the cameFrom chain from goal back to first, top of the stack being the child of first. */
  ghost predicate Links(first: Cell, path: seq<Cell>, goal: Cell, parent: map<Cell, Cell>)
  {
    forall i :: 0 < i < |path| + 2 ==>
      Ext(first, path, goal)[i] in parent && parent[Ext(first, path, goal)[i]] == Ext(first, path, goal)[i - 1]
  }

  /** No open cell, discovered but not yet polled, has a smaller priority than the goal. */
  ghost predicate GoalLeast(goal: Cell, rank: map<Cell, nat>, cost: map<Cell, nat>)
  {
    forall c :: c in cost && c !in rank ==> Priority(cost, goal, goal) <= Priority(cost, c, goal)
  }

  /** Cells are polled in order of priority: one polled no later than another has no greater priority. */
  lemma PolledBefore(goal: Cell, order: seq<Cell>, rank: map<Cell, nat>, cost: map<Cell, nat>, x: Cell, y: Cell)
    requires PollOrder(goal, order, cost) && Ranked(order, rank)
    requires x in rank && y in rank && rank[x] <= rank[y]
    ensures Priority(cost, x, goal) <= Priority(cost, y, goal)
  {
    assert order[rank[x]] == x && order[rank[y]] == y;
  }

  /**
   * What one run of the search establishes.  A path is returned only
   * after the goal was the last cell polled, as a least open cell, and
   * while the open list still holds a cell; it is the goal's cameFrom chain.  NotFound means the open
   * list ran dry: every discovered cell was polled, and if the goal was
   * polled at all it was polled last.
   */
  ghost predicate SearchOutcome(t: Terrain, start: Cell, goal: Cell, r: SearchResult, order: seq<Cell>,
                                rank: map<Cell, nat>, parent: map<Cell, Cell>, cost: map<Cell, nat>)
  {
    && SearchForest(t, start, goal, order, rank, parent, cost)
    && |order| > 0
    && (r.Found? ==>
          && order[|order| - 1] == goal
          && (exists c :: c in cost && c !in rank)
          && GoalLeast(goal, rank, cost)
          && Links(start, r.path, goal, parent))
    && (r.NotFound? ==>
          && (forall c :: c in cost ==> c in rank)
          && (goal in rank ==> order[|order| - 1] == goal))
  }

  /** A finite non-empty open list has an element of least priority. */
  lemma {:induction false} ExistsMinimum(open: set<Cell>, cost: map<Cell, nat>, goal: Cell)
    requires open != {}
    ensures exists c :: c in open && forall o :: o in open ==> Priority(cost, c, goal) <= Priority(cost, o, goal)
  {
    var x :| x in open;
    if open != {x} {
      ExistsMinimum(open - {x}, cost, goal);
      var m :| m in open - {x} && forall o :: o in open - {x} ==> Priority(cost, m, goal) <= Priority(cost, o, goal);
      if Priority(cost, x, goal) < Priority(cost, m, goal) {
        assert forall o :: o in open ==> Priority(cost, x, goal) <= Priority(cost, o, goal);
      } else {
        assert forall o :: o in open ==> Priority(cost, m, goal) <= Priority(cost, o, goal);
      }
    } else {
      assert forall o :: o in open ==> o == x;
    }
  }

  /** The poll always has a candidate: some open node compares at most equal to every other. */
  lemma LeastNodeExists(open: set<Cell>, cost: map<Cell, nat>, goal: Cell)
    requires open != {}
    ensures exists c :: c in open && forall o :: o in open ==> CompareTo(NodeOf(cost, c, goal), NodeOf(cost, o, goal)) <= 0
  {
    ExistsMinimum(open, cost, goal);
    var c :| c in open && forall o :: o in open ==> Priority(cost, c, goal) <= Priority(cost, o, goal);
    forall o | o in open
      ensures CompareTo(NodeOf(cost, c, goal), NodeOf(cost, o, goal)) <= 0
    {
      assert Priority(cost, c, goal) <= Priority(cost, o, goal);
    }
  }

  /** Following cameFrom links from start, the i-th cell costs exactly i, so a linked path is a valid plan. */
  lemma LinksGiveValidPath(t: Terrain, start: Cell, goal: Cell, path: seq<Cell>,
                           rank: map<Cell, nat>, parent: map<Cell, Cell>, cost: map<Cell, nat>)
    requires TreeLinks(t, start, rank, parent, cost)
    requires Links(start, path, goal, parent)
    ensures ValidPath(t, start, path, goal)
    ensures |path| + 1 == cost[goal]
  {
    var w := Ext(start, path, goal);
    for i := 1 to |w|
      invariant forall k :: 0 <= k < i ==> w[k] in cost && cost[w[k]] == k
    {
      assert w[i] in parent && parent[w[i]] == w[i - 1];
    }
    forall i | 0 < i < |w|
      ensures ValidNeighbor(t, w[i - 1], w[i])
    {
      assert w[i] in parent && parent[w[i]] == w[i - 1];
    }
    forall i, j | 0 <= i < j < |path|
      ensures path[i] != path[j]
    {
      assert cost[w[i + 1]] != cost[w[j + 1]];
    }
    forall i | 0 <= i < |path|
      ensures path[i] != start && path[i] != goal
    {
      assert cost[w[i + 1]] == i + 1;
    }
  }

  /** A search-forest cell costs at least its Chebyshev distance from start (the heuristic is admissible). */
  lemma {:induction false} CostAtLeastDistance(t: Terrain, start: Cell, rank: map<Cell, nat>,
                                               parent: map<Cell, Cell>, cost: map<Cell, nat>, c: Cell)
    requires TreeLinks(t, start, rank, parent, cost)
    requires c in cost
    ensures cost[c] >= Chebyshev(start, c)
    decreases cost[c]
  {
    if c != start {
      var p := parent[c];
      CostAtLeastDistance(t, start, rank, parent, cost, p);
      AdjacentIsChebyshevOne(p, c);
      ChebyshevTriangle(start, p, c);
    }
  }

  /** A walk of k moves covers Chebyshev distance at most k. */
  lemma {:induction false} WalkLength(t: Terrain, w: seq<Cell>)
    requires Walk(t, w) && |w| > 0
    ensures Chebyshev(w[0], w[|w| - 1]) <= |w| - 1
  {
    if |w| > 1 {
      var v := w[..|w| - 1];
      assert Walk(t, v);
      WalkLength(t, v);
      AdjacentIsChebyshevOne(w[|w| - 2], w[|w| - 1]);
      ChebyshevTriangle(w[0], w[|w| - 2], w[|w| - 1]);
    }
  }

  /** No plan is shorter than the Chebyshev distance: it holds at least that distance minus one cells. */
  lemma PathAtLeastDistance(t: Terrain, start: Cell, path: seq<Cell>, goal: Cell)
    requires ValidPath(t, start, path, goal)
    ensures |path| + 1 >= Chebyshev(start, goal)
  {
    WalkLength(t, Ext(start, path, goal));
  }

  /**
   * Once every discovered cell has been polled, every cell reachable from
   * start by moves onto free cells has been polled.
   */
  lemma {:induction false} ExhaustedCoversReachable(t: Terrain, start: Cell, goal: Cell, order: seq<Cell>,
                                                    rank: map<Cell, nat>, parent: map<Cell, Cell>,
                                                    cost: map<Cell, nat>, w: seq<Cell>)
    requires SearchForest(t, start, goal, order, rank, parent, cost) && |order| > 0
    requires forall c :: c in cost ==> c in rank
    requires |w| > 0 && w[0] == start && Walk(t, w)
    ensures forall i :: 0 <= i < |w| ==> w[i] in rank
  {
    if |w| > 1 {
      var v := w[..|w| - 1];
      assert Walk(t, v);
      ExhaustedCoversReachable(t, start, goal, order, rank, parent, cost, v);
      var prev := w[|w| - 2];
      assert prev == v[|v| - 1];
      assert ValidNeighbor(t, order[rank[prev]], w[|w| - 1]);
      forall i | 0 <= i < |w|
        ensures w[i] in rank
      {
        if i < |w| - 1 { assert w[i] == v[i]; }
      }
    } else {
      assert order[0] in rank;
    }
  }

  /**
   * "No available path" is only reported when the goal cannot be reached,
   * or when the goal was the last cell polled and left the open list empty.
   */
  lemma NotFoundMeansUnreachable(t: Terrain, start: Cell, goal: Cell, order: seq<Cell>, rank: map<Cell, nat>,
                                 parent: map<Cell, Cell>, cost: map<Cell, nat>, w: seq<Cell>)
    requires SearchOutcome(t, start, goal, NotFound, order, rank, parent, cost)
    requires |w| > 0 && w[0] == start && w[|w| - 1] == goal && Walk(t, w)
    ensures order[|order| - 1] == goal
  {
    ExhaustedCoversReachable(t, start, goal, order, rank, parent, cost, w);
  }

  /**
   * AstarSearch.  Requires start != goal: with equal cells the source
   * dereferences a null cameFrom once a neighbour of start is open.
   */
  method AstarSearch(start: Cell, goal: Cell, xExtent: int, yExtent: int, enemy: Option<Cell>, resources: set<Cell>)
    returns (r: SearchResult, ghost order: seq<Cell>, ghost rank: map<Cell, nat>,
             ghost parent: map<Cell, Cell>, ghost cost: map<Cell, nat>)
    requires start != goal
    ensures SearchOutcome(Terrain(xExtent, yExtent, enemy, resources), start, goal, r, order, rank, parent, cost)
    ensures r.Found? ==> ValidPath(Terrain(xExtent, yExtent, enemy, resources), start, r.path, goal)
    ensures InBounds(Terrain(xExtent, yExtent, enemy, resources), start) ==> |order| <= xExtent * yExtent
  {
    var t := Terrain(xExtent, yExtent, enemy, resources);
    ghost var universe := GridCells(xExtent, yExtent) + {start};
    var done := false;
    var current := start;
    var nextLocs: set<Cell> := {start};
    var closedList: seq<Cell> := [];
    ghost var position: map<Cell, nat> := map[];
    var costOf: map<Cell, nat> := map[start := 0];
    var cameFrom: map<Cell, Cell> := map[];
    while nextLocs != {}
      invariant SearchForest(t, start, goal, closedList, position, cameFrom, costOf)
      invariant OpenList(nextLocs, position, costOf)
      invariant |closedList| > 0 ==> OpenAbove(nextLocs, costOf, closedList[|closedList| - 1], goal)
      invariant |closedList| == 0 ==> nextLocs == {start}
      invariant forall c :: c in costOf ==> c in universe
      invariant done <==> goal in position
      invariant done ==> |closedList| > 0 && closedList[|closedList| - 1] == goal && current == goal
      invariant |closedList| <= |universe|
      decreases |universe| - |closedList|
    {
      if done {
        var returnPath := BacktrackPath(t, start, goal, closedList, position, cameFrom, costOf);
        r, order, rank, parent, cost := Found(returnPath), closedList, position, cameFrom, costOf;
        FoundOutcome(t, start, goal, returnPath, order, rank, parent, cost, nextLocs);
        GridBound(t, start, |order|);
        return;
      }
      LeastNodeExists(nextLocs, costOf, goal);
      current :| current in nextLocs &&
        forall o :: o in nextLocs ==> CompareTo(NodeOf(costOf, current, goal), NodeOf(costOf, o, goal)) <= 0;
      PollKeepsForest(t, start, goal, closedList, position, cameFrom, costOf, nextLocs, current);
      nextLocs := nextLocs - {current};
      position := position[current := |closedList|];
      closedList := closedList + [current];
      nextLocs, costOf, cameFrom := ExpandNeighbors(t, start, goal, closedList, position, cameFrom, costOf, nextLocs, current, universe);
      if current == goal {
        done := true;
      }
      CountPolled(closedList, position, universe);
    }
    r, order, rank, parent, cost := NotFound, closedList, position, cameFrom, costOf;
    ExhaustedOutcome(t, start, goal, order, rank, parent, cost, done);
    GridBound(t, start, |order|);
  }

  /** The goal polled last with the open list not empty: its cameFrom chain is a found path. */
  lemma FoundOutcome(t: Terrain, start: Cell, goal: Cell, path: seq<Cell>, order: seq<Cell>, rank: map<Cell, nat>,
                     parent: map<Cell, Cell>, cost: map<Cell, nat>, open: set<Cell>)
    requires SearchForest(t, start, goal, order, rank, parent, cost)
    requires OpenList(open, rank, cost) && open != {}
    requires |order| > 0 && order[|order| - 1] == goal
    requires OpenAbove(open, cost, goal, goal)
    requires Links(start, path, goal, parent)
    ensures SearchOutcome(t, start, goal, Found(path), order, rank, parent, cost)
  {
    var c :| c in open;
    assert c in cost && c !in rank;
    GoalLeastOpen(open, rank, cost, goal);
  }

  /** The open list has run dry: the search ends with NotFound. */
  lemma ExhaustedOutcome(t: Terrain, start: Cell, goal: Cell, order: seq<Cell>, rank: map<Cell, nat>,
                         parent: map<Cell, Cell>, cost: map<Cell, nat>, done: bool)
    requires SearchForest(t, start, goal, order, rank, parent, cost)
    requires OpenList({}, rank, cost)
    requires |order| == 0 ==> {} == {start}
    requires done <==> goal in rank
    requires done ==> order[|order| - 1] == goal
    ensures SearchOutcome(t, start, goal, NotFound, order, rank, parent, cost)
  {
  }

  /**
   * The loop over getValidNeighbors inside one poll: every valid neighbour
   * of current that is neither closed nor open enters the open list with
   * cost one more than current's and current as its cameFrom.  A cell
   * already open keeps its first cost and cameFrom: the source compares
   * the cost it has just given the fresh copy with that same cost, so the
   * test that would update the open copy always says to skip it.
   */
  method ExpandNeighbors(t: Terrain, ghost start: Cell, goal: Cell, closedList: seq<Cell>, ghost position: map<Cell, nat>,
                         cameFrom: map<Cell, Cell>, costOf: map<Cell, nat>, nextLocs: set<Cell>, current: Cell,
                         ghost universe: set<Cell>)
    returns (nextLocs': set<Cell>, costOf': map<Cell, nat>, cameFrom': map<Cell, Cell>)
    requires Expanding(t, start, goal, closedList, position, cameFrom, costOf, nextLocs, current)
    requires forall c :: c in costOf ==> c in universe
    requires GridCells(t.xExtent, t.yExtent) <= universe
    ensures SearchForest(t, start, goal, closedList, position, cameFrom', costOf')
    ensures OpenList(nextLocs', position, costOf') && OpenAbove(nextLocs', costOf', current, goal)
    ensures forall c :: c in costOf' ==> c in universe
  {
    nextLocs', costOf', cameFrom' := nextLocs, costOf, cameFrom;
    var neighbors := GetValidNeighbors(current, t.xExtent, t.yExtent, t.enemy, t.resources);
    for k := 0 to |neighbors|
      invariant Expanding(t, start, goal, closedList, position, cameFrom', costOf', nextLocs', current)
      invariant forall i :: 0 <= i < k ==> neighbors[i] in costOf'
      invariant forall c :: c in costOf' ==> c in universe
    {
      var neighbor := neighbors[k];
      RankedMembership(closedList, position, neighbor);
      if neighbor !in closedList && neighbor !in nextLocs' {
        DiscoverKeepsForest(t, start, goal, closedList, position, cameFrom', costOf', nextLocs', current, neighbor);
        InBoundsInGrid(t, neighbor);
        nextLocs' := nextLocs' + {neighbor};
        costOf' := costOf'[neighbor := costOf'[current] + 1];
        cameFrom' := cameFrom'[neighbor := current];
      }
    }
    ExpansionDone(t, start, goal, closedList, position, cameFrom', costOf', nextLocs', current);
  }

  /**
   * The backtracking loop run once the goal has been polled: from the
   * goal's cameFrom, push every cell whose cameFrom is set, stopping at
   * start; the last cell pushed, the child of start, is the top.
   */
  method BacktrackPath(ghost t: Terrain, ghost start: Cell, goal: Cell, ghost closedList: seq<Cell>,
                       ghost position: map<Cell, nat>, cameFrom: map<Cell, Cell>, ghost costOf: map<Cell, nat>)
    returns (returnPath: seq<Cell>)
    requires TreeLinks(t, start, position, cameFrom, costOf)
    requires goal in position && goal != start
    ensures Links(start, returnPath, goal, cameFrom)
    ensures ValidPath(t, start, returnPath, goal)
  {
    var cur := cameFrom[goal];
    returnPath := [];
    while cur in cameFrom
      invariant cur in costOf
      invariant Links(cur, returnPath, goal, cameFrom)
      decreases costOf[cur]
    {
      LinksExtend(cur, returnPath, goal, cameFrom);
      returnPath := [cur] + returnPath;
      cur := cameFrom[cur];
    }
    LinksGiveValidPath(t, start, goal, returnPath, position, cameFrom, costOf);
  }

  /** Pushing first onto a linked path extends the chain to first's cameFrom. */
  lemma LinksExtend(first: Cell, path: seq<Cell>, goal: Cell, parent: map<Cell, Cell>)
    requires Links(first, path, goal, parent) && first in parent
    ensures Links(parent[first], [first] + path, goal, parent)
  {
    var w, w' := Ext(first, path, goal), Ext(parent[first], [first] + path, goal);
    forall i | 1 < i < |w'|
      ensures w'[i] == w[i - 1]
    {
    }
  }

  /** The map's cells plus start number xExtent * yExtent when start lies on the map. */
  lemma GridBound(t: Terrain, start: Cell, n: int)
    requires n <= |GridCells(t.xExtent, t.yExtent) + {start}|
    ensures InBounds(t, start) ==> n <= t.xExtent * t.yExtent
  {
    if InBounds(t, start) {
      InBoundsInGrid(t, start);
      assert GridCells(t.xExtent, t.yExtent) + {start} == GridCells(t.xExtent, t.yExtent);
      GridSize(t.xExtent, t.yExtent);
    }
  }

  /** Each cell is polled at most once, so no more cells are polled than can be discovered. */
  lemma CountPolled(order: seq<Cell>, rank: map<Cell, nat>, universe: set<Cell>)
    requires Ranked(order, rank)
    requires forall c :: c in rank ==> c in universe
    ensures |order| <= |universe|
  {
    forall i, j | 0 <= i < j < |order|
      ensures order[i] != order[j]
    {
      assert rank[order[i]] != rank[order[j]];
    }
    forall i | 0 <= i < |order|
      ensures order[i] in universe
    {
      assert order[i] in rank;
    }
    DistinctBound(order, universe);
  }

  lemma RankedMembership(order: seq<Cell>, rank: map<Cell, nat>, c: Cell)
    requires Ranked(order, rank)
    ensures c in order <==> c in rank
  {
    if c in order {
      var i :| 0 <= i < |order| && order[i] == c;
    }
  }

  /** The open list holds exactly the discovered cells not yet polled. */
  ghost predicate OpenList(open: set<Cell>, rank: map<Cell, nat>, cost: map<Cell, nat>)
  {
    forall c :: c in open <==> c in cost && c !in rank
  }

  /** No open cell has a smaller priority than c. */
  ghost predicate OpenAbove(open: set<Cell>, cost: map<Cell, nat>, c: Cell, goal: Cell)
  {
    forall o :: o in open ==> Priority(cost, c, goal) <= Priority(cost, o, goal)
  }

  /** With the goal polled last, no open cell has a smaller priority than the goal. */
  lemma GoalLeastOpen(open: set<Cell>, rank: map<Cell, nat>, cost: map<Cell, nat>, goal: Cell)
    requires OpenList(open, rank, cost) && OpenAbove(open, cost, goal, goal)
    ensures GoalLeast(goal, rank, cost)
  {
  }

  /** The search forest while the neighbours of current, the last cell polled, are being added. */
  ghost predicate Expanding(t: Terrain, start: Cell, goal: Cell, order: seq<Cell>, rank: map<Cell, nat>,
                            parent: map<Cell, Cell>, cost: map<Cell, nat>, open: set<Cell>, current: Cell)
  {
    && |order| > 0 && order[|order| - 1] == current
    && TreeLinks(t, start, rank, parent, cost)
    && Explored(start, order, rank, parent)
    && FirstDiscovered(t, order, rank, parent)
    && Expanded(t, order, |order| - 1, cost)
    && PollOrder(goal, order, cost)
    && OpenList(open, rank, cost)
    && OpenAbove(open, cost, current, goal)
  }

  /** Polling a least-priority open cell starts its expansion. */
  lemma PollKeepsForest(t: Terrain, start: Cell, goal: Cell, order: seq<Cell>, rank: map<Cell, nat>,
                        parent: map<Cell, Cell>, cost: map<Cell, nat>, open: set<Cell>, current: Cell)
    requires SearchForest(t, start, goal, order, rank, parent, cost)
    requires OpenList(open, rank, cost)
    requires |order| > 0 ==> OpenAbove(open, cost, order[|order| - 1], goal)
    requires |order| == 0 ==> open == {start}
    requires current in open
    requires forall o :: o in open ==> CompareTo(NodeOf(cost, current, goal), NodeOf(cost, o, goal)) <= 0
    ensures Expanding(t, start, goal, order + [current], rank[current := |order|], parent, cost, open - {current}, current)
  {
    var order', rank' := order + [current], rank[current := |order|];
    PollKeepsExplored(t, start, order, rank, parent, cost, open, current);
    PollKeepsFirst(t, order, rank, parent, current);
    PollKeepsExpanded(t, order, cost, current);
    PollKeepsOrder(goal, order, cost, open, current);
    assert OpenList(open - {current}, rank', cost);
    LeastIsBelow(open, cost, current, goal);
  }

  lemma PollKeepsExplored(t: Terrain, start: Cell, order: seq<Cell>, rank: map<Cell, nat>, parent: map<Cell, Cell>,
                          cost: map<Cell, nat>, open: set<Cell>, current: Cell)
    requires TreeLinks(t, start, rank, parent, cost)
    requires Explored(start, order, rank, parent)
    requires OpenList(open, rank, cost)
    requires |order| == 0 ==> open == {start}
    requires current in open
    ensures TreeLinks(t, start, rank[current := |order|], parent, cost)
    ensures Explored(start, order + [current], rank[current := |order|], parent)
  {
    var order', rank' := order + [current], rank[current := |order|];
    assert current !in rank;
    forall i | 0 <= i < |order'|
      ensures order'[i] in rank' && rank'[order'[i]] == i
    {
      if i < |order| {
        assert order'[i] == order[i] && order[i] in rank;
      }
    }
    forall c | c in rank'
      ensures rank'[c] < |order'| && order'[rank'[c]] == c
    {
      if c != current {
        assert order'[rank[c]] == order[rank[c]];
      }
    }
    if |order| > 0 {
      assert order[0] in rank;
    }
  }

  lemma PollKeepsFirst(t: Terrain, order: seq<Cell>, rank: map<Cell, nat>, parent: map<Cell, Cell>, current: Cell)
    requires FirstDiscovered(t, order, rank, parent)
    requires Ranked(order, rank) && current !in rank
    requires forall c :: c in parent ==> parent[c] in rank
    ensures FirstDiscovered(t, order + [current], rank[current := |order|], parent)
  {
    var order', rank' := order + [current], rank[current := |order|];
    forall c, j | c in parent && 0 <= j < |order'| && ValidNeighbor(t, order'[j], c)
      ensures parent[c] in rank' && rank'[parent[c]] <= j
    {
      if j < |order| {
        assert order'[j] == order[j];
      }
    }
  }

  lemma PollKeepsExpanded(t: Terrain, order: seq<Cell>, cost: map<Cell, nat>, current: Cell)
    requires Expanded(t, order, |order|, cost)
    ensures Expanded(t, order + [current], |order|, cost)
  {
    var order' := order + [current];
    forall j, n | 0 <= j < |order| && j < |order'| && ValidNeighbor(t, order'[j], n)
      ensures n in cost
    {
      assert order'[j] == order[j];
    }
  }

  lemma PollKeepsOrder(goal: Cell, order: seq<Cell>, cost: map<Cell, nat>, open: set<Cell>, current: Cell)
    requires PollOrder(goal, order, cost)
    requires |order| > 0 ==> OpenAbove(open, cost, order[|order| - 1], goal)
    requires current in open
    ensures PollOrder(goal, order + [current], cost)
  {
    var order' := order + [current];
    forall i, j | 0 <= i < j < |order'|
      ensures Priority(cost, order'[i], goal) <= Priority(cost, order'[j], goal)
    {
      if j < |order| {
        assert order'[i] == order[i] && order'[j] == order[j];
      } else if i < |order| - 1 {
        assert order'[i] == order[i];
        assert Priority(cost, order[i], goal) <= Priority(cost, order[|order| - 1], goal);
      }
    }
  }

  /** The cell chosen by the poll is below every other open cell. */
  lemma LeastIsBelow(open: set<Cell>, cost: map<Cell, nat>, current: Cell, goal: Cell)
    requires forall o :: o in open ==> CompareTo(NodeOf(cost, current, goal), NodeOf(cost, o, goal)) <= 0
    ensures OpenAbove(open - {current}, cost, current, goal)
  {
    forall o | o in open - {current}
      ensures Priority(cost, current, goal) <= Priority(cost, o, goal)
    {
      var a, b := NodeOf(cost, current, goal), NodeOf(cost, o, goal);
      assert CompareTo(a, b) <= 0;
    }
  }

  /** Discovering a fresh valid neighbour of current keeps the forest. */
  lemma DiscoverKeepsForest(t: Terrain, start: Cell, goal: Cell, order: seq<Cell>, rank: map<Cell, nat>,
                            parent: map<Cell, Cell>, cost: map<Cell, nat>, open: set<Cell>, current: Cell, n: Cell)
    requires Expanding(t, start, goal, order, rank, parent, cost, open, current)
    requires ValidNeighbor(t, current, n) && n !in rank && n !in open
    ensures Expanding(t, start, goal, order, rank, parent[n := current], cost[n := cost[current] + 1], open + {n}, current)
  {
    assert n !in cost;
    assert order[|order| - 1] in rank;
    DiscoverKeepsTree(t, start, rank, parent, cost, current, n);
    DiscoverKeepsFirst(t, order, rank, parent, cost, current, n);
    ChebyshevConsistent(current, n, goal);
    DiscoverKeepsOrder(goal, order, rank, cost, open, current, n);
  }

  lemma DiscoverKeepsTree(t: Terrain, start: Cell, rank: map<Cell, nat>, parent: map<Cell, Cell>,
                          cost: map<Cell, nat>, current: Cell, n: Cell)
    requires TreeLinks(t, start, rank, parent, cost)
    requires current in rank && ValidNeighbor(t, current, n) && n !in cost
    ensures TreeLinks(t, start, rank, parent[n := current], cost[n := cost[current] + 1])
  {
    var parent', cost' := parent[n := current], cost[n := cost[current] + 1];
    forall c | c in parent'
      ensures parent'[c] in rank && parent'[c] in cost' && ValidNeighbor(t, parent'[c], c)
      ensures cost'[c] == cost'[parent'[c]] + 1
    {
      if c != n {
        assert parent'[c] == parent[c] && parent[c] in cost && cost'[c] == cost[c];
        assert parent[c] != n;
      }
    }
  }

  lemma DiscoverKeepsFirst(t: Terrain, order: seq<Cell>, rank: map<Cell, nat>, parent: map<Cell, Cell>,
                           cost: map<Cell, nat>, current: Cell, n: Cell)
    requires FirstDiscovered(t, order, rank, parent)
    requires Ranked(order, rank)
    requires |order| > 0 && order[|order| - 1] == current
    requires Expanded(t, order, |order| - 1, cost)
    requires n !in cost
    ensures FirstDiscovered(t, order, rank, parent[n := current])
  {
    assert current in rank && rank[current] == |order| - 1;
  }

  lemma DiscoverKeepsOrder(goal: Cell, order: seq<Cell>, rank: map<Cell, nat>, cost: map<Cell, nat>,
                           open: set<Cell>, current: Cell, n: Cell)
    requires PollOrder(goal, order, cost)
    requires forall i :: 0 <= i < |order| ==> order[i] in cost
    requires OpenList(open, rank, cost)
    requires OpenAbove(open, cost, current, goal)
    requires current in cost && n !in cost && n !in rank
    requires Chebyshev(current, goal) <= Chebyshev(n, goal) + 1
    ensures PollOrder(goal, order, cost[n := cost[current] + 1])
    ensures OpenList(open + {n}, rank, cost[n := cost[current] + 1])
    ensures OpenAbove(open + {n}, cost[n := cost[current] + 1], current, goal)
  {
    var cost' := cost[n := cost[current] + 1];
    forall c | c in cost
      ensures Priority(cost', c, goal) == Priority(cost, c, goal)
    {
    }
  }

  /** Once every valid neighbour of current is discovered, the forest invariant is whole again. */
  lemma ExpansionDone(t: Terrain, start: Cell, goal: Cell, order: seq<Cell>, rank: map<Cell, nat>,
                      parent: map<Cell, Cell>, cost: map<Cell, nat>, open: set<Cell>, current: Cell)
    requires Expanding(t, start, goal, order, rank, parent, cost, open, current)
    requires forall n :: ValidNeighbor(t, current, n) ==> n in cost
    ensures SearchForest(t, start, goal, order, rank, parent, cost)
  {
  }

  /** Every discovered cell other than start is a free cell of the map. */
  lemma DiscoveredIsFree(t: Terrain, start: Cell, rank: map<Cell, nat>, parent: map<Cell, Cell>,
                         cost: map<Cell, nat>, c: Cell)
    requires TreeLinks(t, start, rank, parent, cost)
    requires c in cost && c != start
    ensures c in parent && Free(t, c)
  {
  }

  /**
   * On a three-cell corridor the goal at its far end is reachable, yet the
   * search reports that there is no path: the goal is polled last, its
   * expansion leaves the open list empty, and the loop ends before the
   * done flag is looked at.
   */
  lemma CorridorReportsNoPath(r: SearchResult, order: seq<Cell>, rank: map<Cell, nat>,
                              parent: map<Cell, Cell>, cost: map<Cell, nat>)
    requires SearchOutcome(Terrain(3, 1, None, {}), Cell(0, 0), Cell(2, 0), r, order, rank, parent, cost)
    ensures Walk(Terrain(3, 1, None, {}), [Cell(0, 0), Cell(1, 0), Cell(2, 0)])
    ensures r == NotFound
  {
    var t, start, goal := Terrain(3, 1, None, {}), Cell(0, 0), Cell(2, 0);
    if r.Found? {
      assert order[0] == start && order[0] in rank;
      assert order[|order| - 1] in rank;
      CorridorAllPolled(rank, parent, cost);
      assert false;
    }
  }

  /** On the corridor, once start and goal are polled so is every discovered cell. */
  lemma CorridorAllPolled(rank: map<Cell, nat>, parent: map<Cell, Cell>, cost: map<Cell, nat>)
    requires TreeLinks(Terrain(3, 1, None, {}), Cell(0, 0), rank, parent, cost)
    requires Cell(0, 0) in rank && Cell(2, 0) in rank
    ensures forall c :: c in cost ==> c in rank
  {
    var t, start, goal := Terrain(3, 1, None, {}), Cell(0, 0), Cell(2, 0);
    DiscoveredIsFree(t, start, rank, parent, cost, goal);
    var p := parent[goal];
    DiscoveredIsFree(t, start, rank, parent, cost, p);
    assert p == Cell(1, 0);
    forall c | c in cost
      ensures c in rank
    {
      if c != start {
        DiscoveredIsFree(t, start, rank, parent, cost, c);
        assert c == Cell(1, 0) || c == goal;
      }
    }
  }

  /**
   * What the search establishes once the goal test no longer depends on the
   * open list: a path whenever the goal is polled (a least open cell), NotFound only when the
   * open list ran dry without the goal ever being polled.
   */
  ghost predicate CorrectedOutcome(t: Terrain, start: Cell, goal: Cell, r: SearchResult, order: seq<Cell>,
                                   rank: map<Cell, nat>, parent: map<Cell, Cell>, cost: map<Cell, nat>)
  {
    && SearchForest(t, start, goal, order, rank, parent, cost)
    && |order| > 0
    && (r.Found? ==>
          && order[|order| - 1] == goal
          && GoalLeast(goal, rank, cost)
          && Links(start, r.path, goal, parent))
    && (r.NotFound? ==> (forall c :: c in cost ==> c in rank) && goal !in rank)
  }

  /**
   * AstarSearch with the goal test made right after the goal's expansion
   * instead of at the head of the next iteration, so that emptying the
   * open list while expanding the goal still yields the path.
   */
  method AstarSearchCorrected(start: Cell, goal: Cell, xExtent: int, yExtent: int, enemy: Option<Cell>, resources: set<Cell>)
    returns (r: SearchResult, ghost order: seq<Cell>, ghost rank: map<Cell, nat>,
             ghost parent: map<Cell, Cell>, ghost cost: map<Cell, nat>)
    requires start != goal
    ensures CorrectedOutcome(Terrain(xExtent, yExtent, enemy, resources), start, goal, r, order, rank, parent, cost)
    ensures r.Found? ==> ValidPath(Terrain(xExtent, yExtent, enemy, resources), start, r.path, goal)
  {
    var t := Terrain(xExtent, yExtent, enemy, resources);
    ghost var universe := GridCells(xExtent, yExtent) + {start};
    var current := start;
    var nextLocs: set<Cell> := {start};
    var closedList: seq<Cell> := [];
    ghost var position: map<Cell, nat> := map[];
    var costOf: map<Cell, nat> := map[start := 0];
    var cameFrom: map<Cell, Cell> := map[];
    while nextLocs != {}
      invariant SearchForest(t, start, goal, closedList, position, cameFrom, costOf)
      invariant OpenList(nextLocs, position, costOf)
      invariant |closedList| > 0 ==> OpenAbove(nextLocs, costOf, closedList[|closedList| - 1], goal)
      invariant |closedList| == 0 ==> nextLocs == {start}
      invariant forall c :: c in costOf ==> c in universe
      invariant goal !in position
      invariant |closedList| <= |universe|
      decreases |universe| - |closedList|
    {
      LeastNodeExists(nextLocs, costOf, goal);
      current :| current in nextLocs &&
        forall o :: o in nextLocs ==> CompareTo(NodeOf(costOf, current, goal), NodeOf(costOf, o, goal)) <= 0;
      PollKeepsForest(t, start, goal, closedList, position, cameFrom, costOf, nextLocs, current);
      nextLocs := nextLocs - {current};
      position := position[current := |closedList|];
      closedList := closedList + [current];
      nextLocs, costOf, cameFrom := ExpandNeighbors(t, start, goal, closedList, position, cameFrom, costOf, nextLocs, current, universe);
      if current == goal {
        GoalLeastOpen(nextLocs, position, costOf, goal);
        var returnPath := BacktrackPath(t, start, goal, closedList, position, cameFrom, costOf);
        return Found(returnPath), closedList, position, cameFrom, costOf;
      }
      CountPolled(closedList, position, universe);
    }
    r, order, rank, parent, cost := NotFound, closedList, position, cameFrom, costOf;
  }

  /** With the corrected goal test, NotFound is reported only when no walk leads from start to goal. */
  lemma CorrectedNotFoundMeansUnreachable(t: Terrain, start: Cell, goal: Cell, r: SearchResult, order: seq<Cell>,
                                          rank: map<Cell, nat>, parent: map<Cell, Cell>, cost: map<Cell, nat>,
                                          w: seq<Cell>)
    requires CorrectedOutcome(t, start, goal, r, order, rank, parent, cost)
    requires |w| > 0 && w[0] == start && w[|w| - 1] == goal && Walk(t, w)
    ensures r.Found?
  {
    if r.NotFound? {
      ExhaustedCoversReachable(t, start, goal, order, rank, parent, cost, w);
    }
  }
}
