/**
 * The turn-by-turn controller of AstarAgent: the planned path is a stack of
 * waypoints (index 0 is the top), nextLoc is the waypoint being walked to.
 * Each turn may replan, pops the next waypoint once the current one is
 * reached, and then issues a primitive move towards the waypoint or, with
 * no waypoint left to walk to, attacks the townhall.
 */
module Controller {
  import opened Grid
  import opened Directions
  import opened Search
  import opened Shortest

  /** What the agent reads from the game state at the start of a turn. */
  datatype World = World(agent: Cell, townhall: Option<Cell>, enemy: Option<Cell>,
                         xExtent: int, yExtent: int, resources: set<Cell>)

  function TerrainOf(w: World): Terrain
  {
    Terrain(w.xExtent, w.yExtent, w.enemy, w.resources)
  }

  /** What a turn produces. */
  datatype Turn =
    | Move(dir: Option<Direction>)  // a primitive move; None is the null direction
    | Attack                        // a primitive attack on the townhall
    | Idle                          // no action: the plan ended out of the townhall's reach
    | TaskEnded                     // the townhall is gone: terminalStep, no action
    | SearchFailed                  // replanning found no path: the program exits
    | Aborted                       // initialStep found no townhall and returned null

  /** Some walk of moves onto free cells leads from a to b. */
  ghost predicate Reachable(t: Terrain, a: Cell, b: Cell)
  {
    exists w :: |w| > 0 && w[0] == a && w[|w| - 1] == b && Walk(t, w)
  }

  /** plan is the stack that some run of the corrected search from the footman to the townhall returns. */
  ghost predicate SearchedPlan(w: World, plan: seq<Cell>)
    requires w.townhall.Some?
  {
    exists order, rank, parent, cost :: CorrectedOutcome(TerrainOf(w), w.agent, w.townhall.value, Found(plan), order, rank, parent, cost)
  }

  /** No resources and no enemy on the map, and the footman and the townhall on it. */
  ghost predicate ObstacleFree(w: World)
    requires w.townhall.Some?
  {
    w.enemy == None && w.resources == {} && InBounds(TerrainOf(w), w.agent) && InBounds(TerrainOf(w), w.townhall.value)
  }

  /** On a map without obstacles, a searched plan is a shortest one. */
  lemma SearchedPlanShortest(w: World, plan: seq<Cell>)
    requires w.townhall.Some? && SearchedPlan(w, plan) && ObstacleFree(w)
    ensures |plan| + 1 == Chebyshev(w.agent, w.townhall.value)
  {
    var order, rank, parent, cost :| CorrectedOutcome(TerrainOf(w), w.agent, w.townhall.value, Found(plan), order, rank, parent, cost);
    assert TerrainOf(w) == Terrain(w.xExtent, w.yExtent, None, {});
    CorrectedObstacleFreeShortest(w.xExtent, w.yExtent, w.agent, w.townhall.value, Found(plan), order, rank, parent, cost);
  }

  /** shouldReplanPath: replan exactly when there is an enemy footman standing on a cell still on the stack. */
  function ShouldReplan(enemy: Option<Cell>, path: seq<Cell>): (r: bool)
    ensures r <==> exists i :: 0 <= i < |path| && enemy == Some(path[i])
  {
    enemy.Some? && enemy.value in path
  }

  /** The waypoints still to be visited: nextLoc, when set, and then the stack from the top. */
  function Outstanding(path: seq<Cell>, nextLoc: Option<Cell>): seq<Cell>
  {
    (if nextLoc.Some? then [nextLoc.value] else []) + path
  }

  /**
   * The waypoint bookkeeping of middleStep: with waypoints left and no
   * current waypoint, or the current one reached, pop the next one.
   */
  function Advance(path: seq<Cell>, nextLoc: Option<Cell>, agent: Cell): (r: (seq<Cell>, Option<Cell>))
    ensures r.1 == None <==> nextLoc == None && path == []
    ensures path != [] && (nextLoc == None || nextLoc == Some(agent)) ==> r.1 == Some(path[0]) && [path[0]] + r.0 == path
    ensures path == [] || (nextLoc.Some? && nextLoc.value != agent) ==> r == (path, nextLoc)
  {
    if path != [] && (nextLoc == None || nextLoc == Some(agent)) then (path[1..], Some(path[0])) else (path, nextLoc)
  }

  /** Advancing drops the reached waypoint from the outstanding ones and otherwise keeps them all, in order. */
  lemma AdvanceKeepsOutstanding(path: seq<Cell>, nextLoc: Option<Cell>, agent: Cell)
    ensures nextLoc == Some(agent) && path != [] ==>
      Outstanding(Advance(path, nextLoc, agent).0, Advance(path, nextLoc, agent).1) == Outstanding(path, nextLoc)[1..]
    ensures nextLoc != Some(agent) || path == [] ==>
      Outstanding(Advance(path, nextLoc, agent).0, Advance(path, nextLoc, agent).1) == Outstanding(path, nextLoc)
  {
  }

  /**
   * The action part of middleStep: move towards an unreached waypoint;
   * otherwise end the task if the townhall is gone, stay idle if it is out
   * of reach, and attack it if it is within one cell.
   */
  function Act(nextLoc: Option<Cell>, agent: Cell, townhall: Option<Cell>): (t: Turn)
    ensures t.Move? <==> nextLoc.Some? && nextLoc.value != agent
    ensures t.Move? ==> (t.dir.Some? <==> Adjacent(agent, nextLoc.value))
    ensures t.Move? && t.dir.Some? ==> Shift(agent, t.dir.value) == nextLoc.value
    ensures t == TaskEnded <==> !t.Move? && townhall == None
    ensures t == Attack <==> !t.Move? && townhall.Some? && Chebyshev(agent, townhall.value) <= 1
    ensures t == Idle <==> !t.Move? && townhall.Some? && Chebyshev(agent, townhall.value) > 1
  {
    if nextLoc.Some? && nextLoc.value != agent then
      Move(NextDirection(nextLoc.value.x - agent.x, nextLoc.value.y - agent.y))
    else if townhall == None then
      TaskEnded
    else if Abs(agent.x - townhall.value.x) > 1 || Abs(agent.y - townhall.value.y) > 1 then
      Idle
    else
      Attack
  }

  /** A freshly planned path avoids the enemy's cell, so it does not trigger a replan by itself. */
  lemma FreshPlanAvoidsEnemy(t: Terrain, start: Cell, path: seq<Cell>, goal: Cell)
    requires ValidPath(t, start, path, goal)
    ensures !ShouldReplan(t.enemy, path)
  {
    var w := Ext(start, path, goal);
    forall i | 0 <= i < |path|
      ensures t.enemy != Some(path[i])
    {
      assert ValidNeighbor(t, w[i], w[i + 1]);
    }
  }

  /**
   * The turns taken from a controller state when every move lands where it
   * points and nothing triggers a replan.
   */
  function Execute(path: seq<Cell>, nextLoc: Option<Cell>, agent: Cell, townhall: Option<Cell>, turns: nat): (r: seq<Turn>)
    ensures |r| == turns
    decreases turns
  {
    if turns == 0 then []
    else
      var (path', nextLoc') := Advance(path, nextLoc, agent);
      var turn := Act(nextLoc', agent, townhall);
      var agent' := if turn.Move? && turn.dir.Some? then Shift(agent, turn.dir.value) else agent;
      [turn] + Execute(path', nextLoc', agent', townhall, turns - 1)
  }

  /** Turn i of turns moves from w[i] onto path[i], for every waypoint of path. */
  ghost predicate MovesAlong(turns: seq<Turn>, w: seq<Cell>, path: seq<Cell>)
  {
    |turns| >= |path| && |w| >= |path| &&
    forall i :: 0 <= i < |path| ==> turns[i].Move? && turns[i].dir.Some? && Shift(w[i], turns[i].dir.value) == path[i]
  }

  /** A move from w[0] onto path[0] followed by moves along the rest of the plan is a move along the plan. */
  lemma MovesAlongCons(turns: seq<Turn>, w: seq<Cell>, path: seq<Cell>)
    requires |turns| > 0 && |w| > 0 && |path| > 0
    requires turns[0].Move? && turns[0].dir.Some? && Shift(w[0], turns[0].dir.value) == path[0]
    requires MovesAlong(turns[1..], w[1..], path[1..])
    ensures MovesAlong(turns, w, path)
  {
    forall i | 0 < i < |path|
      ensures turns[i].Move? && turns[i].dir.Some? && Shift(w[i], turns[i].dir.value) == path[i]
    {
      assert turns[i] == turns[1..][i - 1] && w[i] == w[1..][i - 1] && path[i] == path[1..][i - 1];
    }
  }

  /** With no unreached waypoint and an adjacent cell on top of the stack, a turn pops it and moves onto it. */
  lemma ExecutePops(path: seq<Cell>, nextLoc: Option<Cell>, agent: Cell, townhall: Option<Cell>, turns: nat)
    requires path != [] && (nextLoc == None || nextLoc == Some(agent)) && Adjacent(agent, path[0]) && turns > 0
    ensures Execute(path, nextLoc, agent, townhall, turns)[0].Move?
    ensures Execute(path, nextLoc, agent, townhall, turns)[0].dir.Some?
    ensures Shift(agent, Execute(path, nextLoc, agent, townhall, turns)[0].dir.value) == path[0]
    ensures Execute(path, nextLoc, agent, townhall, turns)[1..] == Execute(path[1..], Some(path[0]), path[0], townhall, turns - 1)
  {
    assert Advance(path, nextLoc, agent) == (path[1..], Some(path[0]));
    StepTowardsAdjacent(agent, path[0]);
  }

  /**
   * Following a plan whose waypoints form a walk to the townhall: one move
   * per waypoint, each onto that waypoint, and then an attack.
   */
  lemma {:induction false} PlanEndsInAttack(t: Terrain, agent: Cell, path: seq<Cell>, nextLoc: Option<Cell>, townhall: Cell)
    requires Walk(t, Ext(agent, path, townhall))
    requires nextLoc == None || nextLoc == Some(agent)
    ensures MovesAlong(Execute(path, nextLoc, agent, Some(townhall), |path| + 1), Ext(agent, path, townhall), path)
    ensures Execute(path, nextLoc, agent, Some(townhall), |path| + 1)[|path|] == Attack
    decreases |path|
  {
    var w := Ext(agent, path, townhall);
    var r := Execute(path, nextLoc, agent, Some(townhall), |path| + 1);
    assert ValidNeighbor(t, w[0], w[1]);
    if path == [] {
      AdjacentIsChebyshevOne(agent, townhall);
      assert r == [Attack];
    } else {
      var p := path[0];
      ExecutePops(path, nextLoc, agent, Some(townhall), |path| + 1);
      var w' := Ext(p, path[1..], townhall);
      assert w' == w[1..];
      assert Walk(t, w');
      PlanEndsInAttack(t, p, path[1..], Some(p), townhall);
      MovesAlongCons(r, w, path);
      assert r[|path|] == r[1..][|path| - 1];
    }
  }

  /** The planning agent: the waypoint stack and the waypoint being walked to. */
  class AstarAgent {
    var path: seq<Cell>
    var nextLoc: Option<Cell>

    constructor ()
      ensures path == [] && nextLoc == None
    {
      path := [];
      nextLoc := None;
    }

    /**
     * findPath followed by the exit on failure: plan from the footman to the
     * townhall with the corrected search.
     */
    static method FindPath(w: World) returns (plan: Option<seq<Cell>>)
      requires w.townhall.Some? && w.townhall.value != w.agent
      ensures plan.Some? ==> ValidPath(TerrainOf(w), w.agent, plan.value, w.townhall.value) && SearchedPlan(w, plan.value)
      ensures plan.Some? && ObstacleFree(w) ==> |plan.value| + 1 == Chebyshev(w.agent, w.townhall.value)
      ensures plan == None ==> !Reachable(TerrainOf(w), w.agent, w.townhall.value)
    {
      var r, order, rank, parent, cost := AstarSearchCorrected(w.agent, w.townhall.value, w.xExtent, w.yExtent, w.enemy, w.resources);
      if r.Found? {
        plan := Some(r.path);
        assert CorrectedOutcome(TerrainOf(w), w.agent, w.townhall.value, Found(r.path), order, rank, parent, cost);
        if ObstacleFree(w) {
          SearchedPlanShortest(w, r.path);
        }
      } else {
        plan := None;
        if Reachable(TerrainOf(w), w.agent, w.townhall.value) {
          var walk :| |walk| > 0 && walk[0] == w.agent && walk[|walk| - 1] == w.townhall.value && Walk(TerrainOf(w), walk);
          CorrectedNotFoundMeansUnreachable(TerrainOf(w), w.agent, w.townhall.value, r, order, rank, parent, cost, walk);
          assert false;
        }
      }
    }

    /**
     * middleStep: replan when the enemy stands on the stack, advance to the
     * next waypoint, then act.  Replanning needs the townhall, as findPath
     * reads its position.
     */
    method Step(w: World) returns (turn: Turn, ghost plan: seq<Cell>)
      modifies this
      requires ShouldReplan(w.enemy, path) ==> w.townhall.Some? && w.townhall.value != w.agent
      ensures !ShouldReplan(w.enemy, old(path)) ==> plan == old(path)
      ensures turn == SearchFailed ==>
        && ShouldReplan(w.enemy, old(path))
        && !Reachable(TerrainOf(w), w.agent, w.townhall.value)
        && path == old(path) && nextLoc == old(nextLoc)
      ensures turn != SearchFailed && ShouldReplan(w.enemy, old(path)) ==>
        && ValidPath(TerrainOf(w), w.agent, plan, w.townhall.value)
        && SearchedPlan(w, plan)
        && !ShouldReplan(w.enemy, plan)
      ensures turn != SearchFailed ==>
        && (path, nextLoc) == Advance(plan, old(nextLoc), w.agent)
        && turn == Act(nextLoc, w.agent, w.townhall)
    {
      var planned := path;
      if ShouldReplan(w.enemy, path) {
        var found := FindPath(w);
        if found == None {
          return SearchFailed, planned;
        }
        planned := found.value;
        FreshPlanAvoidsEnemy(TerrainOf(w), w.agent, planned, w.townhall.value);
      }
      plan := planned;
      path, nextLoc := Advance(planned, nextLoc, w.agent).0, Advance(planned, nextLoc, w.agent).1;
      turn := Act(nextLoc, w.agent, w.townhall);
    }

    /**
     * initialStep: give up without a townhall; otherwise plan a path to it
     * and play the first turn.
     */
    method InitialStep(w: World) returns (turn: Turn, ghost plan: seq<Cell>)
      modifies this
      requires w.townhall.Some? ==> w.townhall.value != w.agent
      ensures w.townhall == None ==> turn == Aborted && path == old(path) && nextLoc == old(nextLoc)
      ensures turn == SearchFailed ==>
        w.townhall.Some? && !Reachable(TerrainOf(w), w.agent, w.townhall.value) && path == old(path) && nextLoc == old(nextLoc)
      ensures turn != Aborted && turn != SearchFailed ==>
        && w.townhall.Some?
        && ValidPath(TerrainOf(w), w.agent, plan, w.townhall.value)
        && SearchedPlan(w, plan)
        && (ObstacleFree(w) ==> |plan| + 1 == Chebyshev(w.agent, w.townhall.value))
        && (path, nextLoc) == Advance(plan, old(nextLoc), w.agent)
        && turn == Act(nextLoc, w.agent, w.townhall)
    {
      plan := [];
      if w.townhall == None {
        return Aborted, plan;
      }
      var found := FindPath(w);
      if found == None {
        return SearchFailed, plan;
      }
      path := found.value;
      plan := found.value;
      FreshPlanAvoidsEnemy(TerrainOf(w), w.agent, plan, w.townhall.value);
      ghost var stepPlan;
      turn, stepPlan := Step(w);
    }
  }
}
