/**
 * The worked example documented with AstarAgent.AstarSearch:
 *
 *   F - - - -
 *   x x x - x
 *   H - - - -
 *
 * footman F at (0,0), townhall H at (0,2), resources x at (0,1), (1,1),
 * (2,1) and (4,1), no enemy.  Whatever order the open list breaks ties
 * in, the search returns the stack (1,0), (2,0), (3,1), (2,2), (1,2).
 */
module Scenarios {
  import opened Grid
  import opened Search

  const Example := Terrain(5, 3, None, {Cell(0, 1), Cell(1, 1), Cell(2, 1), Cell(4, 1)})
  const S := Cell(0, 0)  // the footman
  const H := Cell(0, 2)  // the townhall
  const A := Cell(1, 0)
  const B := Cell(2, 0)
  const C := Cell(3, 0)
  const D := Cell(4, 0)
  const M := Cell(3, 1)
  const P := Cell(2, 2)
  const Q := Cell(3, 2)
  const U := Cell(4, 2)
  const V := Cell(1, 2)

  /** The cells next to c that the footman may stand on (or start from). */
  function Candidates(c: Cell): set<Cell>
  {
    if c == H then {V}
    else if c == V then {P, H}
    else if c == P then {M, Q, V}
    else if c == Q then {M, P, U}
    else if c == U then {M, Q}
    else if c == M then {B, C, D, P, Q, U}
    else if c == D then {C, M}
    else if c == C then {B, D, M}
    else if c == B then {A, C, M}
    else if c == A then {S, B}
    else {}
  }

  /** Enumerates the free cells (and the footman's) around each cell of the example. */
  lemma AroundUpper(p: Cell, c: Cell)
    requires Adjacent(p, c) && (p == S || Free(Example, p))
    requires c in {H, V, P, Q, U}
    ensures p in Candidates(c)
  {
  }

  lemma AroundLower(p: Cell, c: Cell)
    requires Adjacent(p, c) && (p == S || Free(Example, p))
    requires c in {M, D, C, B, A}
    ensures p in Candidates(c)
  {
  }

  /** c, when polled and not the footman's cell, was discovered from an earlier-polled candidate. */
  ghost predicate Discovered(rank: map<Cell, nat>, parent: map<Cell, Cell>, c: Cell)
  {
    c in rank && c != S ==>
      c in parent && parent[c] in rank && rank[parent[c]] < rank[c] && parent[c] in Candidates(c)
  }

  /** c's parent was polled no later than its neighbour n. */
  ghost predicate FirstFrom(rank: map<Cell, nat>, parent: map<Cell, Cell>, c: Cell, n: Cell)
  {
    c in parent && n in rank && parent[c] in rank ==> rank[parent[c]] <= rank[n]
  }

  /** The quantifier-free facts about the example's search forest that the case analysis uses. */
  ghost predicate Facts(rank: map<Cell, nat>, parent: map<Cell, Cell>)
  {
    && S !in parent
    && Discovered(rank, parent, H) && Discovered(rank, parent, V) && Discovered(rank, parent, P)
    && Discovered(rank, parent, Q) && Discovered(rank, parent, U) && Discovered(rank, parent, M)
    && Discovered(rank, parent, D) && Discovered(rank, parent, C) && Discovered(rank, parent, B)
    && Discovered(rank, parent, A)
    && FirstFrom(rank, parent, P, M) && FirstFrom(rank, parent, M, B)
  }

  /**
   * A polled cell other than the footman's was discovered from a cell
   * polled before it, one of its candidates.
   */
  lemma ParentOf(order: seq<Cell>, rank: map<Cell, nat>, parent: map<Cell, Cell>, cost: map<Cell, nat>, c: Cell)
    requires TreeLinks(Example, S, rank, parent, cost) && Explored(S, order, rank, parent)
    requires c in {H, V, P, Q, U, M, D, C, B, A}
    ensures Discovered(rank, parent, c)
  {
    if c in rank {
      var p := parent[c];
      if p != S {
        DiscoveredIsFree(Example, S, rank, parent, cost, p);
      }
      if c in {H, V, P, Q, U} {
        AroundUpper(p, c);
      } else {
        AroundLower(p, c);
      }
    }
  }

  /** A polled neighbour n of c bounds the polling position of c's parent. */
  lemma FirstBelow(order: seq<Cell>, rank: map<Cell, nat>, parent: map<Cell, Cell>, c: Cell, n: Cell)
    requires Ranked(order, rank) && FirstDiscovered(Example, order, rank, parent)
    requires ValidNeighbor(Example, n, c)
    ensures FirstFrom(rank, parent, c, n)
  {
    if c in parent && n in rank {
      assert order[rank[n]] == n;
    }
  }

  lemma ForestFacts(order: seq<Cell>, rank: map<Cell, nat>, parent: map<Cell, Cell>, cost: map<Cell, nat>)
    requires TreeLinks(Example, S, rank, parent, cost) && Explored(S, order, rank, parent)
    requires FirstDiscovered(Example, order, rank, parent)
    ensures Facts(rank, parent)
  {
    ParentOf(order, rank, parent, cost, H);
    ParentOf(order, rank, parent, cost, V);
    ParentOf(order, rank, parent, cost, P);
    ParentOf(order, rank, parent, cost, Q);
    ParentOf(order, rank, parent, cost, U);
    ParentOf(order, rank, parent, cost, M);
    ParentOf(order, rank, parent, cost, D);
    ParentOf(order, rank, parent, cost, C);
    ParentOf(order, rank, parent, cost, B);
    ParentOf(order, rank, parent, cost, A);
    FirstBelow(order, rank, parent, P, M);
    FirstBelow(order, rank, parent, M, B);
  }

  /** The townhall's only free neighbour is (1,2), and (1,2) is reached from (2,2). */
  lemma TopOfChain(rank: map<Cell, nat>, parent: map<Cell, Cell>)
    requires Facts(rank, parent) && H in rank
    ensures parent[H] == V && parent[V] == P && P in rank
  {
  }

  /** (3,2) and (4,2) are polled only after (3,1), whatever discovered them. */
  lemma RightCorner(rank: map<Cell, nat>, parent: map<Cell, Cell>, c: Cell)
    requires Facts(rank, parent) && c in rank && (c == Q || c == U)
    requires P in rank ==> parent[P] == M
    ensures M in rank && rank[M] < rank[c]
  {
  }

  /** (2,2) is discovered from (3,1): reaching it through (3,2) would need (3,1) polled first anyway. */
  lemma MiddleOfChain(rank: map<Cell, nat>, parent: map<Cell, Cell>)
    requires Facts(rank, parent) && V in rank && parent[V] == P
    ensures parent[P] == M && M in rank
  {
  }

  /** (3,1) is discovered from the bottom row, which is entered at (2,0) from (1,0), which is entered from the footman. */
  lemma BottomOfChain(rank: map<Cell, nat>, parent: map<Cell, Cell>)
    requires Facts(rank, parent) && M in rank && P in rank && parent[P] == M
    ensures parent[M] == B && parent[B] == A && parent[A] == S
  {
    if parent[M] == Q || parent[M] == U {
      RightCorner(rank, parent, parent[M]);
    }
  }

  /** Once the townhall is polled its cameFrom chain is (1,2), (2,2), (3,1), (2,0), (1,0), the footman. */
  lemma GoalChain(order: seq<Cell>, rank: map<Cell, nat>, parent: map<Cell, Cell>, cost: map<Cell, nat>)
    requires TreeLinks(Example, S, rank, parent, cost) && Explored(S, order, rank, parent)
    requires FirstDiscovered(Example, order, rank, parent)
    requires H in rank
    ensures parent[H] == V && parent[V] == P && parent[P] == M && parent[M] == B && parent[B] == A && parent[A] == S
    ensures cost[H] == 6 && M in rank
  {
    ForestFacts(order, rank, parent, cost);
    TopOfChain(rank, parent);
    MiddleOfChain(rank, parent);
    BottomOfChain(rank, parent);
  }

  /** The footman can walk to the townhall. */
  lemma ExampleWalk()
    ensures Walk(Example, [S, A, B, M, P, V, H])
    ensures ValidNeighbor(Example, M, U)
  {
  }

  /** The valid neighbours of a polled cell have been discovered. */
  lemma NeighborDiscovered(t: Terrain, order: seq<Cell>, rank: map<Cell, nat>, cost: map<Cell, nat>, c: Cell, n: Cell)
    requires Expanded(t, order, |order|, cost) && Ranked(order, rank)
    requires c in rank && ValidNeighbor(t, c, n)
    ensures n in cost
  {
    assert order[rank[c]] == c;
  }

  /**
   * With the townhall polled last, (4,2) is discovered (from (3,1)) but
   * never polled: its priority is at least 8 against the townhall's 6.
   */
  lemma CornerLeftOpen(order: seq<Cell>, rank: map<Cell, nat>, parent: map<Cell, Cell>, cost: map<Cell, nat>)
    requires SearchForest(Example, S, H, order, rank, parent, cost)
    requires H in rank && rank[H] == |order| - 1
    ensures U in cost && U !in rank
  {
    GoalChain(order, rank, parent, cost);
    ExampleWalk();
    NeighborDiscovered(Example, order, rank, cost, M, U);
    if U in rank {
      PolledBefore(H, order, rank, cost, U, H);
      CostAtLeastDistance(Example, S, rank, parent, cost, U);
    }
  }

  /** The search cannot end without a path. */
  lemma ExampleFinds(r: SearchResult, order: seq<Cell>, rank: map<Cell, nat>, parent: map<Cell, Cell>, cost: map<Cell, nat>)
    requires SearchOutcome(Example, S, H, r, order, rank, parent, cost)
    ensures r.Found?
  {
    if r.NotFound? {
      ExampleWalk();
      NotFoundMeansUnreachable(Example, S, H, order, rank, parent, cost, [S, A, B, M, P, V, H]);
      assert order[|order| - 1] in rank;
      CornerLeftOpen(order, rank, parent, cost);
    }
  }

  /** The only path linked along that chain is the documented one. */
  lemma ChainDeterminesPath(path: seq<Cell>, rank: map<Cell, nat>, parent: map<Cell, Cell>, cost: map<Cell, nat>)
    requires TreeLinks(Example, S, rank, parent, cost) && Links(S, path, H, parent)
    requires H in parent && V in parent && P in parent && M in parent && B in parent && A in parent && H in cost
    requires parent[H] == V && parent[V] == P && parent[P] == M && parent[M] == B && parent[B] == A && parent[A] == S
    requires cost[H] == 6
    ensures path == [A, B, M, P, V]
  {
    LinksGiveValidPath(Example, S, H, path, rank, parent, cost);
    var w := Ext(S, path, H);
    assert w[6] == H && w[5] == parent[w[6]] && w[4] == parent[w[5]] && w[3] == parent[w[4]];
    assert w[2] == parent[w[3]] && w[1] == parent[w[2]];
    assert path == [w[1], w[2], w[3], w[4], w[5]];
  }

  /** The stack the source documents for this map, whatever order ties are broken in. */
  lemma ExampleFindsDocumentedPath(r: SearchResult, order: seq<Cell>, rank: map<Cell, nat>,
                                   parent: map<Cell, Cell>, cost: map<Cell, nat>)
    requires SearchOutcome(Example, S, H, r, order, rank, parent, cost)
    ensures r == Found([A, B, M, P, V])
  {
    ExampleFinds(r, order, rank, parent, cost);
    assert order[|order| - 1] in rank;
    GoalChain(order, rank, parent, cost);
    ChainDeterminesPath(r.path, rank, parent, cost);
  }
}
