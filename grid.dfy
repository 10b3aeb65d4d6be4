/**
 * Grid geometry used by the A* agent: cells, map bounds and obstacles,
 * the Chebyshev heuristic, 8-directional adjacency, the neighbour filter
 * and the search-node ordering of MapLocation.
 *
 * Coordinates are screen-style: x grows to the right, y grows downward.
 */
module Grid {

  datatype Option<T> = None | Some(value: T)

  /** A map location; equality is coordinate equality, as in MapLocation.equals. */
  datatype Cell = Cell(x: int, y: int)

  /**
   * What the planner knows about the world: the map extent, the cells
   * occupied by resources, and the enemy footman's cell when there is one.
   */
  datatype Terrain = Terrain(xExtent: int, yExtent: int, enemy: Option<Cell>, resources: set<Cell>)

  function Abs(n: int): (r: nat)
    ensures r == n || r == -n
  {
    if n < 0 then -n else n
  }

  /** Chebyshev distance: the number of king moves between two cells on an empty board. */
  function Chebyshev(a: Cell, b: Cell): (r: nat)
    ensures Abs(a.x - b.x) <= r && Abs(a.y - b.y) <= r
    ensures r == Abs(a.x - b.x) || r == Abs(a.y - b.y)
    ensures r == 0 <==> a == b
  {
    if Abs(a.x - b.x) < Abs(a.y - b.y) then Abs(a.y - b.y) else Abs(a.x - b.x)
  }

  /** One of the eight king moves leads from a to b. */
  predicate Adjacent(a: Cell, b: Cell)
  {
    -1 <= b.x - a.x <= 1 && -1 <= b.y - a.y <= 1 && a != b
  }

  predicate InBounds(t: Terrain, c: Cell)
  {
    0 <= c.x < t.xExtent && 0 <= c.y < t.yExtent
  }

  /** A cell the footman may step on: on the map, no resource there, not the enemy's cell. */
  predicate Free(t: Terrain, c: Cell)
  {
    InBounds(t, c) && c !in t.resources && t.enemy != Some(c)
  }

  /** n is one of the cells getValidNeighbors reports for c. */
  predicate ValidNeighbor(t: Terrain, c: Cell, n: Cell)
  {
    Adjacent(c, n) && Free(t, n)
  }

  predicate Distinct(s: seq<Cell>)
  {
    forall i, j :: 0 <= i < j < |s| ==> s[i] != s[j]
  }

  /** All cells of an xExtent-by-yExtent map. */
  function GridCells(xExtent: int, yExtent: int): set<Cell>
  {
    set x, y | 0 <= x < xExtent && 0 <= y < yExtent :: Cell(x, y)
  }

  function Row(xExtent: int, y: int): set<Cell>
  {
    set x | 0 <= x < xExtent :: Cell(x, y)
  }

  /** The eight cells around c. */
  function Ring(c: Cell): set<Cell>
  {
    {Cell(c.x - 1, c.y - 1), Cell(c.x - 1, c.y), Cell(c.x - 1, c.y + 1),
     Cell(c.x, c.y - 1), Cell(c.x, c.y + 1),
     Cell(c.x + 1, c.y - 1), Cell(c.x + 1, c.y), Cell(c.x + 1, c.y + 1)}
  }

  lemma InBoundsInGrid(t: Terrain, c: Cell)
    requires InBounds(t, c)
    ensures c in GridCells(t.xExtent, t.yExtent)
  {
    assert c == Cell(c.x, c.y);
  }

  lemma {:induction false} RowSize(xExtent: nat, y: int)
    ensures |Row(xExtent, y)| == xExtent
  {
    if xExtent > 0 {
      RowSize(xExtent - 1, y);
      forall c | c in Row(xExtent, y)
        ensures c in Row(xExtent - 1, y) + {Cell(xExtent - 1, y)}
      {
        assert c == Cell(c.x, y);
      }
      assert Row(xExtent, y) == Row(xExtent - 1, y) + {Cell(xExtent - 1, y)};
    } else {
      assert Row(xExtent, y) == {};
    }
  }

  /** A map has exactly xExtent * yExtent cells. */
  lemma {:induction false} GridSize(xExtent: nat, yExtent: nat)
    ensures |GridCells(xExtent, yExtent)| == xExtent * yExtent
  {
    if yExtent > 0 {
      var below, row := GridCells(xExtent, yExtent - 1), Row(xExtent, yExtent - 1);
      GridSize(xExtent, yExtent - 1);
      RowSize(xExtent, yExtent - 1);
      forall c | c in GridCells(xExtent, yExtent)
        ensures c in below + row
      {
        if c.y < yExtent - 1 { assert c == Cell(c.x, c.y); } else { assert c == Cell(c.x, yExtent - 1); }
      }
      forall c | c in below + row
        ensures c in GridCells(xExtent, yExtent)
      {
        assert c == Cell(c.x, c.y);
      }
      assert GridCells(xExtent, yExtent) == below + row;
      assert below !! row;
      assert |below + row| == |below| + |row|;
      assert xExtent * yExtent == xExtent * (yExtent - 1) + xExtent;
    } else {
      assert GridCells(xExtent, yExtent) == {};
    }
  }

  lemma RingSize(c: Cell)
    ensures |Ring(c)| == 8
  {
  }

  lemma AdjacentInRing(a: Cell, b: Cell)
    requires Adjacent(a, b)
    ensures b in Ring(a)
  {
  }

  /** The cells of a sequence without duplicates, all drawn from u, are at most |u| many. */
  lemma {:induction false} DistinctBound(s: seq<Cell>, u: set<Cell>)
    requires Distinct(s)
    requires forall i :: 0 <= i < |s| ==> s[i] in u
    ensures |s| <= |u|
  {
    if |s| > 0 {
      var last := s[|s| - 1];
      DistinctBound(s[..|s| - 1], u - {last});
    }
  }

  /** Adjacency is exactly Chebyshev distance 1. */
  lemma AdjacentIsChebyshevOne(a: Cell, b: Cell)
    ensures Adjacent(a, b) <==> Chebyshev(a, b) == 1
  {
  }

  lemma ChebyshevTriangle(a: Cell, b: Cell, c: Cell)
    ensures Chebyshev(a, c) <= Chebyshev(a, b) + Chebyshev(b, c)
  {
  }

  /**
   * The heuristic is consistent: one move changes the distance to the goal
   * by at most one.
   */
  lemma ChebyshevConsistent(a: Cell, b: Cell, goal: Cell)
    requires Adjacent(a, b)
    ensures Chebyshev(a, goal) <= Chebyshev(b, goal) + 1
    ensures Chebyshev(b, goal) <= Chebyshev(a, goal) + 1
  {
    AdjacentIsChebyshevOne(a, b);
    ChebyshevTriangle(a, b, goal);
    ChebyshevTriangle(b, a, goal);
  }

  /**
   * A search node: a location annotated with the cost of reaching it and
   * its heuristic.  Equality of locations ignores the annotations.
   */
  datatype Node = Node(loc: Cell, cost: int, heuristic: int)

  /** MapLocation.compareTo: the sign of the difference of cost + heuristic. */
  function CompareTo(a: Node, b: Node): (r: int)
    ensures r == -1 || r == 0 || r == 1
    ensures r < 0 <==> a.cost + a.heuristic < b.cost + b.heuristic
    ensures r > 0 <==> a.cost + a.heuristic > b.cost + b.heuristic
  {
    var fa, fb := a.cost + a.heuristic, b.cost + b.heuristic;
    if fa < fb then -1 else if fa == fb then 0 else 1
  }

  /** CompareTo is a total preorder: antisymmetric in sign, and transitive. */
  lemma CompareToIsPreorder(a: Node, b: Node, c: Node)
    ensures CompareTo(a, b) == -CompareTo(b, a)
    ensures CompareTo(a, b) <= 0 && CompareTo(b, c) <= 0 ==> CompareTo(a, c) <= 0
    ensures CompareTo(a, b) <= 0 || CompareTo(b, a) <= 0
  {
  }

  /**
   * getValidNeighbors: scan the offsets with x outermost and y innermost,
   * keeping the in-bounds cells other than c itself that hold no resource
   * and are not the enemy's cell.
   */
  method GetValidNeighbors(current: Cell, xExtent: int, yExtent: int, enemy: Option<Cell>, resources: set<Cell>)
    returns (neighbors: seq<Cell>)
    ensures forall n :: n in neighbors <==> ValidNeighbor(Terrain(xExtent, yExtent, enemy, resources), current, n)
    ensures Distinct(neighbors)
    ensures |neighbors| <= 8
  {
    ghost var t := Terrain(xExtent, yExtent, enemy, resources);
    neighbors := [];
    for dx := -1 to 2
      invariant forall n :: n in neighbors <==> (ValidNeighbor(t, current, n) && n.x - current.x < dx)
      invariant forall i, j :: 0 <= i < j < |neighbors| ==> Key(current, neighbors[i]) < Key(current, neighbors[j])
      invariant forall i :: 0 <= i < |neighbors| ==> Key(current, neighbors[i]) < 3 * dx - 1
    {
      for dy := -1 to 2
        invariant forall n :: n in neighbors <==>
          (ValidNeighbor(t, current, n) && (n.x - current.x < dx || (n.x - current.x == dx && n.y - current.y < dy)))
        invariant forall i, j :: 0 <= i < j < |neighbors| ==> Key(current, neighbors[i]) < Key(current, neighbors[j])
        invariant forall i :: 0 <= i < |neighbors| ==> Key(current, neighbors[i]) < 3 * dx + dy
      {
        if current.x + dx >= 0 && current.x + dx < xExtent && current.y + dy >= 0 && current.y + dy < yExtent && (dx != 0 || dy != 0) {
          var test := Cell(current.x + dx, current.y + dy);
          if test !in resources && enemy != Some(test) {
            neighbors := neighbors + [test];
          }
        }
      }
    }
    forall i | 0 <= i < |neighbors|
      ensures neighbors[i] in Ring(current)
    {
      AdjacentInRing(current, neighbors[i]);
    }
    RingSize(current);
    DistinctBound(neighbors, Ring(current));
  }

  /** Position of an offset in the scan order of GetValidNeighbors. */
  function Key(c: Cell, n: Cell): int
  {
    3 * (n.x - c.x) + (n.y - c.y)
  }
}
