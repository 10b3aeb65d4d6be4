/**
 * The eight compass directions of a primitive move and their conversion
 * from a one-step coordinate difference.  The y axis points down the
 * screen, so a positive y difference is SOUTH.
 */
module Directions {
  import opened Grid

  datatype Direction = North | NorthEast | East | SouthEast | South | SouthWest | West | NorthWest

  /** The differences getNextDirection accepts: each in {-1, 0, 1}, not both 0. */
  predicate IsUnitStep(xDiff: int, yDiff: int)
  {
    -1 <= xDiff <= 1 && -1 <= yDiff <= 1 && (xDiff != 0 || yDiff != 0)
  }

  /** The coordinate change of one move in direction d. */
  function Offset(d: Direction): (o: (int, int))
    ensures IsUnitStep(o.0, o.1)
    ensures d in {South, SouthEast, SouthWest} <==> o.1 == 1
    ensures d in {North, NorthEast, NorthWest} <==> o.1 == -1
    ensures d in {East, NorthEast, SouthEast} <==> o.0 == 1
    ensures d in {West, NorthWest, SouthWest} <==> o.0 == -1
  {
    match d
    case North => (0, -1)
    case NorthEast => (1, -1)
    case East => (1, 0)
    case SouthEast => (1, 1)
    case South => (0, 1)
    case SouthWest => (-1, 1)
    case West => (-1, 0)
    case NorthWest => (-1, -1)
  }

  /** The cell reached from c by one move in direction d. */
  function Shift(c: Cell, d: Direction): (r: Cell)
    ensures Adjacent(c, r)
  {
    Cell(c.x + Offset(d).0, c.y + Offset(d).1)
  }

  /**
   * getNextDirection: the direction whose offset is (xDiff, yDiff), or
   * None (Java's null) for any other difference, (0, 0) included.
   */
  function NextDirection(xDiff: int, yDiff: int): (r: Option<Direction>)
    ensures r.Some? <==> IsUnitStep(xDiff, yDiff)
    ensures r.Some? ==> Offset(r.value) == (xDiff, yDiff)
  {
    if xDiff == 1 && yDiff == 1 then Some(SouthEast)
    else if xDiff == 1 && yDiff == 0 then Some(East)
    else if xDiff == 1 && yDiff == -1 then Some(NorthEast)
    else if xDiff == 0 && yDiff == 1 then Some(South)
    else if xDiff == 0 && yDiff == -1 then Some(North)
    else if xDiff == -1 && yDiff == 1 then Some(SouthWest)
    else if xDiff == -1 && yDiff == 0 then Some(West)
    else if xDiff == -1 && yDiff == -1 then Some(NorthWest)
    else None
  }

  /** NextDirection and Offset are inverse bijections between the 8 unit steps and the 8 directions. */
  lemma DirectionBijection(d: Direction, xDiff: int, yDiff: int)
    ensures NextDirection(Offset(d).0, Offset(d).1) == Some(d)
    ensures IsUnitStep(xDiff, yDiff) ==> Offset(NextDirection(xDiff, yDiff).value) == (xDiff, yDiff)
    ensures forall e: Direction :: Offset(e) == Offset(d) ==> e == d
  {
  }

  /** Moving towards an adjacent cell in the direction of the difference lands on it. */
  lemma StepTowardsAdjacent(from: Cell, to: Cell)
    requires Adjacent(from, to)
    ensures NextDirection(to.x - from.x, to.y - from.y).Some?
    ensures Shift(from, NextDirection(to.x - from.x, to.y - from.y).value) == to
  {
  }
}
