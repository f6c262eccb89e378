/** The six directions and their opposites. */
module Directions {
  datatype Direction = North | East | South | West | Up | Down

  function Reverse(d: Direction): (r: Direction)
    ensures r != d
  {
    match d
    case North => South
    case East => West
    case South => North
    case West => East
    case Up => Down
    case Down => Up
  }

  /** One step in a direction, as a change of the east, north and up coordinates. */
  function Displacement(d: Direction): (int, int, int) {
    match d
    case North => (0, 1, 0)
    case East => (1, 0, 0)
    case South => (0, -1, 0)
    case West => (-1, 0, 0)
    case Up => (0, 0, 1)
    case Down => (0, 0, -1)
  }

  /** The two steps cancel. */
  predicate Opposite(d: Direction, e: Direction) {
    var a, b := Displacement(d), Displacement(e);
    a.0 + b.0 == 0 && a.1 + b.1 == 0 && a.2 + b.2 == 0
  }

  /** The way back is the same step the other way, and no other direction is. */
  lemma ReverseGoesBack(d: Direction, e: Direction)
    ensures e == Reverse(d) <==> Opposite(d, e)
  {
  }

  lemma ReverseTwice(d: Direction)
    ensures Reverse(Reverse(d)) == d
  {
  }
}
