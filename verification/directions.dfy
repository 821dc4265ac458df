/**
 * Minecraft's `Direction` enum: six faces whose ordinal is also the index the
 * mod uses for per-side nibbles and port names.
 */
module Directions {

  datatype Direction = Down | Up | North | South | West | East

  datatype Axis = X | Y | Z

  /** The enum's declaration order, `Direction.values()`. */
  const All: seq<Direction> := [Down, Up, North, South, West, East]

  function Ordinal(d: Direction): (r: nat)
    ensures r < 6 && All[r] == d
  {
    match d
    case Down => 0
    case Up => 1
    case North => 2
    case South => 3
    case West => 4
    case East => 5
  }

  function FromOrdinal(i: nat): (d: Direction)
    requires i < 6
    ensures Ordinal(d) == i
  {
    All[i]
  }

  function Opposite(d: Direction): (r: Direction)
    ensures r != d
    ensures AxisOf(r) == AxisOf(d)
  {
    match d
    case Down => Up
    case Up => Down
    case North => South
    case South => North
    case West => East
    case East => West
  }

  function AxisOf(d: Direction): Axis
  {
    match d
    case Down | Up => Y
    case North | South => Z
    case West | East => X
  }

  predicate IsHorizontal(d: Direction)
  {
    AxisOf(d) != Y
  }

  /** Two directions are perpendicular when they lie on different axes. */
  predicate Perpendicular(a: Direction, b: Direction)
  {
    AxisOf(a) != AxisOf(b)
  }

  lemma OppositeInvolution(d: Direction)
    ensures Opposite(Opposite(d)) == d
  {
  }

  lemma OrdinalInjective(a: Direction, b: Direction)
    ensures Ordinal(a) == Ordinal(b) ==> a == b
  {
  }

  /** The four directions perpendicular to `d`, i.e. the other two axes. */
  lemma PerpendicularCount(d: Direction)
    ensures |set e | e in All && Perpendicular(d, e)| == 4
  {
    var s := set e | e in All && Perpendicular(d, e);
    match d
    case Down | Up => assert s == {North, South, West, East};
    case North | South => assert s == {Down, Up, West, East};
    case West | East => assert s == {Down, Up, North, South};
  }
}
