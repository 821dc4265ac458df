/**
 * `ControlBoxBlock.getSignal`: the control box is a directed component, so
 * the world side a neighbour asks about is first turned into the box's
 * internal port side through the reverse orientation table, and the port's
 * nibble of the logic's output word is the signal.
 */
module ControlBoxBlock {
  import opened Directions
  import opened Wrappers
  import opened Nibbles
  import opened ControlBoxPorts
  import opened ControlBoxLogic
  import opened CircuitComponents

  /**
   * The internal side that faces the world side `redstoneSide.getOpposite()`;
   * the reverse table has an entry for every world side, so the Java code
   * never meets a null here.
   */
  function InternalSide(o: Orientation, redstoneSide: Direction): (r: Direction)
    ensures Forward(o, r) == Opposite(redstoneSide)
  {
    ForwardOfReverse(o, Opposite(redstoneSide));
    Reverse(o, Opposite(redstoneSide)).value
  }

  /** The weak (and direct) signal the block emits toward a neighbour that queries `redstoneSide`. */
  function BlockSignal(l: Logic, o: Orientation, redstoneSide: Direction): (r: int)
    requires WellFormed(l)
    ensures 0 <= r <= 15
  {
    GetSignal(l, InternalSide(o, redstoneSide))
  }

  /**
   * The signal toward a neighbour is the output nibble of exactly the port
   * whose forward mapping points at that neighbour, and it is 0 when that
   * port is not driven by the program.
   */
  lemma BlockSignalPort(l: Logic, o: Orientation, internal: Direction, redstoneSide: Direction)
    requires WellFormed(l)
    requires Forward(o, internal) == Opposite(redstoneSide)
    ensures BlockSignal(l, o, redstoneSide) == l.outputData[Ordinal(internal)]
    ensures Consistent(l) && l.outputMask[Ordinal(internal)] == 0 ==> BlockSignal(l, o, redstoneSide) == 0
  {
    ForwardInjective(o, internal, InternalSide(o, redstoneSide));
  }

  /** Every port of a mounted box faces exactly one world side, so each port can be read from some neighbour. */
  lemma EveryPortReachable(l: Logic, o: Orientation, internal: Direction)
    requires WellFormed(l)
    ensures var side := Opposite(Forward(o, internal));
            BlockSignal(l, o, side) == l.outputData[Ordinal(internal)]
  {
    var side := Opposite(Forward(o, internal));
    OppositeInvolution(Forward(o, internal));
    BlockSignalPort(l, o, internal, side);
  }
}
