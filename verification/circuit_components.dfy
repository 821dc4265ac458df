/**
 * Directed circuit components (`CircuitComponents`): how a block mounted on
 * a face and turned by a rotation maps its internal sides onto world
 * directions, how placement picks the rotation, and the relay variants as
 * state machines whose input is whether a neighbour powers them.
 */
module CircuitComponents {
  import opened Directions
  import opened Wrappers

  /**
   * `make_facing_mappings()`, one mount face at a time: the four in-plane
   * directions a rotation of 0..3 turns the front to. The Java list holds
   * the six rows back to back in `Direction.values()` order, so entry
   * `4 * face.ordinal() + j` of the list is entry j of the face's row.
   */
  function FacingRow(face: Direction): (r: seq<Direction>)
    ensures |r| == 4
  {
    match face
    case Down => [North, East, South, West]
    case Up => [North, East, South, West]
    case North => [Up, East, Down, West]
    case East => [Up, South, Down, North]
    case South => [Up, West, Down, East]
    case West => [Up, North, Down, South]
  }

  type Rotation = r: nat | r < 4

  /** The `FACING` (mount face) and `ROTATION` properties of a directed component. */
  datatype Orientation = Orientation(facing: Direction, rotation: Rotation)

  /** `facing_mapping_.get(facing.get3DDataValue() * 4 + ((rotation + k) & 0x3))`. */
  function Mapped(o: Orientation, k: nat): (r: Direction)
  {
    FacingRow(o.facing)[(o.rotation + k) % 4]
  }

  function Front(o: Orientation): Direction { Mapped(o, 0) }
  function Right(o: Orientation): Direction { Mapped(o, 1) }
  function Back(o: Orientation): Direction { Mapped(o, 2) }
  function Left(o: Orientation): Direction { Mapped(o, 3) }

  /** `getUpFacing`. */
  function UpFacing(o: Orientation): Direction { Opposite(o.facing) }

  /** `getDownFacing`. */
  function DownFacing(o: Orientation): Direction { o.facing }

  /** `getOutputFacing`. */
  function OutputFacing(o: Orientation): Direction { Front(o) }

  /** Front, right, back and left lie in the mount plane, with back and left opposite front and right. */
  lemma SidesInPlane(o: Orientation)
    ensures Perpendicular(o.facing, Front(o)) && Perpendicular(o.facing, Right(o))
    ensures Back(o) == Opposite(Front(o)) && Left(o) == Opposite(Right(o))
    ensures Perpendicular(Front(o), Right(o))
  {
    var f := o.facing;
    if o.rotation == 0 {
      SidesAt(f, 0);
    } else if o.rotation == 1 {
      SidesAt(f, 1);
    } else if o.rotation == 2 {
      SidesAt(f, 2);
    } else {
      SidesAt(f, 3);
    }
  }

  /** The four sides of one orientation, checked face by face and rotation by rotation. */
  lemma SidesAt(f: Direction, r: Rotation)
    ensures var o := Orientation(f, r);
            && Perpendicular(f, Front(o)) && Perpendicular(f, Right(o))
            && Back(o) == Opposite(Front(o)) && Left(o) == Opposite(Right(o))
            && Perpendicular(Front(o), Right(o))
  {
    var row := FacingRow(f);
    assert Perpendicular(f, row[0]) && Perpendicular(f, row[1]) && Perpendicular(row[0], row[1]);
    assert row[2] == Opposite(row[0]) && row[3] == Opposite(row[1]);
  }

  /** `fill_state_facing_lookups`, forward table: where each internal side points in the world. */
  function Forward(o: Orientation, internal: Direction): (r: Direction)
  {
    match internal
    case Down => DownFacing(o)
    case Up => UpFacing(o)
    case North => Front(o)
    case South => Back(o)
    case West => Left(o)
    case East => Right(o)
  }

  /**
   * The reverse table as the fill loop writes it: entry `world` is set to
   * every internal side the forward table sends there, the last write
   * winning; an entry never written stays `null`.
   */
  function Reverse(o: Orientation, world: Direction): (r: Option<Direction>)
  {
    ReverseFrom(o, world, |All|)
  }

  /** The last of the first n sides (in `Direction.values()` order) that maps to `world`. */
  function ReverseFrom(o: Orientation, world: Direction, n: nat): (r: Option<Direction>)
    requires n <= |All|
    ensures r.Some? ==> Forward(o, r.value) == world && Ordinal(r.value) < n
    ensures r.Some? ==> forall i :: Ordinal(r.value) < i < n ==> Forward(o, All[i]) != world
    ensures r.None? ==> forall i :: 0 <= i < n ==> Forward(o, All[i]) != world
  {
    if n == 0 then None
    else if Forward(o, All[n - 1]) == world then Some(All[n - 1])
    else ReverseFrom(o, world, n - 1)
  }

  /** The forward table is one-to-one: no two internal sides point the same way. */
  lemma ForwardInjective(o: Orientation, a: Direction, b: Direction)
    requires Forward(o, a) == Forward(o, b)
    ensures a == b
  {
    SidesInPlane(o);
  }

  /** The reverse lookup undoes the forward lookup. */
  lemma ReverseOfForward(o: Orientation, internal: Direction)
    ensures Reverse(o, Forward(o, internal)) == Some(internal)
  {
    var r := Reverse(o, Forward(o, internal));
    assert All[Ordinal(internal)] == internal;
    match r
    case Some(s) => ForwardInjective(o, s, internal);
    case None =>
  }

  /** Every entry of the reverse table is filled, and the forward lookup undoes it. */
  lemma ForwardOfReverse(o: Orientation, world: Direction)
    ensures Reverse(o, world).Some?
    ensures Forward(o, Reverse(o, world).value) == world
  {
    SidesInPlane(o);
    var internal: Direction :=
      if world == o.facing then Down
      else if world == Opposite(o.facing) then Up
      else if world == Front(o) then North
      else if world == Back(o) then South
      else if world == Left(o) then West
      else East;
    assert Forward(o, internal) == world by {
      if internal == East {
        InPlaneIsSide(o, world);
      }
    }
    assert All[Ordinal(internal)] == internal;
  }

  /** A direction in the mount plane is the front, right, back or left. */
  lemma InPlaneIsSide(o: Orientation, d: Direction)
    requires d != o.facing && d != Opposite(o.facing)
    ensures d == Front(o) || d == Right(o) || d == Back(o) || d == Left(o)
  {
    SidesInPlane(o);
  }

  // -------------------------------------------------------------- placement

  /** The rotation `getStateForPlacement` picks for the mount face and the nearest in-plane hit direction. */
  function PlacementRotation(face: Direction, dir: Direction): (r: Rotation)
  {
    match face
    case Down | Up => (match dir case East => 1 case South => 2 case West => 3 case _ => 0)
    case North => (match dir case East => 1 case Down => 2 case West => 3 case _ => 0)
    case East => (match dir case South => 1 case Down => 2 case North => 3 case _ => 0)
    case South => (match dir case West => 1 case Down => 2 case East => 3 case _ => 0)
    case West => (match dir case North => 1 case Down => 2 case South => 3 case _ => 0)
  }

  /** The chosen rotation turns the front toward the hit direction whenever that lies in the mount plane. */
  lemma PlacementFacesHit(face: Direction, dir: Direction)
    requires Perpendicular(face, dir)
    ensures Front(Orientation(face, PlacementRotation(face, dir))) == dir
  {
    match face
    case Down =>
    case Up =>
    case North =>
    case South =>
    case West =>
    case East =>
  }

  /** A relay block's state: orientation, `POWERED` and `STATE` (0 or 1). */
  datatype Component = Component(orientation: Orientation, powered: bool, state: nat)

  predicate ValidComponent(c: Component)
  {
    c.state < 2
  }

  /**
   * `getStateForPlacement`. `clickedFace` and the in-plane hit direction
   * `dir` come from the placement context; `baseAccepts` is whether the
   * parent class produced a state and `survives` the world's `canSurvive`.
   */
  function PlaceComponent(clickedFace: Direction, dir: Direction, baseAccepts: bool, survives: bool): (r: Option<Component>)
    ensures r.Some? ==> ValidComponent(r.value) && !r.value.powered && r.value.state == 0
    ensures r.Some? <==> baseAccepts && survives
    ensures r.Some? ==> r.value.orientation.facing == Opposite(clickedFace)
  {
    if !baseAccepts then None
    else
      var face := Opposite(clickedFace);
      var c := Component(Orientation(face, PlacementRotation(face, dir)), false, 0);
      if !survives then None else Some(c)
  }

  // ----------------------------------------------------------------- relays

  datatype Kind = Relay | InvertedRelay | BistableRelay | PulseRelay

  /**
   * `isPowered`: some neighbour other than the output side and the side
   * opposite the mount face delivers a signal. `signals[i]` is the signal
   * the world reports from the neighbour toward direction `All[i]`.
   */
  predicate IsPowered(c: Component, signals: seq<int>)
    requires |signals| == |All|
  {
    exists i :: 0 <= i < |All| && All[i] != OutputFacing(c.orientation)
                && All[i] != Opposite(c.orientation.facing) && signals[i] > 0
  }

  /** Whether the variant drives its output in this state. */
  predicate Active(kind: Kind, c: Component)
  {
    match kind
    case Relay => c.powered
    case InvertedRelay => !c.powered
    case _ => c.state != 0
  }

  /** `getSignal` of each variant toward `redstoneSide`. */
  function Signal(kind: Kind, c: Component, redstoneSide: Direction): (r: int)
  {
    var toward := Opposite(OutputFacing(c.orientation));
    match kind
    case Relay => if !c.powered || redstoneSide != toward then 0 else 15
    case InvertedRelay => if c.powered || redstoneSide != toward then 0 else 15
    case _ => if c.state == 0 || redstoneSide != toward then 0 else 15
  }

  /** A relay emits full strength exactly toward the side facing its output, and only while active. */
  lemma SignalOnlyAtOutput(kind: Kind, c: Component, redstoneSide: Direction)
    ensures Signal(kind, c, redstoneSide) == 0 || Signal(kind, c, redstoneSide) == 15
    ensures Signal(kind, c, redstoneSide) == 15 <==>
              Active(kind, c) && redstoneSide == Opposite(OutputFacing(c.orientation))
  {
  }

  /** The block state after an event, whether a tick is scheduled, whether the output neighbour is notified. */
  datatype Step = Step(next: Component, schedule: bool, notify: bool)

  /** `update`, given `isPowered` and whether a tick is already scheduled. */
  function Update(kind: Kind, c: Component, powered: bool, scheduled: bool): (r: Step)
    requires ValidComponent(c)
    ensures ValidComponent(r.next)
    ensures r.next.orientation == c.orientation
  {
    match kind
    case Relay =>
      if powered == c.powered || scheduled then Step(c, false, false)
      else if powered then Step(c.(powered := true), false, true)
      else Step(c, true, false)
    case InvertedRelay =>
      if powered == c.powered || scheduled then Step(c, false, false)
      else if powered then Step(c, true, false)
      else Step(c.(powered := false), false, true)
    case BistableRelay =>
      if powered == c.powered then Step(c, false, false)
      else if powered then Step(c.(powered := true, state := if c.state == 0 then 1 else 0), false, true)
      else Step(c.(powered := false), false, false)
    case PulseRelay =>
      var c1 := if powered == c.powered then c
                else if powered then c.(powered := true, state := 1)
                else c.(powered := false);
      var trig := powered != c.powered && powered && c.state == 0;
      Step(c1, !scheduled, trig)
  }

  /** `tick`, given `isPowered`. */
  function Tick(kind: Kind, c: Component, powered: bool): (r: Step)
    requires ValidComponent(c)
    ensures ValidComponent(r.next)
    ensures r.next.orientation == c.orientation && !r.schedule
  {
    match kind
    case Relay =>
      if powered == c.powered || powered then Step(c, false, false)
      else Step(c.(powered := false), false, true)
    case InvertedRelay =>
      if powered == c.powered || !powered then Step(c, false, false)
      else Step(c.(powered := true), false, true)
    case BistableRelay => Step(c, false, false)
    case PulseRelay =>
      if c.state == 0 then Step(c, false, false)
      else Step(c.(state := 0), false, true)
  }

  /** The relay switches on at once; switching off waits for the scheduled recheck. */
  lemma RelayTiming(c: Component, powered: bool, scheduled: bool)
    requires ValidComponent(c)
    ensures var u := Update(Relay, c, powered, scheduled);
            && (powered && !c.powered && !scheduled ==> u.next.powered && u.notify)
            && (!powered && c.powered ==> u.next == c && u.schedule == !scheduled)
            && (!powered && c.powered ==> !Tick(Relay, c, powered).next.powered)
            && (powered ==> Tick(Relay, c, powered).next == c)
  {
  }

  /** The inverted relay does the reverse: it switches off at once and on after the recheck. */
  lemma InvertedRelayTiming(c: Component, powered: bool, scheduled: bool)
    requires ValidComponent(c)
    ensures var u := Update(InvertedRelay, c, powered, scheduled);
            && (!powered && c.powered && !scheduled ==> !u.next.powered && u.notify)
            && (powered && !c.powered ==> u.next == c && u.schedule == !scheduled)
            && (powered && !c.powered ==> Tick(InvertedRelay, c, powered).next.powered)
            && (!powered ==> Tick(InvertedRelay, c, powered).next == c)
  {
  }

  /** Under a steady input, an update followed by the recheck leaves a (normal or inverted) relay's `POWERED` equal to the input. */
  lemma RelaySettles(kind: Kind, c: Component, powered: bool)
    requires ValidComponent(c) && (kind == Relay || kind == InvertedRelay)
    ensures Tick(kind, Update(kind, c, powered, false).next, powered).next.powered == powered
  {
  }

  /** The bistable relay toggles `STATE` exactly on a rising edge and follows the input in `POWERED`. */
  lemma BistableToggles(c: Component, powered: bool, scheduled: bool)
    requires ValidComponent(c)
    ensures var n := Update(BistableRelay, c, powered, scheduled).next;
            && n.powered == powered
            && n.state == (if powered && !c.powered then 1 - c.state else c.state)
            && Tick(BistableRelay, c, powered).next == c
  {
  }

  /** The pulse relay fires on a rising edge and its tick ends the pulse. */
  lemma PulseFires(c: Component, powered: bool, scheduled: bool)
    requires ValidComponent(c)
    ensures var u := Update(PulseRelay, c, powered, scheduled);
            && u.next.powered == powered
            && (powered && !c.powered ==> u.next.state == 1)
            && (!(powered && !c.powered) ==> u.next.state == c.state)
            && u.schedule == !scheduled
            && Tick(PulseRelay, c, powered).next.state == 0
  {
  }
}
