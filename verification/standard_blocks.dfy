/**
 * `StandardBlocks`: the configuration word shared by the mod's block base
 * classes, the render-layer hint derived from it, the flags each block
 * family adds in its constructor, and the facing chosen when a directed or
 * horizontal block is placed.
 *
 * A configuration is the set of its flags; the Java constants are single
 * bits of a `long`, so `config | CFG_X` is set union and
 * `(config & CFG_X) != 0` is membership.
 */
module StandardBlocks {
  import opened Directions
  import opened Wrappers
  import Bits

  datatype Flag =
    | Cutout             // CFG_CUTOUT 0x1
    | Mipped             // CFG_MIPPED 0x2
    | Translucent        // CFG_TRANSLUCENT 0x4
    | WaterLoggable      // CFG_WATERLOGGABLE 0x8
    | Horizontal         // CFG_HORIZIONTAL 0x10
    | LookPlacement      // CFG_LOOK_PLACEMENT 0x20
    | FacingPlacement    // CFG_FACING_PLACEMENT 0x40
    | OppositePlacement  // CFG_OPPOSITE_PLACEMENT 0x80
    | FlipIfSame         // CFG_FLIP_PLACEMENT_IF_SAME 0x100
    | FlipShiftClick     // CFG_FLIP_PLACEMENT_SHIFTCLICK 0x200
    | StrictConnections  // CFG_STRICT_CONNECTIONS 0x400
    | AiPassable         // CFG_AI_PASSABLE 0x800

  type Config = set<Flag>

  const FLAG_COUNT: nat := 12

  /** The bit number of each flag in the Java `long`. */
  function FlagIndex(f: Flag): (k: nat)
    ensures k < FLAG_COUNT
  {
    match f
    case Cutout => 0
    case Mipped => 1
    case Translucent => 2
    case WaterLoggable => 3
    case Horizontal => 4
    case LookPlacement => 5
    case FacingPlacement => 6
    case OppositePlacement => 7
    case FlipIfSame => 8
    case FlipShiftClick => 9
    case StrictConnections => 10
    case AiPassable => 11
  }

  /** The flag a bit number stands for, if any. */
  function FlagAt(k: nat): (r: Option<Flag>)
    ensures r.Some? <==> k < FLAG_COUNT
    ensures r.Some? ==> FlagIndex(r.value) == k
  {
    if k == 0 then Some(Cutout)
    else if k == 1 then Some(Mipped)
    else if k == 2 then Some(Translucent)
    else if k == 3 then Some(WaterLoggable)
    else if k == 4 then Some(Horizontal)
    else if k == 5 then Some(LookPlacement)
    else if k == 6 then Some(FacingPlacement)
    else if k == 7 then Some(OppositePlacement)
    else if k == 8 then Some(FlipIfSame)
    else if k == 9 then Some(FlipShiftClick)
    else if k == 10 then Some(StrictConnections)
    else if k == 11 then Some(AiPassable)
    else None
  }

  /** Every flag is the one its bit number stands for, so no two flags share a bit number. */
  lemma FlagAtIndex(f: Flag)
    ensures FlagAt(FlagIndex(f)) == Some(f)
  {
    match f
    case _ =>
  }

  function Pow2(k: nat): (r: nat)
    ensures r >= 1
  {
    if k == 0 then 1 else 2 * Pow2(k - 1)
  }

  lemma {:induction false} Pow2Grows(i: nat, j: nat)
    requires i < j
    ensures Pow2(i) < Pow2(j)
    decreases j
  {
    if i < j - 1 {
      Pow2Grows(i, j - 1);
    }
  }

  /** The twelve powers of two the flag constants use. */
  lemma FlagPowers()
    ensures Pow2(0) == 0x1 && Pow2(1) == 0x2 && Pow2(2) == 0x4 && Pow2(3) == 0x8
    ensures Pow2(4) == 0x10 && Pow2(5) == 0x20 && Pow2(6) == 0x40 && Pow2(7) == 0x80
    ensures Pow2(8) == 0x100 && Pow2(9) == 0x200 && Pow2(10) == 0x400 && Pow2(11) == 0x800
  {
    assert Pow2(3) == 0x8;
    assert Pow2(6) == 0x40;
    assert Pow2(9) == 0x200;
  }

  /** The value of each `CFG_` constant: a single bit, the one at the flag's bit number. */
  function FlagBit(f: Flag): (r: nat)
    ensures r == Pow2(FlagIndex(f))
  {
    FlagPowers();
    match f
    case Cutout => 0x1
    case Mipped => 0x2
    case Translucent => 0x4
    case WaterLoggable => 0x8
    case Horizontal => 0x10
    case LookPlacement => 0x20
    case FacingPlacement => 0x40
    case OppositePlacement => 0x80
    case FlipIfSame => 0x100
    case FlipShiftClick => 0x200
    case StrictConnections => 0x400
    case AiPassable => 0x800
  }

  /**
   * The flag constants are distinct single bits: two different flags have
   * different values, and their bits in the `long` never meet.
   */
  lemma FlagBitsDistinct(a: Flag, b: Flag)
    ensures FlagBit(a) == FlagBit(b) <==> a == b
    ensures a != b <==> !Bits.Meets(Bits.Single(FlagIndex(a)), Bits.Single(FlagIndex(b)))
  {
    var i, j := FlagIndex(a), FlagIndex(b);
    FlagAtIndex(a);
    FlagAtIndex(b);
    assert i == j <==> a == b;
    Pow2Injective(i, j);
    SinglesMeet(i, j);
  }

  lemma Pow2Injective(i: nat, j: nat)
    ensures Pow2(i) == Pow2(j) <==> i == j
  {
    if i < j {
      Pow2Grows(i, j);
    } else if j < i {
      Pow2Grows(j, i);
    }
  }

  /** Two single-bit words meet exactly when they are the same bit. */
  lemma SinglesMeet(i: nat, j: nat)
    requires i < Bits.LONG_BITS && j < Bits.LONG_BITS
    ensures Bits.Meets(Bits.Single(i), Bits.Single(j)) <==> i == j
  {
    if i == j {
      assert Bits.Single(i)[i];
    }
  }

  /** The `long` a configuration is stored as: bit k is set exactly when the flag numbered k is in it. */
  function ConfigWord(c: Config): (w: Bits.Bits)
    ensures Bits.IsLong(w)
    ensures forall f :: f in c <==> w[FlagIndex(f)]
    ensures forall k :: FLAG_COUNT <= k < Bits.LONG_BITS ==> !w[k]
  {
    var w := seq(Bits.LONG_BITS, k requires 0 <= k => FlagAt(k).Some? && FlagAt(k).value in c);
    assert forall f :: FlagAt(FlagIndex(f)) == Some(f) by {
      forall f {
        FlagAtIndex(f);
      }
    }
    w
  }

  /** `(config & CFG_X) != 0` is membership of the flag in the configuration. */
  lemma ConfigTest(c: Config, f: Flag)
    ensures Bits.Meets(ConfigWord(c), Bits.Single(FlagIndex(f))) <==> f in c
  {
    var k := FlagIndex(f);
    if f in c {
      assert ConfigWord(c)[k] && Bits.Single(k)[k];
    }
  }

  /** `config | CFG_X` is adding the flag to the configuration. */
  lemma ConfigAdd(c: Config, f: Flag)
    ensures ConfigWord(c + {f}) == Bits.OrL(ConfigWord(c), Bits.Single(FlagIndex(f)))
  {
    var l, r := ConfigWord(c + {f}), Bits.OrL(ConfigWord(c), Bits.Single(FlagIndex(f)));
    forall k | 0 <= k < Bits.LONG_BITS
      ensures l[k] == r[k]
    {
      var g := FlagAt(k);
      if g.Some? {
        FlagAtIndex(g.value);
        FlagAtIndex(f);
      }
    }
  }

  /** The set of flags and the `long` carry the same information: different configurations are different words. */
  lemma ConfigWordDetermines(c1: Config, c2: Config)
    ensures ConfigWord(c1) == ConfigWord(c2) <==> c1 == c2
  {
    if ConfigWord(c1) == ConfigWord(c2) {
      forall f
        ensures f in c1 <==> f in c2
      {
        assert ConfigWord(c1)[FlagIndex(f)] == ConfigWord(c2)[FlagIndex(f)];
      }
    }
  }

  // ---------------------------------------------------------------- render hint

  datatype RenderTypeHint = Solid | CutoutHint | CutoutMippedHint | TranslucentHint | TranslucentNoCrumbling

  /** `getRenderTypeHint(config)`. */
  function RenderHint(config: Config): (r: RenderTypeHint)
    ensures r != TranslucentNoCrumbling
  {
    if Cutout in config then CutoutHint
    else if Mipped in config then CutoutMippedHint
    else if Translucent in config then TranslucentHint
    else Solid
  }

  /**
   * Cutout wins over mipped cutout, which wins over translucent; a block
   * with none of the three renders solid.
   */
  lemma RenderHintPriority(config: Config)
    ensures RenderHint(config) == CutoutHint <==> Cutout in config
    ensures RenderHint(config) == CutoutMippedHint <==> Mipped in config && Cutout !in config
    ensures RenderHint(config) == TranslucentHint <==> Translucent in config && Mipped !in config && Cutout !in config
    ensures RenderHint(config) == Solid <==> Cutout !in config && Mipped !in config && Translucent !in config
  {
  }

  /** Flags other than the three render flags do not change the hint. */
  lemma RenderHintIgnoresOthers(config: Config, extra: Config)
    requires extra * {Cutout, Mipped, Translucent} == {}
    ensures RenderHint(config + extra) == RenderHint(config)
  {
    assert Cutout !in extra && Mipped !in extra && Translucent !in extra by {
      assert forall g :: g in extra && g in {Cutout, Mipped, Translucent} ==> g in extra * {Cutout, Mipped, Translucent};
    }
  }

  // ---------------------------------------------------------------- families

  /** The block classes whose constructors pass a configuration on to `BaseBlock`. */
  datatype Family =
    | BaseFamily
    | WaterLoggableFamily
    | DirectedFamily
    | HorizontalFamily
    | DirectedWaterLoggableFamily
    | HorizontalWaterLoggableFamily
    | HorizontalFourWayFamily

  predicate IsWaterLoggableFamily(f: Family)
  {
    f in {WaterLoggableFamily, DirectedWaterLoggableFamily, HorizontalWaterLoggableFamily, HorizontalFourWayFamily}
  }

  predicate IsHorizontalFamily(f: Family)
  {
    f in {HorizontalFamily, HorizontalWaterLoggableFamily}
  }

  /** How many constructors stand between a family and `BaseBlock`. */
  function Depth(f: Family): nat
  {
    match f
    case BaseFamily => 0
    case WaterLoggableFamily | DirectedFamily | HorizontalFamily => 1
    case DirectedWaterLoggableFamily | HorizontalWaterLoggableFamily | HorizontalFourWayFamily => 2
  }

  /**
   * The `config` field a block of the family ends up with: each subclass
   * ORs its own flags onto the caller's before handing it to its parent.
   */
  function StoredConfig(f: Family, config: Config): (r: Config)
    decreases Depth(f)
  {
    match f
    case BaseFamily => config
    case WaterLoggableFamily => StoredConfig(BaseFamily, config + {WaterLoggable})
    case DirectedFamily => StoredConfig(BaseFamily, config)
    case HorizontalFamily => StoredConfig(BaseFamily, config + {Horizontal})
    case DirectedWaterLoggableFamily => StoredConfig(DirectedFamily, config + {WaterLoggable})
    case HorizontalWaterLoggableFamily => StoredConfig(HorizontalFamily, config + {WaterLoggable, Horizontal})
    case HorizontalFourWayFamily => StoredConfig(WaterLoggableFamily, config)
  }

  /**
   * Water-loggable families always carry CFG_WATERLOGGABLE, horizontal
   * families always carry CFG_HORIZIONTAL, no caller flag is lost, and no
   * other flag is invented.
   */
  lemma StoredConfigFlags(f: Family, config: Config)
    ensures config <= StoredConfig(f, config) <= config + {WaterLoggable, Horizontal}
    ensures WaterLoggable in StoredConfig(f, config) <==> IsWaterLoggableFamily(f) || WaterLoggable in config
    ensures Horizontal in StoredConfig(f, config) <==> IsHorizontalFamily(f) || Horizontal in config
  {
  }

  /** Building a block from an already stored configuration stores the same one again. */
  lemma StoredConfigIdempotent(f: Family, config: Config)
    ensures StoredConfig(f, StoredConfig(f, config)) == StoredConfig(f, config)
  {
    StoredConfigFlags(f, config);
    StoredConfigFlags(f, StoredConfig(f, config));
  }

  /**
   * The WATERLOGGED property of a freshly placed `BaseBlock`: present only
   * with CFG_WATERLOGGABLE, and then true exactly when the clicked position
   * holds water.
   */
  function Waterlogged(config: Config, fluidIsWater: bool): (r: Option<bool>)
    ensures r.Some? <==> WaterLoggable in config
    ensures r.Some? ==> (r.value <==> fluidIsWater)
  {
    if WaterLoggable in config then Some(fluidIsWater) else None
  }

  /** `isPathfindable`: only blocks marked AI-passable defer to the vanilla answer. */
  function Pathfindable(config: Config, vanilla: bool): (r: bool)
    ensures AiPassable !in config ==> !r
    ensures AiPassable in config ==> r == vanilla
  {
    AiPassable in config && vanilla
  }

  // ---------------------------------------------------------------- placement

  /**
   * What the placement context reports: the clicked face, the player's
   * horizontal looking direction, the nearest looking direction including
   * up and down, and whether a player is present and sneaking.
   */
  datatype PlaceContext = PlaceContext(clickedFace: Direction, horizontalDirection: Direction,
                                       nearestLooking: Direction, sneaking: bool)

  /** Minecraft's `getHorizontalDirection` never answers up or down. */
  predicate ValidContext(c: PlaceContext)
  {
    IsHorizontal(c.horizontalDirection)
  }

  /** The two trailing flips both placement methods apply. */
  function Flipped(config: Config, sneaking: bool, d: Direction): (r: Direction)
    ensures AxisOf(r) == AxisOf(d)
    ensures r == d <==> (OppositePlacement in config <==> (FlipShiftClick in config && sneaking))
  {
    var d1 := if OppositePlacement in config then Opposite(d) else d;
    if FlipShiftClick in config && sneaking then Opposite(d1) else d1
  }

  /** `Directed.getStateForPlacement`: the FACING value, or None when the block refuses the face. */
  function DirectedFacing(config: Config, c: PlaceContext): (r: Option<Direction>)
  {
    var facing :=
      if Horizontal in config && LookPlacement in config then Some(c.horizontalDirection)
      else if Horizontal in config then
        (if c.clickedFace == Up || c.clickedFace == Down then None else Some(c.clickedFace))
      else if LookPlacement in config then Some(c.nearestLooking)
      else Some(c.clickedFace);
    if facing.None? then None else Some(Flipped(config, c.sneaking, facing.value))
  }

  /**
   * Which direction a directed block faces before the flips: the horizontal
   * looking direction for HORIZONTAL with LOOK, the clicked face for
   * HORIZONTAL alone (refusing a floor or ceiling click), the nearest
   * looking direction for LOOK alone, and the clicked face otherwise.
   */
  lemma DirectedFacingCases(config: Config, c: PlaceContext)
    ensures DirectedFacing(config, c).None? <==>
              Horizontal in config && LookPlacement !in config && !IsHorizontal(c.clickedFace)
    ensures Horizontal in config && LookPlacement in config ==>
              DirectedFacing(config, c) == Some(Flipped(config, c.sneaking, c.horizontalDirection))
    ensures Horizontal in config && LookPlacement !in config && IsHorizontal(c.clickedFace) ==>
              DirectedFacing(config, c) == Some(Flipped(config, c.sneaking, c.clickedFace))
    ensures Horizontal !in config && LookPlacement in config ==>
              DirectedFacing(config, c) == Some(Flipped(config, c.sneaking, c.nearestLooking))
    ensures Horizontal !in config && LookPlacement !in config ==>
              DirectedFacing(config, c) == Some(Flipped(config, c.sneaking, c.clickedFace))
  {
  }

  /** A directed block configured horizontal is only ever placed facing sideways. */
  lemma DirectedHorizontalStaysHorizontal(config: Config, c: PlaceContext)
    requires ValidContext(c) && Horizontal in config
    ensures DirectedFacing(config, c).Some? ==> IsHorizontal(DirectedFacing(config, c).value)
  {
  }

  /**
   * OPPOSITE flips the facing, and FLIP_SHIFTCLICK flips it back while the
   * player sneaks: both flags together on a sneaking player cancel out.
   */
  lemma FlipsCancel(config: Config, d: Direction)
    requires OppositePlacement in config && FlipShiftClick in config
    ensures Flipped(config, true, d) == d
    ensures Flipped(config, false, d) == Opposite(d)
  {
  }

  /** `Horizontal.getStateForPlacement`: the HORIZONTAL_FACING value. */
  function HorizontalFacing(config: Config, c: PlaceContext): (r: Direction)
    requires ValidContext(c)
    ensures IsHorizontal(r)
  {
    var facing :=
      if LookPlacement in config then c.horizontalDirection
      else if c.clickedFace == Up || c.clickedFace == Down then c.horizontalDirection
      else c.clickedFace;
    Flipped(config, c.sneaking, facing)
  }

  /** Without LOOK placement a horizontal block takes a side face it was clicked on, up to the flips. */
  lemma HorizontalFacingClicked(config: Config, c: PlaceContext)
    requires ValidContext(c) && LookPlacement !in config && IsHorizontal(c.clickedFace)
    ensures HorizontalFacing(config, c) == Flipped(config, c.sneaking, c.clickedFace)
  {
  }

  // ---------------------------------------------------------------- four-way blocks

  /** The four side booleans of `HorizontalFourWayWaterLoggable`. */
  datatype SideProperty = NorthSide | EastSide | SouthSide | WestSide

  /** The direction a side property stands for. */
  function PropertySide(p: SideProperty): (r: Direction)
    ensures IsHorizontal(r)
  {
    match p
    case NorthSide => North
    case EastSide => East
    case SouthSide => South
    case WestSide => West
  }

  /** `getDirectionProperty(face)`: east, south and west have their own property, anything else is north. */
  function DirectionProperty(face: Direction): (r: SideProperty)
    ensures IsHorizontal(face) ==> PropertySide(r) == face
    ensures !IsHorizontal(face) ==> r == NorthSide
  {
    match face
    case East => EastSide
    case South => SouthSide
    case West => WestSide
    case _ => NorthSide
  }

  /** The property of a side's own direction is that side: the two maps are inverse on the horizontal plane. */
  lemma DirectionPropertyRoundTrip(p: SideProperty)
    ensures DirectionProperty(PropertySide(p)) == p
  {
  }
}
