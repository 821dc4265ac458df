/**
 * The state word of a redstone track block (`RedstoneTrack.defs`,
 * `defs.connections` and the flag operations of `TrackBlockEntity`).
 *
 * One Java `long` holds three fields: 24 wire bits (four per face, one per
 * direction the wire runs in), six bulk-connector bits (one per face), and
 * six power nibbles (one per face). Faces are numbered in the mod's own
 * connection order down, up, north, south, east, west, which is not the
 * ordinal order of `Direction`.
 */
module RedstoneTrack {
  import opened JavaInt
  import opened Directions
  import opened Nibbles
  import opened Bits
  import opened Wrappers

  const WIRE_POS: nat := 0
  const WIRE_COUNT: nat := 24
  const CON_POS: nat := 24
  const CON_COUNT: nat := 6
  const PWR_POS: nat := 32

  /** `STATE_FLAG_WIR_MASK`, 0x0000000000ffffff. */
  const WIRE_MASK: Bits := MaskRange(0, 24)
  /** `STATE_FLAG_CON_MASK`, 0x000000003f000000. */
  const CON_MASK: Bits := MaskRange(24, 30)
  /** `STATE_FLAG_PWR_MASK`, 0x00ffffff00000000. */
  const PWR_MASK: Bits := MaskRange(32, 56)

  /** `CONNECTION_BIT_ORDER`. */
  const ConnectionOrder: seq<Direction> := [Down, Up, North, South, East, West]

  /** `CONNECTION_BIT_ORDER_REV`: the index of a face in the connection order. */
  function FaceIndex(d: Direction): (r: nat)
    ensures r < 6 && ConnectionOrder[r] == d
  {
    match d
    case Down => 0
    case Up => 1
    case North => 2
    case South => 3
    case East => 4
    case West => 5
  }

  /** The three fields never share a bit. */
  lemma FieldsDisjoint()
    ensures AndL(WIRE_MASK, CON_MASK) == ZeroL()
    ensures AndL(WIRE_MASK, PWR_MASK) == ZeroL()
    ensures AndL(CON_MASK, PWR_MASK) == ZeroL()
  {
  }

  // ------------------------------------------------------------ wire table

  /** A wire piece: lying on `face`, running toward `dir`. */
  datatype Wire = Wire(face: Direction, dir: Direction)

  /** `WIRE_FACE_DIRECTION_MAPPING`: entry i describes the wire of bit i. */
  const WireTable: seq<Wire> := [
    Wire(Down, North), Wire(Down, South), Wire(Down, East), Wire(Down, West),
    Wire(Up, North), Wire(Up, South), Wire(Up, East), Wire(Up, West),
    Wire(North, Up), Wire(North, Down), Wire(North, East), Wire(North, West),
    Wire(South, Up), Wire(South, Down), Wire(South, East), Wire(South, West),
    Wire(East, Up), Wire(East, Down), Wire(East, North), Wire(East, South),
    Wire(West, Up), Wire(West, Down), Wire(West, North), Wire(West, South)]

  /** Where a direction sits among the four wire bits of a face it is perpendicular to. */
  function PerpIndex(face: Direction, dir: Direction): (r: nat)
    ensures r < 4
  {
    match AxisOf(face)
    case Y => (match dir case North => 0 case South => 1 case East => 2 case _ => 3)
    case Z => (match dir case Up => 0 case Down => 1 case East => 2 case _ => 3)
    case X => (match dir case Up => 0 case Down => 1 case North => 2 case _ => 3)
  }

  /** The bit a perpendicular wire should have: the face's nibble, at the direction's place in it. */
  function WireIndex(face: Direction, dir: Direction): (r: nat)
    ensures r < WIRE_COUNT
  {
    4 * FaceIndex(face) + PerpIndex(face, dir)
  }

  /** Every table entry is a perpendicular wire stored at its own `WireIndex`. */
  lemma TableEntry(i: nat)
    requires i < WIRE_COUNT
    ensures Perpendicular(WireTable[i].face, WireTable[i].dir)
    ensures WireIndex(WireTable[i].face, WireTable[i].dir) == i
  {
  }

  /** Every perpendicular wire is in the table, at its `WireIndex`. */
  lemma TableCovers(face: Direction, dir: Direction)
    requires Perpendicular(face, dir)
    ensures WireTable[WireIndex(face, dir)] == Wire(face, dir)
  {
  }

  /** The first table entry at or after i that describes the given wire. */
  function FindWire(face: Direction, dir: Direction, i: nat): (r: Option<nat>)
    requires i <= WIRE_COUNT
    decreases WIRE_COUNT - i
    ensures r.Some? ==> i <= r.value < WIRE_COUNT && WireTable[r.value] == Wire(face, dir)
    ensures r.None? ==> forall k :: i <= k < WIRE_COUNT ==> WireTable[k] != Wire(face, dir)
  {
    if i == WIRE_COUNT then None
    else if WireTable[i] == Wire(face, dir) then Some(i)
    else FindWire(face, dir, i + 1)
  }

  /**
   * `getWireBit`: the key of the first table entry for the wire, or 0. The
   * table's extra entry 0 -> (down, down) yields 0 as well, so it is left out.
   */
  function WireBit(face: Direction, dir: Direction): (r: Bits)
    ensures IsLong(r)
  {
    match FindWire(face, dir, 0)
    case Some(i) => Single(i)
    case None => ZeroL()
  }

  /** A perpendicular wire has exactly its own bit in the face's nibble; any other pair has none. */
  lemma WireBitShape(face: Direction, dir: Direction)
    ensures Perpendicular(face, dir) ==> WireBit(face, dir) == Single(WireIndex(face, dir))
    ensures Perpendicular(face, dir) ==> 4 * FaceIndex(face) <= WireIndex(face, dir) < 4 * FaceIndex(face) + 4
    ensures !Perpendicular(face, dir) ==> WireBit(face, dir) == ZeroL()
  {
    match FindWire(face, dir, 0)
    case Some(i) =>
      TableEntry(i);
      if Perpendicular(face, dir) {
        TableCovers(face, dir);
      }
    case None =>
      if Perpendicular(face, dir) {
        TableCovers(face, dir);
      }
  }

  /** The first table key at or after i that equals the word, if the word is a single wire bit. */
  function FindKey(w: Bits, i: nat): (r: Option<nat>)
    requires IsLong(w) && i <= WIRE_COUNT
    decreases WIRE_COUNT - i
    ensures r.Some? ==> i <= r.value < WIRE_COUNT && w == Single(r.value)
    ensures r.None? ==> forall k :: i <= k < WIRE_COUNT ==> w != Single(k)
  {
    if i == WIRE_COUNT then None
    else if w == Single(i) then Some(i)
    else FindKey(w, i + 1)
  }

  /** `getWireBitSideAndDirection`: the table lookup with default (down, down). */
  function SideAndDirection(w: Bits): (r: Wire)
    requires IsLong(w)
  {
    match FindKey(w, 0)
    case Some(i) => WireTable[i]
    case None => Wire(Down, Down)
  }

  /** `getWireBitSideAndDirection` undoes `getWireBit` for every perpendicular wire. */
  lemma WireBitRoundTrip(face: Direction, dir: Direction)
    requires Perpendicular(face, dir)
    ensures SideAndDirection(WireBit(face, dir)) == Wire(face, dir)
  {
    WireBitShape(face, dir);
    TableCovers(face, dir);
    var k := WireIndex(face, dir);
    match FindKey(Single(k), 0)
    case Some(i) =>
      assert Single(i)[i] == Single(k)[i];
    case None =>
  }

  /** `getWireBit` undoes `getWireBitSideAndDirection` on every wire bit. */
  lemma SideAndDirectionRoundTrip(i: nat)
    requires i < WIRE_COUNT
    ensures var x := SideAndDirection(Single(i)); WireBit(x.face, x.dir) == Single(i)
  {
    match FindKey(Single(i), 0)
    case Some(k) =>
      assert Single(k)[k] == Single(i)[k];
      TableEntry(k);
      WireBitShape(WireTable[k].face, WireTable[k].dir);
    case None =>
  }

  // ---------------------------------------------------- connection queries

  /** `getBulkConnectorBit`. */
  function BulkConnectorBit(face: Direction): (r: Bits)
    ensures IsLong(r)
  {
    Single(CON_POS + FaceIndex(face))
  }

  /** `getWireElementsOnFace`: `0xf << 4 * index`. */
  function WireElementsOnFace(face: Direction): (r: Bits)
    ensures IsLong(r)
  {
    MaskRange(4 * FaceIndex(face), 4 * FaceIndex(face) + 4)
  }

  /** `getAllElementsOnFace`: the face's wire nibble and its connector bit. */
  function AllElementsOnFace(face: Direction): (r: Bits)
    ensures IsLong(r)
    ensures forall i :: 0 <= i < LONG_BITS ==>
              (r[i] <==> WireElementsOnFace(face)[i] || BulkConnectorBit(face)[i])
  {
    OrL(WireElementsOnFace(face), BulkConnectorBit(face))
  }

  /** The elements of a face are exactly the wires lying on it and its connector. */
  lemma AllElementsOnFaceBits(face: Direction, i: nat)
    requires i < LONG_BITS
    ensures AllElementsOnFace(face)[i] <==>
              (i < WIRE_COUNT && WireTable[i].face == face) || i == CON_POS + FaceIndex(face)
  {
    if i < WIRE_COUNT {
      TableEntry(i);
    }
  }

  /** `hasVanillaWireConnection`: the four down-face wires, by direction. */
  predicate HasVanillaWireConnection(mask: Bits, side: Direction)
    requires IsLong(mask)
  {
    match side
    case North => mask[0]
    case South => mask[1]
    case East => mask[2]
    case West => mask[3]
    case _ => false
  }

  /** A vanilla connection toward a side is a down-face wire running that way. */
  lemma VanillaIsDownWire(mask: Bits, side: Direction)
    requires IsLong(mask)
    ensures HasVanillaWireConnection(mask, side) <==> Perpendicular(Down, side) && mask[WireIndex(Down, side)]
  {
  }

  /** `getVanillaWireConnectionDirections`. */
  function VanillaWireConnectionDirections(mask: Bits): (r: seq<Direction>)
    requires IsLong(mask)
    ensures forall d :: d in r <==> HasVanillaWireConnection(mask, d)
    ensures forall a, b :: 0 <= a < b < |r| ==> r[a] != r[b]
  {
    if !(mask[0] || mask[1] || mask[2] || mask[3]) then []
    else
      (if mask[0] then [North] else []) + (if mask[1] then [South] else [])
      + (if mask[2] then [East] else []) + (if mask[3] then [West] else [])
  }

  /** `hasBulkConnection`. */
  predicate HasBulkConnection(mask: Bits, side: Direction)
    requires IsLong(mask)
  {
    Meets(BulkConnectorBit(side), mask)
  }

  /** The literal masks of `hasRedstoneConnection`, as the positions of their set bits. */
  function RedstoneConnectionMask(side: Direction): (r: Bits)
    ensures IsLong(r)
  {
    match side
    case Down => MaskOf({9, 13, 17, 21, 24})     // 0x01222200
    case Up => MaskOf({8, 12, 16, 20, 25})       // 0x02111100
    case North => MaskOf({0, 4, 18, 22, 26})     // 0x04440011
    case South => MaskOf({1, 5, 19, 23, 27})     // 0x08880022
    case East => MaskOf({2, 6, 10, 14, 28})      // 0x10004444
    case West => MaskOf({3, 7, 11, 15, 29})      // 0x20008888
  }

  /** `hasRedstoneConnection`. */
  predicate HasRedstoneConnection(mask: Bits, side: Direction)
    requires IsLong(mask)
  {
    Meets(mask, RedstoneConnectionMask(side))
  }

  /** The hand-written masks select the wires running toward the side, plus the side's connector. */
  lemma RedstoneMaskBits(side: Direction, i: nat)
    requires i < LONG_BITS
    ensures RedstoneConnectionMask(side)[i] <==>
              (i < WIRE_COUNT && WireTable[i].dir == side) || i == CON_POS + FaceIndex(side)
  {
  }

  /** A side is connected iff the mask has a wire running toward it or the side's connector. */
  lemma HasRedstoneConnectionMeaning(mask: Bits, side: Direction)
    requires IsLong(mask)
    ensures HasRedstoneConnection(mask, side) <==>
              (exists i :: 0 <= i < WIRE_COUNT && mask[i] && WireTable[i].dir == side) || mask[CON_POS + FaceIndex(side)]
  {
    if HasRedstoneConnection(mask, side) {
      var i :| 0 <= i < LONG_BITS && mask[i] && RedstoneConnectionMask(side)[i];
      RedstoneMaskBits(side, i);
    }
    if exists i :: 0 <= i < WIRE_COUNT && mask[i] && WireTable[i].dir == side {
      var i :| 0 <= i < WIRE_COUNT && mask[i] && WireTable[i].dir == side;
      RedstoneMaskBits(side, i);
    }
    if mask[CON_POS + FaceIndex(side)] {
      RedstoneMaskBits(side, CON_POS + FaceIndex(side));
    }
  }

  /** `INTERNAL_EDGE_CONNECTION_MAPPING`: the two wires that meet at an inner edge, by bit positions. */
  const InternalEdges: seq<(set<nat>, Wire)> := [
    ({0, 9}, Wire(Down, North)), ({1, 13}, Wire(Down, South)),
    ({2, 17}, Wire(Down, East)), ({3, 21}, Wire(Down, West)),
    ({4, 8}, Wire(Up, North)), ({5, 12}, Wire(Up, South)),
    ({6, 16}, Wire(Up, East)), ({7, 20}, Wire(Up, West)),
    ({10, 18}, Wire(North, East)), ({11, 22}, Wire(North, West)),
    ({14, 19}, Wire(South, East)), ({15, 23}, Wire(South, West))]

  /** Each inner-edge key is the wire on one face toward the other, together with its mirror image. */
  lemma InternalEdgeKeys(e: nat)
    requires e < |InternalEdges|
    ensures var (key, w) := InternalEdges[e];
            Perpendicular(w.face, w.dir) && key == {WireIndex(w.face, w.dir), WireIndex(w.dir, w.face)}
  {
  }

  // ------------------------------------------------------------ field access

  /** `getWireFlags`: the wire field moved down to bit 0 (it starts there already). */
  function WireFlags(w: Bits): (r: Bits)
    requires IsLong(w)
    ensures IsLong(r)
  {
    AndL(w, WIRE_MASK)
  }

  /** `getConnectionFlags`: `(state & STATE_FLAG_CON_MASK) >> 24`. */
  function ConnectionFlags(w: Bits): (r: Bits)
    requires IsLong(w)
    ensures IsLong(r)
  {
    var masked := AndL(w, CON_MASK);
    seq(LONG_BITS, i requires 0 <= i < LONG_BITS => if i + CON_POS < LONG_BITS then masked[i + CON_POS] else masked[LONG_BITS - 1])
  }

  /** The field accessors deliver exactly their field, and nothing else. */
  lemma FieldAccess(w: Bits, i: nat)
    requires IsLong(w) && i < LONG_BITS
    ensures WireFlags(w)[i] <==> i < WIRE_COUNT && w[WIRE_POS + i]
    ensures ConnectionFlags(w)[i] <==> i < CON_COUNT && w[CON_POS + i]
  {
  }

  /** `getWireFlag(index)`: Java reduces a `long` shift distance modulo 64. */
  predicate WireFlag(w: Bits, index: int)
    requires IsLong(w)
  {
    w[(WIRE_POS + index) % LONG_BITS]
  }

  /** `getConnectionFlag(index)`. */
  predicate ConnectionFlag(w: Bits, index: int)
    requires IsLong(w)
  {
    w[(CON_POS + index) % LONG_BITS]
  }

  /** Each flag accessor reads bit `index` of its field. */
  lemma FlagAccess(w: Bits, index: nat)
    requires IsLong(w)
    ensures index < WIRE_COUNT ==> (WireFlag(w, index) <==> WireFlags(w)[index])
    ensures index < CON_COUNT ==> (ConnectionFlag(w, index) <==> ConnectionFlags(w)[index])
  {
  }

  // -------------------------------------------------------------- side power

  /** The lowest bit of a face's power nibble. */
  function PowerShift(side: Direction): (r: nat)
    ensures PWR_POS <= r && r + 4 <= PWR_POS + 24
  {
    PWR_POS + 4 * FaceIndex(side)
  }

  /** `getSidePower`: `(state >> shift) & 0xf`. */
  function SidePower(w: Bits, side: Direction): (r: Nibble)
    requires IsLong(w)
  {
    var s := PowerShift(side);
    FromBits(Bits4(w[s], w[s + 1], w[s + 2], w[s + 3]))
  }

  /** `setSidePower`: the nibble replaced by `p & 0xf`. */
  function SetSidePower(w: Bits, side: Direction, p: Int32): (r: Bits)
    requires IsLong(w)
    ensures IsLong(r)
    ensures SidePower(r, side) == Low(p)
    ensures forall i :: 0 <= i < LONG_BITS && !(PowerShift(side) <= i < PowerShift(side) + 4) ==> r[i] == w[i]
  {
    var s := PowerShift(side);
    var b := BitsOf(Low(p));
    BitsDetermine(Low(p));
    seq(LONG_BITS, i requires 0 <= i < LONG_BITS =>
      if i == s then b.b0 else if i == s + 1 then b.b1 else if i == s + 2 then b.b2 else if i == s + 3 then b.b3 else w[i])
  }

  /** Setting one side's power leaves every other side's power alone. */
  lemma SetSidePowerOthers(w: Bits, side: Direction, other: Direction, p: Int32)
    requires IsLong(w) && side != other
    ensures SidePower(SetSidePower(w, side, p), other) == SidePower(w, other)
  {
    var r := SetSidePower(w, side, p);
    var s := PowerShift(other);
    assert FaceIndex(side) != FaceIndex(other);
    assert r[s] == w[s] && r[s + 1] == w[s + 1] && r[s + 2] == w[s + 2] && r[s + 3] == w[s + 3];
  }

  /** Writing back the power just read changes nothing. */
  lemma SetSidePowerSame(w: Bits, side: Direction)
    requires IsLong(w)
    ensures SetSidePower(w, side, SidePower(w, side)) == w
  {
    var s := PowerShift(side);
    var v := SidePower(w, side);
    assert Low(v) == v;
    var r := SetSidePower(w, side, v);
    assert BitsOf(v) == Bits4(w[s], w[s + 1], w[s + 2], w[s + 3]);
    assert forall i :: 0 <= i < LONG_BITS ==> r[i] == w[i];
  }

  /** `hasVanillaRedstoneConnection`: a vanilla wire toward the side or the side's connector. */
  predicate HasVanillaRedstoneConnection(w: Bits, side: Direction)
    requires IsLong(w)
  {
    HasVanillaWireConnection(w, side) || Meets(w, BulkConnectorBit(side))
  }

  // -------------------------------------------------------------- dust count

  /** The redstone dust a track holds: one per wire bit and one per connector bit. */
  function Dust(w: Bits): nat
    requires IsLong(w)
  {
    Count(w, WIRE_POS, WIRE_POS + WIRE_COUNT) + Count(w, CON_POS, CON_POS + CON_COUNT)
  }

  /** `getRedstoneDustCount`: the set bits of the wire field plus those of the connector field. */
  method DustCount(w: Bits) returns (n: nat)
    requires IsLong(w)
    ensures n == Dust(w)
  {
    var wires := WireFlags(w);
    var connectors := ConnectionFlags(w);
    var a := FieldCount(wires, WIRE_COUNT);
    var b := FieldCount(connectors, CON_COUNT);
    n := a + b;
    CountSame(wires, w, 0, WIRE_COUNT);
    CountShift(connectors, w, 0, CON_COUNT, CON_POS);
  }

  /**
   * One loop of `getRedstoneDustCount`: test the lowest bit and shift, at most
   * `limit` times, stopping early once the remaining value is 0.
   */
  method FieldCount(field: Bits, limit: nat) returns (n: nat)
    requires IsLong(field) && limit < LONG_BITS
    requires forall k :: limit <= k < LONG_BITS ==> !field[k]
    ensures n == Count(field, 0, limit)
  {
    n := 0;
    var rem := field;
    var i := 0;
    assert rem == Window(field, 0, limit);
    while NonZero(rem) && i < limit
      invariant 0 <= i <= limit
      invariant rem == Window(field, i, limit)
      invariant n == Count(field, 0, i)
    {
      CountSplit(field, 0, i, i + 1);
      if rem[0] {
        n := n + 1;
      }
      ShiftStep(field, i, limit);
      rem := ShiftDown(rem);
      i := i + 1;
    }
    RestZero(field, i, limit);
    CountSplit(field, 0, i, limit);
  }

  /** `rem >>= 1` on a value whose top bit is clear. */
  function ShiftDown(a: Bits): (r: Bits)
    requires IsLong(a)
    ensures IsLong(r)
  {
    a[1..] + [a[LONG_BITS - 1]]
  }

  /** What is left of a field after i shifts: its bits i..limit-1, moved down to bit 0. */
  function Window(field: Bits, i: nat, limit: nat): (r: Bits)
    requires IsLong(field) && limit < LONG_BITS
    ensures IsLong(r)
  {
    seq(LONG_BITS, k requires 0 <= k < LONG_BITS => k + i < limit && field[k + i])
  }

  /** Shifting the remainder once more moves the loop one bit further through the field. */
  lemma ShiftStep(field: Bits, i: nat, limit: nat)
    requires IsLong(field) && limit < LONG_BITS
    ensures ShiftDown(Window(field, i, limit)) == Window(field, i + 1, limit)
  {
    var a := ShiftDown(Window(field, i, limit));
    var b := Window(field, i + 1, limit);
    assert forall k :: 0 <= k < LONG_BITS ==> a[k] == b[k];
  }

  /** Once the remainder is zero, or the range is used up, the rest of the field counts nothing. */
  lemma RestZero(field: Bits, i: nat, limit: nat)
    requires IsLong(field) && i <= limit < LONG_BITS
    requires i < limit ==> !NonZero(Window(field, i, limit))
    ensures Count(field, i, limit) == 0
  {
    CountZero(field, i, limit);
    var rem := Window(field, i, limit);
    forall k | i <= k < limit
      ensures !field[k]
    {
      assert rem[k - i] == field[k];
    }
  }

  // ---------------------------------------------------------- adding wires

  /** The wire bits of `flags` that are not set yet in w. */
  function NewWires(w: Bits, flags: Bits): nat
    requires IsLong(w) && IsLong(flags)
  {
    Count(Clear(flags, w), 0, WIRE_COUNT)
  }

  /** `addWireFlags`: set the wire bits of `flags`, returning how many were new. */
  method AddWireFlags(w: Bits, flags: Bits) returns (r: Bits, added: nat)
    requires IsLong(w) && IsLong(flags)
    ensures IsLong(r)
    ensures forall i :: 0 <= i < LONG_BITS ==> (r[i] <==> w[i] || (i < WIRE_COUNT && flags[i]))
    ensures added == NewWires(w, flags)
    ensures Dust(r) == Dust(w) + added
  {
    r := w;
    added := 0;
    var unset := Clear(flags, w);
    assert r == Merged(w, flags, 0);
    for i := 0 to WIRE_COUNT
      invariant r == Merged(w, flags, i)
      invariant added == Count(unset, 0, i)
      invariant Count(r, 0, WIRE_COUNT) == Count(w, 0, WIRE_COUNT) + added
    {
      CountSplit(unset, 0, i, i + 1);
      MergeStep(w, flags, i);
      // `(flags & mask) != 0 && (state_flags_ & mask) == 0` with `mask == 1L << i`
      if flags[i] && !r[i] {
        var next := r[i := true];
        CountFlip(r, next, i, 0, WIRE_COUNT);
        r := next;
        added := added + 1;
      }
    }
    assert forall k :: 0 <= k < LONG_BITS ==> r[k] == Merged(w, flags, WIRE_COUNT)[k];
    CountSame(r, w, CON_POS, CON_POS + CON_COUNT);
  }

  /** The flags after the first i iterations of `addWireFlags`. */
  function Merged(w: Bits, flags: Bits, i: nat): (r: Bits)
    requires IsLong(w) && IsLong(flags)
    ensures IsLong(r)
  {
    seq(LONG_BITS, k requires 0 <= k < LONG_BITS => w[k] || (k < i && flags[k]))
  }

  /** One more iteration sets bit i exactly when `flags` has it and it is still clear. */
  lemma MergeStep(w: Bits, flags: Bits, i: nat)
    requires IsLong(w) && IsLong(flags) && i < LONG_BITS
    ensures !w[i] ==> Merged(w, flags, i)[i] == false
    ensures flags[i] && !Merged(w, flags, i)[i] ==> Merged(w, flags, i)[i := true] == Merged(w, flags, i + 1)
    ensures !(flags[i] && !Merged(w, flags, i)[i]) ==> Merged(w, flags, i) == Merged(w, flags, i + 1)
  {
  }

  // ------------------------------------------------------------ activation

  /** What the player holds when clicking a track. */
  datatype Held = EmptyHand | RedstoneDust | Pen | OtherItem

  /** The new flags and the redstone used (positive) or given back (negative). */
  datatype Activation = Activation(flags: Bits, materialUse: int)

  /**
   * The bit a click toggles. `face` is the face the track lies on, `dir` the
   * nearest in-plane direction of the hit point and `centre` whether the hit
   * was within 0.12 of the centre (both computed in floating point by the
   * caller).
   */
  function FlipMask(w: Bits, face: Direction, dir: Direction, centre: bool, removeOnly: bool): (r: Bits)
    requires IsLong(w)
    ensures IsLong(r)
  {
    if centre && (!removeOnly || NonZero(ConnectionFlags(w))) then
      if Meets(WireFlags(w), AllElementsOnFace(face)) then BulkConnectorBit(face) else WireBit(face, dir)
    else WireBit(face, dir)
  }

  /** The toggled bit is a single dust bit of the face, or no bit at all. */
  lemma FlipMaskShape(w: Bits, face: Direction, dir: Direction, centre: bool, removeOnly: bool)
    requires IsLong(w)
    ensures var f := FlipMask(w, face, dir, centre, removeOnly);
            f == ZeroL() || exists k :: 0 <= k < CON_POS + CON_COUNT && f == Single(k) && AllElementsOnFace(face)[k]
  {
    WireBitShape(face, dir);
    if Perpendicular(face, dir) {
      AllElementsOnFaceBits(face, WireIndex(face, dir));
      TableCovers(face, dir);
    }
    AllElementsOnFaceBits(face, CON_POS + FaceIndex(face));
  }

  /** Removing the clicked element, then a connector left alone on the face, then everything if no wire is left. */
  function Remove(w: Bits, flip: Bits, face: Direction): (r: Activation)
    requires IsLong(w) && IsLong(flip)
    ensures IsLong(r.flags)
  {
    var w1 := Clear(w, flip);
    var bc := BulkConnectorBit(face);
    var lone := AndL(w1, AllElementsOnFace(face)) == bc;
    var w2 := if lone then Clear(w1, bc) else w1;
    var use := if lone then -2 else -1;
    if !NonZero(WireFlags(w2)) then Activation(ZeroL(), use - Dust(w2)) else Activation(w2, use)
  }

  /** Whether some face's elements include the bit: `can_place`. */
  predicate CanPlace(flip: Bits)
    requires IsLong(flip)
  {
    exists i :: 0 <= i < |All| && Meets(AllElementsOnFace(All[i]), flip)
  }

  /**
   * The flag part of `handleActivation`, up to the point where the new
   * flags are known. `clickedFace` is the face of the block that was
   * clicked; the track lies on the opposite face. When material is used,
   * Java goes on to rewrite the face's power nibble in the same word
   * through `setSidePower`, driven by queries on the world; `flags` is the
   * word before that rewrite.
   */
  function HandleActivation(w: Bits, held: Held, clickedFace: Direction, dir: Direction, centre: bool, removeOnly: bool)
    : (r: Activation)
    requires IsLong(w)
    ensures IsLong(r.flags)
  {
    if held == OtherItem then Activation(w, 0)
    else
      var face := Opposite(clickedFace);
      var flip := FlipMask(w, face, dir, centre, removeOnly);
      if Meets(w, flip) then Remove(w, flip, face)
      else if held != EmptyHand && !removeOnly && CanPlace(flip) then Activation(OrL(w, flip), 1)
      else Activation(w, 0)
  }

  /** Dust is conserved: the dust in the new flags is the old dust plus the material used. */
  lemma ActivationConservesDust(w: Bits, held: Held, clickedFace: Direction, dir: Direction, centre: bool, removeOnly: bool)
    requires IsLong(w)
    ensures var r := HandleActivation(w, held, clickedFace, dir, centre, removeOnly);
            Dust(r.flags) == Dust(w) + r.materialUse
  {
    if held != OtherItem {
      var face := Opposite(clickedFace);
      var flip := FlipMask(w, face, dir, centre, removeOnly);
      FlipMaskShape(w, face, dir, centre, removeOnly);
      if flip != ZeroL() {
        var k :| 0 <= k < CON_POS + CON_COUNT && flip == Single(k) && AllElementsOnFace(face)[k];
        if Meets(w, flip) {
          RemoveConservesDust(w, k, face);
        } else if held != EmptyHand && !removeOnly && CanPlace(flip) {
          DustFlip(w, OrL(w, flip), k);
        }
      }
    }
  }

  /** Setting one clear dust bit adds one unit of dust. */
  lemma DustFlip(a: Bits, b: Bits, k: nat)
    requires IsLong(a) && IsLong(b) && k < CON_POS + CON_COUNT
    requires forall i :: 0 <= i < LONG_BITS && i != k ==> a[i] == b[i]
    requires !a[k] && b[k]
    ensures Dust(b) == Dust(a) + 1
  {
    if k < WIRE_COUNT {
      CountFlip(a, b, k, 0, WIRE_COUNT);
      CountSame(a, b, CON_POS, CON_POS + CON_COUNT);
    } else {
      CountSame(a, b, 0, WIRE_COUNT);
      CountFlip(a, b, k, CON_POS, CON_POS + CON_COUNT);
    }
  }

  /** Removal gives back exactly the dust it takes out of the flags. */
  lemma RemoveConservesDust(w: Bits, k: nat, face: Direction)
    requires IsLong(w) && k < CON_POS + CON_COUNT && w[k]
    ensures var r := Remove(w, Single(k), face); Dust(r.flags) == Dust(w) + r.materialUse
  {
    var w1 := Clear(w, Single(k));
    DustFlip(w1, w, k);
    var bc := BulkConnectorBit(face);
    var c := CON_POS + FaceIndex(face);
    var lone := AndL(w1, AllElementsOnFace(face)) == bc;
    var w2 := if lone then Clear(w1, bc) else w1;
    if lone {
      assert AndL(w1, AllElementsOnFace(face))[c] == bc[c];
      DustFlip(w2, w1, c);
    }
    if !NonZero(WireFlags(w2)) {
      assert Dust(ZeroL()) == 0 by {
        CountZero(ZeroL(), 0, WIRE_COUNT);
        CountZero(ZeroL(), CON_POS, CON_POS + CON_COUNT);
      }
    }
  }

  /** What a click does to the flags: removal, the lone connector, the empty track and placement. */
  lemma ActivationEffects(w: Bits, held: Held, clickedFace: Direction, dir: Direction, centre: bool, removeOnly: bool)
    requires IsLong(w) && held != OtherItem
    ensures var face := Opposite(clickedFace);
            var flip := FlipMask(w, face, dir, centre, removeOnly);
            var r := HandleActivation(w, held, clickedFace, dir, centre, removeOnly);
            && (Meets(w, flip) ==> r.materialUse < 0)
            && (Meets(w, flip) ==> !Meets(r.flags, flip))
            && (Meets(w, flip) && r.flags[CON_POS + FaceIndex(face)] ==>
                  exists i :: 4 * FaceIndex(face) <= i < 4 * FaceIndex(face) + 4 && r.flags[i])
            && (Meets(w, flip) && !NonZero(WireFlags(r.flags)) ==> r.flags == ZeroL())
            && (!Meets(w, flip) && held != EmptyHand && !removeOnly && CanPlace(flip) ==>
                  r.flags == OrL(w, flip) && r.materialUse == 1)
            && (!Meets(w, flip) && !(held != EmptyHand && !removeOnly && CanPlace(flip)) ==>
                  r.flags == w && r.materialUse == 0)
  {
    var face := Opposite(clickedFace);
    var flip := FlipMask(w, face, dir, centre, removeOnly);
    if Meets(w, flip) {
      RemoveEffects(w, flip, face);
    }
  }

  /** The removal branch in detail. */
  lemma RemoveEffects(w: Bits, flip: Bits, face: Direction)
    requires IsLong(w) && IsLong(flip)
    ensures var r := Remove(w, flip, face);
            && r.materialUse < 0
            && !Meets(r.flags, flip)
            && (r.flags[CON_POS + FaceIndex(face)] ==>
                  exists i :: 4 * FaceIndex(face) <= i < 4 * FaceIndex(face) + 4 && r.flags[i])
            && (!NonZero(WireFlags(r.flags)) ==> r.flags == ZeroL())
  {
    var r := Remove(w, flip, face);
    var w1 := Clear(w, flip);
    var bc := BulkConnectorBit(face);
    var c := CON_POS + FaceIndex(face);
    var lone := AndL(w1, AllElementsOnFace(face)) == bc;
    var w2 := if lone then Clear(w1, bc) else w1;
    if NonZero(WireFlags(w2)) {
      assert r.flags == w2;
      if w2[c] {
        assert !lone;
        assert w1[c];
        var a := AndL(w1, AllElementsOnFace(face));
        assert a != bc;
        var i :| 0 <= i < LONG_BITS && a[i] != bc[i];
        AllElementsOnFaceBits(face, i);
        if i < WIRE_COUNT {
          TableEntry(i);
          assert 4 * FaceIndex(face) <= i < 4 * FaceIndex(face) + 4;
        } else {
          assert false;
        }
      }
    } else {
      assert r.flags == ZeroL();
    }
  }

  // ------------------------------------------------------------ placement

  /** The new flags, the dust dropped and the return value of `handlePostPlacement`. */
  datatype PostPlacement = PostPlacement(flags: Bits, dropped: nat, hasWire: bool)

  /**
   * The flag part of `handlePostPlacement`. `supported` is whether the
   * neighbour on `facing` can still carry a track (a world query).
   */
  function HandlePostPlacement(w: Bits, facing: Direction, supported: bool): (r: PostPlacement)
    requires IsLong(w)
    ensures IsLong(r.flags)
  {
    var flags := if supported then w else Clear(w, AllElementsOnFace(facing));
    var dropped := if flags != w then Dust(w) - Dust(flags) else 0;
    PostPlacement(flags, if dropped < 0 then 0 else dropped, NonZero(WireFlags(flags)))
  }

  /** Losing support strips the face's elements, drops their dust, and reports whether any wire is left. */
  lemma PostPlacementEffects(w: Bits, facing: Direction, supported: bool)
    requires IsLong(w)
    ensures var r := HandlePostPlacement(w, facing, supported);
            && (r.hasWire <==> exists i :: 0 <= i < WIRE_COUNT && r.flags[i])
            && (supported ==> r.flags == w && r.dropped == 0)
            && (!supported ==> forall i :: 0 <= i < LONG_BITS ==>
                  (r.flags[i] <==> w[i] && !AllElementsOnFace(facing)[i]))
            && Dust(r.flags) + r.dropped == Dust(w)
  {
    var r := HandlePostPlacement(w, facing, supported);
    if !supported {
      DustMonotone(r.flags, w);
    }
    if r.hasWire {
      var i :| 0 <= i < LONG_BITS && WireFlags(r.flags)[i];
      assert i < WIRE_COUNT && r.flags[i];
    }
  }

  /** Clearing bits never adds dust. */
  lemma DustMonotone(a: Bits, b: Bits)
    requires IsLong(a) && IsLong(b)
    requires forall i :: 0 <= i < LONG_BITS && a[i] ==> b[i]
    ensures Dust(a) <= Dust(b)
  {
    CountMonotone(a, b, 0, WIRE_COUNT);
    CountMonotone(a, b, CON_POS, CON_POS + CON_COUNT);
  }

  lemma {:induction false} CountMonotone(a: Bits, b: Bits, lo: nat, hi: nat)
    requires lo <= hi <= |a| && hi <= |b|
    requires forall i :: lo <= i < hi && a[i] ==> b[i]
    decreases hi - lo
    ensures Count(a, lo, hi) <= Count(b, lo, hi)
  {
    if lo < hi {
      CountMonotone(a, b, lo + 1, hi);
    }
  }
}
