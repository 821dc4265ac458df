/**
 * The six ports of a control box and the nibble words that describe them:
 * port i of `PortNames` owns nibble i of every mask and data word, and the
 * two top nibbles of the Java `int` stay unused.
 */
module ControlBoxPorts {
  import opened JavaInt
  import opened Nibbles

  /** `Defs.PORT_NAMES`, indexed by the direction ordinal (down, up, north, south, west, east). */
  const PortNames: seq<string> := ["d", "u", "r", "y", "g", "b"]

  const PortCount: nat := 6

  /** What `code()` makes of a port: driven by the program, read by it, or neither. */
  datatype Role = Output | Input | Unused

  /** Port names are one lower-case letter each, and no two are alike. */
  lemma PortNamesShape(a: nat, b: nat)
    requires a < PortCount && b < PortCount
    ensures |PortNames[a]| == 1 && 'a' <= PortNames[a][0] <= 'z'
    ensures PortNames[a][0] == PortNames[b][0] ==> a == b
  {
  }

  /**
   * `out |= (v[i] & 0xf) << (4*i)` for the ports i..5, starting from 0.
   */
  function PackFrom(vals: seq<Int32>, i: nat): (r: Word)
    requires |vals| == PortCount && i <= PortCount
    decreases PortCount - i
    ensures |r| == INT_NIBBLES
    ensures forall j :: i <= j < PortCount ==> r[j] == Low(vals[j])
    ensures forall j :: 0 <= j < i || PortCount <= j < INT_NIBBLES ==> r[j] == 0
  {
    if i == PortCount then Zero(INT_NIBBLES)
    else
      var rest := PackFrom(vals, i + 1);
      var r := Or(Place(INT_NIBBLES, Low(vals[i]), i), rest);
      r
  }

  /** The word a control box drives: nibble j is the low four bits of port j's value, the top two nibbles are 0. */
  function PackPorts(vals: seq<Int32>): (r: Word)
    requires |vals| == PortCount
    ensures |r| == INT_NIBBLES
    ensures forall j :: 0 <= j < PortCount ==> r[j] == Low(vals[j])
    ensures forall j :: PortCount <= j < INT_NIBBLES ==> r[j] == 0
  {
    PackFrom(vals, 0)
  }

  /** `mask |= 0xf << (4*i)` for each port i in i..5 that has the role. */
  function MaskFrom(roles: seq<Role>, role: Role, i: nat): (r: Word)
    requires |roles| == PortCount && i <= PortCount
    decreases PortCount - i
    ensures |r| == INT_NIBBLES
    ensures forall j :: i <= j < PortCount ==> r[j] == if roles[j] == role then 15 else 0
    ensures forall j :: 0 <= j < i || PortCount <= j < INT_NIBBLES ==> r[j] == 0
  {
    if i == PortCount then Zero(INT_NIBBLES)
    else
      var rest := MaskFrom(roles, role, i + 1);
      if roles[i] != role then rest
      else
        var r := Or(NibbleMask(INT_NIBBLES, i), rest);
        r
  }

  /** The mask `code()` builds for one role. */
  function RoleMask(roles: seq<Role>, role: Role): (r: Word)
    requires |roles| == PortCount
    ensures |r| == INT_NIBBLES && IsMask(r)
    ensures forall j :: 0 <= j < PortCount ==> (r[j] == 15 <==> roles[j] == role)
    ensures forall j :: PortCount <= j < INT_NIBBLES ==> r[j] == 0
  {
    MaskFrom(roles, role, 0)
  }

  /** Masks for two different roles never share a bit. */
  lemma RoleMasksDisjoint(roles: seq<Role>, a: Role, b: Role)
    requires |roles| == PortCount && a != b
    ensures And(RoleMask(roles, a), RoleMask(roles, b)) == Zero(INT_NIBBLES)
  {
  }
}
