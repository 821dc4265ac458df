/**
 * The control box's `Logic`: the port masks derived from a program
 * (`code`), one evaluation step (`tick`), and the signal a box emits.
 * Port i of `PortNames` owns nibble i of every mask and data word.
 */
module ControlBoxLogic {
  import opened JavaInt
  import opened Directions
  import opened ControlBoxExpr
  import opened ControlBoxParser
  import opened ControlBoxProgram
  import opened Nibbles
  import opened ControlBoxPorts

  /** The state of one control box's logic; the six words are Java `int`s. */
  datatype Logic = Logic(
    inputMask: Word,
    outputMask: Word,
    inputData: Word,
    outputData: Word,
    intrRedges: Word,
    intrFedges: Word,
    mem: Mem,
    program: Program,
    code: string)

  /** Every word has the width of a Java `int`. */
  predicate WellFormed(l: Logic)
  {
    && |l.inputMask| == INT_NIBBLES && |l.outputMask| == INT_NIBBLES
    && |l.inputData| == INT_NIBBLES && |l.outputData| == INT_NIBBLES
    && |l.intrRedges| == INT_NIBBLES && |l.intrFedges| == INT_NIBBLES
  }

  /** A freshly constructed `Logic`. */
  const Initial: Logic :=
    Logic(Zero(INT_NIBBLES), Zero(INT_NIBBLES), Zero(INT_NIBBLES), Zero(INT_NIBBLES),
          Zero(INT_NIBBLES), Zero(INT_NIBBLES), Mem(map[], 0), EmptyProgram, "")

  // --------------------------------------------------------------- symbols

  /** `symbol(key, value)`: keys are stored lower-cased. */
  function SetSymbol(m: Mem, key: string, v: Int32): (r: Mem)
    ensures LowerString(key) in r.syms && r.syms[LowerString(key)] == v
    ensures forall k :: k in m.syms && k != LowerString(key) ==> k in r.syms && r.syms[k] == m.syms[k]
    ensures r.syms.Keys == m.syms.Keys + {LowerString(key)} && r.draws == m.draws
  {
    m.(syms := m.syms[LowerString(key) := v])
  }

  /** `symbol(key)`: the stored value, 0 when absent. */
  function Symbol(m: Mem, key: string): (r: Int32)
    ensures LowerString(key) !in m.syms ==> r == 0
  {
    Get(m.syms, LowerString(key), 0)
  }

  /** A string without upper-case letters is its own lower-case form. */
  lemma LowerFixed(s: string)
    requires forall i :: 0 <= i < |s| ==> !('A' <= s[i] <= 'Z')
    ensures LowerString(s) == s
  {
  }

  /** Port names and the port keys built from them are lower-case already. */
  lemma PortKeyLower(j: nat, suffix: string)
    requires j < PortCount && suffix in ["", ".re", ".fe"]
    ensures LowerString(PortNames[j] + suffix) == PortNames[j] + suffix
  {
    PortNamesShape(j, j);
    LowerFixed(PortNames[j] + suffix);
  }

  /** Keys built from a port name and a suffix of equal length differ unless both parts do not. */
  lemma PortKeysDistinct(a: nat, b: nat, s: string, t: string)
    requires a < PortCount && b < PortCount && |s| == |t|
    ensures PortNames[a] + s == PortNames[b] + t ==> a == b && s == t
  {
    PortNamesShape(a, b);
    PortNamesShape(b, a);
    if PortNames[a] + s == PortNames[b] + t {
      assert (PortNames[a] + s)[0] == PortNames[a][0];
      assert (PortNames[b] + t)[0] == PortNames[b][0];
      assert s == (PortNames[a] + s)[1..];
      assert t == (PortNames[b] + t)[1..];
    }
  }

  // ---------------------------------------------------------------- code()

  /** Whether the program mentions `port` with one of the suffixes `code()` checks. */
  predicate Referenced(symbols: set<string>, port: string)
  {
    || port in symbols || port + ".re" in symbols || port + ".fe" in symbols
    || port + ".co" in symbols || port + ".co.re" in symbols || port + ".co.fe" in symbols
  }

  /** Whether port i's comparator input is used through an edge symbol. */
  predicate ComparatorEdge(symbols: set<string>, i: nat)
    requires i < PortCount
  {
    PortNames[i] + ".co.re" in symbols || PortNames[i] + ".co.fe" in symbols
  }

  /** The program symbols after `code()` adds `port.co` for every port with a `.co.re` or `.co.fe` symbol. */
  function WithComparators(symbols: set<string>): (r: set<string>)
    ensures symbols <= r
    ensures forall j :: 0 <= j < PortCount && ComparatorEdge(symbols, j) ==> PortNames[j] + ".co" in r
  {
    symbols + set j | 0 <= j < PortCount && ComparatorEdge(symbols, j) :: PortNames[j] + ".co"
  }

  /** Every symbol `WithComparators` adds is the `.co` symbol of a port with a comparator edge. */
  lemma ComparatorAdded(symbols: set<string>, x: string)
    requires x in WithComparators(symbols) && x !in symbols
    ensures exists j :: 0 <= j < PortCount && ComparatorEdge(symbols, j) && x == PortNames[j] + ".co"
  {
  }

  /** Adding the comparator symbols changes no port's role. */
  lemma WithComparatorsKeepsReferences(symbols: set<string>, i: nat)
    requires i < PortCount
    ensures Referenced(WithComparators(symbols), PortNames[i]) == Referenced(symbols, PortNames[i])
  {
    var port := PortNames[i];
    var w := WithComparators(symbols);
    if Referenced(w, port) && !Referenced(symbols, port) {
      var x :| x in [port, port + ".re", port + ".fe", port + ".co", port + ".co.re", port + ".co.fe"] && x in w;
      ComparatorAdded(symbols, x);
      var j :| 0 <= j < PortCount && ComparatorEdge(symbols, j) && x == PortNames[j] + ".co";
      PortNamesShape(i, j);
      PortNamesShape(j, i);
      PortKeysDistinct(j, i, ".co", ".re");
      PortKeysDistinct(j, i, ".co", ".fe");
      PortKeysDistinct(j, i, ".co", ".co");
      assert false;
    }
  }

  /** The role of port i: output if assigned, else input if referenced. */
  function RoleOf(assignments: set<string>, symbols: set<string>, i: nat): (r: Role)
    requires i < PortCount
    ensures r == Output <==> PortNames[i] in assignments
    ensures r == Input <==> PortNames[i] !in assignments && Referenced(symbols, PortNames[i])
  {
    if PortNames[i] in assignments then Output
    else if Referenced(symbols, PortNames[i]) then Input
    else Unused
  }

  function Roles(assignments: set<string>, symbols: set<string>): (r: seq<Role>)
    ensures |r| == PortCount && forall i :: 0 <= i < PortCount ==> r[i] == RoleOf(assignments, symbols, i)
  {
    seq(PortCount, i requires 0 <= i < PortCount => RoleOf(assignments, symbols, i))
  }

  /**
   * The word invariants `code()` establishes: both masks are masks, they
   * are disjoint, and output data lies inside the output mask.
   */
  predicate Consistent(l: Logic)
  {
    && WellFormed(l) && IsMask(l.inputMask) && IsMask(l.outputMask)
    && Nibbles.And(l.outputMask, l.inputMask) == Zero(INT_NIBBLES)
    && (forall i :: 0 <= i < INT_NIBBLES && l.outputMask[i] == 0 ==> l.outputData[i] == 0)
  }

  /** The program `code()` installs: `MultiLineMathExpr.of(code, "", functions)` plus the comparator symbols. */
  function Compile(newCode: string): (p: Program)
    ensures WellSorted(p)
    ensures p.entries == ProgramOf(newCode, "", Builtins).entries
    ensures p.invalid == ProgramOf(newCode, "", Builtins).invalid
    ensures p.assignments == ProgramOf(newCode, "", Builtins).assignments
    ensures forall j :: 0 <= j < PortCount ==>
              Referenced(p.symbols, PortNames[j]) == Referenced(ProgramOf(newCode, "", Builtins).symbols, PortNames[j])
  {
    var p0 := ProgramOf(newCode, "", Builtins);
    forall j | 0 <= j < PortCount ensures Referenced(WithComparators(p0.symbols), PortNames[j]) == Referenced(p0.symbols, PortNames[j]) {
      WithComparatorsKeepsReferences(p0.symbols, j);
    }
    p0.(symbols := WithComparators(p0.symbols))
  }

  /** The (input, output) masks `code()` derives from a program. */
  function PortMasks(p: Program): (r: (Word, Word))
    ensures |r.0| == INT_NIBBLES && |r.1| == INT_NIBBLES && IsMask(r.0) && IsMask(r.1)
    ensures Nibbles.And(r.1, r.0) == Zero(INT_NIBBLES)
    ensures forall j :: 0 <= j < PortCount ==> (r.1[j] == 15 <==> PortNames[j] in p.assignments)
    ensures forall j :: 0 <= j < PortCount ==>
              (r.0[j] == 15 <==> PortNames[j] !in p.assignments && Referenced(p.symbols, PortNames[j]))
    ensures forall j :: PortCount <= j < INT_NIBBLES ==> r.0[j] == 0 && r.1[j] == 0
  {
    var roles := Roles(p.assignments, p.symbols);
    RoleMasksDisjoint(roles, Output, Input);
    (RoleMask(roles, Input), RoleMask(roles, Output))
  }

  /** Whether `code(newCode)` returns early: the same code is installed and its program has entries. */
  predicate Unchanged(l: Logic, newCode: string)
  {
    l.code == newCode && l.program.entries != []
  }

  /** `code(newCode)`: the new logic and whether the program is free of parse errors. */
  function Code(l: Logic, newCode: string): (r: (Logic, bool))
    requires WellFormed(l)
    ensures WellFormed(r.0)
    ensures Unchanged(l, newCode) ==> r.0 == l
    ensures r.1 <==> r.0.program.invalid == []
    ensures r.0.code == newCode
    ensures !Unchanged(l, newCode) ==>
              && r.0.program == Compile(newCode) && r.0.mem.syms == map[]
              && r.0.inputMask == PortMasks(r.0.program).0 && r.0.outputMask == PortMasks(r.0.program).1
              && r.0.inputData == l.inputData
    ensures !Unchanged(l, newCode) ==>
              forall i :: 0 <= i < INT_NIBBLES && r.0.outputMask[i] == 0 ==> r.0.outputData[i] == 0
  {
    if Unchanged(l, newCode) then (l, l.program.invalid == [])
    else
      var r := Install(l, Compile(newCode), newCode);
      (r, r.program.invalid == [])
  }

  /** The part of `code()` that runs for new text: install its program, rebuild the masks, forget the symbols. */
  function Install(l: Logic, p: Program, newCode: string): (r: Logic)
    requires WellFormed(l)
    ensures WellFormed(r) && r.code == newCode
    ensures r.program == p && r.mem.syms == map[]
    ensures r.inputMask == PortMasks(p).0 && r.outputMask == PortMasks(p).1
    ensures r.inputData == l.inputData
    ensures forall i :: 0 <= i < INT_NIBBLES && r.outputMask[i] == 0 ==> r.outputData[i] == 0
  {
    var masks := PortMasks(p);
    Logic(masks.0, masks.1, l.inputData, Nibbles.And(l.outputData, masks.1), l.intrRedges, l.intrFedges,
          l.mem.(syms := map[]), p, newCode)
  }

  /** `code()` keeps the word invariants, and a fresh program establishes them. */
  lemma CodeConsistent(l: Logic, newCode: string)
    requires WellFormed(l)
    requires Consistent(l) || !Unchanged(l, newCode)
    ensures Consistent(Code(l, newCode).0)
  {
  }

  /**
   * After a fresh `code()`, an assigned port is an output and never an
   * input, and a port the program only reads is an input.
   */
  lemma CodeRoles(l: Logic, newCode: string, j: nat)
    requires WellFormed(l) && j < PortCount
    requires !Unchanged(l, newCode)
    ensures var r := Code(l, newCode).0;
      && (PortNames[j] in ProgramOf(newCode, "", Builtins).assignments ==> r.outputMask[j] == 15 && r.inputMask[j] == 0)
      && (PortNames[j] !in ProgramOf(newCode, "", Builtins).assignments ==> r.outputMask[j] == 0)
      && (r.inputMask[j] == 15 <==>
            PortNames[j] !in ProgramOf(newCode, "", Builtins).assignments &&
            Referenced(ProgramOf(newCode, "", Builtins).symbols, PortNames[j]))
  {
  }

  /** Submitting the same code twice leaves the second submission without effect. */
  lemma CodeIdempotent(l: Logic, newCode: string)
    requires WellFormed(l)
    requires Code(l, newCode).0.program.entries != []
    ensures Code(Code(l, newCode).0, newCode) == Code(l, newCode)
  {
  }

  // ---------------------------------------------------------------- tick()

  /** The key of port j's rising (`.re`) or falling (`.fe`) edge symbol. */
  function EdgeKey(j: nat, rising: bool): (r: string)
    requires j < PortCount
  {
    PortNames[j] + (if rising then ".re" else ".fe")
  }

  /** Port names and their edge keys are lower-case, pairwise distinct, and end as their kind says. */
  lemma PortKeyFacts(a: nat, b: nat, x: bool, y: bool)
    requires a < PortCount && b < PortCount
    ensures LowerString(PortNames[a]) == PortNames[a]
    ensures LowerString(EdgeKey(a, x)) == EdgeKey(a, x)
    ensures a != b ==> PortNames[a] != PortNames[b]
    ensures EdgeKey(a, x) == EdgeKey(b, y) ==> a == b && x == y
    ensures EdgeKey(a, x) != PortNames[b]
    ensures EndsWith(EdgeKey(a, x), if x then ".re" else ".fe")
    ensures !EndsWith(EdgeKey(a, x), if x then ".fe" else ".re")
  {
    PortNamesShape(a, b);
    PortNamesShape(b, a);
    LowerFixed(PortNames[a]);
    LowerFixed(EdgeKey(a, x));
    var sx := if x then ".re" else ".fe";
    var sy := if y then ".re" else ".fe";
    PortKeysDistinct(a, b, sx, sy);
    var k := EdgeKey(a, x);
    assert k[|k| - 3..] == sx;
    assert |EdgeKey(a, x)| != |PortNames[b]|;
  }

  /**
   * Step 1 of `tick()` for the ports 0..n-1, in ascending order: a port
   * whose input-mask nibble is set reads its input nibble.
   */
  function LoadInputs(m: Mem, mask: Word, data: Word, n: nat): (r: Mem)
    requires |mask| == INT_NIBBLES && |data| == INT_NIBBLES && n <= PortCount
    ensures r.draws == m.draws
    ensures forall j :: 0 <= j < n && mask[j] != 0 ==> PortNames[j] in r.syms && r.syms[PortNames[j]] == data[j]
    ensures forall j :: 0 <= j < n && mask[j] == 0 && PortNames[j] in m.syms ==>
              PortNames[j] in r.syms && r.syms[PortNames[j]] == m.syms[PortNames[j]]
    ensures forall j :: n <= j < PortCount && PortNames[j] in m.syms ==>
              PortNames[j] in r.syms && r.syms[PortNames[j]] == m.syms[PortNames[j]]
    ensures forall k :: k in m.syms && k !in PortNames ==> k in r.syms && r.syms[k] == m.syms[k]
  {
    if n == 0 then m
    else
      var i := n - 1;
      var m0 := LoadInputs(m, mask, data, i);
      forall j | 0 <= j < PortCount ensures LowerString(PortNames[j]) == PortNames[j] && (j != i ==> PortNames[j] != PortNames[i]) {
        PortKeyFacts(j, i, true, true);
      }
      if mask[i] != 0 then SetSymbol(m0, PortNames[i], data[i]) else m0
  }

  /** A value `symbol()` reads back for a port once its input was loaded. */
  lemma LoadedPortReads(m: Mem, mask: Word, data: Word, j: nat)
    requires |mask| == INT_NIBBLES && |data| == INT_NIBBLES && j < PortCount && mask[j] != 0
    ensures Symbol(LoadInputs(m, mask, data, PortCount), PortNames[j]) == data[j]
  {
    PortKeyFacts(j, j, true, true);
  }

  /** `s.endsWith(suffix)`. */
  predicate EndsWith(s: string, suffix: string)
  {
    |suffix| <= |s| && s[|s| - |suffix|..] == suffix
  }

  /** The symbols the edge pass handles: they contain a dot and end in `.re` or `.fe`. */
  predicate IsEdgeSymbol(esym: string)
  {
    '.' in esym && (EndsWith(esym, ".re") || EndsWith(esym, ".fe"))
  }

  /** The symbol whose edges `esym` reports: `esym` without its three-character suffix. */
  function SymRef(esym: string): (r: string)
    requires |esym| >= 3
    ensures |r| == |esym| - 3 && r == esym[..|r|]
  {
    esym[..|esym| - 3]
  }

  /** Where the previous level of `SymRef(esym)` is kept. */
  function LastKey(esym: string): (r: string)
    ensures |r| == |esym| + 3
  {
    "." + esym + ".d"
  }

  /** Whether the edge pass writes anything for `esym`: the referenced symbol is known or is a port. */
  predicate EdgeActive(m: Mem, esym: string)
  {
    IsEdgeSymbol(esym) && (SymRef(esym) in m.syms || SymRef(esym) in PortNames)
  }

  /** The edge the pass reports: a recorded previous level that crossed zero in the direction of the suffix. */
  predicate Transition(m: Mem, esym: string)
    requires IsEdgeSymbol(esym)
  {
    var now := Get(m.syms, SymRef(esym), 0);
    var before := Get(m.syms, LastKey(esym), 0);
    && LastKey(esym) in m.syms
    && (if EndsWith(esym, ".re") then before <= 0 && now > 0 else before > 0 && now <= 0)
  }

  /** Step 2 of `tick()` for one program symbol. */
  function EdgeStep(m: Mem, esym: string): (r: Mem)
    ensures r.draws == m.draws
    ensures !EdgeActive(m, esym) ==> r == m
    ensures EdgeActive(m, esym) ==> (Symbol(r, esym) == 15 <==> Transition(m, esym))
    ensures EdgeActive(m, esym) ==> (Symbol(r, esym) == 0 <==> !Transition(m, esym))
    ensures EdgeActive(m, esym) ==> (Symbol(r, LastKey(esym)) == 15 <==> Get(m.syms, SymRef(esym), 0) > 0)
    ensures EdgeActive(m, esym) ==> (Symbol(r, LastKey(esym)) == 0 <==> Get(m.syms, SymRef(esym), 0) <= 0)
    ensures forall k :: k in m.syms && k != LowerString(esym) && k != LowerString(LastKey(esym)) ==>
              k in r.syms && r.syms[k] == m.syms[k]
  {
    if !('.' in esym) then m
    else
      var isRising := EndsWith(esym, ".re");
      if !(isRising || EndsWith(esym, ".fe")) then m
      else
        var symref := esym[..|esym| - 3];
        if symref !in m.syms && symref !in PortNames then m
        else
          var symlast := "." + esym + ".d";
          var q1: Int32 := if Get(m.syms, symref, 0) > 0 then 15 else 0;
          var edge :=
            if symlast in m.syms then
              var q0: Int32 := if Get(m.syms, symlast, 0) > 0 then 15 else 0;
              if isRising then q0 <= 0 && q1 > 0 else q0 > 0 && q1 <= 0
            else false;
          var m1 := SetSymbol(m, esym, if edge then 15 else 0);
          assert LowerString(esym) != LowerString(symlast) by {
            assert |LowerString(esym)| != |LowerString(symlast)|;
          }
          SetSymbol(m1, symlast, q1)
  }

  /** Step 2 of `tick()`: the edge step for each program symbol, in the set's iteration order. */
  function EdgePass(m: Mem, order: seq<string>): (r: Mem)
    decreases |order|
    ensures r.draws == m.draws
    ensures forall k :: k in m.syms && !EndsWith(k, ".re") && !EndsWith(k, ".fe") && !EndsWith(k, ".d") ==>
              k in r.syms && r.syms[k] == m.syms[k]
  {
    if |order| == 0 then m
    else
      var m1 := EdgeStep(m, order[0]);
      EdgeKeysWritten(m, order[0]);
      EdgePass(m1, order[1..])
  }

  /** A lower-cased string ends with a lower-case suffix when the original does. */
  lemma LowerEndsWith(s: string, suffix: string)
    requires EndsWith(s, suffix) && LowerString(suffix) == suffix
    ensures EndsWith(LowerString(s), suffix)
  {
    var t := LowerString(s);
    var n := |s| - |suffix|;
    forall i | 0 <= i < |suffix| ensures t[n..][i] == suffix[i] {
      assert t[n + i] == LowerAscii(s[n + i]);
      assert s[n + i] == suffix[i];
      assert LowerString(suffix)[i] == LowerAscii(suffix[i]);
    }
  }

  /** The keys one edge step may write end in `.re`, `.fe` or `.d`. */
  lemma EdgeKeysWritten(m: Mem, esym: string)
    ensures forall k :: k in m.syms && !EndsWith(k, ".re") && !EndsWith(k, ".fe") && !EndsWith(k, ".d") ==>
              k in EdgeStep(m, esym).syms && EdgeStep(m, esym).syms[k] == m.syms[k]
  {
    if IsEdgeSymbol(esym) {
      LowerFixed(".re");
      LowerFixed(".fe");
      LowerFixed(".d");
      if EndsWith(esym, ".re") { LowerEndsWith(esym, ".re"); } else { LowerEndsWith(esym, ".fe"); }
      var last := LastKey(esym);
      assert EndsWith(last, ".d") by { assert last[|last| - 2..] == ".d"; }
      LowerEndsWith(last, ".d");
    }
  }

  /**
   * Step 3 of `tick()` for the ports 0..n-1, in ascending order:
   * interrupt-latched edges force the port's `.re`/`.fe` symbols to 15.
   */
  function Interrupts(m: Mem, redges: Word, fedges: Word, n: nat): (r: Mem)
    requires |redges| == INT_NIBBLES && |fedges| == INT_NIBBLES && n <= PortCount
    ensures r.draws == m.draws
  {
    if n == 0 then m
    else InterruptPort(Interrupts(m, redges, fedges, n - 1), redges, fedges, n - 1)
  }

  /** After the ports 0..n-1, each latched edge of port j < n has set the port's edge symbol to 15. */
  lemma {:induction false} InterruptsLatch(m: Mem, redges: Word, fedges: Word, n: nat, j: nat)
    requires |redges| == INT_NIBBLES && |fedges| == INT_NIBBLES && j < n <= PortCount
    ensures var r := Interrupts(m, redges, fedges, n);
            && (redges[j] != 0 ==> EdgeKey(j, true) in r.syms && r.syms[EdgeKey(j, true)] == 15)
            && (fedges[j] != 0 ==> EdgeKey(j, false) in r.syms && r.syms[EdgeKey(j, false)] == 15)
  {
    var i := n - 1;
    if j < i {
      var m0 := Interrupts(m, redges, fedges, i);
      var r := InterruptPort(m0, redges, fedges, i);
      InterruptsLatch(m, redges, fedges, i, j);
      if redges[j] != 0 {
        EarlierKeyKept(m0, r, j, i, true);
      }
      if fedges[j] != 0 {
        EarlierKeyKept(m0, r, j, i, false);
      }
    }
  }

  /** Symbols that are not edge symbols pass through the interrupt step unchanged. */
  lemma {:induction false} InterruptsFrame(m: Mem, redges: Word, fedges: Word, n: nat, k: string)
    requires |redges| == INT_NIBBLES && |fedges| == INT_NIBBLES && n <= PortCount
    requires k in m.syms && !EndsWith(k, ".re") && !EndsWith(k, ".fe")
    ensures var r := Interrupts(m, redges, fedges, n);
            k in r.syms && r.syms[k] == m.syms[k]
  {
    if n > 0 {
      var i := n - 1;
      InterruptsFrame(m, redges, fedges, i, k);
      assert k != EdgeKey(i, true) by { PortKeyFacts(i, i, true, false); }
      assert k != EdgeKey(i, false) by { PortKeyFacts(i, i, false, true); }
    }
  }

  /** A key of an earlier port survives the step for port i. */
  lemma EarlierKeyKept(m0: Mem, r: Mem, j: nat, i: nat, x: bool)
    requires j < i < PortCount
    requires EdgeKey(j, x) in m0.syms
    requires forall k :: k in m0.syms && k != EdgeKey(i, true) && k != EdgeKey(i, false) ==> k in r.syms && r.syms[k] == m0.syms[k]
    ensures EdgeKey(j, x) in r.syms && r.syms[EdgeKey(j, x)] == m0.syms[EdgeKey(j, x)]
  {
    PortKeyFacts(j, i, x, true);
    PortKeyFacts(j, i, x, false);
  }

  /** Step 3 of `tick()` for port i alone: its latched edges set its `.re`/`.fe` symbols to 15. */
  function InterruptPort(m: Mem, redges: Word, fedges: Word, i: nat): (r: Mem)
    requires |redges| == INT_NIBBLES && |fedges| == INT_NIBBLES && i < PortCount
    ensures r.draws == m.draws
    ensures redges[i] != 0 ==> EdgeKey(i, true) in r.syms && r.syms[EdgeKey(i, true)] == 15
    ensures fedges[i] != 0 ==> EdgeKey(i, false) in r.syms && r.syms[EdgeKey(i, false)] == 15
    ensures forall k :: k in m.syms && k != EdgeKey(i, true) && k != EdgeKey(i, false) ==> k in r.syms && r.syms[k] == m.syms[k]
  {
    PortKeyFacts(i, i, true, false);
    PortKeyFacts(i, i, false, true);
    var m1 := if redges[i] != 0 then SetSymbol(m, EdgeKey(i, true), 15) else m;
    if fedges[i] != 0 then SetSymbol(m1, EdgeKey(i, false), 15) else m1
  }

  /** The `assignment_post_processor` of `tick()`: port assignments are clamped to a signal strength. */
  function PostProcess(name: string, v: Int32): (r: Int32)
    ensures name in PortNames ==> 0 <= r <= 15
    ensures name in PortNames && 0 <= v <= 15 ==> r == v
    ensures name !in PortNames ==> r == v
  {
    if name in PortNames then Max(0, Min(15, v)) else v
  }

  /** The non-empty assignment names of the given entries. */
  function Targets(entries: seq<Entry>): (r: set<string>)
    ensures forall n :: n in r <==> n != "" && exists k :: 0 <= k < |entries| && entries[k].parsed.assignment == n
  {
    AssignedNames(entries) - {""}
  }

  /** Splitting off the first entry splits off its assignment name. */
  lemma AssignedNamesCons(entries: seq<Entry>)
    requires |entries| > 0
    ensures AssignedNames(entries) == {entries[0].parsed.assignment} + AssignedNames(entries[1..])
  {
    var rest := entries[1..];
    forall x | x in AssignedNames(rest) ensures x in AssignedNames(entries) {
      var k :| 0 <= k < |rest| && rest[k].parsed.assignment == x;
      assert entries[k + 1] == rest[k];
    }
    forall x | x in AssignedNames(entries) ensures x == entries[0].parsed.assignment || x in AssignedNames(rest) {
      var k :| 0 <= k < |entries| && entries[k].parsed.assignment == x;
      if k > 0 { assert rest[k - 1] == entries[k]; }
    }
  }

  /** Port values among the results are signal strengths. */
  predicate PortsClamped(results: map<string, Int32>)
  {
    forall k :: k in results && k in PortNames ==> 0 <= results[k] <= 15
  }

  /** One entry of `recalculate`: evaluate it, and record its post-processed value under its assignment name. */
  function RecalcEntry(e: Entry, m: Mem, rand: Rand, results: map<string, Int32>): (r: (map<string, Int32>, Mem))
    ensures r.0.Keys == results.Keys + (if e.parsed.assignment != "" then {e.parsed.assignment} else {})
    ensures PortsClamped(results) ==> PortsClamped(r.0)
    ensures r.1.draws >= m.draws
  {
    var v := Calc(e.parsed.expression, m, rand);
    var name := e.parsed.assignment;
    if name != "" then (results[name := PostProcess(name, v.v)], v.mem) else (results, v.mem)
  }

  /**
   * `MultiLineMathExpr.recalculate`: evaluate each entry in order against
   * the shared memory and collect the post-processed value of each
   * assignment, a later entry overwriting an earlier one.
   */
  function Recalc(entries: seq<Entry>, m: Mem, rand: Rand, results: map<string, Int32>)
    : (r: (map<string, Int32>, Mem))
    decreases |entries|
    ensures r.0.Keys == results.Keys + Targets(entries)
    ensures PortsClamped(results) ==> PortsClamped(r.0)
    ensures r.1.draws >= m.draws
  {
    if |entries| == 0 then (results, m)
    else
      var (a, m1) := RecalcEntry(entries[0], m, rand, results);
      AssignedNamesCons(entries);
      Recalc(entries[1..], m1, rand, a)
  }

  /** Step 6 of `tick()`: `assigned.forEach(this::symbol)`, with keys that are lower-case already. */
  function ApplyAssigned(m: Mem, results: map<string, Int32>): (r: Mem)
    requires forall k :: k in results ==> LowerString(k) == k
    ensures r.draws == m.draws
    ensures forall k :: k in results ==> Symbol(r, k) == results[k]
    ensures forall k :: k in m.syms && k !in results ==> k in r.syms && r.syms[k] == m.syms[k]
  {
    m.(syms := m.syms + results)
  }

  /** The current value of port j's symbol. */
  function PortValue(m: Mem, j: nat): (r: Int32)
    requires j < PortCount
    ensures PortNames[j] !in m.syms ==> r == 0
  {
    Get(m.syms, PortNames[j], 0)
  }

  /** Port names are their own lower-case form, so a port's value is what `symbol()` reads under its name. */
  lemma PortValueIsSymbol(m: Mem, j: nat)
    requires j < PortCount
    ensures PortValue(m, j) == Symbol(m, PortNames[j])
  {
    PortKeyLower(j, "");
    assert PortNames[j] + "" == PortNames[j];
  }

  /** Every name in the iteration order is a program symbol and each symbol occurs once. */
  predicate IsEnumeration(order: seq<string>, symbols: set<string>)
  {
    && (forall s :: s in order ==> s in symbols) && (forall s :: s in symbols ==> s in order)
    && (forall a, b :: 0 <= a < b < |order| ==> order[a] != order[b])
  }

  /** Steps 1 to 4 of `tick()`: inputs, edges, interrupt edges and the evaluation deadline. */
  function Prepare(l: Logic, order: seq<string>): (r: Mem)
    requires WellFormed(l)
    ensures r.draws == l.mem.draws
    ensures Symbol(r, DEADLINE) == 40
  {
    var m1 := LoadInputs(l.mem, l.inputMask, l.inputData, PortCount);
    var m2 := EdgePass(m1, order);
    var m3 := Interrupts(m2, l.intrRedges, l.intrFedges, PortCount);
    LowerFixed(DEADLINE);
    SetSymbol(m3, DEADLINE, 40)
  }

  /** Steps 5 and 6 of `tick()`: run the program and store what it assigned. */
  function Evaluate(p: Program, m: Mem, rand: Rand): (r: Mem)
    requires WellSorted(p)
    ensures r.draws >= m.draws
    ensures forall j :: 0 <= j < PortCount && PortNames[j] in p.assignments ==> 0 <= Symbol(r, PortNames[j]) <= 15
  {
    var none: map<string, Int32> := map[];
    assert PortsClamped(none);
    var (results, m5) := Recalc(p.entries, m, rand, none);
    assert PortsClamped(results);
    ResultKeysLower(p, results);
    var r := ApplyAssigned(m5, results);
    forall j | 0 <= j < PortCount && PortNames[j] in p.assignments
      ensures 0 <= Symbol(r, PortNames[j]) <= 15
    {
      PortNamesShape(j, j);
      assert PortNames[j] in Targets(p.entries);
      AppliedPortClamped(m5, results, j);
    }
    r
  }

  /** Result names come from assignments, which the parser lower-cased. */
  lemma ResultKeysLower(p: Program, results: map<string, Int32>)
    requires WellSorted(p) && results.Keys == Targets(p.entries)
    ensures forall k :: k in results ==> LowerString(k) == k
  {
    forall k | k in results ensures LowerString(k) == k {
      var i :| 0 <= i < |p.entries| && p.entries[i].parsed.assignment == k;
    }
  }

  /** A port name among clamped results reads back as a signal strength once the results are stored. */
  lemma AppliedPortClamped(m: Mem, results: map<string, Int32>, j: nat)
    requires j < PortCount && PortNames[j] in results && PortsClamped(results)
    requires forall k :: k in results ==> LowerString(k) == k
    ensures 0 <= Symbol(ApplyAssigned(m, results), PortNames[j]) <= 15
  {
  }

  /** Step 7 of `tick()`: the port values packed into a word and masked with the output mask. */
  function Outputs(m: Mem, mask: Word): (r: Word)
    requires |mask| == INT_NIBBLES
    ensures |r| == INT_NIBBLES
  {
    var vals := seq(PortCount, j requires 0 <= j < PortCount => PortValue(m, j));
    Nibbles.And(PackPorts(vals), mask)
  }

  /** Nibble j of the output word: the port's low four bits where the mask is full, 0 where it is empty or above the ports. */
  lemma OutputsAt(m: Mem, mask: Word, j: nat)
    requires |mask| == INT_NIBBLES && j < INT_NIBBLES
    ensures j < PortCount && mask[j] == 15 ==> Outputs(m, mask)[j] == Low(PortValue(m, j))
    ensures mask[j] == 0 || PortCount <= j ==> Outputs(m, mask)[j] == 0
  {
  }

  /**
   * `tick()`. `order` is the iteration order of the program's symbol set and
   * `rand` the source of `rnd()` draws.
   */
  function Tick(l: Logic, order: seq<string>, rand: Rand): (r: Logic)
    requires WellFormed(l) && WellSorted(l.program)
    requires IsEnumeration(order, l.program.symbols)
    ensures WellFormed(r)
    ensures r.intrRedges == Zero(INT_NIBBLES) && r.intrFedges == Zero(INT_NIBBLES)
    ensures r.inputMask == l.inputMask && r.outputMask == l.outputMask && r.inputData == l.inputData
    ensures r.program == l.program && r.code == l.code
    ensures r.outputData == Outputs(r.mem, l.outputMask)
    ensures forall j :: 0 <= j < PortCount && PortNames[j] in l.program.assignments ==>
              0 <= Symbol(r.mem, PortNames[j]) <= 15
  {
    var m := Evaluate(l.program, Prepare(l, order), rand);
    Logic(l.inputMask, l.outputMask, l.inputData, Outputs(m, l.outputMask), Zero(INT_NIBBLES), Zero(INT_NIBBLES),
          m, l.program, l.code)
  }

  /** `tick()` keeps the word invariants. */
  lemma TickConsistent(l: Logic, order: seq<string>, rand: Rand)
    requires WellFormed(l) && WellSorted(l.program) && IsEnumeration(order, l.program.symbols)
    requires Consistent(l)
    ensures Consistent(Tick(l, order, rand))
  {
  }

  /** After a tick, a port the program assigns emits exactly its clamped symbol value. */
  lemma TickDrivesAssignedPorts(l: Logic, order: seq<string>, rand: Rand, j: nat)
    requires WellFormed(l) && WellSorted(l.program) && IsEnumeration(order, l.program.symbols)
    requires j < PortCount && l.outputMask[j] == 15 && PortNames[j] in l.program.assignments
    ensures GetSignal(Tick(l, order, rand), FromOrdinal(j)) == Symbol(Tick(l, order, rand).mem, PortNames[j])
  {
    var r := Tick(l, order, rand);
    OutputsAt(r.mem, l.outputMask, j);
    PortValueIsSymbol(r.mem, j);
    LowSignal(Symbol(r.mem, PortNames[j]));
  }

  /**
   * `ControlBoxBlock.getSignal` after the block-state mapping: nibble
   * `internalSide.ordinal()` of the output data.
   */
  function GetSignal(l: Logic, internalSide: Direction): (r: int)
    requires WellFormed(l)
    ensures 0 <= r <= 15
    ensures Consistent(l) && l.outputMask[Ordinal(internalSide)] == 0 ==> r == 0
  {
    NibbleAt(l.outputData, Ordinal(internalSide))
  }
}
