/**
 * `ExtendedShapelessRecipe.getRepaired`, and the repair halves of
 * `getRemainingItems` and `assemble`. The tool is the last stack in the
 * grid whose item the `tool` aspect names; every other non-empty stack is
 * repair material. Each repair costs one item of every material kind, and
 * the scarcest kind bounds the number of repairs.
 */
module RecipeRepair {
  import opened JavaInt
  import opened Wrappers
  import opened ShapelessRecipe

  predicate IsToolStack(s: Slot, a: Aspects)
  {
    !IsEmpty(s) && IsTool(s, a)
  }

  /** A repair material: a non-empty stack that is not the tool. */
  predicate IsMaterial(s: Slot, a: Aspects)
  {
    !IsEmpty(s) && !IsTool(s, a)
  }

  /** The index of the last tool stack among the first `n` slots, or -1; a later tool replaces an earlier one. */
  function ToolIndex(grid: seq<Slot>, a: Aspects, n: nat): (k: int)
    requires n <= |grid|
    ensures -1 <= k < n
    ensures k >= 0 ==> IsToolStack(grid[k], a)
    ensures forall j :: k < j < n ==> !IsToolStack(grid[j], a)
  {
    if n == 0 then -1
    else if IsToolStack(grid[n - 1], a) then n - 1
    else ToolIndex(grid, a, n - 1)
  }

  /** The first loop's `remaining`: a copy of every material and nothing elsewhere. */
  function Scanned(grid: seq<Slot>, a: Aspects): (rem: seq<Slot>)
    ensures |rem| == |grid|
    ensures forall i :: 0 <= i < |grid| ==> rem[i] == (if IsMaterial(grid[i], a) then grid[i] else EMPTY)
  {
    seq(|grid|, i requires 0 <= i < |grid| => if IsMaterial(grid[i], a) then grid[i] else EMPTY)
  }

  /** The second loop's `remaining`: a material with a remainder item is replaced by that item. */
  function Prepared(grid: seq<Slot>, a: Aspects): (rem: seq<Slot>)
    ensures |rem| == |grid|
    ensures forall i :: 0 <= i < |grid| ==>
              rem[i] == (if !IsMaterial(grid[i], a) then EMPTY else if grid[i].remainder != AIR then RemainderOf(grid[i]) else grid[i])
  {
    seq(|grid|, i requires 0 <= i < |grid| =>
      if !IsMaterial(grid[i], a) then EMPTY else if grid[i].remainder != AIR then RemainderOf(grid[i]) else grid[i])
  }

  /** The number of items of kind `k` in non-empty stacks. */
  function CountItem(s: seq<Slot>, k: nat): (n: int)
    ensures n >= 0
  {
    if s == [] then 0
    else (if s[0].item == k && !IsEmpty(s[0]) then s[0].count else 0) + CountItem(s[1..], k)
  }

  /** `repair_items`: for every item kind of a non-empty stack, the summed count of its stacks. */
  function Totals(s: seq<Slot>): (t: map<nat, int>)
    ensures forall k :: k in t ==> t[k] == CountItem(s, k) && t[k] >= 1 && k != AIR
    ensures forall k :: k !in t ==> CountItem(s, k) == 0
    ensures forall j :: 0 <= j < |s| && !IsEmpty(s[j]) ==> s[j].item in t
  {
    if s == [] then map[]
    else
      var t := Totals(s[1..]);
      assert forall j :: 1 <= j < |s| ==> s[j] == s[1..][j - 1];
      if IsEmpty(s[0]) then t
      else t[s[0].item := s[0].count + (if s[0].item in t then t[s[0].item] else 0)]
  }

  /** `min().orElse(0)` over the totals, taken over the stacks that contribute to them. */
  function MinOver(s: seq<Slot>, t: map<nat, int>): (m: Option<int>)
    requires forall j :: 0 <= j < |s| && !IsEmpty(s[j]) ==> s[j].item in t
    ensures m.None? <==> forall j :: 0 <= j < |s| ==> IsEmpty(s[j])
    ensures m.Some? ==> exists j :: 0 <= j < |s| && !IsEmpty(s[j]) && m.value == t[s[j].item]
    ensures m.Some? ==> forall j :: 0 <= j < |s| && !IsEmpty(s[j]) ==> m.value <= t[s[j].item]
  {
    if s == [] then None
    else
      assert forall j :: 1 <= j < |s| ==> s[j] == s[1..][j - 1];
      var rest := MinOver(s[1..], t);
      if IsEmpty(s[0]) then rest
      else
        var v := t[s[0].item];
        Some(if rest.Some? then Min(v, rest.value) else v)
  }

  /** `min_repair_item_count`. */
  function MinCount(s: seq<Slot>): int
  {
    MinOver(s, Totals(s)).UnwrapOr(0)
  }

  /** The count of the scarcest item kind, or 0 when there is no material at all. */
  lemma MinCountIsScarcest(s: seq<Slot>)
    ensures var t := Totals(s);
            && (MinCount(s) <= 0 <==> t == map[])
            && (t != map[] ==> MinCount(s) in t.Values && forall k :: k in t ==> MinCount(s) <= t[k])
  {
    var t := Totals(s);
    var m := MinOver(s, t);
    if m.None? {
      if t != map[] {
        var k :| k in t;
        assert CountItem(s, k) >= 1;
        CountItemWitness(s, k);
      }
    } else {
      var j :| 0 <= j < |s| && !IsEmpty(s[j]) && m.value == t[s[j].item];
      assert s[j].item in t;
      forall k | k in t
        ensures m.value <= t[k]
      {
        CountItemWitness(s, k);
      }
    }
  }

  /** Items of a kind are counted only where a non-empty stack of that kind is. */
  lemma {:induction false} CountItemWitness(s: seq<Slot>, k: nat)
    requires CountItem(s, k) > 0
    ensures exists j :: 0 <= j < |s| && !IsEmpty(s[j]) && s[j].item == k
  {
    if s[0].item == k && !IsEmpty(s[0]) {
    } else {
      CountItemWitness(s[1..], k);
      var j :| 0 <= j < |s[1..]| && !IsEmpty(s[1..][j]) && s[1..][j].item == k;
      assert s[j + 1] == s[1..][j];
    }
  }

  /** Every prepared stack of a real item holds at least one item. */
  lemma PreparedTidy(grid: seq<Slot>, a: Aspects)
    ensures TidyFrom(Prepared(grid, a), 0)
  {
    var p := Prepared(grid, a);
    forall j | 0 <= j < |p| && p[j].item != AIR
      ensures p[j].count >= 1
    {
      assert IsMaterial(grid[j], a);
    }
  }

  // ---------------------------------------------------------------- consumption

  /**
   * The third loop: each material kind still owed takes its due from the
   * first stacks of that kind, emptying a stack that cannot pay in full.
   */
  function Consume(rem: seq<Slot>, keys: map<nat, int>, i: nat): (r: seq<Slot>)
    requires i <= |rem|
    decreases |rem| - i
    ensures |r| == |rem|
    ensures forall j :: 0 <= j < i ==> r[j] == rem[j]
  {
    if i == |rem| then rem
    else
      var s := rem[i];
      if s.item !in keys then Consume(rem, keys, i + 1)
      else
        var n := keys[s.item];
        if s.count >= n then Consume(rem[i := s.(count := s.count - n)], keys - {s.item}, i + 1)
        else Consume(rem[i := EMPTY], keys[s.item := n - s.count], i + 1)
  }

  /** Every stack of a real item from `i` on holds at least one item. */
  predicate TidyFrom(rem: seq<Slot>, i: nat)
  {
    forall j :: i <= j < |rem| && rem[j].item != AIR ==> rem[j].count >= 1
  }

  /** Consumption takes exactly what is owed of each kind, or everything there is when that is less. */
  lemma {:induction false} ConsumeCounts(rem: seq<Slot>, keys: map<nat, int>, i: nat, k: nat)
    requires i <= |rem| && TidyFrom(rem, i)
    requires AIR !in keys && forall q :: q in keys ==> keys[q] >= 0
    ensures var r := Consume(rem, keys, i);
            CountItem(r[i..], k) == CountItem(rem[i..], k) - (if k in keys then Min(keys[k], CountItem(rem[i..], k)) else 0)
    decreases |rem| - i
  {
    if i < |rem| {
      var s := rem[i];
      assert rem[i..][1..] == rem[i + 1..];
      if s.item !in keys {
        ConsumeCounts(rem, keys, i + 1, k);
        var r := Consume(rem, keys, i + 1);
        assert r[i..][1..] == r[i + 1..];
      } else {
        var n := keys[s.item];
        var x := if s.count >= n then s.(count := s.count - n) else EMPTY;
        var keys' := if s.count >= n then keys - {s.item} else keys[s.item := n - s.count];
        var rem' := rem[i := x];
        assert rem'[i + 1..] == rem[i + 1..];
        ConsumeCounts(rem', keys', i + 1, k);
        var r := Consume(rem', keys', i + 1);
        assert Consume(rem, keys, i) == r;
        assert r[i..][1..] == r[i + 1..];
        assert r[i] == x;
      }
    }
  }

  // ---------------------------------------------------------------- the repair

  datatype Repaired = Repaired(tool: Slot, remaining: seq<Slot>)

  /** `num_repairs` for the grid's tool. */
  function Repairs(grid: seq<Slot>, a: Aspects, k: nat): int
    requires k < |grid|
  {
    var tool := grid[k];
    RepairCount(tool.damage, SingleRepair(a, tool.maxDamage), MinCount(Scanned(grid, a)))
  }

  /** `getRepaired`: the repaired tool (`EMPTY` when there is nothing to repair) and the grid's remaining items. */
  function Repair(grid: seq<Slot>, a: Aspects): (r: Repaired)
    ensures |r.remaining| == |grid|
  {
    var k := ToolIndex(grid, a, |grid|);
    var scanned := Scanned(grid, a);
    if k < 0 || !Damageable(grid[k]) then Repaired(EMPTY, scanned)
    else
      var tool := grid[k];
      var dmg := tool.damage;
      if dmg <= 0 && !a.overRepair then Repaired(EMPTY, scanned)
      else
        var minCount := MinCount(scanned);
        if minCount <= 0 then Repaired(EMPTY, scanned)
        else
          var single := SingleRepair(a, tool.maxDamage);
          var n := Repairs(grid, a, k);
          var keys := map q | q in Totals(scanned) :: n;
          Repaired(SetDamage(tool, Mended(dmg, single, n)), Consume(Prepared(grid, a), keys, 0))
  }

  /**
   * A repair yields nothing exactly when there is no tool, the tool cannot
   * be damaged, it is undamaged and over-repair is off, or there is no
   * repair material; then every material is handed back untouched.
   * Otherwise the result is the tool with only its damage changed.
   */
  lemma RepairRefuses(grid: seq<Slot>, a: Aspects)
    ensures var r := Repair(grid, a);
            var k := ToolIndex(grid, a, |grid|);
            && (IsEmpty(r.tool) <==>
                  || k < 0
                  || !Damageable(grid[k])
                  || (grid[k].damage <= 0 && !a.overRepair)
                  || (forall i :: 0 <= i < |grid| ==> !IsMaterial(grid[i], a)))
            && (IsEmpty(r.tool) ==> r.remaining == Scanned(grid, a))
            && (!IsEmpty(r.tool) ==> r.tool.(damage := grid[k].damage) == grid[k])
  {
    var scanned := Scanned(grid, a);
    MinCountIsScarcest(scanned);
    var t := Totals(scanned);
    if forall i :: 0 <= i < |grid| ==> !IsMaterial(grid[i], a) {
      assert forall j :: 0 <= j < |scanned| ==> IsEmpty(scanned[j]);
    } else {
      var i :| 0 <= i < |grid| && IsMaterial(grid[i], a);
      assert !IsEmpty(scanned[i]) && scanned[i].item in t;
    }
  }

  /**
   * A repair mends the tool by one repair's worth per item of each kind
   * used: the damage never grows, and shrinks when there was some.
   */
  lemma RepairMends(grid: seq<Slot>, a: Aspects)
    requires forall i :: 0 <= i < |grid| ==> grid[i].damage >= 0
    ensures var r := Repair(grid, a);
            var k := ToolIndex(grid, a, |grid|);
            !IsEmpty(r.tool) ==>
              var dmg := grid[k].damage;
              && r.tool.damage == Max(dmg - SingleRepair(a, grid[k].maxDamage) * Repairs(grid, a, k), 0)
              && r.tool.damage <= dmg
              && (dmg > 0 ==> r.tool.damage < dmg)
  {
    var r := Repair(grid, a);
    var k := ToolIndex(grid, a, |grid|);
    if !IsEmpty(r.tool) {
      RepairRefuses(grid, a);
      var scanned := Scanned(grid, a);
      MinCountIsScarcest(scanned);
      var tool := grid[k];
      RepairArithmetic(tool.damage, SingleRepair(a, tool.maxDamage), MinCount(scanned));
    }
  }

  /**
   * With enough material the tool is fully mended using no more repairs
   * than needed; otherwise every item of the scarcest material is used.
   */
  lemma RepairUsesFewest(grid: seq<Slot>, a: Aspects)
    requires forall i :: 0 <= i < |grid| ==> grid[i].damage >= 0
    ensures var r := Repair(grid, a);
            var k := ToolIndex(grid, a, |grid|);
            !IsEmpty(r.tool) ==>
              var dmg := grid[k].damage;
              var single := SingleRepair(a, grid[k].maxDamage);
              var n := Repairs(grid, a, k);
              var scarcest := MinCount(Scanned(grid, a));
              && (scarcest >= Ceiling(dmg, single) ==> r.tool.damage == 0 && (n - 1) * single < dmg)
              && (scarcest < Ceiling(dmg, single) ==> n == scarcest)
  {
    var r := Repair(grid, a);
    var k := ToolIndex(grid, a, |grid|);
    if !IsEmpty(r.tool) {
      RepairMends(grid, a);
      var tool := grid[k];
      var single := SingleRepair(a, tool.maxDamage);
      var scarcest := MinCount(Scanned(grid, a));
      var n := Repairs(grid, a, k);
      assert n == RepairCount(tool.damage, single, scarcest);
      assert scarcest >= 1 by {
        RepairRefuses(grid, a);
        MinCountIsScarcest(Scanned(grid, a));
      }
      RepairArithmetic(tool.damage, single, scarcest);
    }
  }

  /** Without remainder items, owing `n` of every kind takes exactly `n` of each kind that has at least `n`. */
  lemma ConsumeOwed(grid: seq<Slot>, a: Aspects, n: int, q: nat)
    requires forall i :: 0 <= i < |grid| ==> grid[i].remainder == AIR
    requires n >= 0 && q in Totals(Scanned(grid, a)) && n <= Totals(Scanned(grid, a))[q]
    ensures var t := Totals(Scanned(grid, a));
            CountItem(Consume(Prepared(grid, a), map p | p in t :: n, 0), q) == t[q] - n
  {
    var scanned := Scanned(grid, a);
    var t := Totals(scanned);
    var prepared := Prepared(grid, a);
    assert prepared == scanned;
    var keys := map p | p in t :: n;
    PreparedTidy(grid, a);
    assert AIR !in keys && forall p :: p in keys ==> keys[p] >= 0;
    ConsumeCounts(prepared, keys, 0, q);
    assert prepared[0..] == prepared;
    var c := Consume(prepared, keys, 0);
    assert c[0..] == c;
  }

  /**
   * When no material leaves a remainder item, a repair takes exactly
   * `num_repairs` items of every material kind, and never more than there
   * are.
   */
  lemma RepairConsumes(grid: seq<Slot>, a: Aspects, q: nat)
    requires forall i :: 0 <= i < |grid| ==> grid[i].damage >= 0
    requires forall i :: 0 <= i < |grid| ==> grid[i].remainder == AIR
    ensures var r := Repair(grid, a);
            var k := ToolIndex(grid, a, |grid|);
            var t := Totals(Scanned(grid, a));
            !IsEmpty(r.tool) && q in t ==>
              && 0 <= Repairs(grid, a, k) <= t[q]
              && CountItem(r.remaining, q) == t[q] - Repairs(grid, a, k)
  {
    var r := Repair(grid, a);
    var k := ToolIndex(grid, a, |grid|);
    var scanned := Scanned(grid, a);
    var t := Totals(scanned);
    if !IsEmpty(r.tool) && q in t {
      RepairRefuses(grid, a);
      MinCountIsScarcest(scanned);
      var tool := grid[k];
      var n := Repairs(grid, a, k);
      CeilingIsLeast(tool.damage, SingleRepair(a, tool.maxDamage));
      ConsumeOwed(grid, a, n, q);
    }
  }

  // ---------------------------------------------------------------- handing back

  /**
   * The repair branch of `getRemainingItems` for one slot: a slot whose
   * leftover is of another item keeps its stack and the leftover goes to the
   * player; otherwise the slot is set to the leftover plus one and nothing
   * is handed out.
   */
  function HandBack(g: Slot, rem: Slot): (res: (Slot, Slot))
  {
    if IsEmpty(g) || (!IsEmpty(rem) && rem.item != g.item) then (rem, g)
    else (EMPTY, rem.(count := rem.count + 1))
  }

  /** What crafting does to every grid slot once the result is taken: one item is removed. */
  function TakeOne(s: Slot): Slot
  {
    if IsEmpty(s) then s else s.(count := s.count - 1)
  }

  /** `getRemainingItems` of a repair recipe: the items handed out and the grid it leaves. */
  function RepairRemaining(grid: seq<Slot>, a: Aspects): (res: (seq<Slot>, seq<Slot>))
    ensures |res.0| == |grid| && |res.1| == |grid|
  {
    var rem := Repair(grid, a).remaining;
    (seq(|grid|, i requires 0 <= i < |grid| => HandBack(grid[i], rem[i]).0),
     seq(|grid|, i requires 0 <= i < |grid| => HandBack(grid[i], rem[i]).1))
  }

  /**
   * The extra item the repair adds to a slot is the one crafting removes:
   * afterwards every slot whose leftover it could keep holds exactly that
   * leftover, and a used-up slot is empty. Only a leftover of another item
   * is handed out, and an empty slot is left alone.
   */
  lemma RepairRemainingKeepsLeftovers(grid: seq<Slot>, a: Aspects, i: nat)
    requires i < |grid|
    ensures var rem := Repair(grid, a).remaining;
            var res := RepairRemaining(grid, a);
            && (IsEmpty(grid[i]) ==> res.1[i] == grid[i] && res.0[i] == rem[i])
            && (!IsEmpty(grid[i]) && !IsEmpty(rem[i]) && rem[i].item != grid[i].item ==> res.1[i] == grid[i] && res.0[i] == rem[i])
            && (!IsEmpty(grid[i]) && !IsEmpty(rem[i]) && rem[i].item == grid[i].item ==> res.0[i] == EMPTY && TakeOne(res.1[i]) == rem[i])
            && (!IsEmpty(grid[i]) && IsEmpty(rem[i]) && rem[i].count >= 0 ==> res.0[i] == EMPTY && IsEmpty(TakeOne(res.1[i])))
  {
  }

  // ---------------------------------------------------------------- the repair hook

  /**
   * `IRepairableToolItem.onShapelessRecipeRepaired`, an oracle: given the
   * mended tool, its damage before and its damage after the repair, the
   * stack the tool's item hands back, or `None` for an item without the hook.
   */
  type RepairHook = (Slot, int, int) -> Option<Slot>

  /** `getRepaired` to its end: a mended tool whose item has the hook is replaced by what the hook returns. */
  function HookedRepair(grid: seq<Slot>, a: Aspects, hook: RepairHook): (r: Repaired)
    ensures r.remaining == Repair(grid, a).remaining
  {
    var r := Repair(grid, a);
    var k := ToolIndex(grid, a, |grid|);
    if k < 0 || IsEmpty(r.tool) then r
    else match hook(r.tool, grid[k].damage, r.tool.damage)
      case None => r
      case Some(t) => Repaired(t, r.remaining)
  }

  /**
   * The hook sees only a mended tool, with the damage it had and the damage
   * it has now, and replaces nothing but the tool; a refused repair never
   * calls it, and a tool item without the hook keeps the mended tool.
   */
  lemma HookReplacesOnlyTool(grid: seq<Slot>, a: Aspects, hook: RepairHook)
    ensures var r := Repair(grid, a);
            var h := HookedRepair(grid, a, hook);
            var k := ToolIndex(grid, a, |grid|);
            && h.remaining == r.remaining
            && (IsEmpty(r.tool) ==> h == r)
            && (!IsEmpty(r.tool) ==>
                  && k >= 0
                  && r.tool.(damage := grid[k].damage) == grid[k]
                  && (hook(r.tool, grid[k].damage, r.tool.damage).None? ==> h.tool == r.tool)
                  && (hook(r.tool, grid[k].damage, r.tool.damage).Some? ==> h.tool == hook(r.tool, grid[k].damage, r.tool.damage).value))
  {
    RepairRefuses(grid, a);
  }

  // ---------------------------------------------------------------- dispatch

  /** `assemble` (`getCraftingResult`): the repaired tool after the hook, or the output with its initial damage. */
  function Assemble(grid: seq<Slot>, a: Aspects, output: Slot, hook: RepairHook): Slot
  {
    if IsRepair(a) then HookedRepair(grid, a, hook).tool else InitialDamage(a, output)
  }

  /** `getRemainingItems`: the items handed out and the grid left behind. */
  function RemainingItems(grid: seq<Slot>, a: Aspects): (res: (seq<Slot>, seq<Slot>))
    ensures |res.0| == |grid| && |res.1| == |grid|
    ensures !IsRepair(a) ==> res.1 == grid
  {
    if IsRepair(a) then RepairRemaining(grid, a) else (NormalRemaining(grid, a), grid)
  }
}
