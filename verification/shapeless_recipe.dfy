/**
 * `ExtendedShapelessRecipe`: a shapeless crafting recipe whose "aspects"
 * name a tool that is either worn by the craft (`tool_damage`) or repaired
 * by it (`tool_repair`). Both copies of the class (the current and the
 * older Forge API) compute the same things; this module holds the parts
 * that do not depend on the crafting grid's scan: the aspects, the repair
 * arithmetic, the wear of the tool in a normal craft, the damage of a newly
 * crafted item and the ingredient-count check of the recipe reader.
 */
module ShapelessRecipe {
  import opened JavaInt
  import opened Wrappers
  import DivMod

  const AIR: nat := 0

  /**
   * A stack in the crafting grid: its item, count, damage and maximum damage,
   * and the item it leaves behind when crafted (`getCraftingRemainingItem`,
   * `AIR` for none).
   */
  datatype Slot = Slot(item: nat, count: int, damage: int, maxDamage: int, remainder: nat)

  const EMPTY: Slot := Slot(AIR, 0, 0, 0, AIR)

  predicate IsEmpty(s: Slot)
  {
    s.item == AIR || s.count <= 0
  }

  /** `isDamageableItem`: a non-empty stack of an item with a maximum damage. */
  predicate Damageable(s: Slot)
  {
    !IsEmpty(s) && s.maxDamage > 0
  }

  /** `setDamageValue`: Minecraft stores no negative damage. */
  function SetDamage(s: Slot, d: int): (r: Slot)
    ensures r.damage >= 0 && (d >= 0 ==> r.damage == d)
    ensures r.(damage := s.damage) == s
  {
    s.(damage := Max(d, 0))
  }

  /** The single item a stack leaves behind in the grid. */
  function RemainderOf(s: Slot): (r: Slot)
    ensures s.remainder != AIR ==> !IsEmpty(r) && r.count == 1
  {
    Slot(s.remainder, 1, 0, 0, AIR)
  }

  /**
   * The recipe's aspects. `tool` is the item the `tool` string names (`None`
   * when the key is absent, which names no item); the two optional integers
   * are present exactly when their key is; missing booleans and integers
   * read as false and 0.
   */
  datatype Aspects = Aspects(
    tool: Option<nat>,
    toolRepair: Option<int>,
    toolDamage: Option<int>,
    overRepair: bool,
    relativeRepairDamage: bool,
    dynamic: bool,
    initialDurability: int,
    initialDamage: int)

  predicate IsTool(s: Slot, a: Aspects)
  {
    a.tool == Some(s.item)
  }

  // ---------------------------------------------------------------- aspects

  /** `getToolDamage`: a repair is negative, wear is positive, neither is 0. */
  function ToolDamage(a: Aspects): (d: int)
    ensures a.toolRepair.Some? ==> -4096 <= d <= 0 && (0 <= a.toolRepair.value <= 4096 ==> d == -a.toolRepair.value)
    ensures a.toolRepair.None? && a.toolDamage.Some? ==> 1 <= d <= 1024
    ensures a.toolRepair.None? && a.toolDamage.Some? && 1 <= a.toolDamage.value <= 1024 ==> d == a.toolDamage.value
    ensures a.toolRepair.None? && a.toolDamage.None? ==> d == 0
  {
    if a.toolRepair.Some? then -Limit(a.toolRepair.value, 0, 4096)
    else if a.toolDamage.Some? then Limit(a.toolDamage.value, 1, 1024)
    else 0
  }

  /** `isRepair`. */
  predicate IsRepair(a: Aspects)
  {
    ToolDamage(a) < 0
  }

  /**
   * A recipe repairs exactly when it has a positive `tool_repair`; a
   * `tool_repair` of 0 or less makes a recipe that neither repairs nor wears
   * the tool, whatever `tool_damage` says.
   */
  lemma IsRepairIff(a: Aspects)
    ensures IsRepair(a) <==> a.toolRepair.Some? && a.toolRepair.value > 0
    ensures a.toolRepair.Some? && a.toolRepair.value <= 0 ==> ToolDamage(a) == 0
  {
  }

  /** `isSpecial` (`isDynamic` in the older copy). */
  predicate IsSpecial(a: Aspects)
  {
    IsRepair(a) || a.dynamic
  }

  /** `getResultItem` (`getRecipeOutput`): a special recipe shows no fixed result. */
  function ResultItem(a: Aspects, output: Slot): (r: Slot)
    ensures IsSpecial(a) ==> r == EMPTY
    ensures !IsSpecial(a) ==> r == output
  {
    if IsSpecial(a) then EMPTY else output
  }

  // ---------------------------------------------------------------- repair arithmetic

  /** The damage one set of repair items mends: a percentage of the maximum damage, or a fixed amount; at least 1. */
  function SingleRepair(a: Aspects, maxDamage: int): (single: int)
    ensures single >= 1
    ensures !a.relativeRepairDamage ==> single == Max(1, -ToolDamage(a))
  {
    if a.relativeRepairDamage then Max(1, Quot(-ToolDamage(a) * maxDamage, 100))
    else Max(1, -ToolDamage(a))
  }

  /** `dmg / single`, plus one when that leaves damage unmended. */
  function Ceiling(dmg: int, single: int): int
    requires single >= 1
  {
    var q := Quot(dmg, single);
    if q * single < dmg then q + 1 else q
  }

  /** For a non-negative damage the Java rounding is the ceiling: the fewest repairs that mend all of it. */
  lemma CeilingIsLeast(dmg: int, single: int)
    requires dmg >= 0 && single >= 1
    ensures Ceiling(dmg, single) >= 0
    ensures Ceiling(dmg, single) * single >= dmg
    ensures (Ceiling(dmg, single) - 1) * single < dmg
  {
    var q := dmg / single;
    Euclid(dmg, single);
    assert Quot(dmg, single) == q;
    assert (q + 1) * single == q * single + single;
    assert (q - 1) * single == q * single - single;
  }

  /** `num_repairs`: as many repairs as mend the damage, but no more than the scarcest repair item allows. */
  function RepairCount(dmg: int, single: int, minCount: int): int
    requires single >= 1
  {
    Min(Ceiling(dmg, single), minCount)
  }

  /** The damage after the repairs, never below 0. */
  function Mended(dmg: int, single: int, n: int): int
  {
    Max(dmg - single * n, 0)
  }

  /**
   * With enough repair items the tool is fully mended and no repair item is
   * wasted: one repair fewer would leave damage. Otherwise every available
   * repair is used and the damage left is what they do not cover. Either
   * way the damage does not grow, and shrinks when there was some.
   */
  lemma RepairArithmetic(dmg: int, single: int, minCount: int)
    requires dmg >= 0 && single >= 1 && minCount >= 1
    ensures var n := RepairCount(dmg, single, minCount);
            && 0 <= n <= minCount
            && (minCount >= Ceiling(dmg, single) ==> Mended(dmg, single, n) == 0 && (n - 1) * single < dmg)
            && (minCount < Ceiling(dmg, single) ==> n == minCount && Mended(dmg, single, n) == dmg - single * minCount > 0)
            && Mended(dmg, single, n) <= dmg
            && (dmg > 0 ==> Mended(dmg, single, n) < dmg)
  {
    CeilingIsLeast(dmg, single);
    var c := Ceiling(dmg, single);
    var n := RepairCount(dmg, single, minCount);
    if minCount < c {
      assert minCount * single <= (c - 1) * single by {
        DivMod.MulLess(c - 1, minCount, single);
      }
    }
    if dmg > 0 {
      assert n >= 1;
      assert n * single >= single by {
        DivMod.MulLess(n, 1, single);
      }
    }
  }

  // ---------------------------------------------------------------- normal crafts

  /**
   * The tool's stack after a normal craft (`getRemainingItems` without
   * repair): an undamageable tool stays as it is; a damageable one takes the
   * recipe's wear and is used up once that reaches its maximum damage.
   */
  function WornTool(s: Slot, toolDamage: int): (r: Slot)
  {
    if !Damageable(s) then s
    else
      var worn := SetDamage(s, s.damage + toolDamage);
      if worn.damage < worn.maxDamage then worn else EMPTY
  }

  /** What a slot leaves behind in a normal craft. */
  function NormalRemainder(s: Slot, a: Aspects): Slot
  {
    if IsTool(s, a) then WornTool(s, ToolDamage(a))
    else if s.remainder != AIR then RemainderOf(s)
    else EMPTY
  }

  /** `getRemainingItems` of a recipe that does not repair: one remainder per grid slot. */
  function NormalRemaining(grid: seq<Slot>, a: Aspects): (rem: seq<Slot>)
    ensures |rem| == |grid|
    ensures forall i :: 0 <= i < |grid| ==> rem[i] == NormalRemainder(grid[i], a)
  {
    seq(|grid|, i requires 0 <= i < |grid| => NormalRemainder(grid[i], a))
  }

  /**
   * In a normal craft a damageable tool comes back, identical but for `damage
   * + tool_damage`, exactly when that is below its maximum damage, and
   * otherwise is used up. Other slots give their remainder item, if any.
   */
  lemma NormalCraftWearsTool(grid: seq<Slot>, a: Aspects, i: nat)
    requires i < |grid| && !IsRepair(a) && grid[i].damage >= 0
    ensures var r := NormalRemaining(grid, a)[i];
            var s := grid[i];
            && (IsTool(s, a) && Damageable(s) ==>
                  && (s.damage + ToolDamage(a) < s.maxDamage ==> r == s.(damage := s.damage + ToolDamage(a)))
                  && (s.damage + ToolDamage(a) >= s.maxDamage ==> r == EMPTY))
            && (IsTool(s, a) && !Damageable(s) ==> r == s)
            && (!IsTool(s, a) ==> (IsEmpty(r) <==> s.remainder == AIR))
            && (!IsTool(s, a) && s.remainder != AIR ==> r.item == s.remainder && r.count == 1)
  {
    IsRepairIff(a);
  }

  // ---------------------------------------------------------------- new items

  /**
   * `assemble` of a recipe that does not repair: the crafted item starts
   * with `initial_durability` uses left or, failing that, with
   * `initial_damage`.
   */
  function InitialDamage(a: Aspects, output: Slot): (r: Slot)
  {
    if IsEmpty(output) then EMPTY
    else if a.initialDurability > 0 then
      var dmg := Max(0, output.maxDamage - a.initialDurability);
      if dmg > 0 then SetDamage(output, dmg) else output
    else if a.initialDamage > 0 then
      var dmg := Min(a.initialDamage, output.maxDamage);
      if dmg > 0 then SetDamage(output, dmg) else output
    else output
  }

  /**
   * A new item is the recipe's output except for its damage. With an
   * initial durability below the maximum damage it has exactly that many
   * uses left; a larger one leaves it undamaged. An initial damage is capped
   * at the maximum damage.
   */
  lemma InitialDamageEffects(a: Aspects, output: Slot)
    requires !IsEmpty(output)
    ensures var r := InitialDamage(a, output);
            && r.(damage := output.damage) == output
            && (0 < a.initialDurability < output.maxDamage ==> r.maxDamage - r.damage == a.initialDurability)
            && (a.initialDurability > 0 && a.initialDurability >= output.maxDamage ==> r == output)
            && (a.initialDurability <= 0 && a.initialDamage > 0 && output.maxDamage > 0 ==> r.damage == Min(a.initialDamage, output.maxDamage))
            && (a.initialDurability <= 0 && a.initialDamage <= 0 ==> r == output)
  {
  }

  // ---------------------------------------------------------------- reading a recipe

  /** `MAX_WIDTH * MAX_HEIGHT`: a shapeless recipe has at most nine ingredients. */
  const MAX_INGREDIENTS: nat := 9

  /** The ingredients that match something, in order; 0 stands for an ingredient that matches nothing. */
  function NonEmpty(ingredients: seq<nat>): (list: seq<nat>)
    ensures |list| <= |ingredients|
    ensures forall x :: x in list <==> x in ingredients && x != 0
    ensures (forall i :: 0 <= i < |ingredients| ==> ingredients[i] == 0) ==> list == []
  {
    if ingredients == [] then []
    else (if ingredients[0] != 0 then [ingredients[0]] else []) + NonEmpty(ingredients[1..])
  }

  /** `fromJson` (`read` in the older copy): the ingredient list, or the error the reader throws. */
  function ReadIngredients(ingredients: seq<nat>): (r: Result<seq<nat>, string>)
    ensures r.Success? ==> r.value == NonEmpty(ingredients) && 1 <= |r.value| <= MAX_INGREDIENTS
    ensures (forall i :: 0 <= i < |ingredients| ==> ingredients[i] == 0) ==> r == Failure("No ingredients")
    ensures |NonEmpty(ingredients)| > MAX_INGREDIENTS ==> r == Failure("Too many ingredients")
  {
    var list := NonEmpty(ingredients);
    if |list| == 0 then Failure("No ingredients")
    else if |list| > MAX_INGREDIENTS then Failure("Too many ingredients")
    else Success(list)
  }

  /**
   * The result half of `fromJson`: a result with a `tag` names the first
   * item of that item tag instead of its own `item`. `tags` is the item tag
   * registry, each tag with its items in registry order.
   */
  function ResultItemOf(tags: map<string, seq<nat>>, tag: Option<string>, item: nat): (r: Result<nat, string>)
  {
    match tag
    case None => Success(item)
    case Some(name) =>
      if name !in tags then Failure("Result tag does not exist")
      else if tags[name] == [] then Failure("Result tag has no items")
      else Success(tags[name][0])
  }

  /**
   * Without a tag the result is the named item; with one it is the tag's
   * first item, and the reader throws exactly when the tag is unknown or
   * holds no items.
   */
  lemma ResultItemFromTag(tags: map<string, seq<nat>>, tag: Option<string>, item: nat)
    ensures var r := ResultItemOf(tags, tag, item);
            && (tag.None? ==> r == Success(item))
            && (tag.Some? ==> (r.Failure? <==> tag.value !in tags || |tags[tag.value]| == 0))
            && (tag.Some? && r.Success? ==> r.value in tags[tag.value] && r.value == tags[tag.value][0])
  {
  }

  /** The reader accepts a recipe exactly when one to nine of its ingredients match something. */
  lemma ReadIngredientsAccepts(ingredients: seq<nat>)
    ensures ReadIngredients(ingredients).Success? <==>
            (exists i :: 0 <= i < |ingredients| && ingredients[i] != 0) && |NonEmpty(ingredients)| <= MAX_INGREDIENTS
  {
    var list := NonEmpty(ingredients);
    if exists i :: 0 <= i < |ingredients| && ingredients[i] != 0 {
      var i :| 0 <= i < |ingredients| && ingredients[i] != 0;
      assert ingredients[i] in list;
    }
  }
}
