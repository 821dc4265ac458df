/**
 * Minecraft item stacks as the inventory helpers see them: an item kind
 * (item id, its other data components, its damage and maximum stack size)
 * and a count. A stack is empty when its item is air or its count is not
 * positive, the way `ItemStack.isEmpty` decides.
 */
module ItemStacks {

  const AIR: nat := 0

  /** An example component type number, standing for `DataComponents.CUSTOM_NAME`. */
  const CUSTOM_NAME: nat := 5

  /**
   * A stack's data components other than the three kept apart below: each
   * present component type, by number, mapped to its value.
   */
  type Components = map<nat, nat>

  /**
   * Everything of a stack but its count. `components` holds the data
   * components; damage is kept apart because some comparisons ignore it,
   * and `damageable` and `maxStack` stand for the max-damage and
   * max-stack-size components that decide how the stack behaves.
   */
  datatype Kind = Kind(item: nat, components: Components, damageable: bool, damage: nat, maxStack: nat)

  datatype Stack = Stack(kind: Kind, count: int)

  /** `ItemStack.EMPTY`. */
  const Empty: Stack := Stack(Kind(AIR, map[], false, 0, 64), 0)

  predicate IsEmpty(s: Stack)
  {
    s.kind.item == AIR || s.count <= 0
  }

  /** Minecraft keeps every stack's size between 1 and its maximum, and the maximum is at least 1. */
  predicate WellFormed(s: Stack)
  {
    s.kind.maxStack >= 1 && (IsEmpty(s) || s.count <= s.kind.maxStack)
  }

  /** `ItemStack.getItem`: an empty stack holds air, whatever item it was made of. */
  function ItemOf(s: Stack): (item: nat)
    ensures item == AIR <==> IsEmpty(s)
    ensures !IsEmpty(s) ==> item == s.kind.item
  {
    if IsEmpty(s) then AIR else s.kind.item
  }

  /** `isDamageableItem`: a non-empty stack of a damageable item. */
  predicate Damageable(s: Stack)
  {
    !IsEmpty(s) && s.kind.damageable
  }

  /** `Inventories.areItemStacksIdentical`: same item, and same components unless both are empty. */
  predicate Identical(a: Stack, b: Stack)
  {
    ItemOf(a) == ItemOf(b) && ((IsEmpty(a) && IsEmpty(b)) || a.kind == b.kind)
  }

  /**
   * `areItemStacksIdenticalIgnoreDamage`: same item; for a damageable a,
   * every component a has must be present in b, with the same value unless
   * it is the damage; otherwise the stacks must be identical. The test is
   * one-way: b may carry components a lacks.
   */
  predicate IdenticalIgnoreDamage(a: Stack, b: Stack)
  {
    ItemOf(a) == ItemOf(b) &&
    (if Damageable(a) then ComponentsWithin(a.kind, b.kind) else Identical(a, b))
  }

  /**
   * Every component of a is in b with the same value, the damage excepted.
   * A damageable a has a damage component, so b must have one too, which
   * `damageable` agreeing says.
   */
  predicate ComponentsWithin(a: Kind, b: Kind)
  {
    && a.damageable == b.damageable && a.maxStack == b.maxStack
    && forall t :: t in a.components ==> t in b.components && a.components[t] == b.components[t]
  }

  /**
   * The comparison ignoring damage is one-way: an undamaged tool matches a
   * request for the same tool with a custom name, but not the other way
   * round, and a damaged tool matches its undamaged twin.
   */
  lemma IgnoreDamageOneWay()
    ensures var plain := Stack(Kind(2, map[], true, 0, 1), 1);
            var named := Stack(Kind(2, map[CUSTOM_NAME := 7], true, 0, 1), 1);
            var worn := Stack(Kind(2, map[], true, 30, 1), 1);
            && IdenticalIgnoreDamage(plain, named) && !IdenticalIgnoreDamage(named, plain)
            && !Identical(plain, named) && IdenticalIgnoreDamage(worn, plain) && !Identical(worn, plain)
  {
    var named := Stack(Kind(2, map[CUSTOM_NAME := 7], true, 0, 1), 1);
    assert CUSTOM_NAME in named.kind.components;
  }

  /** Matching ignoring damage chains: a stack within b, and b within c, is within c. */
  lemma IgnoreDamageTransitive(a: Stack, b: Stack, c: Stack)
    requires IdenticalIgnoreDamage(a, b) && IdenticalIgnoreDamage(b, c)
    ensures IdenticalIgnoreDamage(a, c)
  {
    if Damageable(a) {
      assert !IsEmpty(b) && b.kind.damageable;
    }
  }

  /**
   * Empty stacks compare by air: any two are identical, an empty and a
   * non-empty stack never are, and nothing stacks on an empty stack.
   * Identical stacks are identical ignoring damage, and non-empty identical
   * stacks have the same kind.
   */
  lemma Comparisons(a: Stack, b: Stack)
    ensures IsEmpty(a) && IsEmpty(b) ==> Identical(a, b) && IdenticalIgnoreDamage(a, b)
    ensures IsEmpty(a) != IsEmpty(b) ==> !Identical(a, b) && !IdenticalIgnoreDamage(a, b)
    ensures IsEmpty(b) ==> !StackableOn(a, b)
    ensures Identical(a, b) ==> IdenticalIgnoreDamage(a, b)
    ensures Identical(a, b) && !IsEmpty(a) ==> a.kind == b.kind
  {
  }

  /** `isStackable`: more than one fits on a stack. */
  predicate Stackable(s: Stack)
  {
    s.kind.maxStack > 1
  }

  /** `Inventories.isItemStackableOn(a, b)`: a is a non-empty stackable stack of b's item. */
  predicate StackableOn(a: Stack, b: Stack)
  {
    !IsEmpty(a) && Stackable(a) && ItemOf(a) == ItemOf(b)
  }

  /** `Inventories.checked`: an empty stack is returned as `EMPTY`. */
  function Checked(s: Stack): (r: Stack)
    ensures IsEmpty(s) ==> r == Empty
    ensures !IsEmpty(s) ==> r == s
  {
    if IsEmpty(s) then Empty else s
  }

  /** The number of items a stack holds: its count, or nothing when it is empty. */
  function ItemCount(s: Stack): (n: nat)
    ensures n == 0 <==> IsEmpty(s)
  {
    if IsEmpty(s) then 0 else s.count
  }

  /** The number of items in a sequence of slots. */
  function Items(slots: seq<Stack>): (n: nat)
  {
    if slots == [] then 0 else Items(slots[..|slots| - 1]) + ItemCount(slots[|slots| - 1])
  }

  /** Replacing one slot changes the total by the difference of the two stacks. */
  lemma {:induction false} ItemsUpdate(slots: seq<Stack>, k: nat, v: Stack)
    requires k < |slots|
    ensures Items(slots[k := v]) == Items(slots) - ItemCount(slots[k]) + ItemCount(v)
    decreases |slots|
  {
    var last := |slots| - 1;
    if k < last {
      assert slots[k := v][..last] == slots[..last][k := v];
      ItemsUpdate(slots[..last], k, v);
    } else {
      assert slots[k := v][..last] == slots[..last];
    }
  }

  /** The items of a sequence are those of its two halves. */
  lemma {:induction false} ItemsSplit(a: seq<Stack>, b: seq<Stack>)
    ensures Items(a + b) == Items(a) + Items(b)
    decreases |b|
  {
    if b == [] {
      assert a + b == a;
    } else {
      var b0 := b[..|b| - 1];
      assert (a + b)[..|a + b| - 1] == a + b0;
      ItemsSplit(a, b0);
    }
  }
}
