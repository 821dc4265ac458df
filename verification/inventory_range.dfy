/**
 * `Inventories.InventoryRange`: a window of consecutive slots of a
 * container, addressed relative to its offset, with its own maximum stack
 * size, and the searches, counts and single-slot insertion built on it.
 *
 * The container is the sequence of its stacks and its own stack limit
 * (`inventory.getMaxStackSize()`). `Mth.clamp(v, lo, hi)` is
 * `Math.min(Math.max(v, lo), hi)`, which is `JavaInt.Limit`.
 */
module InventoryRange {
  import opened JavaInt
  import opened ItemStacks

  datatype InvRange = InvRange(offset: int, size: int, maxStackSize: int)

  /** The default `max_stack_size_` of a new range. */
  const DEFAULT_MAX_STACK: int := 64

  /** `new InventoryRange(inventory, offset, size)`: offset and size are pulled into the container. */
  function Make(containerSize: int, offset: int, size: int): (r: InvRange)
    ensures containerSize >= 1 ==> 0 <= r.offset <= containerSize - 1 && 0 <= r.size <= containerSize - r.offset
    ensures 0 <= offset <= containerSize - 1 ==> r.offset == offset
    ensures 0 <= size <= containerSize - r.offset ==> r.size == size
    ensures r.maxStackSize == DEFAULT_MAX_STACK
  {
    var o := Limit(offset, 0, containerSize - 1);
    InvRange(o, Limit(size, 0, containerSize - o), DEFAULT_MAX_STACK)
  }

  /** `fromPlayerHotbar`, `fromPlayerStorage` and `fromPlayerInventory` on the 36 main slots of a player. */
  const PLAYER_SLOTS: int := 36

  function Hotbar(): InvRange { Make(PLAYER_SLOTS, 0, 9) }
  function Storage(): InvRange { Make(PLAYER_SLOTS, 9, 27) }
  function PlayerInventory(): InvRange { Make(PLAYER_SLOTS, 0, 36) }

  /** The hotbar and the storage rows split the player's main inventory without overlap. */
  lemma PlayerRangesPartition()
    ensures Hotbar() == InvRange(0, 9, 64) && Storage() == InvRange(9, 27, 64)
    ensures PlayerInventory() == InvRange(0, 36, 64)
    ensures Hotbar().offset + Hotbar().size == Storage().offset
    ensures Storage().offset + Storage().size == PlayerInventory().offset + PlayerInventory().size
  {
  }

  /** The range's slots all exist in the container. */
  predicate Addresses(r: InvRange, slots: seq<Stack>)
  {
    0 <= r.offset && 0 <= r.size && r.offset + r.size <= |slots|
  }

  /** A range made for a non-empty container always lies inside it. */
  lemma MakeAddresses(slots: seq<Stack>, offset: int, size: int)
    requires |slots| >= 1
    ensures Addresses(Make(|slots|, offset, size), slots)
  {
  }

  /** `get(index)` / `getItem(index)`: slot offset + index of the container. */
  function Get(slots: seq<Stack>, r: InvRange, index: int): Stack
    requires 0 <= r.offset + index < |slots|
  {
    slots[r.offset + index]
  }

  /** `set(index, stack)` / `setItem`: only slot offset + index changes. */
  function Set(slots: seq<Stack>, r: InvRange, index: int, s: Stack): (out: seq<Stack>)
    requires 0 <= r.offset + index < |slots|
    ensures |out| == |slots| && Get(out, r, index) == s
    ensures forall k :: 0 <= k < |slots| && k != r.offset + index ==> out[k] == slots[k]
  {
    slots[r.offset + index := s]
  }

  /** `get` after `set` reads what was set at that index, and what was there before at every other index. */
  lemma GetAfterSet(slots: seq<Stack>, r: InvRange, i: int, s: Stack, j: int)
    requires 0 <= r.offset + i < |slots| && 0 <= r.offset + j < |slots|
    ensures Get(Set(slots, r, i, s), r, j) == if i == j then s else Get(slots, r, j)
  {
  }

  /** The range's slots, index 0 first. */
  function View(slots: seq<Stack>, r: InvRange): (v: seq<Stack>)
    requires Addresses(r, slots)
    ensures |v| == r.size
    ensures forall i :: 0 <= i < r.size ==> v[i] == Get(slots, r, i)
  {
    slots[r.offset..r.offset + r.size]
  }

  /** `setMaxStackSize(count)`: at least 1. */
  function SetMaxStackSize(r: InvRange, count: int): (out: InvRange)
    ensures out.maxStackSize >= 1
    ensures count >= 1 ==> out.maxStackSize == count
    ensures out.offset == r.offset && out.size == r.size
  {
    r.(maxStackSize := Max(count, 1))
  }

  /** `getMaxStackSize()`: the tighter of the range's and the container's limits. */
  function MaxStackSize(r: InvRange, containerMax: int): (m: int)
    ensures m <= r.maxStackSize && m <= containerMax
    ensures m == r.maxStackSize || m == containerMax
  {
    Min(r.maxStackSize, containerMax)
  }

  // ---------------------------------------------------------------- search

  /** `indexOf(stack)` on the range's view: the first slot identical to the stack, or -1. */
  function IndexOf(v: seq<Stack>, s: Stack): (r: int)
    ensures -1 <= r < |v|
    ensures r >= 0 ==> Identical(s, v[r])
    ensures forall j :: 0 <= j < |v| && (r == -1 || j < r) ==> !Identical(s, v[j])
  {
    IndexFrom(v, s, 0)
  }

  function IndexFrom(v: seq<Stack>, s: Stack, i: nat): (r: int)
    requires i <= |v|
    decreases |v| - i
    ensures r == -1 || i <= r < |v|
    ensures r >= 0 ==> Identical(s, v[r])
    ensures forall j :: i <= j < |v| && (r == -1 || j < r) ==> !Identical(s, v[j])
  {
    if i == |v| then -1
    else if Identical(s, v[i]) then i
    else IndexFrom(v, s, i + 1)
  }

  /** `contains(stack)`: some slot of the range is identical to the stack. */
  predicate Contains(v: seq<Stack>, s: Stack)
  {
    exists i :: 0 <= i < |v| && Identical(s, v[i])
  }

  /** `contains` answers yes exactly when `indexOf` finds a slot. */
  lemma ContainsIndexOf(v: seq<Stack>, s: Stack)
    ensures Contains(v, s) <==> IndexOf(v, s) >= 0
  {
  }

  /** The number of stacks identical to the reference. */
  function MatchCount(v: seq<Stack>, ref: Stack): (n: nat)
    ensures n <= |v|
  {
    if v == [] then 0
    else MatchCount(v[..|v| - 1], ref) + (if Identical(ref, v[|v| - 1]) then 1 else 0)
  }

  /** The summed counts of the stacks identical to the reference. */
  function MatchTotal(v: seq<Stack>, ref: Stack): int
  {
    if v == [] then 0
    else MatchTotal(v[..|v| - 1], ref) + (if Identical(ref, v[|v| - 1]) then v[|v| - 1].count else 0)
  }

  /** No stack matches exactly when `indexOf` gives -1. */
  lemma {:induction false} MatchCountZero(v: seq<Stack>, ref: Stack)
    ensures MatchCount(v, ref) == 0 <==> IndexOf(v, ref) == -1
    decreases |v|
  {
    if v != [] {
      var init := v[..|v| - 1];
      MatchCountZero(init, ref);
      assert forall j :: 0 <= j < |init| ==> init[j] == v[j];
      if IndexOf(init, ref) >= 0 {
        assert Identical(ref, v[IndexOf(init, ref)]);
      }
    }
  }

  /** `stackMatchCount(ref)`: the Java counting loop. */
  method StackMatchCount(v: seq<Stack>, ref: Stack) returns (n: int)
    ensures n == MatchCount(v, ref)
  {
    n := 0;
    var i := 0;
    while i < |v|
      invariant 0 <= i <= |v|
      invariant n == MatchCount(v[..i], ref)
    {
      assert v[..i + 1][..i] == v[..i];
      if Identical(ref, v[i]) {
        n := n + 1;
      }
      i := i + 1;
    }
    assert v[..i] == v;
  }

  /** `totalMatchingItemCount(ref)`: the Java summing loop. */
  method TotalMatchingItemCount(v: seq<Stack>, ref: Stack) returns (n: int)
    ensures n == MatchTotal(v, ref)
  {
    n := 0;
    var i := 0;
    while i < |v|
      invariant 0 <= i <= |v|
      invariant n == MatchTotal(v[..i], ref)
    {
      assert v[..i + 1][..i] == v[..i];
      var stack := v[i];
      if Identical(ref, stack) {
        n := n + stack.count;
      }
      i := i + 1;
    }
    assert v[..i] == v;
  }

  /** Among well-formed non-empty matches every matching stack adds at least one item to the total. */
  lemma {:induction false} MatchTotalAtLeastCount(v: seq<Stack>, ref: Stack)
    requires !IsEmpty(ref)
    requires forall i :: 0 <= i < |v| && Identical(ref, v[i]) ==> !IsEmpty(v[i])
    ensures MatchTotal(v, ref) >= MatchCount(v, ref)
    decreases |v|
  {
    if v != [] {
      var init := v[..|v| - 1];
      assert forall i :: 0 <= i < |init| ==> init[i] == v[i];
      MatchTotalAtLeastCount(init, ref);
    }
  }

  // ---------------------------------------------------------------- insert(index, stack)

  /**
   * `insert(index, stack)`: an empty slot takes the whole stack; a full or
   * different slot takes nothing; otherwise the slot is topped up to the
   * limit and the rest is returned.
   */
  function InsertAt(slots: seq<Stack>, r: InvRange, containerMax: int, index: int, mv: Stack): (res: (seq<Stack>, Stack))
    requires 0 <= r.offset + index < |slots|
    ensures |res.0| == |slots|
    ensures forall k :: 0 <= k < |slots| && k != r.offset + index ==> res.0[k] == slots[k]
  {
    if IsEmpty(mv) then (slots, mv)
    else
      var stack := Get(slots, r, index);
      var limit := Min(MaxStackSize(r, containerMax), stack.kind.maxStack);
      if IsEmpty(stack) then (Set(slots, r, index, mv), Empty)
      else if stack.count >= limit || !Identical(stack, mv) then (slots, mv)
      else
        var amount := Min(limit - stack.count, mv.count);
        var remaining := mv.(count := mv.count - amount);
        (Set(slots, r, index, stack.(count := stack.count + amount)), Checked(remaining))
  }

  /**
   * The outcomes of `insert(index, stack)`: an empty input or a full or
   * different slot changes nothing and hands the input back; an empty slot
   * takes a copy and `EMPTY` comes back; otherwise the items are conserved
   * and the slot does not grow past the limit.
   */
  lemma InsertAtEffects(slots: seq<Stack>, r: InvRange, containerMax: int, index: int, mv: Stack)
    requires 0 <= r.offset + index < |slots|
    ensures var res := InsertAt(slots, r, containerMax, index, mv);
            var stack := slots[r.offset + index];
            var limit := Min(MaxStackSize(r, containerMax), stack.kind.maxStack);
            && (IsEmpty(mv) ==> res == (slots, mv))
            && (!IsEmpty(mv) && IsEmpty(stack) ==> res.0[r.offset + index] == mv && res.1 == Empty)
            && (!IsEmpty(mv) && !IsEmpty(stack) && (stack.count >= limit || !Identical(stack, mv)) ==> res == (slots, mv))
            && (!IsEmpty(mv) ==> Items(res.0) + ItemCount(res.1) == Items(slots) + ItemCount(mv))
            && (!IsEmpty(mv) && !IsEmpty(stack) && stack.count < limit ==> res.0[r.offset + index].count <= limit)
  {
    var k := r.offset + index;
    var res := InsertAt(slots, r, containerMax, index, mv);
    if !IsEmpty(mv) && res.0 != slots {
      ItemsUpdate(slots, k, res.0[k]);
      assert slots[k := res.0[k]] == res.0;
    }
  }
}
