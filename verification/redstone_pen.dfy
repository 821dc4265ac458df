/**
 * `RedstonePenItem`'s redstone accounting. What the player holds is a pen
 * or a stack of redstone dust. A pen with a maximum damage stores redstone
 * as missing durability (`maxDamage - damage` items). A pen without one
 * draws on, and returns to, the 36 main slots of the player's inventory.
 * Items that cannot be inserted are given to the player; `given` counts
 * them, because dropping them into the world is not part of this model.
 */
module RedstonePen {
  import opened JavaInt
  import opened ItemStacks
  import InventoryInsert
  import InventoryRequest

  /** `Items.REDSTONE`: any item id other than air stands for it. */
  const REDSTONE: Kind := Kind(1, map[], false, 0, 64)

  /** The stack in the player's hand. `NoItem` is the `EMPTY` stack left after the last item is used. */
  datatype Held = Pen(damage: int, maxDamage: int) | Redstone(count: int, maxStack: int) | OtherItem | NoItem

  /** A pen's damage never exceeds its maximum, and a redstone stack holds between 1 and its maximum. */
  predicate Valid(h: Held)
  {
    match h
    case Pen(damage, maxDamage) => 0 <= damage && (maxDamage > 0 ==> damage <= maxDamage)
    case Redstone(count, maxStack) => 1 <= count <= maxStack
    case _ => true
  }

  /** The redstone the held stack itself carries; the tooltip shows `maxDamage - damage` for a pen. */
  function Stored(h: Held): (n: int)
    ensures Valid(h) ==> n >= 0
  {
    match h
    case Pen(damage, maxDamage) => if maxDamage > 0 then maxDamage - damage else 0
    case Redstone(count, _) => count
    case _ => 0
  }

  datatype Pushed = Pushed(hand: Held, inv: seq<Stack>, given: int)
  datatype Popped = Popped(hand: Held, inv: seq<Stack>, amount: int)

  /** `Inventories.extract(player, REDSTONE, amount, simulate)`: a request for `amount` redstone. */
  function PlayerExtract(inv: seq<Stack>, amount: int, simulate: bool): (res: (seq<Stack>, Stack))
    ensures |res.0| == |inv|
    ensures amount <= 0 ==> res == (inv, Empty)
    ensures simulate ==> res.0 == inv
  {
    if amount <= 0 then (inv, Empty) else InventoryRequest.ExtractRequest(inv, Stack(REDSTONE, amount), simulate)
  }

  /** `Inventories.insert(player, REDSTONE x amount, false)`. */
  function PlayerInsert(inv: seq<Stack>, placeable: seq<bool>, amount: int): (res: (seq<Stack>, Stack))
    requires |placeable| == |inv|
    ensures |res.0| == |inv|
  {
    InventoryInsert.InsertOrSimulate(inv, placeable, true, Stack(REDSTONE, amount), false)
  }

  /** What the player's inventory does not take comes back as redstone. */
  lemma PlayerInsertConserves(inv: seq<Stack>, placeable: seq<bool>, amount: int)
    requires |placeable| == |inv| && InventoryInsert.AllWellFormed(inv) && amount > 0
    ensures var res := PlayerInsert(inv, placeable, amount);
            Items(res.0) + ItemCount(res.1) == Items(inv) + amount
  {
    InventoryInsert.InsertConserves(inv, placeable, true, Stack(REDSTONE, amount), InventoryInsert.DEFAULT);
  }

  /** `pushRedstone`: hands `amount` redstone back to the pen, the stack or the player. */
  function Push(creative: bool, hand: Held, inv: seq<Stack>, placeable: seq<bool>, amount: int): (r: Pushed)
    requires |placeable| == |inv|
    ensures creative || amount <= 0 ==> r == Pushed(hand, inv, 0)
    ensures |r.inv| == |inv|
    ensures !(hand.Pen? && hand.maxDamage <= 0) ==> r.inv == inv
  {
    if creative || amount <= 0 then Pushed(hand, inv, 0)
    else match hand
      case Pen(damage, maxDamage) =>
        if maxDamage <= 0 then
          var res := PlayerInsert(inv, placeable, amount);
          Pushed(hand, res.0, ItemCount(res.1))
        else if damage >= amount then Pushed(Pen(damage - amount, maxDamage), inv, 0)
        else Pushed(Pen(0, maxDamage), inv, amount - damage)
      case Redstone(count, maxStack) =>
        if count <= maxStack - amount then Pushed(Redstone(count + amount, maxStack), inv, 0)
        else Pushed(hand, inv, amount)
      case _ => Pushed(hand, inv, amount)
  }

  /** `popRedstone`: takes up to `amount` redstone and says how much was taken. */
  function Pop(creative: bool, hand: Held, inv: seq<Stack>, amount: int): (r: Popped)
    ensures creative ==> r == Popped(hand, inv, amount)
    ensures !creative && amount <= 0 ==> r == Popped(hand, inv, 0)
    ensures |r.inv| == |inv|
  {
    if creative then Popped(hand, inv, amount)
    else if amount <= 0 then Popped(hand, inv, 0)
    else match hand
      case Pen(damage, maxDamage) =>
        if maxDamage > 0 then
          var dmg := damage + amount;
          if dmg >= maxDamage then Popped(NoItem, inv, maxDamage - damage)
          else Popped(Pen(dmg, maxDamage), inv, amount)
        else
          var res := PlayerExtract(inv, amount, false);
          Popped(hand, res.0, ItemCount(res.1))
      case Redstone(count, maxStack) =>
        if count <= amount then Popped(NoItem, inv, count)
        else Popped(Redstone(count - amount, maxStack), inv, amount)
      case _ => Popped(hand, inv, amount)
  }

  /** `hasEnoughRedstone`. */
  function HasEnough(creative: bool, hand: Held, inv: seq<Stack>, amount: int): (ok: bool)
    ensures creative ==> ok
    ensures !creative && !hand.Pen? && !hand.Redstone? ==> !ok
  {
    if creative then true
    else match hand
      case Pen(damage, maxDamage) =>
        if maxDamage > 0 then damage < maxDamage - amount
        else ItemCount(PlayerExtract(inv, amount, true).1) >= amount
      case Redstone(count, _) => count >= amount
      case _ => false
  }

  /** `isFullRedstone`. */
  function IsFull(hand: Held): (full: bool)
    ensures full ==> hand.Pen? || hand.Redstone?
  {
    match hand
    case Pen(damage, _) => damage <= 0
    case Redstone(count, maxStack) => count >= maxStack
    case _ => false
  }

  /**
   * Popping moves redstone and never makes any: what the hand and the
   * inventory hold afterwards plus what was taken is what they held before.
   * No more than asked for is taken, and a durable pen or a stack that
   * delivers less than asked for is used up.
   */
  lemma PopConserves(hand: Held, inv: seq<Stack>, amount: int)
    requires Valid(hand) && amount > 0
    requires hand.Pen? || hand.Redstone?
    ensures var r := Pop(false, hand, inv, amount);
            && Stored(r.hand) + Items(r.inv) + r.amount == Stored(hand) + Items(inv)
            && 0 <= r.amount <= amount
            && Valid(r.hand)
            && (r.amount < amount && !(hand.Pen? && hand.maxDamage <= 0) ==> r.hand == NoItem)
  {
    if hand.Pen? && hand.maxDamage <= 0 {
      var req := Stack(REDSTONE, amount);
      var res := InventoryRequest.ExtractRequest(inv, req, false);
      InventoryRequest.ExtractRequestTakes(inv, req);
      assert PlayerExtract(inv, amount, false) == res;
      assert Pop(false, hand, inv, amount) == Popped(hand, res.0, ItemCount(res.1));
    }
  }

  /**
   * Pushing loses nothing: the redstone that ends up in the hand, in the
   * inventory or given to the player is what was there plus `amount`.
   */
  lemma PushConserves(hand: Held, inv: seq<Stack>, placeable: seq<bool>, amount: int)
    requires Valid(hand) && amount > 0
    requires |placeable| == |inv| && InventoryInsert.AllWellFormed(inv)
    ensures var r := Push(false, hand, inv, placeable, amount);
            && Stored(r.hand) + Items(r.inv) + r.given == Stored(hand) + Items(inv) + amount
            && r.given >= 0
            && Valid(r.hand)
  {
    if hand.Pen? && hand.maxDamage <= 0 {
      var res := PlayerInsert(inv, placeable, amount);
      PlayerInsertConserves(inv, placeable, amount);
      assert Push(false, hand, inv, placeable, amount) == Pushed(hand, res.0, ItemCount(res.1));
    }
  }

  /** A durable pen is repaired by `amount` but never below zero damage, and only the excess is given. */
  lemma PushRepairsPen(damage: int, maxDamage: int, inv: seq<Stack>, placeable: seq<bool>, amount: int)
    requires Valid(Pen(damage, maxDamage)) && maxDamage > 0 && amount > 0 && |placeable| == |inv|
    ensures var r := Push(false, Pen(damage, maxDamage), inv, placeable, amount);
            && r.hand == Pen(Max(damage - amount, 0), maxDamage)
            && r.given == Max(amount - damage, 0)
            && r.inv == inv
  {
  }

  /**
   * `hasEnoughRedstone` predicts `popRedstone`: it holds exactly when the
   * pop delivers the whole amount, and for a durable pen also keeps the pen
   * in the hand.
   */
  lemma HasEnoughIffPopDelivers(hand: Held, inv: seq<Stack>, amount: int)
    requires Valid(hand) && amount > 0
    requires hand.Pen? || hand.Redstone?
    ensures var r := Pop(false, hand, inv, amount);
            && (hand.Pen? && hand.maxDamage > 0 ==> (HasEnough(false, hand, inv, amount) <==> r.amount == amount && r.hand.Pen?))
            && (!(hand.Pen? && hand.maxDamage > 0) ==> (HasEnough(false, hand, inv, amount) <==> r.amount == amount))
  {
    if hand.Pen? && hand.maxDamage <= 0 {
      var req := Stack(REDSTONE, amount);
      InventoryRequest.ExtractRequestSimulates(inv, req);
      InventoryRequest.ExtractRequestTakes(inv, req);
    }
  }

  /** Pushing back what a pop took restores a durable pen or a redstone stack that the pop did not use up. */
  lemma PopThenPush(hand: Held, inv: seq<Stack>, placeable: seq<bool>, amount: int)
    requires Valid(hand) && amount > 0 && |placeable| == |inv|
    requires (hand.Pen? && hand.maxDamage > 0) || hand.Redstone?
    ensures var p := Pop(false, hand, inv, amount);
            p.hand != NoItem ==> Push(false, p.hand, p.inv, placeable, p.amount) == Pushed(hand, inv, 0)
  {
  }

  /** A full durable pen or a full stack takes nothing: everything pushed is given to the player. */
  lemma FullGivesAll(hand: Held, inv: seq<Stack>, placeable: seq<bool>, amount: int)
    requires Valid(hand) && amount > 0 && |placeable| == |inv|
    requires IsFull(hand) && !(hand.Pen? && hand.maxDamage <= 0)
    ensures Push(false, hand, inv, placeable, amount) == Pushed(hand, inv, amount)
  {
  }

  /** A stack that is neither a pen nor redstone reports the whole amount as popped, although it holds none. */
  lemma PopOtherClaimsAll(inv: seq<Stack>, amount: int)
    requires amount > 0
    ensures Pop(false, OtherItem, inv, amount) == Popped(OtherItem, inv, amount)
    ensures !HasEnough(false, OtherItem, inv, amount)
  {
  }
}
