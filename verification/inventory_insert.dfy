/**
 * `InventoryRange.insert(stack, only_fillup, limit, reverse, force_group_stacks)`
 * and `insert(stack, simulate)` on the slots of a range, index 0 first.
 *
 * The real insertion runs in three phases over a scan that goes backwards
 * when `reverse` is set: it first tops up the stacks identical to the
 * input, then (grouping) puts the rest into an empty slot between or next
 * to such stacks, and last into any empty slot. Which slots accept the
 * input (`canPlaceItem`) is a parameter, one flag per slot.
 */
module InventoryInsert {
  import opened JavaInt
  import opened Wrappers
  import opened ItemStacks

  /** The slot visited at step i of a scan over n slots. */
  function Slot(n: nat, i: nat, reverse: bool): (s: nat)
    requires i < n
    ensures s < n
    ensures reverse ==> s + i == n - 1
    ensures !reverse ==> s == i
  {
    if reverse then n - 1 - i else i
  }

  /** Slot k was visited by a scan that has done its first i steps. */
  predicate Before(n: nat, i: nat, reverse: bool, k: nat)
  {
    if reverse then k + i >= n else k < i
  }

  /** `matches[]`: the non-empty slots identical to the input. */
  function Matches(v: seq<Stack>, mv: Stack): (m: seq<bool>)
    ensures |m| == |v|
    ensures forall k :: 0 <= k < |v| ==> (m[k] <==> !IsEmpty(v[k]) && Identical(v[k], mv))
  {
    seq(|v|, k requires 0 <= k < |v| => !IsEmpty(v[k]) && Identical(v[k], mv))
  }

  /** `empties[]`: the empty slots. */
  function Empties(v: seq<Stack>): (e: seq<bool>)
    ensures |e| == |v|
    ensures forall k :: 0 <= k < |v| ==> (e[k] <==> IsEmpty(v[k]))
  {
    seq(|v|, k requires 0 <= k < |v| => IsEmpty(v[k]))
  }

  /** `limit_left`: a positive limit caps the move at the item's maximum stack size. */
  function LimitLeft(input: Stack, limit: int): (n: int)
    ensures 0 <= n <= input.kind.maxStack
    ensures limit > 0 ==> n <= limit
    ensures n == input.kind.maxStack || n == limit
  {
    if limit > 0 then Min(limit, input.kind.maxStack) else input.kind.maxStack
  }

  // ---------------------------------------------------------------- phase 1: fill up

  datatype Fill = Fill(v: seq<Stack>, mv: Stack, limitLeft: int, done: bool)

  /** One step of the first loop on a matching slot: it takes what fits of the input, up to the limit left. */
  function FillStep(v: seq<Stack>, mv: Stack, limitLeft: int, sno: nat): (f: Fill)
    requires sno < |v|
    ensures |f.v| == |v|
  {
    var stack := v[sno];
    var nmax := Min(limitLeft, stack.kind.maxStack - stack.count);
    if mv.count <= nmax then Fill(v[sno := stack.(count := stack.count + mv.count)], mv, limitLeft, true)
    else Fill(v[sno := stack.(count := stack.count + nmax)], mv.(count := mv.count - nmax), limitLeft - nmax, false)
  }

  /** The first loop from step i on: each matching slot takes what fits, and the loop ends once the input is used up. */
  function FillUp(v: seq<Stack>, mv: Stack, limitLeft: int, matches: seq<bool>, empties: seq<bool>, reverse: bool, i: nat): (f: Fill)
    requires |matches| == |v| && |empties| == |v| && i <= |v|
    decreases |v| - i
    ensures |f.v| == |v|
  {
    if i == |v| then Fill(v, mv, limitLeft, false)
    else
      var sno := Slot(|v|, i, reverse);
      if empties[sno] || !matches[sno] then FillUp(v, mv, limitLeft, matches, empties, reverse, i + 1)
      else
        var s := FillStep(v, mv, limitLeft, sno);
        if s.done then s else FillUp(s.v, s.mv, s.limitLeft, matches, empties, reverse, i + 1)
  }

  /** Filling up from step i on leaves the empty, the non-matching and the already visited slots alone. */
  lemma {:induction false} FillUpFrame(v: seq<Stack>, mv: Stack, limitLeft: int, matches: seq<bool>, empties: seq<bool>, reverse: bool, i: nat)
    requires |matches| == |v| && |empties| == |v| && i <= |v|
    decreases |v| - i
    ensures var f := FillUp(v, mv, limitLeft, matches, empties, reverse, i);
            forall k :: 0 <= k < |v| && (empties[k] || !matches[k] || Before(|v|, i, reverse, k)) ==> f.v[k] == v[k]
  {
    if i < |v| {
      var sno := Slot(|v|, i, reverse);
      if empties[sno] || !matches[sno] {
        FillUpFrame(v, mv, limitLeft, matches, empties, reverse, i + 1);
      } else {
        var s := FillStep(v, mv, limitLeft, sno);
        if !s.done {
          FillUpFrame(s.v, s.mv, s.limitLeft, matches, empties, reverse, i + 1);
        }
      }
    }
  }

  /** The matching slots hold legal, non-empty stacks of the input's kind. */
  predicate Fillable(v: seq<Stack>, kind: Kind, matches: seq<bool>, empties: seq<bool>)
    requires |matches| == |v| && |empties| == |v|
  {
    forall k :: 0 <= k < |v| && matches[k] && !empties[k] ==> Holds(v[k], kind)
  }

  /** A legal, non-empty stack of the given kind. */
  predicate Holds(s: Stack, kind: Kind)
  {
    !IsEmpty(s) && s.kind == kind && s.count <= kind.maxStack
  }

  /** One fill-up step keeps the slot legal and spends only the limit left; when the input is not used up, the slot is full or the limit is spent. */
  lemma FillStepLegal(v: seq<Stack>, mv: Stack, limitLeft: int, sno: nat)
    requires sno < |v| && Holds(v[sno], mv.kind) && !IsEmpty(mv) && limitLeft >= 0
    ensures var s := FillStep(v, mv, limitLeft, sno);
            && Holds(s.v[sno], mv.kind)
            && 0 <= s.limitLeft <= limitLeft
            && (!s.done ==> !IsEmpty(s.mv) && s.mv.kind == mv.kind)
            && (!s.done ==> s.v[sno].count == mv.kind.maxStack || s.limitLeft == 0)
  {
  }

  /** One fill-up step moves items: the slot gains what the input loses, within the limit left. */
  lemma FillStepConserves(v: seq<Stack>, mv: Stack, limitLeft: int, sno: nat)
    requires sno < |v| && Holds(v[sno], mv.kind) && !IsEmpty(mv) && limitLeft >= 0
    ensures var s := FillStep(v, mv, limitLeft, sno);
            && (!s.done ==> Items(s.v) + ItemCount(s.mv) == Items(v) + ItemCount(mv))
            && (!s.done ==> Items(s.v) + s.limitLeft == Items(v) + limitLeft)
            && (s.done ==> Items(s.v) == Items(v) + ItemCount(mv) && ItemCount(mv) <= limitLeft)
  {
    ItemsUpdate(v, sno, FillStep(v, mv, limitLeft, sno).v[sno]);
  }

  /** Filling up keeps the matching stacks legal, spends only the limit left, and leaves a non-empty rest of the input's kind. */
  lemma {:induction false} FillUpLegal(v: seq<Stack>, mv: Stack, limitLeft: int, matches: seq<bool>, empties: seq<bool>, reverse: bool, i: nat)
    requires |matches| == |v| && |empties| == |v| && i <= |v|
    requires Fillable(v, mv.kind, matches, empties) && !IsEmpty(mv) && limitLeft >= 0
    decreases |v| - i
    ensures var f := FillUp(v, mv, limitLeft, matches, empties, reverse, i);
            && Fillable(f.v, mv.kind, matches, empties)
            && 0 <= f.limitLeft <= limitLeft
            && (!f.done ==> !IsEmpty(f.mv) && f.mv.kind == mv.kind)
  {
    if i < |v| {
      var sno := Slot(|v|, i, reverse);
      if empties[sno] || !matches[sno] {
        FillUpLegal(v, mv, limitLeft, matches, empties, reverse, i + 1);
      } else {
        var s := FillStep(v, mv, limitLeft, sno);
        FillStepLegal(v, mv, limitLeft, sno);
        assert Fillable(s.v, mv.kind, matches, empties);
        if !s.done {
          FillUpLegal(s.v, s.mv, s.limitLeft, matches, empties, reverse, i + 1);
        }
      }
    }
  }

  /** When filling up stops short of using up the input, the slots gained what the input lost. */
  lemma {:induction false} FillUpKeepsItems(v: seq<Stack>, mv: Stack, limitLeft: int, matches: seq<bool>, empties: seq<bool>, reverse: bool, i: nat)
    requires |matches| == |v| && |empties| == |v| && i <= |v|
    requires Fillable(v, mv.kind, matches, empties) && !IsEmpty(mv) && limitLeft >= 0
    decreases |v| - i
    ensures var f := FillUp(v, mv, limitLeft, matches, empties, reverse, i);
            !f.done ==> Items(f.v) + ItemCount(f.mv) == Items(v) + ItemCount(mv)
  {
    if i < |v| {
      var sno := Slot(|v|, i, reverse);
      if empties[sno] || !matches[sno] {
        FillUpKeepsItems(v, mv, limitLeft, matches, empties, reverse, i + 1);
      } else {
        var s := FillStep(v, mv, limitLeft, sno);
        FillStepLegal(v, mv, limitLeft, sno);
        FillStepConserves(v, mv, limitLeft, sno);
        if !s.done {
          assert Fillable(s.v, mv.kind, matches, empties);
          FillUpKeepsItems(s.v, s.mv, s.limitLeft, matches, empties, reverse, i + 1);
          var f := FillUp(s.v, s.mv, s.limitLeft, matches, empties, reverse, i + 1);
          assert FillUp(v, mv, limitLeft, matches, empties, reverse, i) == f;
          var a0, a1, a2 := Items(v), Items(s.v), Items(f.v);
          var c0, c1, c2 := ItemCount(mv), ItemCount(s.mv), ItemCount(f.mv);
          assert a1 + c1 == a0 + c0;
          assert !f.done ==> a2 + c2 == a1 + c1;
        }
      }
    }
  }

  /** Everything the slots gain while filling up is paid from the limit left. */
  lemma {:induction false} FillUpSpendsLimit(v: seq<Stack>, mv: Stack, limitLeft: int, matches: seq<bool>, empties: seq<bool>, reverse: bool, i: nat)
    requires |matches| == |v| && |empties| == |v| && i <= |v|
    requires Fillable(v, mv.kind, matches, empties) && !IsEmpty(mv) && limitLeft >= 0
    decreases |v| - i
    ensures var f := FillUp(v, mv, limitLeft, matches, empties, reverse, i);
            !f.done ==> Items(f.v) + f.limitLeft == Items(v) + limitLeft
  {
    if i < |v| {
      var sno := Slot(|v|, i, reverse);
      if empties[sno] || !matches[sno] {
        FillUpSpendsLimit(v, mv, limitLeft, matches, empties, reverse, i + 1);
      } else {
        var s := FillStep(v, mv, limitLeft, sno);
        FillStepLegal(v, mv, limitLeft, sno);
        FillStepConserves(v, mv, limitLeft, sno);
        if !s.done {
          assert Fillable(s.v, mv.kind, matches, empties);
          FillUpSpendsLimit(s.v, s.mv, s.limitLeft, matches, empties, reverse, i + 1);
          var f := FillUp(s.v, s.mv, s.limitLeft, matches, empties, reverse, i + 1);
          assert FillUp(v, mv, limitLeft, matches, empties, reverse, i) == f;
          var a0, a1, a2 := Items(v), Items(s.v), Items(f.v);
          assert a1 + s.limitLeft == a0 + limitLeft;
          assert !f.done ==> a2 + f.limitLeft == a1 + s.limitLeft;
        }
      }
    }
  }

  /** When filling up uses up the input, the slots gained all of it, within the limit left. */
  lemma {:induction false} FillUpUsesAll(v: seq<Stack>, mv: Stack, limitLeft: int, matches: seq<bool>, empties: seq<bool>, reverse: bool, i: nat)
    requires |matches| == |v| && |empties| == |v| && i <= |v|
    requires Fillable(v, mv.kind, matches, empties) && !IsEmpty(mv) && limitLeft >= 0
    decreases |v| - i
    ensures var f := FillUp(v, mv, limitLeft, matches, empties, reverse, i);
            f.done ==> Items(f.v) == Items(v) + ItemCount(mv) && ItemCount(mv) <= limitLeft
  {
    if i < |v| {
      var sno := Slot(|v|, i, reverse);
      var f := FillUp(v, mv, limitLeft, matches, empties, reverse, i);
      if empties[sno] || !matches[sno] {
        assert f == FillUp(v, mv, limitLeft, matches, empties, reverse, i + 1);
        FillUpUsesAll(v, mv, limitLeft, matches, empties, reverse, i + 1);
      } else {
        var s := FillStep(v, mv, limitLeft, sno);
        if s.done {
          assert f == s;
          FillStepConserves(v, mv, limitLeft, sno);
        } else {
          var g := FillUp(s.v, s.mv, s.limitLeft, matches, empties, reverse, i + 1);
          assert f == g;
          if g.done {
            assert Fillable(s.v, mv.kind, matches, empties) && !IsEmpty(s.mv) && s.mv.kind == mv.kind && s.limitLeft >= 0 by {
              FillStepLegal(v, mv, limitLeft, sno);
            }
            assert Items(s.v) + ItemCount(s.mv) == Items(v) + ItemCount(mv) && Items(s.v) + s.limitLeft == Items(v) + limitLeft by {
              FillStepConserves(v, mv, limitLeft, sno);
            }
            FillUpUsesAll(s.v, s.mv, s.limitLeft, matches, empties, reverse, i + 1);
            Chain(Items(v), Items(s.v), Items(g.v), ItemCount(mv), ItemCount(s.mv), limitLeft, s.limitLeft);
          }
        }
      }
    }
  }

  /** Two moves in a row: what the slots gained and the limit spent add up. */
  lemma Chain(a0: int, a1: int, a2: int, c0: int, c1: int, l0: int, l1: int)
    requires a1 + c1 == a0 + c0 && a1 + l1 == a0 + l0
    requires a2 == a1 + c1 && c1 <= l1
    ensures a2 == a0 + c0 && c0 <= l0
  {
  }

  /** When the input is not used up, a matching slot the loop visited is full, or the limit is spent. */
  lemma {:induction false} FillUpFillsFirst(v: seq<Stack>, mv: Stack, limitLeft: int, matches: seq<bool>, empties: seq<bool>, reverse: bool, i: nat, k: nat)
    requires |matches| == |v| && |empties| == |v| && i <= |v|
    requires Fillable(v, mv.kind, matches, empties) && !IsEmpty(mv) && limitLeft >= 0
    requires k < |v| && !Before(|v|, i, reverse, k) && matches[k] && !empties[k]
    decreases |v| - i
    ensures var f := FillUp(v, mv, limitLeft, matches, empties, reverse, i);
            !f.done ==> f.v[k].count == mv.kind.maxStack || f.limitLeft == 0
  {
    var sno := Slot(|v|, i, reverse);
    if empties[sno] || !matches[sno] {
      assert k != sno;
      FillUpFillsFirst(v, mv, limitLeft, matches, empties, reverse, i + 1, k);
    } else {
      var s := FillStep(v, mv, limitLeft, sno);
      FillStepLegal(v, mv, limitLeft, sno);
      if !s.done {
        assert Fillable(s.v, mv.kind, matches, empties);
        if k == sno {
          FillUpLegal(s.v, s.mv, s.limitLeft, matches, empties, reverse, i + 1);
          assert Before(|v|, i + 1, reverse, sno);
          FillUpFrame(s.v, s.mv, s.limitLeft, matches, empties, reverse, i + 1);
        } else {
          assert !Before(|v|, i + 1, reverse, k);
          FillUpFillsFirst(s.v, s.mv, s.limitLeft, matches, empties, reverse, i + 1, k);
        }
      }
    }
  }

  // ---------------------------------------------------------------- phase 2 and 3: targets

  /** The a) scan: the first matching slot of steps 1 .. n-2 and the last one after it. */
  function Bounds(matches: seq<bool>, reverse: bool, i: nat, start: int, end: int): (b: (int, int))
    requires i >= 1
    requires start == -1 || (1 <= start < |matches| - 1 && matches[start])
    requires end == -1 || (1 <= end < |matches| - 1 && matches[end])
    requires start == -1 ==> end == -1
    requires !reverse && start != -1 ==> start < i && (end == -1 || start < end < i)
    requires reverse && start != -1 ==> start + i >= |matches| && (end == -1 || end < start)
    decreases |matches| - i
    ensures b.0 == -1 || (1 <= b.0 < |matches| - 1 && matches[b.0])
    ensures b.1 == -1 || (1 <= b.1 < |matches| - 1 && matches[b.1])
    ensures b.0 == -1 ==> b.1 == -1
    ensures !reverse && b.1 != -1 ==> b.0 < b.1
    ensures reverse && b.1 != -1 ==> b.1 < b.0
  {
    if i + 1 >= |matches| then (start, end)
    else
      var sno := Slot(|matches|, i, reverse);
      if start < 0 then Bounds(matches, reverse, i + 1, if matches[sno] then sno else start, end)
      else Bounds(matches, reverse, i + 1, start, if matches[sno] then sno else end)
  }

  /** The a) placement loop over steps start .. end-1, each again mapped through the scan direction. */
  function BetweenScan(empties: seq<bool>, placeable: seq<bool>, reverse: bool, i: nat, end: nat): (t: Option<nat>)
    requires |placeable| == |empties| && end < |empties|
    decreases end - i
    ensures t.Some? ==> t.value < |empties| && empties[t.value] && placeable[t.value]
    ensures t.Some? && !reverse ==> i <= t.value < end
  {
    if i >= end then None
    else
      var sno := Slot(|empties|, i, reverse);
      if !empties[sno] || !placeable[sno] then BetweenScan(empties, placeable, reverse, i + 1, end)
      else Some(sno)
  }

  /** Phase 2 a): an empty slot between the first and the last matching slot. */
  function Between(matches: seq<bool>, empties: seq<bool>, placeable: seq<bool>, reverse: bool): (t: Option<nat>)
    requires |matches| == |empties| && |placeable| == |empties|
    ensures t.Some? ==> t.value < |empties| && empties[t.value] && placeable[t.value]
  {
    var b := Bounds(matches, reverse, 1, -1, -1);
    if b.0 < 0 || b.1 < 0 then None else BetweenScan(empties, placeable, reverse, b.0, b.1)
  }

  /** An empty slot found by phase 2 a) lies strictly between two matching slots. */
  lemma BetweenIsBetween(matches: seq<bool>, empties: seq<bool>, placeable: seq<bool>, reverse: bool)
    requires |matches| == |empties| && |placeable| == |empties|
    requires forall k :: 0 <= k < |matches| && matches[k] ==> !empties[k]
    ensures var t := Between(matches, empties, placeable, reverse);
            t.Some? && !reverse ==> exists a, b :: 1 <= a < t.value < b < |matches| - 1 && matches[a] && matches[b]
  {
    var t := Between(matches, empties, placeable, reverse);
    var b := Bounds(matches, reverse, 1, -1, -1);
    if t.Some? && !reverse {
      assert b.0 < t.value < b.1;
    }
  }

  /**
   * In a backwards scan the first match has the highest slot number, so the
   * a) placement loop from it up to the last match is empty: phase 2 a)
   * never places anything when `reverse` is set.
   */
  lemma BetweenNeverInReverse(matches: seq<bool>, empties: seq<bool>, placeable: seq<bool>)
    requires |matches| == |empties| && |placeable| == |empties|
    ensures Between(matches, empties, placeable, true).None?
  {
  }

  /** Phase 2 b): the slot before, else after, a matching slot, if that one is empty and accepts the input. */
  function Adjacent(matches: seq<bool>, empties: seq<bool>, placeable: seq<bool>, reverse: bool, i: nat): (t: Option<nat>)
    requires |matches| == |empties| && |placeable| == |empties| && i >= 1
    decreases |matches| - i
    ensures t.Some? ==> t.value < |empties| && empties[t.value] && placeable[t.value]
    ensures t.Some? ==> exists s :: 1 <= s < |matches| - 1 && matches[s] && (t.value + 1 == s || t.value == s + 1)
  {
    if i + 1 >= |matches| then None
    else
      var sno := Slot(|matches|, i, reverse);
      if !matches[sno] then Adjacent(matches, empties, placeable, reverse, i + 1)
      else
        var ii := if empties[sno - 1] then sno - 1 else if empties[sno + 1] then sno + 1 else -1;
        if ii >= 0 && placeable[ii] then Some(ii)
        else Adjacent(matches, empties, placeable, reverse, i + 1)
  }

  /** Phase 3: the first empty slot, in scan order, that accepts the input. */
  function AnyEmpty(empties: seq<bool>, placeable: seq<bool>, reverse: bool, i: nat): (t: Option<nat>)
    requires |placeable| == |empties| && i <= |empties|
    decreases |empties| - i
    ensures t.Some? ==> t.value < |empties| && empties[t.value] && placeable[t.value] && !Before(|empties|, i, reverse, t.value)
    ensures t.Some? ==> forall k :: 0 <= k < |empties| && !Before(|empties|, i, reverse, k) && empties[k] && placeable[k] ==>
                           if reverse then k <= t.value else t.value <= k
    ensures t.None? <==> forall k :: 0 <= k < |empties| && !Before(|empties|, i, reverse, k) ==> !(empties[k] && placeable[k])
  {
    if i == |empties| then None
    else
      var sno := Slot(|empties|, i, reverse);
      if !empties[sno] || !placeable[sno] then AnyEmpty(empties, placeable, reverse, i + 1)
      else Some(sno)
  }

  /** The empty slot the rest of the input goes to after phase 1: grouped next to its kind when asked, else any. */
  function Target(matches: seq<bool>, empties: seq<bool>, placeable: seq<bool>, reverse: bool, grouping: bool): (t: Option<nat>)
    requires |matches| == |empties| && |placeable| == |empties|
    ensures t.Some? ==> t.value < |empties| && empties[t.value] && placeable[t.value]
    ensures t.None? <==> forall k :: 0 <= k < |empties| ==> !(empties[k] && placeable[k])
  {
    var grouped :=
      if !grouping then None
      else match Between(matches, empties, placeable, reverse)
        case Some(k) => Some(k)
        case None => Adjacent(matches, empties, placeable, reverse, 1);
    if grouped.Some? then grouped else AnyEmpty(empties, placeable, reverse, 0)
  }

  /** Moving at most the limit left of the input into an empty slot; the rest is returned. */
  function Place(v: seq<Stack>, mv: Stack, limitLeft: int, k: nat): (res: (seq<Stack>, Stack))
    requires k < |v|
    ensures |res.0| == |v|
    ensures forall j :: 0 <= j < |v| && j != k ==> res.0[j] == v[j]
  {
    var nmax := Min(limitLeft, mv.count);
    (v[k := mv.(count := nmax)], Checked(mv.(count := mv.count - nmax)))
  }

  /** Placing into an empty slot conserves the items and spends no more than the limit left. */
  lemma PlaceConserves(v: seq<Stack>, mv: Stack, limitLeft: int, k: nat)
    requires k < |v| && IsEmpty(v[k]) && !IsEmpty(mv) && limitLeft >= 0
    ensures var res := Place(v, mv, limitLeft, k);
            && Items(res.0) + ItemCount(res.1) == Items(v) + ItemCount(mv)
            && res.0[k].count <= limitLeft
            && res.0[k].kind == mv.kind
            && (res.1 == Empty || res.1.kind == mv.kind)
  {
    ItemsUpdate(v, k, Place(v, mv, limitLeft, k).0[k]);
  }

  // ---------------------------------------------------------------- insert

  datatype Options = Options(onlyFillup: bool, limit: int, reverse: bool, forceGroupStacks: bool)

  /** `insert(stack_to_move)`: all slots, no limit, forward, grouping. */
  const DEFAULT: Options := Options(false, 0, false, true)

  /**
   * `insert(input_stack, only_fillup, limit, reverse, force_group_stacks)`:
   * the slots afterwards and the stack that could not be placed. Grouping
   * happens when a slot matched and either it is forced or the container
   * is a player's inventory.
   */
  function Insert(v: seq<Stack>, placeable: seq<bool>, playerInventory: bool, input: Stack, o: Options): (res: (seq<Stack>, Stack))
    requires |placeable| == |v|
    ensures |res.0| == |v|
    ensures IsEmpty(input) ==> res == (v, Empty)
  {
    if IsEmpty(input) then (v, Checked(input))
    else
      var matches := Matches(v, input);
      var empties := Empties(v);
      var f := FillUp(v, input, LimitLeft(input, o.limit), matches, empties, o.reverse, 0);
      var grouping := true in matches && (o.forceGroupStacks || playerInventory);
      Finish(f, o.onlyFillup, Target(matches, empties, placeable, o.reverse, grouping))
  }

  /** After filling up: stop when done or when only filling up, else place the rest at the target, if any. */
  function Finish(f: Fill, onlyFillup: bool, t: Option<nat>): (res: (seq<Stack>, Stack))
    requires t.Some? ==> t.value < |f.v|
    ensures |res.0| == |f.v|
    ensures forall k :: 0 <= k < |f.v| && (t.None? || k != t.value) ==> res.0[k] == f.v[k]
  {
    if f.done then (f.v, Empty)
    else if onlyFillup then (f.v, Checked(f.mv))
    else match t
      case Some(k) => Place(f.v, f.mv, f.limitLeft, k)
      case None => (f.v, Checked(f.mv))
  }

  /** Finishing moves items from the rest of the input into the target slot, and no more than the limit left. */
  lemma FinishConserves(f: Fill, onlyFillup: bool, t: Option<nat>, kind: Kind)
    requires t.Some? ==> t.value < |f.v| && IsEmpty(f.v[t.value])
    requires !f.done ==> !IsEmpty(f.mv) && f.mv.kind == kind && f.limitLeft >= 0
    ensures var res := Finish(f, onlyFillup, t);
            && (!f.done ==> Items(res.0) + ItemCount(res.1) == Items(f.v) + ItemCount(f.mv))
            && (!f.done ==> Items(res.0) <= Items(f.v) + f.limitLeft)
            && (f.done ==> res == (f.v, Empty))
            && (onlyFillup ==> res.0 == f.v)
            && (res.1 == Empty || res.1.kind == kind)
            && (t.Some? && !f.done && !onlyFillup ==> res.0[t.value].kind == kind && res.0[t.value].count <= f.limitLeft)
  {
    if !f.done && !onlyFillup && t.Some? {
      PlaceConserves(f.v, f.mv, f.limitLeft, t.value);
    }
  }

  /** The slots of a container hold legal stacks. */
  predicate AllWellFormed(v: seq<Stack>)
  {
    forall k :: 0 <= k < |v| ==> WellFormed(v[k])
  }

  lemma FillableInitially(v: seq<Stack>, input: Stack)
    requires AllWellFormed(v) && !IsEmpty(input)
    ensures Fillable(v, input.kind, Matches(v, input), Empties(v))
  {
  }

  /**
   * Insertion moves items, it does not make or lose them: the slots gain
   * what the input loses, and no more than `limit_left`.
   */
  lemma InsertConserves(v: seq<Stack>, placeable: seq<bool>, playerInventory: bool, input: Stack, o: Options)
    requires |placeable| == |v| && AllWellFormed(v)
    ensures var res := Insert(v, placeable, playerInventory, input, o);
            && Items(res.0) + ItemCount(res.1) == Items(v) + ItemCount(input)
            && Items(res.0) <= Items(v) + LimitLeft(input, o.limit)
            && (res.1 == Empty || res.1.kind == input.kind)
  {
    if !IsEmpty(input) {
      var matches, empties := Matches(v, input), Empties(v);
      var lim := LimitLeft(input, o.limit);
      FillableInitially(v, input);
      var f := FillUp(v, input, lim, matches, empties, o.reverse, 0);
      FillUpLegal(v, input, lim, matches, empties, o.reverse, 0);
      FillUpKeepsItems(v, input, lim, matches, empties, o.reverse, 0);
      FillUpSpendsLimit(v, input, lim, matches, empties, o.reverse, 0);
      FillUpUsesAll(v, input, lim, matches, empties, o.reverse, 0);
      FillUpFrame(v, input, lim, matches, empties, o.reverse, 0);
      var grouping := true in matches && (o.forceGroupStacks || playerInventory);
      var t := Target(matches, empties, placeable, o.reverse, grouping);
      assert t.Some? ==> f.v[t.value] == v[t.value];
      FinishConserves(f, o.onlyFillup, t, input.kind);
    }
  }

  /**
   * Every slot the insertion changes ends up holding the input's kind and
   * no more than its maximum stack size; an empty slot is only used
   * without `only_fillup`, and then only one.
   */
  lemma InsertChangedSlots(v: seq<Stack>, placeable: seq<bool>, playerInventory: bool, input: Stack, o: Options)
    requires |placeable| == |v| && AllWellFormed(v)
    ensures var res := Insert(v, placeable, playerInventory, input, o);
            && (forall k :: 0 <= k < |v| && res.0[k] != v[k] ==> res.0[k].kind == input.kind && res.0[k].count <= input.kind.maxStack)
            && (o.onlyFillup ==> forall k :: 0 <= k < |v| && IsEmpty(v[k]) ==> res.0[k] == v[k])
            && (forall j, k :: 0 <= j < |v| && 0 <= k < |v| && IsEmpty(v[j]) && IsEmpty(v[k]) && res.0[j] != v[j] && res.0[k] != v[k] ==> j == k)
  {
    if !IsEmpty(input) {
      var matches, empties := Matches(v, input), Empties(v);
      FillableInitially(v, input);
      var lim := LimitLeft(input, o.limit);
      var f := FillUp(v, input, lim, matches, empties, o.reverse, 0);
      FillUpLegal(v, input, lim, matches, empties, o.reverse, 0);
      FillUpFrame(v, input, lim, matches, empties, o.reverse, 0);
      var grouping := true in matches && (o.forceGroupStacks || playerInventory);
      var t := Target(matches, empties, placeable, o.reverse, grouping);
      assert t.Some? ==> f.v[t.value] == v[t.value];
      FinishConserves(f, o.onlyFillup, t, input.kind);
    }
  }

  /** An empty slot only receives items once every matching stack is full. */
  lemma InsertFillsMatchesFirst(v: seq<Stack>, placeable: seq<bool>, playerInventory: bool, input: Stack, o: Options)
    requires |placeable| == |v| && AllWellFormed(v)
    ensures var res := Insert(v, placeable, playerInventory, input, o);
            forall j, k :: 0 <= j < |v| && 0 <= k < |v| && IsEmpty(v[k]) && !IsEmpty(res.0[k]) && !IsEmpty(v[j]) && Identical(v[j], input) ==>
              res.0[j].count == input.kind.maxStack
  {
    if !IsEmpty(input) {
      var matches, empties := Matches(v, input), Empties(v);
      FillableInitially(v, input);
      var lim := LimitLeft(input, o.limit);
      var f := FillUp(v, input, lim, matches, empties, o.reverse, 0);
      FillUpLegal(v, input, lim, matches, empties, o.reverse, 0);
      FillUpFrame(v, input, lim, matches, empties, o.reverse, 0);
      forall j | 0 <= j < |v| && matches[j] && !empties[j]
        ensures !f.done ==> f.v[j].count == input.kind.maxStack || f.limitLeft == 0
      {
        FillUpFillsFirst(v, input, lim, matches, empties, o.reverse, 0, j);
      }
    }
  }

  // ---------------------------------------------------------------- simulated insert

  /**
   * The loop of `insert(stack, simulate)` with simulate set, from slot i:
   * an empty slot takes everything; a stackable slot of the input's item
   * with room takes its room. `asWritten` selects how the room is
   * computed: count minus maximum as the source has it, or maximum minus
   * count.
   */
  function SimulateFrom(v: seq<Stack>, input: Stack, i: nat, asWritten: bool): (r: Stack)
    requires i <= |v|
    decreases |v| - i
  {
    if i == |v| then input
    else
      var stack := v[i];
      if IsEmpty(stack) then Empty
      else
        var nleft := if asWritten then stack.count - stack.kind.maxStack else stack.kind.maxStack - stack.count;
        if nleft <= 0 || !StackableOn(stack, input) then SimulateFrom(v, input, i + 1, asWritten)
        else if nleft >= input.count then Empty
        else SimulateFrom(v, input.(count := input.count - nleft), i + 1, asWritten)
  }

  /** The room the slots from i on offer to the input: free space in the stackable stacks of its item. */
  function Room(v: seq<Stack>, input: Stack, i: nat): (n: nat)
    requires i <= |v|
    decreases |v| - i
  {
    if i == |v| then 0
    else (if StackableOn(v[i], input) then Max(v[i].kind.maxStack - v[i].count, 0) else 0) + Room(v, input, i + 1)
  }

  /**
   * The simulated insert as written: a slot's room is taken as count minus
   * maximum, which is never positive for a legal stack, so the partially
   * filled stacks are never counted.
   */
  function SimulateInsertAsWritten(v: seq<Stack>, input: Stack): (r: Stack)
  {
    if IsEmpty(input) then Empty else SimulateFrom(v, input, 0, true)
  }

  /** The simulated insert with a slot's room taken as maximum minus count. */
  function SimulateInsert(v: seq<Stack>, input: Stack): (r: Stack)
  {
    if IsEmpty(input) then Empty else SimulateFrom(v, input, 0, false)
  }

  /** As written, a range of legal, non-empty stacks never takes anything in simulation. */
  lemma {:induction false} AsWrittenIgnoresRoom(v: seq<Stack>, input: Stack, i: nat)
    requires i <= |v| && AllWellFormed(v)
    requires forall k :: 0 <= k < |v| ==> !IsEmpty(v[k])
    decreases |v| - i
    ensures SimulateFrom(v, input, i, true) == input
  {
    if i < |v| {
      AsWrittenIgnoresRoom(v, input, i + 1);
    }
  }

  /** Ten items of a kind that stacks to 64, and five more of the same. */
  const TEN: Stack := Stack(Kind(1, map[], false, 0, 64), 10)
  const FIVE: Stack := Stack(Kind(1, map[], false, 0, 64), 5)

  /** The real insert takes all five; the simulation as written says none of them fit. */
  lemma SimulateAsWrittenDisagrees()
    ensures Insert([TEN], [true], false, FIVE, DEFAULT).1 == Empty
    ensures SimulateInsertAsWritten([TEN], FIVE) == FIVE
    ensures SimulateInsert([TEN], FIVE) == Empty
  {
    var m := Matches([TEN], FIVE);
    assert m[0];
    assert SimulateFrom([TEN], FIVE, 1, true) == FIVE;
  }

  /**
   * The simulated insert: an empty slot takes everything; otherwise what is
   * left is the input less the room in the stacks of its item.
   */
  lemma {:induction false} SimulateFromRoom(v: seq<Stack>, input: Stack, i: nat)
    requires i <= |v| && !IsEmpty(input)
    decreases |v| - i
    ensures var r := SimulateFrom(v, input, i, false);
            && ((exists k :: i <= k < |v| && IsEmpty(v[k])) ==> r == Empty)
            && ((forall k :: i <= k < |v| ==> !IsEmpty(v[k])) ==>
                  ItemCount(r) == Max(input.count - Room(v, input, i), 0) && (r == Empty || r.kind == input.kind))
  {
    if i < |v| {
      var stack := v[i];
      if !IsEmpty(stack) {
        var nleft := stack.kind.maxStack - stack.count;
        if nleft <= 0 || !StackableOn(stack, input) {
          SimulateFromRoom(v, input, i + 1);
        } else if nleft < input.count {
          var rest := input.(count := input.count - nleft);
          SimulateFromRoom(v, rest, i + 1);
          assert forall k :: i + 1 <= k < |v| ==> StackableOn(v[k], rest) == StackableOn(v[k], input);
          RoomSameItem(v, input, rest, i + 1);
        }
      }
    }
  }

  /** The room depends only on the input's item. */
  lemma {:induction false} RoomSameItem(v: seq<Stack>, a: Stack, b: Stack, i: nat)
    requires i <= |v| && ItemOf(a) == ItemOf(b)
    decreases |v| - i
    ensures Room(v, a, i) == Room(v, b, i)
  {
    if i < |v| {
      RoomSameItem(v, a, b, i + 1);
    }
  }

  /** `insert(input_stack, simulate)`: the slots afterwards and what is left over. */
  function InsertOrSimulate(v: seq<Stack>, placeable: seq<bool>, playerInventory: bool, input: Stack, simulate: bool): (res: (seq<Stack>, Stack))
    requires |placeable| == |v|
    ensures simulate ==> res.0 == v
    ensures IsEmpty(input) ==> res == (v, Empty)
    ensures !simulate ==> res == Insert(v, placeable, playerInventory, input, DEFAULT)
  {
    if IsEmpty(input) then (v, Empty)
    else if !simulate then Insert(v, placeable, playerInventory, input, DEFAULT)
    else (v, SimulateInsert(v, input))
  }
}
