/**
 * `InventoryRange.extract(amount, random, simulate)`: takes up to `amount`
 * items of the first non-empty stack met, scanning the range's slots from
 * an offset (random or 0) round to where it started, and adding the items
 * of identical stacks met later.
 *
 * In simulation the source keeps a reference to the first stack met, not
 * a copy, and then grows it: the as-written model tracks which slot that
 * stack lives in and grows that slot too.
 */
module InventoryExtract {
  import opened JavaInt
  import opened Wrappers
  import opened ItemStacks
  import opened DivMod

  /** The loop state: slots, the stack gathered so far, what is still wanted, the slot the gathered stack lives in, and whether the loop broke. */
  datatype Pull = Pull(v: seq<Stack>, out: Stack, amount: int, alias: Option<nat>, stopped: bool)

  predicate Valid(p: Pull)
  {
    p.alias.Some? ==> p.alias.value < |p.v|
  }

  /** The slot visited at step k when scanning n slots from the offset. */
  function ScanIndex(n: nat, offset: nat, k: nat): (i: nat)
    requires k < n
    ensures i < n
  {
    (offset + k) % n
  }

  /** A scan visits each slot at most once. */
  lemma ScanIndexInjective(n: nat, offset: nat, k1: nat, k2: nat)
    requires k1 < n && k2 < n && k1 != k2
    ensures ScanIndex(n, offset, k1) != ScanIndex(n, offset, k2)
  {
    var q1, q2 := (offset + k1) / n, (offset + k2) / n;
    var m1, m2 := (offset + k1) % n, (offset + k2) % n;
    assert offset + k1 == q1 * n + m1 && offset + k2 == q2 * n + m2;
    if m1 == m2 {
      assert (q1 - q2) * n == k1 - k2;
      MulStep(q1 - q2, n);
    }
  }

  /** The gathered stack, when it lives in a slot, is grown there too. */
  function Grow(v: seq<Stack>, alias: Option<nat>, out: Stack): (w: seq<Stack>)
    requires alias.Some? ==> alias.value < |v|
    ensures |w| == |v|
    ensures alias.None? ==> w == v
  {
    match alias
    case Some(a) => v[a := out]
    case None => v
  }

  /** One pass of the loop body on slot i. */
  function Step(p: Pull, i: nat, simulate: bool, asWritten: bool): (q: Pull)
    requires Valid(p) && i < |p.v|
    ensures Valid(q) && |q.v| == |p.v|
  {
    var stack := p.v[i];
    if IsEmpty(stack) then p
    else if IsEmpty(p.out) then
      if stack.count < p.amount then
        var v := if simulate then p.v else p.v[i := Empty];
        var alias := if simulate && asWritten then Some(i) else None;
        Pull(v, stack, p.amount - stack.count, alias, !Stackable(stack))
      else if simulate then Pull(p.v, stack.(count := p.amount), p.amount, p.alias, true)
      else
        var taken := Min(p.amount, stack.count);
        Pull(p.v[i := stack.(count := stack.count - taken)], stack.(count := taken), p.amount, p.alias, true)
    else if Identical(stack, p.out) then
      if stack.count <= p.amount then
        var out := p.out.(count := p.out.count + stack.count);
        var v := Grow(p.v, p.alias, out);
        Pull(if simulate then v else v[i := Empty], out, p.amount - stack.count, p.alias, false)
      else
        var out := p.out.(count := p.out.count + p.amount);
        var v := Grow(p.v, p.alias, out);
        Pull(if simulate then v else v[i := Checked(stack.(count := stack.count - p.amount))], out, p.amount, p.alias, true)
    else p
  }

  /** The loop from step k on, until it has visited every slot or broke. */
  function PullFrom(p: Pull, offset: nat, k: nat, simulate: bool, asWritten: bool): (r: Pull)
    requires Valid(p)
    decreases |p.v| - k
    ensures Valid(r) && |r.v| == |p.v|
  {
    if k >= |p.v| || p.stopped then p
    else PullFrom(Step(p, ScanIndex(|p.v|, offset, k), simulate, asWritten), offset, k + 1, simulate, asWritten)
  }

  function Start(v: seq<Stack>, amount: int): Pull
  {
    Pull(v, Empty, amount, None, false)
  }

  /** `extract(amount, random, simulate)` as written: the slots afterwards and the stack taken. */
  function ExtractAsWritten(v: seq<Stack>, amount: int, offset: nat, simulate: bool): (res: (seq<Stack>, Stack))
    ensures |res.0| == |v|
  {
    var r := PullFrom(Start(v, amount), offset, 0, simulate, true);
    (r.v, r.out)
  }

  /** `extract(amount, random, simulate)` with the simulation working on a copy of the first stack met. */
  function Extract(v: seq<Stack>, amount: int, offset: nat, simulate: bool): (res: (seq<Stack>, Stack))
    ensures |res.0| == |v|
  {
    var r := PullFrom(Start(v, amount), offset, 0, simulate, false);
    (r.v, r.out)
  }

  /**
   * `extract(amount, random)`, and `extract(amount)` with random false: the
   * flag is not passed on, so the scan starts at slot 0 and really extracts.
   */
  function ExtractAmount(v: seq<Stack>, amount: int, random: bool): (res: (seq<Stack>, Stack))
    ensures |res.0| == |v|
  {
    Extract(v, amount, 0, false)
  }

  /**
   * Whatever the random flag says, the short overloads behave alike: they
   * take at most the amount, remove what they return, and return the item
   * of the first filled slot from slot 0 on.
   */
  lemma ExtractOverloads(v: seq<Stack>, amount: int, random: bool)
    ensures ExtractAmount(v, amount, random) == ExtractAmount(v, amount, false)
    ensures amount > 0 ==>
      var res := ExtractAmount(v, amount, random);
      && Items(res.0) + ItemCount(res.1) == Items(v)
      && ItemCount(res.1) <= amount
      && (FirstFilled(v, 0, 0).None? <==> IsEmpty(res.1))
      && (FirstFilled(v, 0, 0).Some? ==> res.1.kind == v[FirstFilled(v, 0, 0).value].kind)
  {
    if amount > 0 {
      ExtractConserves(v, amount, 0);
      ExtractTakesFirstKind(v, amount, 0, false);
    }
  }

  // ---------------------------------------------------------------- simulation

  /** A simulation working on copies leaves the slots alone. */
  lemma {:induction false} SimulationKeepsSlots(p: Pull, offset: nat, k: nat)
    requires Valid(p) && p.alias.None?
    decreases |p.v| - k
    ensures PullFrom(p, offset, k, true, false).v == p.v
  {
    if k < |p.v| && !p.stopped {
      SimulationKeepsSlots(Step(p, ScanIndex(|p.v|, offset, k), true, false), offset, k + 1);
    }
  }

  /** Two runs agree on the slots still to be visited. */
  predicate AgreeAhead(a: seq<Stack>, b: seq<Stack>, offset: nat, k: nat)
    requires |a| == |b|
  {
    forall k' :: k <= k' < |a| ==> a[ScanIndex(|a|, offset, k')] == b[ScanIndex(|a|, offset, k')]
  }

  /** A step reads only the visited slot, and the real run writes only that slot. */
  lemma StepCouples(s: Pull, r: Pull, i: nat)
    requires Valid(s) && Valid(r) && s.alias.None? && r.alias.None? && |s.v| == |r.v| && i < |s.v|
    requires s.out == r.out && s.amount == r.amount && s.stopped == r.stopped && s.v[i] == r.v[i]
    ensures var s', r' := Step(s, i, true, false), Step(r, i, false, false);
            && s'.out == r'.out && s'.amount == r'.amount && s'.stopped == r'.stopped
            && s'.alias.None? && r'.alias.None? && s'.v == s.v
            && forall j :: 0 <= j < |r.v| && j != i ==> r'.v[j] == r.v[j]
  {
  }

  lemma {:induction false} PullFromCouples(s: Pull, r: Pull, offset: nat, k: nat)
    requires Valid(s) && Valid(r) && s.alias.None? && r.alias.None? && |s.v| == |r.v|
    requires s.out == r.out && s.amount == r.amount && s.stopped == r.stopped
    requires AgreeAhead(s.v, r.v, offset, k)
    decreases |s.v| - k
    ensures PullFrom(s, offset, k, true, false).out == PullFrom(r, offset, k, false, false).out
  {
    if k < |s.v| && !s.stopped {
      var n := |s.v|;
      var i := ScanIndex(n, offset, k);
      StepCouples(s, r, i);
      var s', r' := Step(s, i, true, false), Step(r, i, false, false);
      forall k' | k + 1 <= k' < n
        ensures s'.v[ScanIndex(n, offset, k')] == r'.v[ScanIndex(n, offset, k')]
      {
        ScanIndexInjective(n, offset, k, k');
      }
      PullFromCouples(s', r', offset, k + 1);
    }
  }

  /** The simulation returns exactly what the real extraction would take, and changes nothing. */
  lemma SimulationPredicts(v: seq<Stack>, amount: int, offset: nat)
    ensures Extract(v, amount, offset, true).0 == v
    ensures Extract(v, amount, offset, true).1 == Extract(v, amount, offset, false).1
  {
    SimulationKeepsSlots(Start(v, amount), offset, 0);
    PullFromCouples(Start(v, amount), Start(v, amount), offset, 0);
  }

  // ---------------------------------------------------------------- the real extraction

  /** Items still wanted and items gathered add up to the request, until the loop breaks. */
  predicate Ledger(p: Pull, amount: int)
  {
    && p.alias.None?
    && (IsEmpty(p.out) ==> p.amount == amount && !p.stopped)
    && (!p.stopped ==> ItemCount(p.out) + p.amount == amount && p.amount >= 0)
    && (p.stopped ==> ItemCount(p.out) <= amount)
  }

  /** A real step moves items from slot i into the gathered stack, within the request. */
  lemma StepConserves(p: Pull, i: nat, amount: int)
    requires Valid(p) && i < |p.v| && amount > 0 && Ledger(p, amount) && !p.stopped
    ensures var q := Step(p, i, false, false);
            && Ledger(q, amount)
            && Items(q.v) + ItemCount(q.out) == Items(p.v) + ItemCount(p.out)
            && forall j :: 0 <= j < |p.v| && j != i ==> q.v[j] == p.v[j]
  {
    var q := Step(p, i, false, false);
    ItemsUpdate(p.v, i, q.v[i]);
  }

  lemma {:induction false} PullFromConserves(p: Pull, offset: nat, k: nat, amount: int)
    requires Valid(p) && amount > 0 && Ledger(p, amount)
    decreases |p.v| - k
    ensures var r := PullFrom(p, offset, k, false, false);
            Ledger(r, amount) && Items(r.v) + ItemCount(r.out) == Items(p.v) + ItemCount(p.out)
  {
    if k < |p.v| && !p.stopped {
      var i := ScanIndex(|p.v|, offset, k);
      StepConserves(p, i, amount);
      PullFromConserves(Step(p, i, false, false), offset, k + 1, amount);
    }
  }

  /** With a positive amount, extraction moves items out of the slots and takes no more than the amount. */
  lemma ExtractConserves(v: seq<Stack>, amount: int, offset: nat)
    requires amount > 0
    ensures var res := Extract(v, amount, offset, false);
            && Items(res.0) + ItemCount(res.1) == Items(v)
            && ItemCount(res.1) <= amount
  {
    PullFromConserves(Start(v, amount), offset, 0, amount);
  }

  // ---------------------------------------------------------------- what is taken

  /** The first non-empty slot of the scan from step k on. */
  function FirstFilled(v: seq<Stack>, offset: nat, k: nat): (j: Option<nat>)
    decreases |v| - k
    ensures j.Some? ==> j.value < |v| && !IsEmpty(v[j.value])
    ensures j.None? ==> forall k' :: k <= k' < |v| ==> IsEmpty(v[ScanIndex(|v|, offset, k')])
  {
    if k >= |v| then None
    else if !IsEmpty(v[ScanIndex(|v|, offset, k)]) then Some(ScanIndex(|v|, offset, k))
    else FirstFilled(v, offset, k + 1)
  }

  /** Once something is gathered, it keeps its kind and is not given back. */
  lemma {:induction false} PullFromKeepsKind(p: Pull, offset: nat, k: nat, simulate: bool)
    requires Valid(p) && !IsEmpty(p.out) && p.amount >= 0
    decreases |p.v| - k
    ensures var r := PullFrom(p, offset, k, simulate, false);
            !IsEmpty(r.out) && r.out.kind == p.out.kind
  {
    if k < |p.v| && !p.stopped {
      var q := Step(p, ScanIndex(|p.v|, offset, k), simulate, false);
      PullFromKeepsKind(q, offset, k + 1, simulate);
    }
  }

  /** The stack taken is of the first non-empty stack met; nothing is taken only when every slot is empty. */
  lemma {:induction false} PullFromFirst(p: Pull, offset: nat, k: nat, simulate: bool)
    requires Valid(p) && IsEmpty(p.out) && p.amount > 0 && !p.stopped
    decreases |p.v| - k
    ensures var r := PullFrom(p, offset, k, simulate, false);
            && (FirstFilled(p.v, offset, k).None? ==> IsEmpty(r.out))
            && (FirstFilled(p.v, offset, k).Some? ==> !IsEmpty(r.out) && r.out.kind == p.v[FirstFilled(p.v, offset, k).value].kind)
  {
    if k < |p.v| {
      var i := ScanIndex(|p.v|, offset, k);
      var q := Step(p, i, simulate, false);
      if IsEmpty(p.v[i]) {
        PullFromFirst(q, offset, k + 1, simulate);
      } else {
        PullFromKeepsKind(q, offset, k + 1, simulate);
      }
    }
  }

  /**
   * With a positive amount the stack taken is of the kind of the first
   * non-empty slot the scan meets, and it is empty only when all slots are.
   */
  lemma ExtractTakesFirstKind(v: seq<Stack>, amount: int, offset: nat, simulate: bool)
    requires amount > 0
    ensures var res := Extract(v, amount, offset, simulate);
            && (FirstFilled(v, offset, 0).None? <==> IsEmpty(res.1))
            && (FirstFilled(v, offset, 0).Some? ==> res.1.kind == v[FirstFilled(v, offset, 0).value].kind)
  {
    PullFromFirst(Start(v, amount), offset, 0, simulate);
  }

  // ---------------------------------------------------------------- as written

  const FIVE_A: Stack := Stack(Kind(1, map[], false, 0, 64), 5)

  /**
   * As written, simulating the extraction of 8 items from two stacks of 5
   * grows the first slot to 8: the simulation changes the container and
   * adds three items to it.
   */
  lemma SimulationAsWrittenChangesSlots()
    ensures ExtractAsWritten([FIVE_A, FIVE_A], 8, 0, true).0 == [FIVE_A.(count := 8), FIVE_A]
    ensures ExtractAsWritten([FIVE_A, FIVE_A], 8, 0, true).1 == FIVE_A.(count := 8)
    ensures Extract([FIVE_A, FIVE_A], 8, 0, true).0 == [FIVE_A, FIVE_A]
  {
    var v := [FIVE_A, FIVE_A];
    var p0 := Start(v, 8);
    var p1 := Step(p0, 0, true, true);
    assert p1 == Pull(v, FIVE_A, 3, Some(0), false);
    var p2 := Step(p1, 1, true, true);
    assert p2 == Pull([FIVE_A.(count := 8), FIVE_A], FIVE_A.(count := 8), 3, Some(0), true);
    assert PullFrom(p0, 0, 0, true, true) == PullFrom(p1, 0, 1, true, true);
    SimulationPredicts(v, 8, 0);
  }
}
