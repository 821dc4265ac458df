/**
 * `InventoryRange.extract(request_stack, simulate)`: gathers the non-empty
 * slots whose stack matches the request ignoring damage, sorts them
 * by count with a stable sort, and takes the requested number of items
 * from the smallest stacks first.
 *
 * The matches are kept as slot numbers in slot order. A stable sort by
 * count of a list in slot order is the list ordered by (count, slot), so
 * the sort is written as an insertion sort on that key.
 */
module InventoryRequest {
  import opened JavaInt
  import opened ItemStacks

  /** The slots, from i on, that hold a stack matching the request, in slot order. */
  function MatchSlots(v: seq<Stack>, req: Stack, i: nat): (m: seq<nat>)
    requires i <= |v|
    decreases |v| - i
    ensures forall p :: 0 <= p < |m| ==> i <= m[p] < |v| && !IsEmpty(v[m[p]]) && IdenticalIgnoreDamage(v[m[p]], req)
    ensures forall j :: i <= j < |v| && !IsEmpty(v[j]) && IdenticalIgnoreDamage(v[j], req) ==> j in m
    ensures forall p, q :: 0 <= p < q < |m| ==> m[p] < m[q]
  {
    if i == |v| then []
    else if !IsEmpty(v[i]) && IdenticalIgnoreDamage(v[i], req) then [i] + MatchSlots(v, req, i + 1)
    else MatchSlots(v, req, i + 1)
  }

  /**
   * A slot holding a plain undamaged tool matches a request for the same
   * tool with a custom name, so the request draws from it; a slot holding
   * the named tool does not match a request for the plain one.
   */
  lemma NamedRequestMatchesPlainTool()
    ensures var plain := Stack(Kind(2, map[], true, 0, 1), 1);
            var named := Stack(Kind(2, map[CUSTOM_NAME := 7], true, 0, 1), 1);
            MatchSlots([plain], named, 0) == [0] && MatchSlots([named], plain, 0) == []
  {
    IgnoreDamageOneWay();
  }

  /** Slot a comes before slot b: a smaller stack, or an equal one in an earlier slot. */
  predicate Before(v: seq<Stack>, a: nat, b: nat)
    requires a < |v| && b < |v|
  {
    v[a].count < v[b].count || (v[a].count == v[b].count && a < b)
  }

  predicate InSlots(v: seq<Stack>, s: seq<nat>)
  {
    forall p :: 0 <= p < |s| ==> s[p] < |v|
  }

  /** Ordered by count, ties by slot. */
  predicate Sorted(v: seq<Stack>, s: seq<nat>)
    requires InSlots(v, s)
  {
    forall p, q :: 0 <= p < q < |s| ==> Before(v, s[p], s[q])
  }

  /** Inserting slot j behind every slot whose stack is no larger. */
  function InsertByCount(v: seq<Stack>, j: nat, s: seq<nat>): (r: seq<nat>)
    requires j < |v| && InSlots(v, s)
    ensures InSlots(v, r) && |r| == |s| + 1
    ensures multiset(r) == multiset(s) + multiset{j}
  {
    if s == [] then [j]
    else
      assert s == [s[0]] + s[1..];
      if v[s[0]].count <= v[j].count then [s[0]] + InsertByCount(v, j, s[1..]) else [j] + s
  }

  /** `matches.sort(comparingInt(getCount))` on a list of slots. */
  function SortByCount(v: seq<Stack>, s: seq<nat>): (r: seq<nat>)
    requires InSlots(v, s)
    ensures InSlots(v, r) && |r| == |s|
    ensures multiset(r) == multiset(s)
  {
    if s == [] then []
    else
      assert s == s[..|s| - 1] + [s[|s| - 1]];
      InsertByCount(v, s[|s| - 1], SortByCount(v, s[..|s| - 1]))
  }

  /** Inserting a slot later than all others into a sorted list keeps it sorted. */
  lemma {:induction false} InsertByCountSorted(v: seq<Stack>, j: nat, s: seq<nat>)
    requires j < |v| && InSlots(v, s) && Sorted(v, s)
    requires forall p :: 0 <= p < |s| ==> s[p] < j
    ensures Sorted(v, InsertByCount(v, j, s))
  {
    if s != [] && v[s[0]].count <= v[j].count {
      var t := s[1..];
      InsertByCountSorted(v, j, t);
      var r := InsertByCount(v, j, t);
      assert forall x :: x in multiset(r) ==> x in multiset(t) || x == j;
      forall q | 0 <= q < |r|
        ensures Before(v, s[0], r[q])
      {
        assert r[q] in multiset(r);
        if r[q] != j {
          assert r[q] in t;
        }
      }
    }
  }

  /** The sort of a list in slot order is ordered by count, ties by slot, and has the same slots. */
  lemma {:induction false} SortByCountSorted(v: seq<Stack>, s: seq<nat>)
    requires InSlots(v, s)
    requires forall p, q :: 0 <= p < q < |s| ==> s[p] < s[q]
    ensures Sorted(v, SortByCount(v, s))
  {
    if s != [] {
      var init := s[..|s| - 1];
      SortByCountSorted(v, init);
      var sorted := SortByCount(v, init);
      forall p | 0 <= p < |sorted|
        ensures sorted[p] < s[|s| - 1]
      {
        assert sorted[p] in multiset(init);
      }
      InsertByCountSorted(v, s[|s| - 1], sorted);
    }
  }

  /** The items of the listed slots. */
  function Total(v: seq<Stack>, s: seq<nat>): int
    requires InSlots(v, s)
  {
    if s == [] then 0 else v[s[0]].count + Total(v, s[1..])
  }

  lemma {:induction false} TotalInsert(v: seq<Stack>, j: nat, s: seq<nat>)
    requires j < |v| && InSlots(v, s)
    ensures Total(v, InsertByCount(v, j, s)) == v[j].count + Total(v, s)
  {
    if s != [] && v[s[0]].count <= v[j].count {
      TotalInsert(v, j, s[1..]);
    }
  }

  lemma {:induction false} TotalSplit(v: seq<Stack>, a: seq<nat>, b: seq<nat>)
    requires InSlots(v, a) && InSlots(v, b)
    ensures Total(v, a + b) == Total(v, a) + Total(v, b)
  {
    if a != [] {
      var ab := a + b;
      assert ab != [] && ab[0] == a[0] && ab[1..] == a[1..] + b;
      TotalSplit(v, a[1..], b);
      assert Total(v, ab) == v[a[0]].count + Total(v, a[1..] + b);
    } else {
      assert a + b == b;
    }
  }

  /** Sorting does not change the total. */
  lemma {:induction false} TotalSort(v: seq<Stack>, s: seq<nat>)
    requires InSlots(v, s)
    ensures Total(v, SortByCount(v, s)) == Total(v, s)
  {
    if s != [] {
      var init, last := s[..|s| - 1], s[|s| - 1];
      TotalSort(v, init);
      assert SortByCount(v, s) == InsertByCount(v, last, SortByCount(v, init));
      TotalInsert(v, last, SortByCount(v, init));
      TotalLast(v, s);
    }
  }

  /** The last slot's count closes the total. */
  lemma TotalLast(v: seq<Stack>, s: seq<nat>)
    requires InSlots(v, s) && s != []
    ensures Total(v, s) == Total(v, s[..|s| - 1]) + v[s[|s| - 1]].count
  {
    var init, last := s[..|s| - 1], s[|s| - 1];
    assert s == init + [last];
    TotalSplit(v, init, [last]);
    assert Total(v, [last]) == v[last].count;
  }

  /** Taking up to n items from the listed slots in order, each stack split in place. */
  function Drain(v: seq<Stack>, s: seq<nat>, n: int): (res: (seq<Stack>, int))
    requires InSlots(v, s)
    ensures |res.0| == |v|
    decreases |s|
  {
    if s == [] || n <= 0 then (v, 0)
    else
      var stack := v[s[0]];
      var taken := Min(n, stack.count);
      var rest := Drain(v[s[0] := stack.(count := stack.count - taken)], s[1..], n - taken);
      (rest.0, taken + rest.1)
  }

  /** A slot the list does not name keeps its stack. */
  lemma {:induction false} DrainFrameAt(v: seq<Stack>, s: seq<nat>, n: int, j: nat)
    requires InSlots(v, s) && j < |v| && j !in s
    decreases |s|
    ensures Drain(v, s, n).0[j] == v[j]
  {
    if s != [] && n > 0 {
      var stack := v[s[0]];
      var taken := Min(n, stack.count);
      var v' := v[s[0] := stack.(count := stack.count - taken)];
      assert j !in s[1..];
      DrainFrameAt(v', s[1..], n - taken, j);
    }
  }

  /** The listed slots are distinct and hold non-empty stacks. */
  predicate Distinct(v: seq<Stack>, s: seq<nat>)
    requires InSlots(v, s)
  {
    forall p, q :: 0 <= p < q < |s| ==> s[p] != s[q]
  }

  predicate Filled(v: seq<Stack>, s: seq<nat>)
    requires InSlots(v, s)
  {
    forall p :: 0 <= p < |s| ==> !IsEmpty(v[s[p]])
  }

  /**
   * Draining distinct non-empty slots takes the smaller of the wish and
   * what they hold, and what it takes leaves the slots.
   */
  lemma DrainTakes(v: seq<Stack>, s: seq<nat>, n: int)
    requires InSlots(v, s) && Distinct(v, s) && Filled(v, s) && n >= 0
    ensures var res := Drain(v, s, n);
            && res.1 == Min(n, Total(v, s))
            && Items(res.0) + res.1 == Items(v)
  {
    DrainCount(v, s, n);
    DrainConserves(v, s, n);
  }

  /** The first step of a drain, and the slots it leaves to the rest of the list. */
  lemma DrainHead(v: seq<Stack>, s: seq<nat>, n: int)
    requires InSlots(v, s) && Distinct(v, s) && Filled(v, s) && s != [] && n > 0
    ensures var taken := Min(n, v[s[0]].count);
            var v' := v[s[0] := v[s[0]].(count := v[s[0]].count - taken)];
            var t := s[1..];
            && InSlots(v, t) && Filled(v, t) && InSlots(v', t) && Distinct(v', t) && Filled(v', t)
            && Total(v', t) == Total(v, t)
            && Total(v, s) == v[s[0]].count + Total(v, t)
            && Drain(v, s, n) == (Drain(v', t, n - taken).0, taken + Drain(v', t, n - taken).1)
  {
    var taken := Min(n, v[s[0]].count);
    var v' := v[s[0] := v[s[0]].(count := v[s[0]].count - taken)];
    var t := s[1..];
    assert forall p :: 0 <= p < |t| ==> t[p] == s[p + 1] && t[p] != s[0] && v'[t[p]] == v[t[p]];
    TotalFrame(v, v', t);
  }

  lemma {:induction false} DrainCount(v: seq<Stack>, s: seq<nat>, n: int)
    requires InSlots(v, s) && Distinct(v, s) && Filled(v, s) && n >= 0
    decreases |s|
    ensures Drain(v, s, n).1 == Min(n, Total(v, s))
  {
    if s != [] && n > 0 {
      var taken := Min(n, v[s[0]].count);
      var v' := v[s[0] := v[s[0]].(count := v[s[0]].count - taken)];
      DrainHead(v, s, n);
      TotalPositive(v, s[1..]);
      DrainCount(v', s[1..], n - taken);
      MinStep(n, v[s[0]].count, Total(v, s[1..]));
    } else if s != [] {
      TotalPositive(v, s);
    }
  }

  lemma {:induction false} DrainConserves(v: seq<Stack>, s: seq<nat>, n: int)
    requires InSlots(v, s) && Distinct(v, s) && Filled(v, s) && n >= 0
    decreases |s|
    ensures Items(Drain(v, s, n).0) + Drain(v, s, n).1 == Items(v)
  {
    if s != [] && n > 0 {
      var taken := Min(n, v[s[0]].count);
      var v' := v[s[0] := v[s[0]].(count := v[s[0]].count - taken)];
      DrainHead(v, s, n);
      assert Items(v') == Items(v) - taken by {
        ItemsUpdate(v, s[0], v'[s[0]]);
      }
      DrainConserves(v', s[1..], n - taken);
    }
  }

  /** Taking what the first slot gives and then from the rest takes as much as taking from all at once. */
  lemma MinStep(n: int, c: int, rest: int)
    requires n > 0 && c > 0 && rest >= 0
    ensures Min(n, c) + Min(n - Min(n, c), rest) == Min(n, c + rest)
  {
  }

  lemma {:induction false} TotalFrame(v: seq<Stack>, w: seq<Stack>, s: seq<nat>)
    requires InSlots(v, s) && InSlots(w, s)
    requires forall p :: 0 <= p < |s| ==> w[s[p]] == v[s[p]]
    ensures Total(w, s) == Total(v, s)
  {
    if s != [] {
      TotalFrame(v, w, s[1..]);
    }
  }

  lemma {:induction false} TotalPositive(v: seq<Stack>, s: seq<nat>)
    requires InSlots(v, s) && Filled(v, s)
    ensures Total(v, s) >= |s|
  {
    if s != [] {
      TotalPositive(v, s[1..]);
    }
  }

  /** A slot later in the list only gives items once every slot before it is emptied. */
  lemma {:induction false} DrainSmallestFirst(v: seq<Stack>, s: seq<nat>, n: int)
    requires InSlots(v, s) && Distinct(v, s) && Filled(v, s)
    decreases |s|
    ensures var w := Drain(v, s, n).0;
            forall p, q :: 0 <= p < q < |s| && w[s[q]] != v[s[q]] ==> w[s[p]].count == 0
  {
    if s != [] && n > 0 {
      var taken := Min(n, v[s[0]].count);
      var v' := v[s[0] := v[s[0]].(count := v[s[0]].count - taken)];
      var t := s[1..];
      DrainHead(v, s, n);
      DrainSmallestFirst(v', t, n - taken);
      var w := Drain(v, s, n).0;
      assert w == Drain(v', t, n - taken).0;
      assert n - taken <= 0 ==> w == v';
      assert w[s[0]] == v'[s[0]] by {
        assert s[0] !in t;
        DrainFrameAt(v', t, n - taken, s[0]);
      }
      forall p, q | 0 <= p < q < |s| && w[s[q]] != v[s[q]]
        ensures w[s[p]].count == 0
      {
        assert t[q - 1] == s[q];
        assert v'[s[q]] == v[s[q]];
        if p > 0 {
          assert t[p - 1] == s[p];
        }
      }
    }
  }

  /** `extract(request_stack, simulate)`: the slots afterwards and the stack returned. */
  function ExtractRequest(v: seq<Stack>, req: Stack, simulate: bool): (res: (seq<Stack>, Stack))
    ensures |res.0| == |v|
    ensures simulate || IsEmpty(req) ==> res.0 == v
  {
    if IsEmpty(req) then (v, Empty) else ExtractSorted(v, req, SortByCount(v, MatchSlots(v, req, 0)), simulate)
  }

  /** The extraction once the matches are sorted. */
  function ExtractSorted(v: seq<Stack>, req: Stack, matches: seq<nat>, simulate: bool): (res: (seq<Stack>, Stack))
    requires InSlots(v, matches)
    ensures |res.0| == |v|
    ensures simulate ==> res.0 == v
    ensures forall j :: 0 <= j < |v| && j !in matches ==> res.0[j] == v[j]
  {
    if matches == [] then (v, Empty)
    else if !simulate then
      var d := Drain(v, matches, req.count);
      assert forall j :: 0 <= j < |v| && j !in matches ==> d.0[j] == v[j] by {
        forall j | 0 <= j < |v| && j !in matches
          ensures d.0[j] == v[j]
        {
          DrainFrameAt(v, matches, req.count, j);
        }
      }
      (d.0, Checked(Stack(v[matches[0]].kind, d.1)))
    else
      var amount := Total(v, matches);
      if amount == 0 then (v, Empty)
      else (v, if amount < req.count then req.(count := amount) else req)
  }

  /** On sorted, distinct, non-empty matches: what the real run takes and what the simulation says. */
  lemma ExtractSortedTakes(v: seq<Stack>, req: Stack, matches: seq<nat>)
    requires InSlots(v, matches) && Distinct(v, matches) && Filled(v, matches) && !IsEmpty(req)
    ensures var res := ExtractSorted(v, req, matches, false);
            var sim := ExtractSorted(v, req, matches, true);
            && ItemCount(res.1) == Min(req.count, Total(v, matches))
            && Items(res.0) + ItemCount(res.1) == Items(v)
            && (matches == [] ==> sim.1 == Empty)
            && (matches != [] ==> sim.1 == req.(count := Min(req.count, Total(v, matches))))
  {
    TotalPositive(v, matches);
    if matches != [] {
      DrainTakes(v, matches, req.count);
    }
  }

  /** On distinct, non-empty matches the real run drains them in list order. */
  lemma ExtractSortedSmallestFirst(v: seq<Stack>, req: Stack, matches: seq<nat>)
    requires InSlots(v, matches) && Distinct(v, matches) && Filled(v, matches)
    ensures var w := ExtractSorted(v, req, matches, false).0;
            forall p, q :: 0 <= p < q < |matches| && w[matches[q]] != v[matches[q]] ==> w[matches[p]].count == 0
  {
    if matches != [] {
      DrainSmallestFirst(v, matches, req.count);
    }
  }

  /** Sorted distinct slots: the slot order of the sort is a strict order. */
  lemma SortedDistinct(v: seq<Stack>, s: seq<nat>)
    requires InSlots(v, s) && Sorted(v, s)
    ensures Distinct(v, s)
  {
  }

  /** The sorted matches: non-empty, distinct, ordered by count, and holding all the matching items. */
  lemma SortedMatches(v: seq<Stack>, req: Stack)
    ensures var m := MatchSlots(v, req, 0);
            var sorted := SortByCount(v, m);
            && InSlots(v, m) && Sorted(v, sorted) && Distinct(v, sorted) && Filled(v, sorted)
            && Total(v, sorted) == Total(v, m)
            && (sorted == [] <==> m == [])
  {
    var m := MatchSlots(v, req, 0);
    SortByCountSorted(v, m);
    TotalSort(v, m);
    var sorted := SortByCount(v, m);
    forall p | 0 <= p < |sorted|
      ensures !IsEmpty(v[sorted[p]])
    {
      assert sorted[p] in multiset(m);
    }
  }

  /**
   * The real extraction returns the smaller of the request and the
   * matching items, taken out of the slots; only matching slots change.
   */
  lemma ExtractRequestTakes(v: seq<Stack>, req: Stack)
    ensures var res := ExtractRequest(v, req, false);
            var m := MatchSlots(v, req, 0);
            && ItemCount(res.1) == (if IsEmpty(req) then 0 else Min(req.count, Total(v, m)))
            && Items(res.0) + ItemCount(res.1) == Items(v)
            && (forall j :: 0 <= j < |v| && j !in m ==> res.0[j] == v[j])
  {
    var m := MatchSlots(v, req, 0);
    SortedMatches(v, req);
    var sorted := SortByCount(v, m);
    if !IsEmpty(req) {
      ExtractSortedTakes(v, req, sorted);
      forall j | 0 <= j < |v| && j !in m
        ensures j !in sorted
      {
        assert j !in multiset(m);
      }
    }
  }

  /** Of two matching stacks of different size, the larger only gives items once the smaller is emptied. */
  lemma ExtractRequestSmallestFirst(v: seq<Stack>, req: Stack, a: nat, b: nat)
    requires a < |v| && b < |v|
    requires a in MatchSlots(v, req, 0) && b in MatchSlots(v, req, 0)
    requires v[a].count < v[b].count
    ensures var w := ExtractRequest(v, req, false).0;
            w[b] != v[b] ==> w[a].count == 0
  {
    var m := MatchSlots(v, req, 0);
    SortedMatches(v, req);
    var sorted := SortByCount(v, m);
    if !IsEmpty(req) {
      assert a in multiset(sorted) && b in multiset(sorted);
      var p :| 0 <= p < |sorted| && sorted[p] == a;
      var q :| 0 <= q < |sorted| && sorted[q] == b;
      assert !Before(v, b, a) && p != q;
      assert p < q;
      ExtractSortedSmallestFirst(v, req, sorted);
    }
  }

  /**
   * The simulation changes nothing, returns `EMPTY` when nothing matches
   * and otherwise the request cut down to the matching items, which is as
   * many items as the real extraction takes.
   */
  lemma ExtractRequestSimulates(v: seq<Stack>, req: Stack)
    ensures var sim := ExtractRequest(v, req, true);
            var m := MatchSlots(v, req, 0);
            && sim.0 == v
            && (IsEmpty(req) || m == [] ==> sim.1 == Empty)
            && (!IsEmpty(req) && m != [] ==> sim.1 == req.(count := Min(req.count, Total(v, m))))
            && ItemCount(sim.1) == ItemCount(ExtractRequest(v, req, false).1)
  {
    SortedMatches(v, req);
    if !IsEmpty(req) {
      ExtractSortedTakes(v, req, SortByCount(v, MatchSlots(v, req, 0)));
    }
  }
}
