/**
 * A Java `long` as a little-endian sequence of 64 bits, for code that works
 * bit by bit: bit i of the word is element i of the sequence.
 */
module Bits {

  const LONG_BITS: nat := 64

  type Bits = seq<bool>

  predicate IsLong(w: Bits)
  {
    |w| == LONG_BITS
  }

  /** `0L`. */
  function ZeroL(): (r: Bits)
    ensures IsLong(r) && forall i :: 0 <= i < LONG_BITS ==> !r[i]
  {
    seq(LONG_BITS, i => false)
  }

  /** The word whose set bits are exactly the given positions: how the model writes a mask literal. */
  function MaskOf(positions: set<nat>): (r: Bits)
    ensures IsLong(r) && forall i :: 0 <= i < LONG_BITS ==> (r[i] <==> i in positions)
  {
    seq(LONG_BITS, i requires 0 <= i => i in positions)
  }

  /** The word with bits lo..hi-1 set: a contiguous mask literal. */
  function MaskRange(lo: nat, hi: nat): (r: Bits)
    ensures IsLong(r) && forall i :: 0 <= i < LONG_BITS ==> (r[i] <==> lo <= i < hi)
  {
    seq(LONG_BITS, i => lo <= i < hi)
  }

  /** `1L << i`. */
  function Single(i: nat): (r: Bits)
    requires i < LONG_BITS
    ensures IsLong(r) && forall k :: 0 <= k < LONG_BITS ==> (r[k] <==> k == i)
  {
    MaskOf({i})
  }

  /** `a & b`. */
  function AndL(a: Bits, b: Bits): (r: Bits)
    requires IsLong(a) && IsLong(b)
    ensures IsLong(r) && forall i :: 0 <= i < LONG_BITS ==> (r[i] <==> a[i] && b[i])
  {
    seq(LONG_BITS, i requires 0 <= i < LONG_BITS => a[i] && b[i])
  }

  /** `a | b`. */
  function OrL(a: Bits, b: Bits): (r: Bits)
    requires IsLong(a) && IsLong(b)
    ensures IsLong(r) && forall i :: 0 <= i < LONG_BITS ==> (r[i] <==> a[i] || b[i])
  {
    seq(LONG_BITS, i requires 0 <= i < LONG_BITS => a[i] || b[i])
  }

  /** `a & ~b`: the bits of a that b does not have. */
  function Clear(a: Bits, b: Bits): (r: Bits)
    requires IsLong(a) && IsLong(b)
    ensures IsLong(r) && forall i :: 0 <= i < LONG_BITS ==> (r[i] <==> a[i] && !b[i])
  {
    seq(LONG_BITS, i requires 0 <= i < LONG_BITS => a[i] && !b[i])
  }

  /** `w != 0`. */
  predicate NonZero(w: Bits)
    requires IsLong(w)
  {
    exists i :: 0 <= i < LONG_BITS && w[i]
  }

  /** `(a & b) != 0`. */
  predicate Meets(a: Bits, b: Bits)
    requires IsLong(a) && IsLong(b)
  {
    exists i :: 0 <= i < LONG_BITS && a[i] && b[i]
  }

  /** The number of set bits among positions lo..hi-1. */
  function Count(w: Bits, lo: nat, hi: nat): (r: nat)
    requires lo <= hi <= |w|
    decreases hi - lo
    ensures r <= hi - lo
  {
    if lo == hi then 0 else (if w[lo] then 1 else 0) + Count(w, lo + 1, hi)
  }

  /** Words that agree on a range have the same count there. */
  lemma {:induction false} CountSame(a: Bits, b: Bits, lo: nat, hi: nat)
    requires lo <= hi <= |a| && hi <= |b|
    requires forall i :: lo <= i < hi ==> a[i] == b[i]
    decreases hi - lo
    ensures Count(a, lo, hi) == Count(b, lo, hi)
  {
    if lo < hi {
      CountSame(a, b, lo + 1, hi);
    }
  }

  /** A range counts as zero exactly when none of its bits is set. */
  lemma {:induction false} CountZero(w: Bits, lo: nat, hi: nat)
    requires lo <= hi <= |w|
    decreases hi - lo
    ensures Count(w, lo, hi) == 0 <==> forall i :: lo <= i < hi ==> !w[i]
  {
    if lo < hi {
      CountZero(w, lo + 1, hi);
    }
  }

  /** Counting a range in two pieces. */
  lemma {:induction false} CountSplit(w: Bits, lo: nat, mid: nat, hi: nat)
    requires lo <= mid <= hi <= |w|
    decreases mid - lo
    ensures Count(w, lo, hi) == Count(w, lo, mid) + Count(w, mid, hi)
  {
    if lo < mid {
      CountSplit(w, lo + 1, mid, hi);
    }
  }

  /** Setting one clear bit in a range adds one to its count; clearing a set one removes one. */
  lemma {:induction false} CountFlip(a: Bits, b: Bits, k: nat, lo: nat, hi: nat)
    requires lo <= k < hi <= |a| && |b| == |a|
    requires forall i :: lo <= i < hi && i != k ==> a[i] == b[i]
    requires !a[k] && b[k]
    ensures Count(b, lo, hi) == Count(a, lo, hi) + 1
  {
    CountSplit(a, lo, k, hi);
    CountSplit(b, lo, k, hi);
    CountSame(a, b, lo, k);
    CountSame(a, b, k + 1, hi);
  }

  /** Counting a range of one word and the same range moved up by d in another. */
  lemma {:induction false} CountShift(a: Bits, b: Bits, lo: nat, hi: nat, d: nat)
    requires lo <= hi <= |a| && hi + d <= |b|
    requires forall i :: lo <= i < hi ==> a[i] == b[i + d]
    decreases hi - lo
    ensures Count(a, lo, hi) == Count(b, lo + d, hi + d)
  {
    if lo < hi {
      CountShift(a, b, lo + 1, hi, d);
    }
  }
}
