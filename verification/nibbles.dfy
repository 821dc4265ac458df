/**
 * Machine words as little-endian sequences of nibbles. A Java `int` is a
 * word of 8 nibbles and a `long` one of 16; nibble i holds bits 4i..4i+3.
 * Control-box ports and adapter channels each own one nibble, and every
 * mask the mod builds is nibble-aligned, so the bitwise operators it uses
 * are stated here nibble by nibble.
 */
module Nibbles {
  import opened JavaInt

  type Word = seq<Nibble>

  const INT_NIBBLES: nat := 8
  const LONG_NIBBLES: nat := 16

  /** The four bits of a nibble, lowest first. */
  datatype Bits4 = Bits4(b0: bool, b1: bool, b2: bool, b3: bool)

  /** The bits of x, peeled off from the top so that only linear arithmetic is needed. */
  function BitsOf(x: Nibble): (r: Bits4)
  {
    var x3 := if x >= 8 then x - 8 else x;
    var x2 := if x3 >= 4 then x3 - 4 else x3;
    var x1 := if x2 >= 2 then x2 - 2 else x2;
    Bits4(x1 == 1, x2 >= 2, x3 >= 4, x >= 8)
  }

  /** Bit k (0..3) of a nibble. */
  function Bit(x: Nibble, k: nat): bool
    requires k < 4
  {
    var b := BitsOf(x);
    if k == 0 then b.b0 else if k == 1 then b.b1 else if k == 2 then b.b2 else b.b3
  }

  /** The nibble with the given four bits. */
  function FromBits(b: Bits4): (r: Nibble)
    ensures BitsOf(r) == b
  {
    (if b.b0 then 1 else 0) + (if b.b1 then 2 else 0) + (if b.b2 then 4 else 0) + (if b.b3 then 8 else 0)
  }

  /** A nibble is determined by its bits. */
  lemma BitsDetermine(x: Nibble)
    ensures FromBits(BitsOf(x)) == x
  {
  }

  /** `x & y` on one nibble. */
  function AndN(x: Nibble, y: Nibble): (r: Nibble)
    ensures y == 15 ==> r == x
    ensures x == 15 ==> r == y
    ensures x == 0 || y == 0 ==> r == 0
  {
    BitsDetermine(x);
    BitsDetermine(y);
    var a := BitsOf(x);
    var b := BitsOf(y);
    FromBits(Bits4(a.b0 && b.b0, a.b1 && b.b1, a.b2 && b.b2, a.b3 && b.b3))
  }

  /** `x | y` on one nibble. */
  function OrN(x: Nibble, y: Nibble): (r: Nibble)
    ensures y == 0 ==> r == x
    ensures x == 0 ==> r == y
    ensures x == 15 || y == 15 ==> r == 15
  {
    BitsDetermine(x);
    BitsDetermine(y);
    var a := BitsOf(x);
    var b := BitsOf(y);
    FromBits(Bits4(a.b0 || b.b0, a.b1 || b.b1, a.b2 || b.b2, a.b3 || b.b3))
  }

  /** `~x` on one nibble: the complement within four bits. */
  function NotN(x: Nibble): (r: Nibble)
    ensures AndN(x, r) == 0
  {
    BitsDetermine(x);
    15 - x
  }

  /** `v & 0xf` on a Java integer: in two's complement the low four bits are v mod 16. */
  function Low(v: int): (r: Nibble)
  {
    v % 16
  }

  /** Masking a value already in 0..15 with `0xf` leaves it alone. */
  lemma LowSignal(v: int)
    requires 0 <= v <= 15
    ensures Low(v) == v
  {
  }

  /** The nibble operators act bit by bit. */
  lemma BitwiseOps(x: Nibble, y: Nibble, k: nat)
    requires k < 4
    ensures Bit(AndN(x, y), k) == (Bit(x, k) && Bit(y, k))
    ensures Bit(OrN(x, y), k) == (Bit(x, k) || Bit(y, k))
    ensures Bit(NotN(x), k) == !Bit(x, k)
  {
  }

  // ------------------------------------------------------------------ words

  function Zero(n: nat): (r: Word)
    ensures |r| == n && forall i :: 0 <= i < n ==> r[i] == 0
  {
    seq(n, i => 0)
  }

  /** `a & b`. */
  function And(a: Word, b: Word): (r: Word)
    requires |a| == |b|
    ensures |r| == |a| && forall i :: 0 <= i < |a| ==> r[i] == AndN(a[i], b[i])
  {
    seq(|a|, i requires 0 <= i < |a| => AndN(a[i], b[i]))
  }

  /** `a | b`. */
  function Or(a: Word, b: Word): (r: Word)
    requires |a| == |b|
    ensures |r| == |a| && forall i :: 0 <= i < |a| ==> r[i] == OrN(a[i], b[i])
  {
    seq(|a|, i requires 0 <= i < |a| => OrN(a[i], b[i]))
  }

  /** `~a`. */
  function Not(a: Word): (r: Word)
    ensures |r| == |a| && forall i :: 0 <= i < |a| ==> r[i] == NotN(a[i])
  {
    seq(|a|, i requires 0 <= i < |a| => NotN(a[i]))
  }

  /** `a << (4*k)`: k zero nibbles come in at the bottom, the top k fall off. */
  function ShiftUp(a: Word, k: nat): (r: Word)
    requires k <= |a|
    ensures |r| == |a|
    ensures forall i :: 0 <= i < |a| ==> r[i] == if i < k then 0 else a[i - k]
  {
    Zero(k) + a[..|a| - k]
  }

  /**
   * `a >> 4` on a signed word, or `a >>> 4` (and `>>` on an unsigned one):
   * every nibble moves down one place and the top is filled with the sign
   * or with zero.
   */
  function ShiftDown(a: Word, signed: bool): (r: Word)
    requires |a| > 0
    ensures |r| == |a|
    ensures forall i :: 0 <= i < |a| - 1 ==> r[i] == a[i + 1]
    ensures r[|a| - 1] == if signed && a[|a| - 1] >= 8 then 15 else 0
  {
    a[1..] + [if signed && a[|a| - 1] >= 8 then 15 else 0]
  }

  /** `(a >> (4*k)) & 0xf`: nibble k. */
  function NibbleAt(a: Word, k: nat): (r: Nibble)
    requires k < |a|
  {
    a[k]
  }

  /** `v << (4*k)` for a nibble v in a word of n nibbles. */
  function Place(n: nat, v: Nibble, k: nat): (r: Word)
    requires k < n
    ensures |r| == n && forall i :: 0 <= i < n ==> r[i] == if i == k then v else 0
  {
    ShiftUp([v] + Zero(n - 1), k)
  }

  /** `0xf << (4*k)`. */
  function NibbleMask(n: nat, k: nat): (r: Word)
    requires k < n
    ensures |r| == n && forall i :: 0 <= i < n ==> r[i] == if i == k then 15 else 0
  {
    Place(n, 15, k)
  }

  /** Words whose nibbles are all 0 or 15: the masks. */
  predicate IsMask(a: Word)
  {
    forall i :: 0 <= i < |a| ==> a[i] == 0 || a[i] == 15
  }

  /** Masking keeps exactly the nibbles where the mask is full. */
  lemma AndMask(a: Word, m: Word)
    requires |a| == |m| && IsMask(m)
    ensures forall i :: 0 <= i < |a| ==> And(a, m)[i] == if m[i] == 15 then a[i] else 0
  {
  }

  // ---------------------------------------------------------- integer value

  function Pow16(k: nat): (r: nat)
    ensures r >= 1
  {
    if k == 0 then 1 else 16 * Pow16(k - 1)
  }

  /** The unsigned value of a word. */
  function ToNat(a: Word): (r: nat)
    ensures r < Pow16(|a|)
  {
    if |a| == 0 then 0 else a[0] + 16 * ToNat(a[1..])
  }

  /** The low n nibbles of v in two's complement, as a word. */
  function FromInt(v: int, n: nat): (r: Word)
    decreases n
    ensures |r| == n
  {
    if n == 0 then [] else [v % 16] + FromInt((v - v % 16) / 16, n - 1)
  }

  /** A word's value reads back as the same word. */
  lemma {:induction false} FromToNat(a: Word)
    ensures FromInt(ToNat(a), |a|) == a
  {
    if |a| > 0 {
      var v := ToNat(a);
      assert v % 16 == a[0];
      assert (v - v % 16) / 16 == ToNat(a[1..]);
      FromToNat(a[1..]);
    }
  }

  /** Nibble 0 of a Java `int` is `v & 0xf`, which two's complement makes v mod 16. */
  lemma LowNibble(v: int, n: nat)
    requires n > 0
    ensures FromInt(v, n)[0] == v % 16
  {
  }
}
