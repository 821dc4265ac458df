/**
 * `Auxiliaries.BlockPosRange`: an axis-aligned box of block positions with
 * inclusive corners, its sizes, two index-to-position maps and its
 * iterator. The mod ships the class twice, in `wile.redstonepen.libmc` and
 * in `wile.anthillinside.libmc.detail`, with the same code; this module
 * models both.
 */
module BlockPosRange {
  import opened JavaInt
  import opened Wrappers
  import opened DivMod

  datatype Pos = Pos(x: int, y: int, z: int)

  /** The six corner coordinates the class stores, lower corner first on every axis. */
  datatype Range = Range(x0: int, x1: int, y0: int, y1: int, z0: int, z1: int)

  predicate Valid(r: Range)
  {
    r.x0 <= r.x1 && r.y0 <= r.y1 && r.z0 <= r.z1
  }

  /** `new BlockPosRange(x0, y0, z0, x1, y1, z1)`: the box spanned by two corners given in any order. */
  function Make(x0: int, y0: int, z0: int, x1: int, y1: int, z1: int): (r: Range)
    ensures Valid(r)
    ensures {r.x0, r.x1} == {x0, x1} && {r.y0, r.y1} == {y0, y1} && {r.z0, r.z1} == {z0, z1}
  {
    Range(Min(x0, x1), Max(x0, x1), Min(y0, y1), Max(y0, y1), Min(z0, z1), Max(z0, z1))
  }

  predicate Contains(r: Range, p: Pos)
  {
    r.x0 <= p.x <= r.x1 && r.y0 <= p.y <= r.y1 && r.z0 <= p.z <= r.z1
  }

  predicate Between(v: int, a: int, b: int)
  {
    a <= v <= b || b <= v <= a
  }

  /** The box holds exactly the positions that lie between the two corners on every axis, whichever order they came in. */
  lemma MakeContains(x0: int, y0: int, z0: int, x1: int, y1: int, z1: int, p: Pos)
    ensures Contains(Make(x0, y0, z0, x1, y1, z1), p) <==>
              Between(p.x, x0, x1) && Between(p.y, y0, y1) && Between(p.z, z0, z1)
    ensures Make(x0, y0, z0, x1, y1, z1) == Make(x1, y1, z1, x0, y0, z0)
  {
  }

  function XSize(r: Range): (s: int)
    requires Valid(r)
    ensures s >= 1
  {
    r.x1 - r.x0 + 1
  }

  function YSize(r: Range): (s: int)
    requires Valid(r)
    ensures s >= 1
  {
    r.y1 - r.y0 + 1
  }

  function ZSize(r: Range): (s: int)
    requires Valid(r)
    ensures s >= 1
  {
    r.z1 - r.z0 + 1
  }

  /** `getArea`: the footprint, x size times z size. */
  function Area(r: Range): (a: int)
    requires Valid(r)
    ensures a >= XSize(r) && a >= ZSize(r)
  {
    MulGrows(XSize(r), ZSize(r));
    XSize(r) * ZSize(r)
  }

  /** `getHeight`. */
  function Height(r: Range): (h: int)
    requires Valid(r)
    ensures h >= 1
  {
    YSize(r)
  }

  /** `getVolume`: x size times y size times z size. */
  function Volume(r: Range): (v: int)
    requires Valid(r)
    ensures v >= Area(r) && v >= 1
  {
    MulGrows(XSize(r), YSize(r));
    MulGrows(XSize(r) * YSize(r), ZSize(r));
    assert XSize(r) * YSize(r) * ZSize(r) == YSize(r) * (XSize(r) * ZSize(r));
    MulGrows(YSize(r), XSize(r) * ZSize(r));
    XSize(r) * YSize(r) * ZSize(r)
  }

  /** The volume is the footprint times the height. */
  lemma VolumeLayers(r: Range)
    requires Valid(r)
    ensures Volume(r) == Area(r) * Height(r)
  {
  }

  // ---------------------------------------------------------------- byXZYIndex

  /**
   * `byXZYIndex(i)`: the index is reduced modulo the volume with Java's
   * remainder, then split into a layer y, a row z and a column x.
   */
  function ByXZYIndex(r: Range, i: int): (p: Pos)
    requires Valid(r)
  {
    var xsz, zsz := XSize(r), ZSize(r);
    var layer := xsz * zsz;
    MulGrows(xsz, zsz);
    var i1 := Rem(i, Volume(r));
    var y := Quot(i1, layer);
    var i2 := i1 - y * layer;
    var z := Quot(i2, xsz);
    var x := i2 - z * xsz;
    Pos(r.x0 + x, r.y0 + y, r.z0 + z)
  }

  /** The position's offset in the order x fastest, then z, then y. */
  function XZYIndex(r: Range, p: Pos): (i: int)
    requires Valid(r)
  {
    (p.x - r.x0) + XSize(r) * ((p.z - r.z0) + ZSize(r) * (p.y - r.y0))
  }

  /** For a non-negative index, `byXZYIndex` reads the three digits of the reduced index with Dafny's division. */
  lemma ByXZYIndexDigits(r: Range, i: int)
    requires Valid(r) && i >= 0
    ensures var n := i % Volume(r);
            ByXZYIndex(r, i) == Pos(r.x0 + n % XSize(r), r.y0 + n / XSize(r) / ZSize(r), r.z0 + (n / XSize(r)) % ZSize(r))
  {
    var xsz, zsz := XSize(r), ZSize(r);
    var layer := xsz * zsz;
    MulGrows(xsz, zsz);
    var n := i % Volume(r);
    QuotRemNatural(i, Volume(r));
    QuotRemNatural(n, layer);
    var i2 := n - (n / layer) * layer;
    assert i2 == n % layer;
    QuotRemNatural(i2, xsz);
    ModMulDiv(n, xsz, zsz);
  }

  /** Java's truncating quotient and remainder agree with Dafny's on a non-negative dividend. */
  lemma QuotRemNatural(a: int, b: int)
    requires a >= 0 && b > 0
    ensures Quot(a, b) == a / b && Rem(a, b) == a % b
  {
  }

  /** A non-negative index always lands inside the box, and its offset is the index reduced modulo the volume. */
  lemma {:induction false} ByXZYIndexInside(r: Range, i: int)
    requires Valid(r) && i >= 0
    ensures Contains(r, ByXZYIndex(r, i))
    ensures XZYIndex(r, ByXZYIndex(r, i)) == i % Volume(r)
  {
    var xsz, ysz, zsz := XSize(r), YSize(r), ZSize(r);
    MulRegroup(xsz, ysz, zsz);
    ByXZYIndexDigits(r, i);
    NestedDigits(i % Volume(r), xsz, zsz, ysz);
  }

  /** Every position of the box has an offset below the volume, and `byXZYIndex` of that offset gives it back. */
  lemma {:induction false} XZYIndexInverse(r: Range, p: Pos)
    requires Valid(r) && Contains(r, p)
    ensures 0 <= XZYIndex(r, p) < Volume(r)
    ensures ByXZYIndex(r, XZYIndex(r, p)) == p
  {
    var xsz, ysz, zsz := XSize(r), YSize(r), ZSize(r);
    MulRegroup(xsz, ysz, zsz);
    NestedCompose(p.x - r.x0, p.z - r.z0, p.y - r.y0, xsz, zsz, ysz);
    var n := XZYIndex(r, p);
    Digits(0, n, Volume(r));
    ByXZYIndexDigits(r, n);
  }

  /** `byXZYIndex` is a bijection from 0..volume-1 onto the box: distinct indices give distinct positions. */
  lemma ByXZYIndexInjective(r: Range, i: int, j: int)
    requires Valid(r) && 0 <= i < Volume(r) && 0 <= j < Volume(r)
    requires ByXZYIndex(r, i) == ByXZYIndex(r, j)
    ensures i == j
  {
    ByXZYIndexInside(r, i);
    ByXZYIndexInside(r, j);
    Digits(0, i, Volume(r));
    Digits(0, j, Volume(r));
  }

  // ---------------------------------------------------------------- byXZIndex

  /** `byXZIndex(i, yOffset)`: a column of the footprint, lifted to layer yOffset. */
  function ByXZIndex(r: Range, i: int, yOffset: int): (p: Pos)
    requires Valid(r)
  {
    var xsz := XSize(r);
    var i1 := Rem(i, Area(r));
    var z := Quot(i1, xsz);
    var x := i1 - z * xsz;
    Pos(r.x0 + x, r.y0 + yOffset, r.z0 + z)
  }

  /** A non-negative index gives x and z inside the footprint, and the y the caller asked for. */
  lemma {:induction false} ByXZIndexInside(r: Range, i: int, yOffset: int)
    requires Valid(r) && i >= 0
    ensures var p := ByXZIndex(r, i, yOffset);
            && r.x0 <= p.x <= r.x1 && r.z0 <= p.z <= r.z1 && p.y == r.y0 + yOffset
  {
    var xsz, zsz := XSize(r), ZSize(r);
    QuotRemNatural(i, Area(r));
    var n := i % Area(r);
    QuotRemNatural(n, xsz);
    SplitBelow(n, xsz, zsz);
  }

  // ---------------------------------------------------------------- iterator

  /** The iterator's cursor: the next position it will return. */
  datatype Cursor = Cursor(x: int, y: int, z: int)

  /** `iterator()`: the first `next()` of a box returns its lower corner. */
  function Start(r: Range): (c: Cursor)
    ensures Valid(r) ==> HasNext(r, c) && Next(r, c).Some? && Next(r, c).value.0 == Pos(r.x0, r.y0, r.z0)
  {
    Cursor(r.x0, r.y0, r.z0)
  }

  /** `hasNext()`. */
  predicate HasNext(r: Range, c: Cursor)
  {
    c.z <= r.z1
  }

  /**
   * `next()`: the cursor's position and the advanced cursor, x first, then
   * y, then z; None where the Java method throws `NoSuchElementException`.
   */
  function Next(r: Range, c: Cursor): (res: Option<(Pos, Cursor)>)
    ensures res.None? <==> !HasNext(r, c)
    ensures res.Some? ==> res.value.0 == Pos(c.x, c.y, c.z)
  {
    if !HasNext(r, c) then None
    else
      var p := Pos(c.x, c.y, c.z);
      var c1 := c.(x := c.x + 1);
      var c2 := if c1.x > r.x1 then c1.(x := r.x0, y := c1.y + 1) else c1;
      var c3 := if c1.x > r.x1 && c2.y > r.y1 then c2.(y := r.y0, z := c2.z + 1) else c2;
      Some((p, c3))
  }

  /** Where the cursor stands after k calls of `next()`: k counted in x, then y, then z. */
  function CursorAt(r: Range, k: nat): Cursor
    requires Valid(r)
  {
    var xsz, ysz := XSize(r), YSize(r);
    Cursor(r.x0 + k % xsz, r.y0 + (k / xsz) % ysz, r.z0 + k / xsz / ysz)
  }

  /** The k-th position the iterator returns. */
  function IterPos(r: Range, k: nat): Pos
    requires Valid(r)
  {
    var c := CursorAt(r, k);
    Pos(c.x, c.y, c.z)
  }

  /** The first n positions the iterator returns. */
  function Visited(r: Range, n: nat): (s: seq<Pos>)
    requires Valid(r)
    ensures |s| == n
  {
    seq(n, k requires 0 <= k < n => IterPos(r, k))
  }

  /** The iterator starts where `CursorAt` does. */
  lemma CursorStart(r: Range)
    requires Valid(r)
    ensures CursorAt(r, 0) == Start(r)
  {
  }

  /** One call of `next()` before the end returns the k-th position and moves the cursor to k + 1. */
  lemma {:induction false} CursorStep(r: Range, k: nat)
    requires Valid(r) && k < Volume(r)
    ensures HasNext(r, CursorAt(r, k))
    ensures Next(r, CursorAt(r, k)) == Some((IterPos(r, k), CursorAt(r, k + 1)))
  {
    var xsz, ysz, zsz := XSize(r), YSize(r), ZSize(r);
    MulRegroup(xsz, ysz, zsz);
    NestedDigits(k, xsz, ysz, zsz);
    Successor(k, xsz);
    if k % xsz + 1 == xsz {
      Successor(k / xsz, ysz);
    }
  }

  /** After volume calls of `next()` the iterator is exhausted. */
  lemma {:induction false} CursorEnd(r: Range)
    requires Valid(r)
    ensures !HasNext(r, CursorAt(r, Volume(r) as nat))
  {
    var xsz, ysz, zsz := XSize(r), YSize(r), ZSize(r);
    MulRegroup(xsz, ysz, zsz);
    assert Volume(r) == (zsz * ysz) * xsz + 0;
    Digits(zsz * ysz, 0, xsz);
    Digits(zsz, 0, ysz);
  }

  /**
   * Running the iterator to the end: `next()` is called while `hasNext()`
   * holds, and the positions come out in x-then-y-then-z order.
   */
  method Collect(r: Range) returns (out: seq<Pos>)
    requires Valid(r)
    ensures |out| == Volume(r)
    ensures out == Visited(r, Volume(r) as nat)
  {
    var c := Start(r);
    out := [];
    CursorStart(r);
    while HasNext(r, c)
      invariant |out| <= Volume(r)
      invariant c == CursorAt(r, |out|)
      invariant out == Visited(r, |out|)
      decreases Volume(r) - |out|
    {
      if |out| == Volume(r) {
        CursorEnd(r);
        assert false;
      }
      CursorStep(r, |out|);
      var step := Next(r, c).value;
      out := out + [step.0];
      c := step.1;
    }
    if |out| < Volume(r) {
      CursorStep(r, |out|);
    }
  }

  /** The position after k steps, read back as a step count. */
  function IterIndex(r: Range, p: Pos): int
    requires Valid(r)
  {
    (p.x - r.x0) + XSize(r) * ((p.y - r.y0) + YSize(r) * (p.z - r.z0))
  }

  /** Every position the iterator returns lies in the box, and its step count can be read back from it. */
  lemma {:induction false} IterPosInside(r: Range, k: nat)
    requires Valid(r) && k < Volume(r)
    ensures Contains(r, IterPos(r, k))
    ensures IterIndex(r, IterPos(r, k)) == k
  {
    MulRegroup(XSize(r), YSize(r), ZSize(r));
    NestedDigits(k, XSize(r), YSize(r), ZSize(r));
  }

  /** The iterator never returns a position twice. */
  lemma IterPosInjective(r: Range, j: nat, k: nat)
    requires Valid(r) && j < Volume(r) && k < Volume(r)
    requires IterPos(r, j) == IterPos(r, k)
    ensures j == k
  {
    IterPosInside(r, j);
    IterPosInside(r, k);
  }

  /** Every position of the box is returned by the iterator, at the step its offset names. */
  lemma {:induction false} IterCovers(r: Range, p: Pos)
    requires Valid(r) && Contains(r, p)
    ensures 0 <= IterIndex(r, p) < Volume(r)
    ensures IterPos(r, IterIndex(r, p) as nat) == p
  {
    MulRegroup(XSize(r), YSize(r), ZSize(r));
    NestedCompose(p.x - r.x0, p.y - r.y0, p.z - r.z0, XSize(r), YSize(r), ZSize(r));
  }
}
