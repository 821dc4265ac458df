/**
 * Java's 32-bit `int` arithmetic over Dafny's unbounded integers: wrap-around,
 * truncating division and remainder, and the clamp helper the mod uses.
 */
module JavaInt {

  const MIN_INT: int := -0x8000_0000
  const MAX_INT: int := 0x7fff_ffff
  const TWO_32: int := 0x1_0000_0000

  /** The values a Java `int` can hold. */
  type Int32 = x: int | MIN_INT <= x <= MAX_INT

  /** A redstone signal strength or one hex digit. */
  type Nibble = x: int | 0 <= x < 16

  function Abs(x: int): (r: nat)
    ensures r == x || r == -x
  {
    if x < 0 then -x else x
  }

  function Min(a: int, b: int): (r: int)
    ensures r <= a && r <= b
    ensures r == a || r == b
  {
    if a <= b then a else b
  }

  function Max(a: int, b: int): (r: int)
    ensures r >= a && r >= b
    ensures r == a || r == b
  {
    if a >= b then a else b
  }

  /** Two's-complement truncation: the `int` a Java expression yields for the exact value `x`. */
  function Wrap(x: int): (r: Int32)
    ensures (x - r) % TWO_32 == 0
    ensures MIN_INT <= x <= MAX_INT ==> r == x
  {
    var m := x % TWO_32;
    if m <= MAX_INT then m else m - TWO_32
  }

  /** Java's `a / b`: the quotient rounded toward zero. */
  function Quot(a: int, b: int): (q: int)
    requires b != 0
    ensures Abs(q) <= Abs(a)
    ensures q == 0 || (q > 0 <==> (a > 0) == (b > 0))
  {
    assert Abs(b) > 0;
    DivSmaller(Abs(a), Abs(b));
    if a >= 0 && b > 0 then a / b
    else if a >= 0 then -(a / -b)
    else if b > 0 then -((-a) / b)
    else (-a) / (-b)
  }

  /** Dividing a natural by a positive number does not make it larger. */
  lemma DivSmaller(n: int, d: int)
    requires n >= 0 && d > 0
    ensures 0 <= n / d <= n
  {
    Euclid(n, d);
    MulAtLeast(n / d, d);
  }

  /** Dafny's division: `n == (n / d) * d + n % d` with `0 <= n % d < d`. */
  lemma Euclid(n: int, d: int)
    requires d > 0
    ensures n == (n / d) * d + n % d && 0 <= n % d < d
  {
  }

  lemma MulAtLeast(k: int, d: int)
    requires d > 0
    ensures k >= 0 ==> k * d >= k
    ensures k < 0 ==> k * d <= k
  {
  }

  lemma MulSigns(k: int, d: int)
    ensures (-k) * d == -(k * d) && k * (-d) == -(k * d) && (-k) * (-d) == k * d
  {
  }

  /** Java's `a % b`: `(a / b) * b + a % b == a`, with the remainder taking the dividend's sign. */
  function Rem(a: int, b: int): (r: int)
    requires b != 0
    ensures Abs(r) < Abs(b)
    ensures r == 0 || (r > 0 <==> a > 0)
  {
    QuotRem(a, b);
    a - Quot(a, b) * b
  }

  /** Truncating division leaves a remainder smaller than the divisor with the dividend's sign. */
  lemma QuotRem(a: int, b: int)
    requires b != 0
    ensures Abs(a - Quot(a, b) * b) < Abs(b)
    ensures a - Quot(a, b) * b == 0 || (a - Quot(a, b) * b > 0 <==> a > 0)
  {
    var n: int := Abs(a);
    var d: int := Abs(b);
    assert d > 0;
    var k: int := n / d;
    var q := Quot(a, b);
    Euclid(n, d);
    MulSigns(k, d);
    if a >= 0 && b > 0 {
      assert q == k && b == d;
      assert a - q * b == n % d;
    } else if a >= 0 {
      assert q == -k && b == -d;
      assert q * b == (-k) * (-d);
      assert a - q * b == n % d;
    } else if b > 0 {
      assert q == -k && b == d;
      assert q * b == (-k) * d;
      assert a - q * b == -(n % d);
    } else {
      assert q == k && b == -d;
      assert q * b == k * (-d);
      assert a - q * b == -(n % d);
    }
  }

  /** Minecraft's `MathHelper.clamp`: the lower bound wins when the bounds cross. */
  function Clamp(v: int, lo: int, hi: int): (r: int)
    ensures lo <= hi ==> lo <= r <= hi
    ensures lo <= v <= hi ==> r == v
    ensures r == v || r == lo || r == hi
    ensures v < lo ==> r == lo
  {
    if v < lo then lo else if v > hi then hi else v
  }

  /** `Math.min(hi, Math.max(lo, v))`, the idiom the mod uses to bound a signal. */
  function Limit(v: int, lo: int, hi: int): (r: int)
    ensures lo <= hi ==> lo <= r <= hi
    ensures lo <= v <= hi ==> r == v
    ensures r <= hi
  {
    Min(hi, Max(lo, v))
  }
}
