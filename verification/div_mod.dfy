/**
 * Facts about Dafny's division and remainder on non-negative operands, kept
 * in small lemmas so that no other proof has to reason about products of
 * unknowns.
 */
module DivMod {

  /** A product of two factors of at least one is at least each factor. */
  lemma MulGrows(a: int, b: int)
    requires a >= 1 && b >= 1
    ensures a * b >= a && a * b >= b
  {
  }

  /** `k * d` moves away from zero by at least d when k does. */
  lemma MulStep(k: int, d: int)
    requires d > 0
    ensures k >= 1 ==> k * d >= d
    ensures k <= -1 ==> k * d <= -d
  {
  }

  /** The quotient and remainder are the only pair that rebuilds n with a remainder below d. */
  lemma {:induction false} DivModUnique(n: int, d: int, q: int, m: int)
    requires d > 0 && 0 <= m < d && n == q * d + m
    ensures n / d == q && n % d == m
  {
    var q0, m0 := n / d, n % d;
    assert n == q0 * d + m0 && 0 <= m0 < d;
    assert (q - q0) * d == m0 - m;
    MulStep(q - q0, d);
  }

  /** A number below a * b splits into a digit below a and a quotient below b. */
  lemma {:induction false} SplitBelow(n: int, a: int, b: int)
    requires a > 0 && b > 0 && 0 <= n < a * b
    ensures 0 <= n / a < b && 0 <= n % a < a
    ensures n == (n / a) * a + n % a
  {
    var q := n / a;
    assert n == q * a + n % a;
    MulStep(q, a);
    MulLess(q, b, a);
  }

  /** Multiplying both sides of q >= b by a positive a keeps the order. */
  lemma MulLess(q: int, b: int, a: int)
    requires a > 0
    ensures q >= b ==> q * a >= b * a
  {
  }

  /** Putting a digit below a and a quotient below b together stays below a * b. */
  lemma {:induction false} CombineBelow(q: int, m: int, a: int, b: int)
    requires a > 0 && b > 0 && 0 <= m < a && 0 <= q < b
    ensures 0 <= q * a + m < a * b
  {
    assert q * a <= (b - 1) * a;
    assert (b - 1) * a == b * a - a;
  }

  /** `(q*a + m) / a == q` and `(q*a + m) % a == m` for a digit m below a. */
  lemma Digits(q: int, m: int, a: int)
    requires a > 0 && 0 <= m < a
    ensures (q * a + m) / a == q && (q * a + m) % a == m
  {
    DivModUnique(q * a + m, a, q, m);
  }

  /** Counting one step further: the low digit carries into the quotient exactly when it reaches d. */
  lemma {:induction false} Successor(k: int, d: int)
    requires d > 0 && k >= 0
    ensures k % d + 1 < d ==> (k + 1) % d == k % d + 1 && (k + 1) / d == k / d
    ensures k % d + 1 == d ==> (k + 1) % d == 0 && (k + 1) / d == k / d + 1
  {
    var q, m := k / d, k % d;
    assert k == q * d + m && 0 <= m < d;
    if m + 1 < d {
      DivModUnique(k + 1, d, q, m + 1);
    } else {
      assert k + 1 == (q + 1) * d + 0;
      DivModUnique(k + 1, d, q + 1, 0);
    }
  }

  /** Regrouping a product of three factors. */
  lemma MulRegroup(a: int, b: int, c: int)
    ensures a * b * c == a * (b * c) && a * b * c == a * (c * b)
  {
  }

  /** A number below a * b is its low digit plus a times its high digit. */
  lemma {:induction false} Split2(n: int, a: int, b: int)
    requires a > 0 && b > 0 && 0 <= n < a * b
    ensures 0 <= n % a < a && 0 <= n / a < b
    ensures n == n % a + a * (n / a)
  {
    SplitBelow(n, a, b);
  }

  /** Digits below a and b make a number below a * b from which they can be read back. */
  lemma {:induction false} Place2(lo: int, hi: int, a: int, b: int)
    requires a > 0 && b > 0 && 0 <= lo < a && 0 <= hi < b
    ensures 0 <= lo + a * hi < a * b
    ensures (lo + a * hi) % a == lo && (lo + a * hi) / a == hi
  {
    assert a * hi == hi * a;
    CombineBelow(hi, lo, a, b);
    Digits(hi, lo, a);
  }

  /** Three mixed-radix digits of n below a * (b * c): n % a, (n / a) % b and n / a / b. */
  lemma {:induction false} NestedDigits(n: int, a: int, b: int, c: int)
    requires a > 0 && b > 0 && c > 0 && 0 <= n < a * (b * c)
    ensures 0 <= n % a < a && 0 <= (n / a) % b < b && 0 <= n / a / b < c
    ensures n == n % a + a * ((n / a) % b + b * (n / a / b))
  {
    Split2(n, a, b * c);
    Split2(n / a, b, c);
  }

  /** Three mixed-radix digits make a number below a * (b * c) whose digits they are. */
  lemma {:induction false} NestedCompose(d0: int, d1: int, d2: int, a: int, b: int, c: int)
    requires a > 0 && b > 0 && c > 0
    requires 0 <= d0 < a && 0 <= d1 < b && 0 <= d2 < c
    ensures var n := d0 + a * (d1 + b * d2);
            && 0 <= n < a * (b * c)
            && n % a == d0 && (n / a) % b == d1 && n / a / b == d2
  {
    Place2(d1, d2, b, c);
    Place2(d0, d1 + b * d2, a, b * c);
  }

  /** Reducing modulo a * b and then splitting by a reads the same digits as splitting by a first. */
  lemma {:induction false} ModMulDiv(n: int, a: int, b: int)
    requires n >= 0 && a > 0 && b > 0
    ensures (n % (a * b)) % a == n % a
    ensures (n % (a * b)) / a == (n / a) % b
    ensures n / (a * b) == n / a / b
  {
    var q, r0 := n / a, n % a;
    var q2, r1 := q / b, q % b;
    assert n == q * a + r0;
    assert q == q2 * b + r1;
    Place2(r0, r1, a, b);
    var m := r0 + a * r1;
    Expand(q2, b, r1, a);
    DivModUnique(n, a * b, q2, m);
  }

  /** `(q*b + r) * a == q * (a*b) + a * r`. */
  lemma Expand(q: int, b: int, r: int, a: int)
    ensures (q * b + r) * a == q * (a * b) + a * r
  {
  }
}
