/**
 * The text helpers of the C++ host adapter (`util.hh`): one hex digit per
 * nibble, a fixed-width hex rendering of an integer, and a checked decimal
 * parse that `main` uses for its command line. Strings are byte sequences.
 */
module HostUtil {
  import opened JavaInt
  import opened Nibbles
  import opened Ascii
  import opened Wrappers
  import FmmAdapter
  import DivMod

  // ------------------------------------------------------------ hex digits

  /** `hex_to_nybble`: a hex digit of either case, or 0 for any other character. */
  function HexToNybble(hex: Byte): (n: Nibble)
    ensures !IsHex(hex) ==> n == 0
  {
    if DIGIT_0 <= hex <= DIGIT_9 then hex - DIGIT_0
    else if LOWER_A <= hex <= LOWER_F then hex - LOWER_A + 10
    else if UPPER_A <= hex <= UPPER_F then hex - UPPER_A + 10
    else 0
  }

  /**
   * `nybble_to_hex`: `sig & 0xf`, which two's complement makes sig mod 16,
   * as a lower-case digit; `hex_to_nybble` reads that nibble back.
   */
  function NybbleToHex(sig: int): (c: Byte)
    ensures IsLowerHex(c)
    ensures HexToNybble(c) == sig % 16
  {
    var n := sig % 16;
    if n < 10 then DIGIT_0 + n else LOWER_A + (n - 10)
  }

  /**
   * The C++ digit functions agree with the mod's Java ones on every byte,
   * and on every nibble; outside 0..15 the C++ one keeps the low bits where
   * the Java one writes '0'.
   */
  lemma AgreesWithJava(b: Byte, n: int)
    ensures HexToNybble(b) == FmmAdapter.HexToNibble(b)
    ensures 0 <= n <= 15 ==> NybbleToHex(n) == FmmAdapter.NibbleToHex(n)
    ensures !(0 <= n <= 15) && n % 16 != 0 ==> NybbleToHex(n) != FmmAdapter.NibbleToHex(n)
  {
  }

  // ---------------------------------------------------------------- to_hex

  /** The value of hex digits written most significant first. */
  function HexValue(s: seq<Byte>): (v: nat)
  {
    if |s| == 0 then 0 else 16 * HexValue(s[..|s| - 1]) + HexToNybble(s[|s| - 1])
  }

  /** The digits of a word, most significant first. */
  function HexDigits(d: Word): (s: seq<Byte>)
    ensures |s| == |d|
    ensures forall j :: 0 <= j < |d| ==> s[j] == NybbleToHex(d[|d| - 1 - j])
  {
    if |d| == 0 then [] else HexDigits(d[1..]) + [NybbleToHex(d[0])]
  }

  /**
   * `to_hex<T>(value)` for a T of `bytes` bytes: one lower-case digit per
   * nibble of the value's two's complement, most significant first.
   */
  function ToHex(value: int, bytes: nat): (s: seq<Byte>)
    ensures |s| == 2 * bytes
    ensures forall j :: 0 <= j < |s| ==> IsLowerHex(s[j])
  {
    HexDigits(FromInt(value, 2 * bytes))
  }

  /** The loop of `to_hex`: the last character first, each one `nybble_to_hex(value)`, then `value >>= 4`. */
  method ToHexLoop(value: int, bytes: nat) returns (hex: seq<Byte>)
    ensures hex == ToHex(value, bytes)
  {
    var n := 2 * bytes;
    hex := seq(n, _ => DIGIT_0);
    var v := value;
    var k := 0;
    while k < n
      invariant 0 <= k <= n && |hex| == n
      invariant FromInt(v, n - k) == FromInt(value, n)[k..]
      invariant hex[n - k..] == ToHex(value, bytes)[n - k..]
    {
      var q := (v - v % 16) / 16;
      assert FromInt(v, n - k) == [v % 16] + FromInt(q, n - k - 1);
      DropFirst(FromInt(value, n), FromInt(v, n - k), k);
      assert ToHex(value, bytes)[n - 1 - k] == NybbleToHex(v % 16);
      WriteBelow(hex, ToHex(value, bytes), n - 1 - k, NybbleToHex(v));
      hex := hex[n - 1 - k := NybbleToHex(v)];
      v := q;
      k := k + 1;
    }
  }

  /** A suffix from k without its first element is the suffix from k + 1. */
  lemma DropFirst<T>(whole: seq<T>, suffix: seq<T>, k: nat)
    requires k < |whole| && suffix == whole[k..]
    ensures suffix[1..] == whole[k + 1..]
  {
  }

  /** Writing the matching element just below an agreeing suffix extends the agreement by one. */
  lemma WriteBelow<T>(s: seq<T>, t: seq<T>, j: nat, c: T)
    requires |s| == |t| && j < |s| && s[j + 1..] == t[j + 1..] && t[j] == c
    ensures s[j := c][j..] == t[j..]
  {
    assert s[j := c][j..] == [c] + s[j + 1..];
    assert t[j..] == [t[j]] + t[j + 1..];
  }

  /** `value mod 16^n` splits into its lowest digit and the rest. */
  lemma ModPow16(value: int, n: nat)
    requires n > 0
    ensures value % Pow16(n) == value % 16 + 16 * (((value - value % 16) / 16) % Pow16(n - 1))
  {
    var p := Pow16(n - 1);
    var q := (value - value % 16) / 16;
    assert value == 16 * q + value % 16;
    assert q == p * (q / p) + q % p;
    var m := value % 16 + 16 * (q % p);
    DivMod.Place2(value % 16, q % p, 16, p);
    assert value == (q / p) * (16 * p) + m by {
      DivMod.Expand(q / p, p, q % p, 16);
    }
    DivMod.DivModUnique(value, 16 * p, q / p, m);
  }

  /** The word of n nibbles a value truncates to is the value mod 16^n. */
  lemma {:induction false} FromIntValue(value: int, n: nat)
    ensures ToNat(FromInt(value, n)) == value % Pow16(n)
    decreases n
  {
    if n > 0 {
      var q := (value - value % 16) / 16;
      FromIntValue(q, n - 1);
      assert FromInt(value, n)[1..] == FromInt(q, n - 1);
      ModPow16(value, n);
    }
  }

  /** One more digit at the end multiplies the value by 16 and adds the digit. */
  lemma HexValueSnoc(s: seq<Byte>, c: Byte)
    ensures HexValue(s + [c]) == 16 * HexValue(s) + HexToNybble(c)
  {
    assert (s + [c])[..|s|] == s;
  }

  /** Reading the digits of a word from the top gives the word's value. */
  lemma {:induction false} HexValueOfDigits(d: Word)
    ensures HexValue(HexDigits(d)) == ToNat(d)
    decreases |d|
  {
    if |d| > 0 {
      var rest := HexDigits(d[1..]);
      var c := NybbleToHex(d[0]);
      assert HexValue(HexDigits(d)) == 16 * HexValue(rest) + HexToNybble(c) by {
        assert HexDigits(d) == rest + [c];
        HexValueSnoc(rest, c);
      }
      assert HexValue(rest) == ToNat(d[1..]) by {
        HexValueOfDigits(d[1..]);
      }
      assert HexToNybble(c) == d[0] by {
        NybbleHex(d[0]);
      }
      assert ToNat(d) == d[0] + 16 * ToNat(d[1..]);
    }
  }

  /** A nibble's digit reads back as the nibble. */
  lemma NybbleHex(n: Nibble)
    ensures HexToNybble(NybbleToHex(n)) == n
  {
    assert n % 16 == n;
  }

  /** `to_hex` loses nothing but the bits above its width: its digits spell value mod 16^(2 bytes). */
  lemma ToHexValue(value: int, bytes: nat)
    ensures HexValue(ToHex(value, bytes)) == value % Pow16(2 * bytes)
  {
    HexValueOfDigits(FromInt(value, 2 * bytes));
    FromIntValue(value, 2 * bytes);
  }

  // ------------------------------------------------------------- to_number

  /** The number types `to_number` is instantiated with. */
  datatype Target = Floating | Integral(signed: bool, bytes: nat)

  /** 2^(8 bytes): how many values an integral type of that width holds. */
  function Pow256(bytes: nat): (r: nat)
    ensures r >= 1
  {
    if bytes == 0 then 1 else 256 * Pow256(bytes - 1)
  }

  /** `numeric_limits<T>::min()` of an integral type. */
  function MinOf(signed: bool, bytes: nat): int
  {
    if signed then var half: int := Pow256(bytes) / 2; -half else 0
  }

  /** `numeric_limits<T>::max()` of an integral type. */
  function MaxOf(signed: bool, bytes: nat): int
  {
    if signed then Pow256(bytes) / 2 - 1 else Pow256(bytes) - 1
  }

  /** `numeric_limits<intmax_t>::digits10` and `numeric_limits<uintmax_t>::digits10`. */
  const INTMAX_DIGITS10: nat := 18
  const UINTMAX_DIGITS10: nat := 19
  /** 2^64: `strtoumax` negates in `uintmax_t` arithmetic. */
  const UINTMAX_MOD: nat := 0x1_0000_0000_0000_0000

  /** The first index at or after i that is not white space. */
  function SkipSpace(s: seq<Byte>, i: nat): (j: nat)
    requires i <= |s|
    ensures i <= j <= |s| && (j < |s| ==> !IsSpace(s[j]))
    ensures forall k :: i <= k < j ==> IsSpace(s[k])
    decreases |s| - i
  {
    if i < |s| && IsSpace(s[i]) then SkipSpace(s, i + 1) else i
  }

  /** The end of the run of decimal digits starting at i. */
  function DigitsEnd(s: seq<Byte>, i: nat): (j: nat)
    requires i <= |s|
    ensures i <= j <= |s| && (j < |s| ==> !IsDigit(s[j]))
    ensures forall k :: i <= k < j ==> IsDigit(s[k])
    decreases |s| - i
  {
    if i < |s| && IsDigit(s[i]) then DigitsEnd(s, i + 1) else i
  }

  /** The value of decimal digits written most significant first. */
  function DecimalValue(d: seq<Byte>): nat
  {
    if |d| == 0 then 0 else 10 * DecimalValue(d[..|d| - 1]) + (if IsDigit(d[|d| - 1]) then d[|d| - 1] - DIGIT_0 else 0)
  }

  /** What `strtoimax`/`strtoumax` find: the sign, the magnitude of the digits, and where parsing stopped. */
  datatype Scan = Scan(negative: bool, magnitude: nat, end: nat)

  /**
   * The base-10 scan of section 7.22.1.4 of the C standard: white space,
   * an optional sign, then digits. Without a digit nothing is converted
   * and the end is the start of the string.
   */
  function Strto(s: seq<Byte>): (r: Scan)
    ensures r.end <= |s|
    ensures r.end == 0 ==> r.magnitude == 0
    ensures r.end > 0 ==> IsDigit(s[r.end - 1])
  {
    var i := SkipSpace(s, 0);
    var signed := i < |s| && (s[i] == PLUS || s[i] == MINUS);
    var d := if signed then i + 1 else i;
    var e := DigitsEnd(s, d);
    if e == d then Scan(false, 0, 0)
    else Scan(signed && s[i] == MINUS, DecimalValue(s[d..e]), e)
  }

  /**
   * `to_number<T>(str)`. Floating-point targets are refused outright; a
   * string longer than `digits10` of the widest type of T's signedness is
   * refused; the whole string must be scanned; and the value must fit T.
   * An unsigned scan negates modulo 2^64.
   */
  function ToNumber(s: seq<Byte>, t: Target): (r: Option<int>)
    ensures t.Floating? ==> r == None
    ensures t.Integral? && |s| > (if t.signed then INTMAX_DIGITS10 else UINTMAX_DIGITS10) ==> r == None
    ensures r.Some? ==> t.Integral? && MinOf(t.signed, t.bytes) <= r.value <= MaxOf(t.signed, t.bytes)
  {
    match t
    case Floating => None
    case Integral(signed, bytes) =>
      if |s| > (if signed then INTMAX_DIGITS10 else UINTMAX_DIGITS10) then None
      else
        var sc := Strto(s);
        if sc.end != |s| then None
        else
          var m: int := sc.magnitude;
          var val := if signed then (if sc.negative then -m else m)
                     else (if sc.negative then (UINTMAX_MOD - m) % UINTMAX_MOD else m);
          if MinOf(signed, bytes) <= val <= MaxOf(signed, bytes) then Some(val) else None
  }

  /** The decimal digits of n, most significant first, without leading zeros. */
  function Decimal(n: nat): (d: seq<Byte>)
    ensures |d| >= 1 && forall k :: 0 <= k < |d| ==> IsDigit(d[k])
    ensures DecimalValue(d) == n
  {
    if n < 10 then [DIGIT_0 + n] else Decimal(n / 10) + [DIGIT_0 + n % 10]
  }

  /** How `printf("%d")` writes n: a minus sign for a negative number, then its digits. */
  function Render(n: int): (s: seq<Byte>)
    ensures |s| >= 1
  {
    if n < 0 then [MINUS] + Decimal(-n) else Decimal(n)
  }

  /** Scanning a rendered number consumes all of it and finds its sign and magnitude. */
  lemma ScanRendered(n: int)
    ensures Strto(Render(n)) == Scan(n < 0, if n < 0 then -n else n, |Render(n)|)
  {
    var s := Render(n);
    var d := if n < 0 then Decimal(-n) else Decimal(n);
    assert !IsSpace(s[0]);
    assert SkipSpace(s, 0) == 0;
    var start := if n < 0 then 1 else 0;
    assert s[start..] == d;
    assert DigitsEnd(s, start) == |s|;
    assert s[start..|s|] == d;
  }

  /**
   * Every number an integral type holds, written in decimal, parses back to
   * itself, as long as the text is within the length limit.
   */
  lemma ToNumberRoundTrip(n: int, signed: bool, bytes: nat)
    requires MinOf(signed, bytes) <= n <= MaxOf(signed, bytes)
    requires |Render(n)| <= if signed then INTMAX_DIGITS10 else UINTMAX_DIGITS10
    ensures ToNumber(Render(n), Integral(signed, bytes)) == Some(n)
  {
    ScanRendered(n);
  }

  /** `to_number<uint64_t>("-5")` is 2^64 - 5: `strtoumax` negates in unsigned arithmetic. */
  lemma UnsignedNegationWraps()
    ensures ToNumber([MINUS, DIGIT_0 + 5], Integral(false, 8)) == Some(UINTMAX_MOD - 5)
    ensures ToNumber([MINUS, DIGIT_0 + 5], Integral(false, 4)) == None
  {
    var s := [MINUS, DIGIT_0 + 5];
    assert SkipSpace(s, 0) == 0;
    assert DigitsEnd(s, 1) == 2;
    assert s[1..2] == [DIGIT_0 + 5];
    assert DecimalValue(s[1..2]) == 5;
    assert Strto(s) == Scan(true, 5, 2);
    Pow256Values();
  }

  /** The widths of the integral types. */
  lemma Pow256Values()
    ensures Pow256(4) == 0x1_0000_0000 && Pow256(8) == UINTMAX_MOD
  {
    assert Pow256(1) == 0x100;
    assert Pow256(2) == 0x1_0000;
    assert Pow256(3) == 0x100_0000;
    assert Pow256(4) == 0x1_0000_0000;
    assert Pow256(5) == 0x100_0000_0000;
    assert Pow256(6) == 0x1_0000_0000_0000;
    assert Pow256(7) == 0x100_0000_0000_0000;
  }

  /** `to_number` of the empty string: nothing is converted, yet nothing is left over either, so it reads as 0. */
  lemma EmptyStringReadsZero(signed: bool, bytes: nat)
    requires bytes > 0
    ensures ToNumber([], Integral(signed, bytes)) == Some(0)
  {
  }

  /**
   * `to_number` as its documentation promises: an empty optional on a parse
   * error, so a string with no digit in it is refused too.
   */
  function ToNumberChecked(s: seq<Byte>, t: Target): (r: Option<int>)
    ensures r.Some? ==> exists k :: 0 <= k < |s| && IsDigit(s[k])
    ensures r.Some? ==> r == ToNumber(s, t)
  {
    if Strto(s).end == 0 then None
    else
      assert IsDigit(s[Strto(s).end - 1]);
      ToNumber(s, t)
  }

  /** The checked parse differs from the written one only by refusing the empty string. */
  lemma CheckedDiffersOnlyOnEmpty(s: seq<Byte>, t: Target)
    ensures ToNumberChecked(s, t) == (if s == [] then None else ToNumber(s, t))
  {
  }
}
