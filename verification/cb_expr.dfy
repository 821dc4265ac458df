/**
 * The expression language of the redstone logic control box: the expression
 * tree built by the parser and its evaluator over a symbol memory.
 * Values are Java `int`s; booleans are the redstone levels 15 and 0.
 */
module ControlBoxExpr {
  import opened JavaInt
  import DivMod

  datatype BinOp = Mpy | Div | Mod | Add | Sub | And | Or | Xor | Neq | Eq | Le | Ge | Lt | Gt

  datatype Expr =
    | Void
    | Const(value: Int32)
    | VarRef(name: string)
    | Func(name: string, args: seq<Expr>)
    | Neg(arg: Expr)
    | Not(arg: Expr)
    | Bin(op: BinOp, lhs: Expr, rhs: Expr)
    | Assign(target: string, source: Expr)

  const TRUE: Int32 := 15
  const FALSE: Int32 := 0

  /** The redstone encoding of a boolean. */
  function Bool(b: bool): (r: Int32)
    ensures r == TRUE <==> b
    ensures r == FALSE <==> !b
  {
    if b then TRUE else FALSE
  }

  /** Operators whose result is a truth value. */
  predicate IsLogical(op: BinOp)
  {
    op in {And, Or, Xor, Neq, Eq, Le, Ge, Lt, Gt}
  }

  /**
   * The evaluation memory: the symbol map the expressions read and write, and
   * the number of random numbers drawn so far (`rnd()` is the only
   * nondeterministic built-in; its values come from an oracle).
   */
  datatype Mem = Mem(syms: map<string, Int32>, draws: nat)

  /** Random values `(int)(Math.random()*16)`: the k-th draw of a run. */
  type Rand = nat -> Nibble

  /** `Map.getOrDefault`. */
  function Get(m: map<string, Int32>, k: string, d: Int32): (r: Int32)
    ensures k in m ==> r == m[k]
    ensures k !in m ==> r == d
  {
    if k in m then m[k] else d
  }

  /** A value together with the memory after computing it. */
  datatype Val = Val(v: Int32, mem: Mem)

  /** Built-in functions and their declared argument counts (-1: any). */
  const Builtins: map<string, int> := map[
    "inv" := 1, "max" := -1, "min" := -1, "lim" := -1, "if" := -1, "mean" := -1,
    "rnd" := 0, "clock" := 0, "time" := 0,
    "cnt1" := -1, "cnt2" := -1, "cnt3" := -1, "cnt4" := -1,
    "ton1" := 2, "ton2" := 2, "ton3" := 2, "ton4" := 2,
    "tof1" := 2, "tof2" := 2, "tof3" := 2, "tof4" := 2,
    "tp1" := 2, "tp2" := 2, "tp3" := 2, "tp4" := 2]

  /** The evaluator, `Expr.calc(mem)`. Operands are computed left to right
    * except where the source says otherwise (division, short-circuit logic). */
  function Calc(e: Expr, m: Mem, rand: Rand): (r: Val)
    decreases e, 3
    ensures e.Not? || (e.Bin? && IsLogical(e.op)) ==> r.v == TRUE || r.v == FALSE
    ensures e.Assign? && e.target != "" ==> e.target in r.mem.syms && r.mem.syms[e.target] == r.v
    ensures r.mem.draws >= m.draws
  {
    match e
    case Void => Val(0, m)
    case Const(v) => Val(v, m)
    case VarRef(n) => Val(Get(m.syms, n, 0), m)
    case Func(_, _) => CallBuiltin(e, m, rand)
    case Neg(a) =>
      var x := Calc(a, m, rand);
      Val(Wrap(-(x.v as int)), x.mem)
    case Not(a) =>
      var x := Calc(a, m, rand);
      Val(Bool(x.v == 0), x.mem)
    case Bin(op, a, b) =>
      if op == Div || op == Mod then
        var y := Calc(b, m, rand);
        if y.v <= 0 then Val(0, y.mem)
        else
          var x := Calc(a, y.mem, rand);
          Val(if op == Div then Wrap(Quot(x.v, y.v)) else Wrap(Rem(x.v, y.v)), x.mem)
      else if op == And then
        var x := Calc(a, m, rand);
        if x.v > 0 then var y := Calc(b, x.mem, rand); Val(Bool(y.v > 0), y.mem)
        else Val(FALSE, x.mem)
      else if op == Or then
        var x := Calc(a, m, rand);
        if x.v > 0 then Val(TRUE, x.mem)
        else var y := Calc(b, x.mem, rand); Val(Bool(y.v > 0), y.mem)
      else
        var x := Calc(a, m, rand);
        var y := Calc(b, x.mem, rand);
        Val(Apply(op, x.v, y.v), y.mem)
    case Assign(n, a) =>
      var x := Calc(a, m, rand);
      if n == "" then x else Val(x.v, x.mem.(syms := x.mem.syms[n := x.v]))
  }

  /** q is x divided by a positive y rounded toward zero: what is left over is below y and has x's sign. */
  predicate TruncatedQuotient(x: int, y: int, q: int)
  {
    var rest := x - q * y;
    Abs(rest) < y && (rest == 0 || (rest > 0 <==> x > 0))
  }

  /** r is the remainder of x by a positive y that goes with rounding toward zero. */
  predicate TruncatedRemainder(x: int, y: int, r: int)
    requires y > 0
  {
    Abs(r) < y && (r == 0 || (r > 0 <==> x > 0)) && (x - r) % y == 0
  }

  /**
   * `/` and `%`: the divisor is computed first; a divisor that is not
   * positive gives 0 without computing the dividend, otherwise the result
   * is Java's quotient rounded toward zero, or the remainder that goes
   * with it.
   */
  lemma CalcDivMod(op: BinOp, a: Expr, b: Expr, m: Mem, rand: Rand)
    requires op == Div || op == Mod
    ensures var y := Calc(b, m, rand);
            var r := Calc(Bin(op, a, b), m, rand);
            && (y.v <= 0 ==> r == Val(0, y.mem))
            && (y.v > 0 ==>
                  var x := Calc(a, y.mem, rand);
                  && r.mem == x.mem
                  && (op == Div ==> TruncatedQuotient(x.v, y.v, r.v))
                  && (op == Mod ==> TruncatedRemainder(x.v, y.v, r.v)))
  {
    var y := Calc(b, m, rand);
    CalcDivModStep(op, a, b, m, rand);
    if y.v > 0 {
      var x := Calc(a, y.mem, rand);
      if op == Div {
        TruncDiv(x.v, y.v);
      } else {
        TruncRem(x.v, y.v);
      }
    }
  }

  /** One step of `Calc` on `/` or `%`, before any arithmetic. */
  lemma CalcDivModStep(op: BinOp, a: Expr, b: Expr, m: Mem, rand: Rand)
    requires op == Div || op == Mod
    ensures var y := Calc(b, m, rand);
            var r := Calc(Bin(op, a, b), m, rand);
            && (y.v <= 0 ==> r == Val(0, y.mem))
            && (y.v > 0 ==>
                  var x := Calc(a, y.mem, rand);
                  && (op == Div ==> r == Val(Wrap(Quot(x.v, y.v)), x.mem))
                  && (op == Mod ==> r == Val(Wrap(Rem(x.v, y.v)), x.mem)))
  {
  }

  lemma TruncDiv(x: Int32, y: Int32)
    requires y > 0
    ensures TruncatedQuotient(x, y, Wrap(Quot(x, y)))
  {
    QuotRem(x, y);
    assert MIN_INT <= Quot(x, y) <= MAX_INT;
  }

  lemma TruncRem(x: Int32, y: Int32)
    requires y > 0
    ensures TruncatedRemainder(x, y, Wrap(Rem(x, y)))
  {
    var q := Quot(x, y);
    assert x - Rem(x, y) == q * y + 0;
    DivMod.Digits(q, 0, y);
  }

  /** The strict binary operators once both operands are known. */
  function Apply(op: BinOp, x: Int32, y: Int32): (r: Int32)
    requires op !in {Div, Mod, And, Or}
    ensures IsLogical(op) ==> r == TRUE || r == FALSE
  {
    match op
    case Mpy => Wrap(x * y)
    case Add => Wrap(x + y)
    case Sub => Wrap(x - y)
    case Xor => Bool((x > 0) != (y > 0))
    case Neq => Bool(x != y)
    case Eq => Bool(x == y)
    case Le => Bool(x <= y)
    case Ge => Bool(x >= y)
    case Lt => Bool(x < y)
    case Gt => Bool(x > y)
  }

  /** `x[i].calc(m)` inside a built-in. */
  function Arg(f: Expr, i: nat, m: Mem, rand: Rand): (r: Val)
    requires f.Func? && i < |f.args|
    decreases f, 0
    ensures r.mem.draws >= m.draws
  {
    Calc(f.args[i], m, rand)
  }

  /** The values of `x[i..]`, computed in order, as a stream reduction does. */
  function ArgsFrom(f: Expr, i: nat, m: Mem, rand: Rand): (r: (seq<Int32>, Mem))
    requires f.Func? && i <= |f.args|
    decreases f, 0, |f.args| - i
    ensures |r.0| == |f.args| - i
    ensures r.1.draws >= m.draws
  {
    if i == |f.args| then ([], m)
    else
      var x := Calc(f.args[i], m, rand);
      var rest := ArgsFrom(f, i + 1, x.mem, rand);
      ([x.v] + rest.0, rest.1)
  }

  function MaxOf(s: seq<Int32>): (r: Int32)
    requires |s| > 0
    ensures r in s && forall x :: x in s ==> x <= r
  {
    if |s| == 1 then s[0]
    else
      assert forall x :: x in s ==> x == s[0] || x in s[1..];
      Max(s[0], MaxOf(s[1..]))
  }

  function MinOf(s: seq<Int32>): (r: Int32)
    requires |s| > 0
    ensures r in s && forall x :: x in s ==> r <= x
  {
    if |s| == 1 then s[0]
    else
      assert forall x :: x in s ==> x == s[0] || x in s[1..];
      Min(s[0], MinOf(s[1..]))
  }

  function Sum(s: seq<Int32>): int
  {
    if |s| == 0 then 0 else s[0] + Sum(s[1..])
  }

  /** `ExprFunc.calc`: dispatch on the built-in's name. */
  function CallBuiltin(f: Expr, m: Mem, rand: Rand): (r: Val)
    requires f.Func?
    decreases f, 2
    ensures r.mem.draws >= m.draws
  {
    var n := |f.args|;
    match f.name
    case "inv" =>
      if n == 0 then Val(0, m)
      else var x := Arg(f, 0, m, rand); Val(Limit(Wrap(15 - x.v), 0, 15), x.mem)
    case "max" =>
      var xs := ArgsFrom(f, 0, m, rand);
      Val(if n == 0 then 0 else MaxOf(xs.0), xs.1)
    case "min" =>
      var xs := ArgsFrom(f, 0, m, rand);
      Val(if n == 0 then 0 else MinOf(xs.0), xs.1)
    case "lim" => LimitFunction(f, m, rand)
    case "if" => IfFunction(f, m, rand)
    case "mean" =>
      if n == 0 then Val(0, m)
      else var xs := ArgsFrom(f, 0, m, rand); Val(Wrap(Quot(Wrap(Sum(xs.0)), n)), xs.1)
    case "rnd" => Val(rand(m.draws), m.(draws := m.draws + 1))
    case "clock" => Val(Get(m.syms, ".clock", 0), m)
    case "time" => Val(Get(m.syms, ".time", 0), m)
    case "cnt1" => Counter(".cnt1", f, m, rand)
    case "cnt2" => Counter(".cnt2", f, m, rand)
    case "cnt3" => Counter(".cnt3", f, m, rand)
    case "cnt4" => Counter(".cnt4", f, m, rand)
    case "ton1" => Timer(OnDelay, "ton1", f, m, rand)
    case "ton2" => Timer(OnDelay, "ton2", f, m, rand)
    case "ton3" => Timer(OnDelay, "ton3", f, m, rand)
    case "ton4" => Timer(OnDelay, "ton4", f, m, rand)
    case "tof1" => Timer(OffDelay, "tof1", f, m, rand)
    case "tof2" => Timer(OffDelay, "tof2", f, m, rand)
    case "tof3" => Timer(OffDelay, "tof3", f, m, rand)
    case "tof4" => Timer(OffDelay, "tof4", f, m, rand)
    case "tp1" => Timer(Pulse, "tp1", f, m, rand)
    case "tp2" => Timer(Pulse, "tp2", f, m, rand)
    case "tp3" => Timer(Pulse, "tp3", f, m, rand)
    case "tp4" => Timer(Pulse, "tp4", f, m, rand)
    case _ => Val(0, m)
  }

  /**
   * The results of `inv`, `max`, `min` and of `lim` and `if` with one
   * argument. `inv` computes `15 - x` as an `int`, so for an x so
   * negative that the difference overflows it yields 0, not 15.
   */
  lemma BuiltinResults(f: Expr, m: Mem, rand: Rand)
    requires f.Func? && |f.args| >= 1
    ensures var r := CallBuiltin(f, m, rand);
            var xs := ArgsFrom(f, 0, m, rand).0;
            && (f.name == "inv" ==>
                  var x := Arg(f, 0, m, rand).v;
                  && 0 <= r.v <= 15
                  && (0 <= x <= 15 ==> r.v == 15 - x)
                  && (x > 15 ==> r.v == 0)
                  && (x < 0 && 15 - x <= MAX_INT ==> r.v == 15)
                  && (15 - x > MAX_INT ==> r.v == 0))
            && (f.name == "max" ==> r.v in xs && forall v :: v in xs ==> v <= r.v)
            && (f.name == "min" ==> r.v in xs && forall v :: v in xs ==> r.v <= v)
            && (f.name == "lim" && |f.args| == 1 ==> 0 <= r.v <= 15)
            && (f.name == "if" && |f.args| == 1 ==> r.v == TRUE || r.v == FALSE)
  {
    if f.name == "inv" {
      var x := Arg(f, 0, m, rand).v;
      if 15 - x > MAX_INT {
        assert Wrap(15 - x) == 15 - x - TWO_32;
      }
    }
  }

  /** `limit_function`: `Math.min(hi, Math.max(lo, x0))`, the bound computed first. */
  function LimitFunction(f: Expr, m: Mem, rand: Rand): (r: Val)
    requires f.Func?
    decreases f, 1
    ensures |f.args| == 1 ==> 0 <= r.v <= 15
    ensures |f.args| == 0 ==> r == Val(0, m)
    ensures r.mem.draws >= m.draws
  {
    var n := |f.args|;
    if n == 0 then Val(0, m)
    else if n == 1 then
      var x0 := Arg(f, 0, m, rand);
      Val(Limit(x0.v, 0, 15), x0.mem)
    else if n == 2 then
      var x1 := Arg(f, 1, m, rand);
      var x0 := Arg(f, 0, x1.mem, rand);
      Val(Limit(x0.v, 0, x1.v), x0.mem)
    else
      var x2 := Arg(f, 2, m, rand);
      var x1 := Arg(f, 1, x2.mem, rand);
      var x0 := Arg(f, 0, x1.mem, rand);
      Val(Limit(x0.v, x1.v, x2.v), x0.mem)
  }

  /** `if_function`: only the selected branch is computed. */
  function IfFunction(f: Expr, m: Mem, rand: Rand): (r: Val)
    requires f.Func?
    decreases f, 1
    ensures |f.args| == 1 ==> r.v == TRUE || r.v == FALSE
    ensures |f.args| == 0 ==> r == Val(0, m)
    ensures r.mem.draws >= m.draws
  {
    var n := |f.args|;
    if n == 0 then Val(0, m)
    else
      var c := Arg(f, 0, m, rand);
      if n == 1 then Val(Bool(c.v > 0), c.mem)
      else if c.v > 0 then Arg(f, 1, c.mem, rand)
      else if n == 2 then Val(0, c.mem)
      else Arg(f, 2, c.mem, rand)
  }

  /**
   * The counter update once its arguments are known: reset, count the
   * rising/falling pair, then clamp. `q` is the stored count.
   */
  function CounterStep(q: Int32, nargs: nat, reset: bool, x0: Int32, x1: Int32, lo: Int32, hi: Int32): (r: Int32)
    requires nargs >= 1
    ensures lo <= hi ==> lo <= r <= hi
    ensures reset ==> r == Clamp(0, lo, hi)
    ensures !reset && nargs >= 2 && x0 > 0 && x1 <= 0 && lo <= q < hi ==> r == q + 1
    ensures !reset && nargs >= 2 && x0 <= 0 && x1 > 0 && lo < q <= hi ==> r == q - 1
    ensures !reset && nargs >= 2 && (x0 > 0) == (x1 > 0) && lo <= q <= hi ==> r == q
    ensures !reset && nargs == 1 && x0 > 0 && lo <= q < hi ==> r == q + 1
    ensures !reset && nargs == 1 && x0 <= 0 && lo <= q <= hi ==> r == q
  {
    var q1 :=
      if reset then 0
      else if nargs == 1 then (if x0 > 0 then Wrap(q + 1) else q)
      else if x0 > 0 && x1 <= 0 then Wrap(q + 1)
      else if x0 <= 0 && x1 > 0 then Wrap(q - 1)
      else q;
    Clamp(q1, lo, hi)
  }

  /** `counter_function`: the count lives under `sym` in the memory. */
  function Counter(sym: string, f: Expr, m: Mem, rand: Rand): (r: Val)
    requires f.Func?
    decreases f, 1
    ensures |f.args| == 0 ==> r == Val(0, m)
    ensures |f.args| > 0 ==> sym in r.mem.syms && r.mem.syms[sym] == r.v
    ensures 0 < |f.args| <= 2 ==> r.v >= 0
    ensures r.mem.draws >= m.draws
  {
    var n := |f.args|;
    if n == 0 then Val(0, m)
    else
      var q := Get(m.syms, sym, 0);
      var x4 := if n >= 5 then Arg(f, 4, m, rand) else Val(0, m);
      var reset := n >= 5 && x4.v > 0;
      var x0 := if reset then x4 else Arg(f, 0, x4.mem, rand);
      var x1 := if reset || n == 1 then x0 else Arg(f, 1, x0.mem, rand);
      var bounds :=
        if n >= 4 then
          var lo := Arg(f, 2, x1.mem, rand);
          var hi := Arg(f, 3, lo.mem, rand);
          (lo.v, hi.v, hi.mem)
        else if n >= 3 then
          var hi := Arg(f, 2, x1.mem, rand);
          (0, hi.v, hi.mem)
        else (0, MAX_INT, x1.mem);
      var q1 := CounterStep(q, n, reset, x0.v, x1.v, bounds.0, bounds.1);
      Val(q1, bounds.2.(syms := bounds.2.syms[sym := q1]))
  }

  datatype TimerKind = OnDelay | OffDelay | Pulse

  /** Keys a timer keeps in the memory. */
  function ClkKey(sym: string): string { "." + sym + ".clk" }
  function EtKey(sym: string): string { sym + ".et" }
  function PtKey(sym: string): string { sym + ".pt" }
  const DEADLINE: string := ".deadline"
  const CLOCK: string := ".clock"

  /** `m.put(".deadline", Math.min(m.getOrDefault(".deadline", 20), t))`. */
  function Shorten(syms: map<string, Int32>, t: Int32): (r: map<string, Int32>)
    ensures DEADLINE in r && r[DEADLINE] <= t && r[DEADLINE] <= Get(syms, DEADLINE, 20)
    ensures forall k :: k in syms && k != DEADLINE ==> k in r && r[k] == syms[k]
  {
    syms[DEADLINE := Min(Get(syms, DEADLINE, 20), t)]
  }

  /** `timer_on_function`, `timer_off_function` and `timer_pulse_function`. */
  function Timer(kind: TimerKind, sym: string, f: Expr, m: Mem, rand: Rand): (r: Val)
    requires f.Func?
    decreases f, 1
    ensures r.v == TRUE || r.v == FALSE || (|f.args| != 2 && r.v == 0)
    ensures r.mem.draws >= m.draws
  {
    if |f.args| != 2 then
      Val(0, m.(syms := m.syms - {ClkKey(sym), EtKey(sym), PtKey(sym)}))
    else
      var i := Arg(f, 0, m, rand);
      var p := Arg(f, 1, i.mem, rand);
      var s := TimerStep(kind, sym, i.v, p.v, p.mem.syms);
      Val(s.0, p.mem.(syms := s.1))
  }

  /** One timer evaluation once input `x` and preset `pt` are known. */
  function TimerStep(kind: TimerKind, sym: string, x: Int32, pt: Int32, syms: map<string, Int32>)
    : (r: (Int32, map<string, Int32>))
    ensures r.0 == TRUE || r.0 == FALSE
  {
    var now := Get(syms, CLOCK, 0);
    var et := Get(syms, EtKey(sym), 0);
    match kind
    case OnDelay =>
      if x <= 0 then (FALSE, (syms - {ClkKey(sym)})[EtKey(sym) := 0])
      else if pt <= 0 then (TRUE, syms)
      else if et >= pt then (TRUE, syms)
      else if et <= 0 then (FALSE, Shorten(syms[ClkKey(sym) := now][EtKey(sym) := 1][PtKey(sym) := pt], pt))
      else
        var et1 := Min(Wrap(now - Get(syms, ClkKey(sym), now)), pt);
        var s1 := syms[EtKey(sym) := et1];
        if et1 >= pt then (TRUE, s1 - {ClkKey(sym)})
        else (FALSE, Shorten(s1, Wrap(pt - et1)))
    case OffDelay =>
      if x > 0 then (TRUE, (syms - {ClkKey(sym)})[EtKey(sym) := 0])
      else if pt <= 0 then (TRUE, syms)
      else if et >= pt then (FALSE, syms)
      else if et <= 0 then (TRUE, Shorten(syms[ClkKey(sym) := now][EtKey(sym) := 1][PtKey(sym) := pt], pt))
      else
        var et1 := Min(Wrap(now - Get(syms, ClkKey(sym), now)), pt);
        var s1 := syms[EtKey(sym) := et1];
        if et1 >= pt then (FALSE, s1 - {ClkKey(sym)})
        else (TRUE, Shorten(s1, Wrap(pt - et1)))
    case Pulse =>
      if pt <= 0 then (Bool(x > 0), syms)
      else if et > 0 then
        if et >= pt then (FALSE, if x <= 0 then syms[EtKey(sym) := 0] else syms)
        else
          var et1 := Min(Wrap(now - Get(syms, ClkKey(sym), now)), pt);
          var s1 := syms[EtKey(sym) := et1];
          if et1 >= pt then (FALSE, s1 - {ClkKey(sym)})
          else (TRUE, Shorten(s1, Wrap(pt - et1)))
      else if x > 0 then (TRUE, Shorten(syms[ClkKey(sym) := now][EtKey(sym) := 1][PtKey(sym) := pt], pt))
      else (FALSE, syms)
  }

  // ---------------------------------------------------------------- timer switching

  /** The timer's keys are distinct from each other and from the deadline. */
  lemma KeysDiffer(sym: string)
    ensures ClkKey(sym) != DEADLINE && EtKey(sym) != DEADLINE && PtKey(sym) != DEADLINE
    ensures ClkKey(sym) != EtKey(sym) && ClkKey(sym) != PtKey(sym) && EtKey(sym) != PtKey(sym)
  {
    var c, e, p := ClkKey(sym), EtKey(sym), PtKey(sym);
    assert c[|c| - 1] == 'k' && e[|e| - 1] == 't' && p[|p| - 1] == 't' && DEADLINE[|DEADLINE| - 1] == 'e';
    assert e[|sym| + 1] == 'e' && p[|sym| + 1] == 'p';
  }

  /** The time a running timer has counted: the clock ticks since it started, at most the preset. */
  function Elapsed(sym: string, pt: Int32, syms: map<string, Int32>): Int32
  {
    Min(Wrap(Get(syms, CLOCK, 0) - Get(syms, ClkKey(sym), Get(syms, CLOCK, 0))), pt)
  }

  /**
   * The on-delay timer: a low input resets it and its output; a high input
   * starts it, and the output rises once the preset time has elapsed; with
   * no preset the output follows the input. The output is never high while
   * the input is low.
   */
  lemma OnDelaySwitching(sym: string, x: Int32, pt: Int32, syms: map<string, Int32>)
    ensures var (out, s) := TimerStep(OnDelay, sym, x, pt, syms);
            var et := Get(syms, EtKey(sym), 0);
            && (out == TRUE ==> x > 0)
            && (x <= 0 ==> out == FALSE && ClkKey(sym) !in s && Get(s, EtKey(sym), 0) == 0)
            && (x > 0 && (pt <= 0 || et >= pt) ==> out == TRUE && s == syms)
            && (x > 0 && 0 < pt && et <= 0 ==>
                  out == FALSE && Get(s, ClkKey(sym), 0) == Get(syms, CLOCK, 0) && Get(s, EtKey(sym), 0) == 1
                  && Get(s, PtKey(sym), 0) == pt && Get(s, DEADLINE, 20) <= pt)
            && (x > 0 && 0 < et < pt ==>
                  Get(s, EtKey(sym), 0) == Elapsed(sym, pt, syms) && (out == TRUE <==> Elapsed(sym, pt, syms) >= pt))
  {
    KeysDiffer(sym);
  }

  /**
   * The off-delay timer: a high input resets it and holds the output high;
   * a low input starts it, and the output falls once the preset time has
   * elapsed; with no preset the output stays high. The output is never low
   * while the input is high.
   */
  lemma OffDelaySwitching(sym: string, x: Int32, pt: Int32, syms: map<string, Int32>)
    ensures var (out, s) := TimerStep(OffDelay, sym, x, pt, syms);
            var et := Get(syms, EtKey(sym), 0);
            && (out == FALSE ==> x <= 0)
            && (x > 0 ==> out == TRUE && ClkKey(sym) !in s && Get(s, EtKey(sym), 0) == 0)
            && (x <= 0 && pt <= 0 ==> out == TRUE && s == syms)
            && (x <= 0 && 0 < pt <= et ==> out == FALSE && s == syms)
            && (x <= 0 && 0 < pt && et <= 0 ==>
                  out == TRUE && Get(s, ClkKey(sym), 0) == Get(syms, CLOCK, 0) && Get(s, EtKey(sym), 0) == 1
                  && Get(s, PtKey(sym), 0) == pt && Get(s, DEADLINE, 20) <= pt)
            && (x <= 0 && 0 < et < pt ==>
                  Get(s, EtKey(sym), 0) == Elapsed(sym, pt, syms) && (out == FALSE <==> Elapsed(sym, pt, syms) >= pt))
  {
    KeysDiffer(sym);
  }

  /**
   * The pulse timer: a high input on an idle timer starts a pulse of the
   * preset length, whatever the input does meanwhile; an expired pulse
   * keeps the output low until the input falls, which re-arms it; with no
   * preset the output follows the input.
   */
  lemma PulseSwitching(sym: string, x: Int32, pt: Int32, syms: map<string, Int32>)
    ensures var (out, s) := TimerStep(Pulse, sym, x, pt, syms);
            var et := Get(syms, EtKey(sym), 0);
            && (pt <= 0 ==> out == Bool(x > 0) && s == syms)
            && (0 < pt && et <= 0 ==> (out == TRUE <==> x > 0))
            && (0 < pt && et <= 0 && x > 0 ==>
                  Get(s, ClkKey(sym), 0) == Get(syms, CLOCK, 0) && Get(s, EtKey(sym), 0) == 1
                  && Get(s, PtKey(sym), 0) == pt && Get(s, DEADLINE, 20) <= pt)
            && (0 < pt <= et ==> out == FALSE && (x <= 0 ==> Get(s, EtKey(sym), 0) == 0) && (x > 0 ==> s == syms))
            && (0 < et < pt ==>
                  Get(s, EtKey(sym), 0) == Elapsed(sym, pt, syms) && (out == TRUE <==> Elapsed(sym, pt, syms) < pt))
  {
    KeysDiffer(sym);
  }
}
