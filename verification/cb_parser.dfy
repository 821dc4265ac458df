/**
 * The control box's one-line recursive-descent parser (`ParsedLine`).
 * The parser state is a cursor: the index `pe` of the current character, the
 * lower-cased current character `c` ('\0' past the end or after a comment
 * sign) and the set of symbols referenced so far. Every exception the source
 * throws becomes a `Fail` carrying the message kind and the index it was
 * thrown at.
 */
module ControlBoxParser {
  import opened Wrappers
  import opened JavaInt
  import opened ControlBoxExpr

  const NUL: char := 0 as char

  /** `Character.toLowerCase` on the 7-bit characters the parser admits. */
  function LowerAscii(ch: char): (r: char)
    ensures 'A' <= ch <= 'Z' ==> r as int == ch as int + 32
    ensures !('A' <= ch <= 'Z') ==> r == ch
  {
    if 'A' <= ch <= 'Z' then (ch as int + 32) as char else ch
  }

  function LowerString(s: string): (r: string)
    ensures |r| == |s| && forall i :: 0 <= i < |s| ==> r[i] == LowerAscii(s[i])
  {
    if |s| == 0 then [] else [LowerAscii(s[0])] + LowerString(s[1..])
  }

  /** Lower-casing twice is lower-casing once, so stored keys are fixed points. */
  lemma LowerIdempotent(s: string)
    ensures LowerString(LowerString(s)) == LowerString(s)
  {
    var t := LowerString(s);
    assert forall i :: 0 <= i < |s| ==> LowerAscii(t[i]) == t[i];
  }

  datatype ParseError =
    | InvalidCharacter
    | ExpectedAssignment
    | SymbolReadonly
    | MissingClosingParenthesis
    | MissingClosingFunctionParenthesis
    | UnknownFunction
    | InvalidNumberOfArguments
    | MissingFunctionArguments
    | UnexpectedCharacter
    | NumberFormat(digits: string)

  datatype Cursor = Cursor(pe: int, c: char, syms: set<string>)

  /** A parse step: a value and the cursor after it, or the exception thrown. */
  datatype Parsed<+T> = Ok(value: T, cur: Cursor) | Fail(err: ParseError, pe: int)
  {
    predicate IsFailure() {
      Fail?
    }

    function PropagateFailure<U>(): Parsed<U>
      requires Fail?
    {
      Fail(err, pe)
    }

    function Extract(): (T, Cursor)
      requires Ok?
    {
      (value, cur)
    }
  }

  /** The cursor states the parser can reach. */
  predicate Valid(line: string, cur: Cursor)
  {
    && cur.pe >= -1
    && (cur.pe == -1 ==> cur.c == ' ')
    && (cur.pe >= |line| ==> cur.c == NUL)
    && (0 <= cur.pe < |line| ==> cur.c == LowerAscii(line[cur.pe]))
  }

  /** Characters left to read; every successful match makes it smaller. */
  function Remaining(line: string, cur: Cursor): nat
  {
    if cur.pe < |line| then |line| - Max(cur.pe, -1) else 0
  }

  predicate IsLitChar(ch: char)
  {
    ('a' <= ch <= 'z') || ('0' <= ch <= '9') || ch == '.' || ch == '_'
  }

  /** A symbol name as `const_literal` reads it: a lower-case letter, then letters, digits, dots, underscores. */
  predicate IsName(s: string)
  {
    |s| > 0 && 'a' <= s[0] <= 'z' && forall i :: 0 <= i < |s| ==> IsLitChar(s[i])
  }

  /** What every parse step guarantees: a valid cursor that never moves back, and only names added as symbols. */
  predicate Progress<T>(line: string, cur: Cursor, r: Parsed<T>)
  {
    r.Ok? ==>
      && Valid(line, r.cur)
      && cur.pe <= r.cur.pe
      && cur.syms <= r.cur.syms
      && (forall s :: s in r.cur.syms && s !in cur.syms ==> IsName(s))
  }

  /** `adv()`: step to the next character; after a line break or '#' jump to the end. */
  function Adv(line: string, cur: Cursor): (r: Parsed<()>)
    requires cur.pe >= -1
    ensures r.Ok? ==> Valid(line, r.cur) && r.cur.pe > cur.pe && r.cur.syms == cur.syms
    ensures r.Ok? && cur.c != '\n' && cur.c != '\r' && cur.c != '#' ==> r.cur.pe == cur.pe + 1
    ensures r.Fail? ==> r.err == InvalidCharacter && 0 <= cur.pe + 1 < |line| && line[cur.pe + 1] as int > 127
    ensures r.Fail? <==> (cur.pe + 1 < |line| && cur.c != '\n' && cur.c != '\r' && cur.c != '#'
                          && line[cur.pe + 1] as int > 127)
  {
    var pe := cur.pe + 1;
    if pe >= |line| then Ok((), cur.(pe := pe, c := NUL))
    else if cur.c == '\n' || cur.c == '\r' || cur.c == '#' then Ok((), cur.(pe := |line|, c := NUL))
    else if line[pe] as int > 127 then Fail(InvalidCharacter, pe)
    else Ok((), cur.(pe := pe, c := LowerAscii(line[pe])))
  }

  predicate IsBlank(ch: char)
  {
    ch == ' ' || ch == '\t' || ch == '#'
  }

  /** The blank-skipping loop at the head of both `adv(char)` and `adv(String)`. */
  function SkipBlanks(line: string, cur: Cursor): (r: Parsed<()>)
    requires Valid(line, cur)
    decreases Remaining(line, cur)
    ensures Progress(line, cur, r)
    ensures r.Ok? ==> !IsBlank(r.cur.c) && r.cur.syms == cur.syms
    ensures r.Ok? && !IsBlank(cur.c) ==> r.cur == cur
  {
    if IsBlank(cur.c) then
      var (_, next) :- Adv(line, cur);
      SkipBlanks(line, next)
    else Ok((), cur)
  }

  /** `String.regionMatches(true, pe, w, 0, |w|)` for the ASCII operator words. */
  predicate RegionMatches(line: string, pe: int, w: string)
  {
    && 0 <= pe && pe + |w| <= |line|
    && forall i :: 0 <= i < |w| ==> LowerAscii(line[pe + i]) == LowerAscii(w[i])
  }

  /** A token of the grammar: `adv(char)` compares the current character, `adv(String)` the text. */
  datatype Tok = Ch(ch: char) | Word(w: string)

  predicate ValidTok(t: Tok)
  {
    match t
    case Ch(ch) => ch != NUL
    case Word(w) => |w| > 0
  }

  /** `adv(char)` and `adv(String)`: skip blanks, then consume the token if it is next. */
  function AdvTok(line: string, cur: Cursor, t: Tok): (r: Parsed<bool>)
    requires Valid(line, cur) && ValidTok(t)
    ensures Progress(line, cur, r)
    ensures r.Ok? ==> r.cur.syms == cur.syms
    ensures r.Ok? && r.value ==> Remaining(line, r.cur) < Remaining(line, cur)
  {
    var (_, s) :- SkipBlanks(line, cur);
    match t
    case Ch(ch) =>
      if s.c != ch then Ok(false, s)
      else
        var (_, n) :- Adv(line, s);
        Ok(true, n)
    case Word(w) =>
      if !RegionMatches(line, s.pe, w) then Ok(false, s)
      else
        var (_, n) :- Adv(line, s.(pe := s.pe + |w| - 1));
        Ok(true, n)
  }

  /** The binary-operator levels that share one loop shape, loosest first. */
  datatype Level = OrLevel | XorLevel | AndLevel | AddLevel | MpyLevel

  /** The alternatives each level tries, in the order the source tries them. */
  function Ops(lv: Level): (r: seq<(Tok, BinOp)>)
    ensures forall i :: 0 <= i < |r| ==> ValidTok(r[i].0)
  {
    match lv
    case OrLevel => [(Word("or"), Or), (Word("||"), Or), (Ch('|'), Or)]
    case XorLevel => [(Word("xor"), Xor), (Ch('^'), Xor)]
    case AndLevel => [(Word("and"), And), (Word("&&"), And), (Ch('&'), And)]
    case AddLevel => [(Ch('+'), Add), (Ch('-'), Sub)]
    case MpyLevel => [(Ch('*'), Mpy), (Ch('/'), Div), (Ch('%'), Mod)]
  }

  /** The comparison alternatives of `expr_rel`, in source order. */
  const RelOps: seq<(Tok, BinOp)> := [
    (Word("!="), Neq), (Word("<>"), Neq), (Word("=="), Eq), (Word(">="), Ge),
    (Word("<="), Le), (Ch('>'), Gt), (Ch('<'), Lt)]

  /** The `if / else if` chain of one loop iteration: the first alternative that matches. */
  function TryOps(line: string, cur: Cursor, ops: seq<(Tok, BinOp)>, i: nat): (r: Parsed<Option<BinOp>>)
    requires Valid(line, cur) && i <= |ops|
    requires forall k :: 0 <= k < |ops| ==> ValidTok(ops[k].0)
    decreases |ops| - i
    ensures Progress(line, cur, r)
    ensures r.Ok? ==> r.cur.syms == cur.syms
    ensures r.Ok? && r.value.Some? ==> Remaining(line, r.cur) < Remaining(line, cur)
  {
    if i == |ops| then Ok(None, cur)
    else
      var (hit, next) :- AdvTok(line, cur, ops[i].0);
      if hit then Ok(Some(ops[i].1), next)
      else TryOps(line, next, ops, i + 1)
  }

  /** The termination rank of each parsing function at the same cursor. */
  function LevelRank(lv: Level): nat
  {
    match lv
    case MpyLevel => 4
    case AddLevel => 6
    case AndLevel => 17
    case XorLevel => 19
    case OrLevel => 21
  }

  /** `expr()`, the loosest level. */
  function ParseExpr(line: string, funcs: map<string, int>, cur: Cursor): (r: Parsed<Expr>)
    requires Valid(line, cur)
    decreases Remaining(line, cur), 22
    ensures Progress(line, cur, r)
  {
    ParseBinary(line, funcs, OrLevel, cur)
  }

  /** `expr_or`, `expr_xor`, `expr_and`, `arith_add` and `arith_mpy`. */
  function ParseBinary(line: string, funcs: map<string, int>, lv: Level, cur: Cursor): (r: Parsed<Expr>)
    requires Valid(line, cur)
    decreases Remaining(line, cur), LevelRank(lv)
    ensures Progress(line, cur, r)
  {
    var (x, next) :- ParseBelow(line, funcs, lv, cur);
    BinaryTail(line, funcs, lv, x, next)
  }

  /** The operand parser of a level: the next tighter level. */
  function ParseBelow(line: string, funcs: map<string, int>, lv: Level, cur: Cursor): (r: Parsed<Expr>)
    requires Valid(line, cur)
    decreases Remaining(line, cur), LevelRank(lv) - 1
    ensures Progress(line, cur, r)
  {
    match lv
    case OrLevel => ParseBinary(line, funcs, XorLevel, cur)
    case XorLevel => ParseBinary(line, funcs, AndLevel, cur)
    case AndLevel => ExprRel(line, funcs, cur)
    case AddLevel => ParseBinary(line, funcs, MpyLevel, cur)
    case MpyLevel => ArithFact(line, funcs, cur)
  }

  /** The `while(true)` loop of a level: fold operands to the left while an operator follows. */
  function BinaryTail(line: string, funcs: map<string, int>, lv: Level, x: Expr, cur: Cursor): (r: Parsed<Expr>)
    requires Valid(line, cur)
    decreases Remaining(line, cur), 0
    ensures Progress(line, cur, r)
  {
    var (op, next) :- TryOps(line, cur, Ops(lv), 0);
    match op
    case None => Ok(x, next)
    case Some(o) =>
      var (y, after) :- ParseBelow(line, funcs, lv, next);
      BinaryTail(line, funcs, lv, Bin(o, x, y), after)
  }

  /** Operands joined from the left: each step's operator takes everything before it as its left operand. */
  function FoldLeft(x: Expr, steps: seq<(BinOp, Expr)>): Expr
    decreases |steps|
  {
    if steps == [] then x else FoldLeft(Bin(steps[0].0, x, steps[0].1), steps[1..])
  }

  /** The last operator of a left-joined chain is its root, with the whole rest of the chain as its left operand. */
  lemma {:induction false} FoldLeftLast(x: Expr, steps: seq<(BinOp, Expr)>, op: BinOp, y: Expr)
    ensures FoldLeft(x, steps + [(op, y)]) == Bin(op, FoldLeft(x, steps), y)
    decreases |steps|
  {
    if steps == [] {
      assert [] + [(op, y)] == [(op, y)];
    } else {
      assert (steps + [(op, y)])[1..] == steps[1..] + [(op, y)];
      FoldLeftLast(Bin(steps[0].0, x, steps[0].1), steps[1..], op, y);
    }
  }

  /**
   * A chain `x op1 y1 op2 y2 ... opn yn` of one level's operators is
   * grouped from the left, `(((x op1 y1) op2 y2) ... opn yn)`: cs[i] is
   * where the i-th operator is looked for, ns[i] where its operand
   * starts, and the loop ends where no operator of the level follows.
   */
  lemma {:induction false} BinaryTailChain(line: string, funcs: map<string, int>, lv: Level, x: Expr,
                                           cs: seq<Cursor>, ns: seq<Cursor>, steps: seq<(BinOp, Expr)>, last: Cursor)
    requires |cs| == |steps| + 1 && |ns| == |steps|
    requires forall i :: 0 <= i < |cs| ==> Valid(line, cs[i])
    requires forall i :: 0 <= i < |ns| ==> Valid(line, ns[i])
    requires forall i :: 0 <= i < |steps| ==> TryOps(line, cs[i], Ops(lv), 0) == Ok(Some(steps[i].0), ns[i])
    requires forall i :: 0 <= i < |steps| ==> ParseBelow(line, funcs, lv, ns[i]) == Ok(steps[i].1, cs[i + 1])
    requires TryOps(line, cs[|steps|], Ops(lv), 0) == Ok(None, last)
    ensures BinaryTail(line, funcs, lv, x, cs[0]) == Ok(FoldLeft(x, steps), last)
    decreases |steps|
  {
    if steps != [] {
      BinaryTailChain(line, funcs, lv, Bin(steps[0].0, x, steps[0].1), cs[1..], ns[1..], steps[1..], last);
    }
  }

  /** `expr_rel`. */
  function ExprRel(line: string, funcs: map<string, int>, cur: Cursor): (r: Parsed<Expr>)
    requires Valid(line, cur)
    decreases Remaining(line, cur), 15
    ensures Progress(line, cur, r)
  {
    var (x, next) :- ParseBinary(line, funcs, AddLevel, cur);
    RelTail(line, funcs, x, next)
  }

  /** One pass of `expr_rel`'s loop body, which is seven independent `if`s, not an `else if` chain. */
  function RelTail(line: string, funcs: map<string, int>, x: Expr, cur: Cursor): (r: Parsed<Expr>)
    requires Valid(line, cur)
    decreases Remaining(line, cur), 14
    ensures Progress(line, cur, r)
  {
    RelSteps(line, funcs, x, cur, 0)
  }

  /**
   * Statement `i` of the loop body: when `RelOps[i]` matches, an operand is
   * parsed and the node built; either way the next statement follows. Only
   * the last statement has an `else return x`; after it the loop repeats.
   */
  function RelSteps(line: string, funcs: map<string, int>, x: Expr, cur: Cursor, i: nat): (r: Parsed<Expr>)
    requires Valid(line, cur) && i < |RelOps|
    decreases Remaining(line, cur), 13 - i
    ensures Progress(line, cur, r)
  {
    var (hit, next) :- AdvTok(line, cur, RelOps[i].0);
    if hit then
      var (y, after) :- ParseBinary(line, funcs, AddLevel, next);
      var x1 := Bin(RelOps[i].1, x, y);
      if i + 1 < |RelOps| then RelSteps(line, funcs, x1, after, i + 1)
      else RelTail(line, funcs, x1, after)
    else if i + 1 < |RelOps| then RelSteps(line, funcs, x, next, i + 1)
    else Ok(x, next)
  }

  /** `arith_fact`, up to the sign handling. */
  function ArithFact(line: string, funcs: map<string, int>, cur: Cursor): (r: Parsed<Expr>)
    requires Valid(line, cur)
    decreases Remaining(line, cur), 2
    ensures Progress(line, cur, r)
  {
    var (_, c2) :- UnaryPlus(line, cur);
    var (minus, c3) :- AdvTok(line, c2, Ch('-'));
    if minus then
      var (twice, c4) :- AdvTok(line, c3, Ch('-'));
      if !twice then
        var (a, c5) :- ArithFact(line, funcs, c4);
        Ok(Neg(a), c5)
      else FactRest(line, funcs, c4)
    else FactRest(line, funcs, c3)
  }

  /** `if(adv('+')) adv();`: a unary plus swallows the character after it as well. */
  function UnaryPlus(line: string, cur: Cursor): (r: Parsed<()>)
    requires Valid(line, cur)
    ensures Progress(line, cur, r)
    ensures r.Ok? ==> r.cur.syms == cur.syms
  {
    var (plus, c1) :- AdvTok(line, cur, Ch('+'));
    if plus then Adv(line, c1) else Ok((), c1)
  }

  /** `arith_fact` after the signs: negation, parenthesis, number or name. */
  function FactRest(line: string, funcs: map<string, int>, cur: Cursor): (r: Parsed<Expr>)
    requires Valid(line, cur)
    decreases Remaining(line, cur), 1
    ensures Progress(line, cur, r)
  {
    var (bang, c1) :- AdvTok(line, cur, Ch('!'));
    if bang then
      var (a, c2) :- ArithFact(line, funcs, c1);
      Ok(Not(a), c2)
    else
      var (open, c2) :- AdvTok(line, c1, Ch('('));
      if open then
        var (e, c3) :- ParseExpr(line, funcs, c2);
        var (close, c4) :- AdvTok(line, c3, Ch(')'));
        if !close then Fail(MissingClosingParenthesis, c4.pe)
        else Ok(e, c4)
      else if '0' <= c2.c <= '9' then ConstNumber(line, c2)
      else if 'a' <= c2.c <= 'z' then Atom(line, funcs, c2)
      else Fail(UnexpectedCharacter, c2.pe)
  }

  /** A name: `not`, a function call, or a symbol reference. */
  function Atom(line: string, funcs: map<string, int>, cur: Cursor): (r: Parsed<Expr>)
    requires Valid(line, cur) && 'a' <= cur.c <= 'z'
    decreases Remaining(line, cur), 0
    ensures Progress(line, cur, r)
  {
    var (sym, c1) :- ConstLiteral(line, cur);
    if sym == "not" then
      var (e, c2) :- ParseExpr(line, funcs, c1);
      Ok(Not(e), c2)
    else
      var (call, c2) :- AdvTok(line, c1, Ch('('));
      if call then CallArgs(line, funcs, sym, c2)
      else if sym in funcs then Fail(MissingFunctionArguments, c2.pe)
      else Ok(VarRef(sym), c2.(syms := c2.syms + {sym}))
  }

  /** The argument list after `name(`, then the function lookup and the arity check. */
  function CallArgs(line: string, funcs: map<string, int>, sym: string, cur: Cursor): (r: Parsed<Expr>)
    requires Valid(line, cur)
    decreases Remaining(line, cur), 23
    ensures Progress(line, cur, r)
  {
    var (empty, c1) :- AdvTok(line, cur, Ch(')'));
    var (args, c2) :-
      if empty then Ok([], c1)
      else
        var (first, c3) :- ParseExpr(line, funcs, c1);
        var (rest, c4) :- ArgsTail(line, funcs, c3);
        var (close, c5) :- AdvTok(line, c4, Ch(')'));
        if !close then Fail(MissingClosingFunctionParenthesis, c5.pe)
        else Ok([first] + rest, c5);
    CallCheck(funcs, sym, args, c2)
  }

  /**
   * After the argument list: the function lookup, then the arity check of
   * the `ExprFunc` constructor (a negative arity takes any number).
   */
  function CallCheck(funcs: map<string, int>, sym: string, args: seq<Expr>, cur: Cursor): (r: Parsed<Expr>)
    ensures r.Fail? ==> r.pe == cur.pe
    ensures r == Fail(UnknownFunction, cur.pe) <==> sym !in funcs
    ensures r == Fail(InvalidNumberOfArguments, cur.pe) <==> sym in funcs && funcs[sym] >= 0 && funcs[sym] != |args|
    ensures r.Ok? <==> sym in funcs && (funcs[sym] < 0 || funcs[sym] == |args|)
    ensures r.Ok? ==> r.value == Func(sym, args) && r.cur == cur
  {
    if sym !in funcs then Fail(UnknownFunction, cur.pe)
    else if funcs[sym] >= 0 && funcs[sym] != |args| then Fail(InvalidNumberOfArguments, cur.pe)
    else Ok(Func(sym, args), cur)
  }

  /** `name()`: with nothing between the parentheses only the lookup and the arity check remain. */
  lemma CallNoArgsChecks(line: string, funcs: map<string, int>, sym: string, cur: Cursor, c1: Cursor)
    requires Valid(line, cur) && AdvTok(line, cur, Ch(')')) == Ok(true, c1)
    ensures CallArgs(line, funcs, sym, cur) == CallCheck(funcs, sym, [], c1)
  {
  }

  /**
   * `name(x, rest...)`: once the arguments and the closing parenthesis are
   * read, the call is checked against the function table with all of them.
   */
  lemma CallArgsChecks(line: string, funcs: map<string, int>, sym: string, cur: Cursor, x: Expr, c1: Cursor,
                       rest: seq<Expr>, c2: Cursor, c3: Cursor)
    requires Valid(line, cur) && Valid(line, c1) && Valid(line, c2)
    requires AdvTok(line, cur, Ch(')')) == Ok(false, cur)
    requires ParseExpr(line, funcs, cur) == Ok(x, c1)
    requires ArgsTail(line, funcs, c1) == Ok(rest, c2)
    requires AdvTok(line, c2, Ch(')')) == Ok(true, c3)
    ensures CallArgs(line, funcs, sym, cur) == CallCheck(funcs, sym, [x] + rest, c3)
  {
  }

  /** `while(adv(',')) args.add(expr());` */
  function ArgsTail(line: string, funcs: map<string, int>, cur: Cursor): (r: Parsed<seq<Expr>>)
    requires Valid(line, cur)
    decreases Remaining(line, cur), 0
    ensures Progress(line, cur, r)
  {
    var (comma, c1) :- AdvTok(line, cur, Ch(','));
    if !comma then Ok([], c1)
    else
      var (e, c2) :- ParseExpr(line, funcs, c1);
      var (rest, c3) :- ArgsTail(line, funcs, c2);
      Ok([e] + rest, c3)
  }

  /** Consume characters while `IsLitChar`, as `const_literal`'s loop does. */
  function LiteralLoop(line: string, cur: Cursor): (r: Parsed<()>)
    requires Valid(line, cur)
    decreases Remaining(line, cur)
    ensures Progress(line, cur, r)
    ensures r.Ok? ==> r.cur.syms == cur.syms && !IsLitChar(r.cur.c)
    ensures r.Ok? && cur.pe <= |line| ==> r.cur.pe <= |line|
    ensures r.Ok? ==> forall i :: cur.pe <= i < r.cur.pe ==> 0 <= i < |line| && IsLitChar(LowerAscii(line[i]))
  {
    if IsLitChar(cur.c) then
      var (_, next) :- Adv(line, cur);
      LiteralLoop(line, next)
    else Ok((), cur)
  }

  /** `const_literal`: a lower-cased name, or "" when no letter is current. */
  function ConstLiteral(line: string, cur: Cursor): (r: Parsed<string>)
    requires Valid(line, cur)
    ensures Progress(line, cur, r)
    ensures r.Ok? ==> r.cur.syms == cur.syms
    ensures r.Ok? && 'a' <= cur.c <= 'z' ==> IsName(r.value) && Remaining(line, r.cur) < Remaining(line, cur)
    ensures r.Ok? && !('a' <= cur.c <= 'z') ==> r.value == "" && r.cur == cur
  {
    if !('a' <= cur.c <= 'z') then Ok("", cur)
    else
      var (_, end) :- LiteralLoop(line, cur);
      var s := LowerString(line[cur.pe..end.pe]);
      assert s[0] == cur.c;
      Ok(s, end)
  }

  /** The value of a string of decimal digits. */
  function DecimalValue(s: string): (r: nat)
    requires forall i :: 0 <= i < |s| ==> '0' <= s[i] <= '9'
  {
    if |s| == 0 then 0 else DecimalValue(s[..|s| - 1]) * 10 + (s[|s| - 1] as int - '0' as int)
  }

  /** Consume decimal digits, as `const_number`'s loop does. */
  function DigitLoop(line: string, cur: Cursor): (r: Parsed<()>)
    requires Valid(line, cur)
    decreases Remaining(line, cur)
    ensures Progress(line, cur, r)
    ensures r.Ok? ==> r.cur.syms == cur.syms && !('0' <= r.cur.c <= '9')
    ensures r.Fail? ==> r.err == InvalidCharacter
    ensures r.Ok? && cur.pe <= |line| ==> r.cur.pe <= |line|
    ensures r.Ok? ==> forall i :: cur.pe <= i < r.cur.pe ==> 0 <= i < |line| && '0' <= line[i] <= '9'
  {
    if '0' <= cur.c <= '9' then
      var (_, next) :- Adv(line, cur);
      DigitLoop(line, next)
    else Ok((), cur)
  }

  /** `const_number`: `Integer.parseInt` of the digits, which rejects values above `MAX_INT`. */
  function ConstNumber(line: string, cur: Cursor): (r: Parsed<Expr>)
    requires Valid(line, cur) && '0' <= cur.c <= '9'
    ensures Progress(line, cur, r)
    ensures r.Ok? ==> r.value.Const? && r.value.value >= 0
    ensures r.Fail? && r.err.NumberFormat? ==>
              (forall i :: 0 <= i < |r.err.digits| ==> '0' <= r.err.digits[i] <= '9')
              && DecimalValue(r.err.digits) > MAX_INT
  {
    var (_, end) :- DigitLoop(line, cur);
    var digits := line[cur.pe..end.pe];
    assert forall i :: 0 <= i < |digits| ==> digits[i] == line[cur.pe + i];
    var v := DecimalValue(digits);
    if v > MAX_INT then Fail(NumberFormat(digits), end.pe)
    else Ok(Const(v), end)
  }

  /** `expr_assign`: `name = expr` when the line has that shape, otherwise an assignment to the default name. */
  function ExprAssign(line: string, funcs: map<string, int>, default: string, cur: Cursor): (r: Parsed<Expr>)
    requires Valid(line, cur)
    ensures r.Ok? ==> Valid(line, r.cur) && cur.pe <= r.cur.pe && r.value.Assign?
    ensures r.Ok? && HasAssignPrefix(line) ==> r.value.target !in funcs
    ensures r.Ok? && !HasAssignPrefix(line) ==> r.value.target == default
  {
    var (target, c1) :-
      if HasAssignPrefix(line) then
        var (name, c2) :- ConstLiteral(line, cur);
        var (eq, c3) :- AdvTok(line, c2, Ch('='));
        if !eq then Fail(ExpectedAssignment, c3.pe)
        else if name in funcs then Fail(SymbolReadonly, c3.pe)
        else Ok(name, c3)
      else Ok(default, cur);
    var (e, c4) :- ParseExpr(line, funcs, c1.(syms := c1.syms + {target}));
    Ok(Assign(target, e), c4)
  }

  /** The outcome of parsing one line, the fields of `ParsedLine`. */
  datatype ParsedLine = ParsedLine(
    expression: Expr,
    assignment: string,
    error: Option<ParseError>,
    pe: int,
    symbols: set<string>)

  /** Java's regex class `\s`. */
  predicate IsRegexSpace(ch: char)
  {
    ch == ' ' || ch == '\t' || ch == '\n' || ch == 11 as char || ch == 12 as char || ch == '\r'
  }

  /** The characters Java's regex `.` does not match. */
  predicate IsLineTerminator(ch: char)
  {
    ch == '\n' || ch == '\r' || ch == 0x85 as char || ch == 0x2028 as char || ch == 0x2029 as char
  }

  predicate IsAsciiLetter(ch: char)
  {
    ('a' <= ch <= 'z') || ('A' <= ch <= 'Z')
  }

  /** Java's regex class `[\w.]`. */
  predicate IsWordOrDot(ch: char)
  {
    IsAsciiLetter(ch) || ('0' <= ch <= '9') || ch == '_' || ch == '.'
  }

  /** The first index at or after `i` that is not a regex space. */
  function SpanSpaces(line: string, i: nat): (j: nat)
    requires i <= |line|
    decreases |line| - i
    ensures i <= j <= |line|
    ensures forall k :: i <= k < j ==> IsRegexSpace(line[k])
    ensures j < |line| ==> !IsRegexSpace(line[j])
  {
    if i < |line| && IsRegexSpace(line[i]) then SpanSpaces(line, i + 1) else i
  }

  /** The first index at or after `i` outside `[\w.]`. */
  function SpanWord(line: string, i: nat): (j: nat)
    requires i <= |line|
    decreases |line| - i
    ensures i <= j <= |line|
    ensures forall k :: i <= k < j ==> IsWordOrDot(line[k])
    ensures j < |line| ==> !IsWordOrDot(line[j])
  {
    if i < |line| && IsWordOrDot(line[i]) then SpanWord(line, i + 1) else i
  }

  predicate NoTerminator(s: string)
  {
    forall k :: 0 <= k < |s| ==> !IsLineTerminator(s[k])
  }

  /** `line.matches("^[\\s]*#.*")`: a comment line. */
  predicate IsCommentLine(line: string)
  {
    var i := SpanSpaces(line, 0);
    i < |line| && line[i] == '#' && NoTerminator(line[i + 1..])
  }

  /** `line.matches("^[\\s]*[a-zA-Z][\\w.]*[\\s]*[=][^=].*")`: the line starts with `name =`. */
  predicate HasAssignPrefix(line: string)
  {
    var i := SpanSpaces(line, 0);
    i < |line| && IsAsciiLetter(line[i]) &&
    var k := SpanSpaces(line, SpanWord(line, i + 1));
    k + 1 < |line| && line[k] == '=' && line[k + 1] != '=' && NoTerminator(line[k + 2..])
  }

  /** The `ParsedLine` constructor. */
  function ParseLine(line: string, default: string, funcs: map<string, int>): (r: ParsedLine)
    ensures IsCommentLine(line) ==> r == ParsedLine(Void, "", None, -1, {})
    ensures r.error.None? && !IsCommentLine(line) ==>
              r.expression.Assign? && r.assignment == LowerString(r.expression.target) && r.pe >= |line|
    ensures r.error.Some? ==> r.expression == Void && r.assignment == ""
    ensures r.error.None? && HasAssignPrefix(line) && !IsCommentLine(line) ==> r.expression.target !in funcs
  {
    if IsCommentLine(line) then ParsedLine(Void, "", None, -1, {})
    else
      match Adv(line, Cursor(-1, ' ', {}))
      case Fail(err, pe) => ParsedLine(Void, "", Some(err), pe, {})
      case Ok(_, c0) =>
        match ExprAssign(line, funcs, default, c0)
        case Fail(err, pe) => ParsedLine(Void, "", Some(err), pe, {})
        case Ok(e, c1) =>
          if c1.pe < |line| then ParsedLine(Void, "", Some(InvalidCharacter), c1.pe, c1.syms)
          else ParsedLine(e, LowerString(e.target), None, c1.pe, c1.syms)
  }
}
