/**
 * A printer for control-box expressions, and the proof that the one-line
 * parser reads its output back. Every operation is printed inside its own
 * parentheses, so reading a printed operation walks the parser's whole
 * precedence ladder: each level below the operator hands the left operand
 * up, the operator's own level builds the node, and every level above it
 * stops at the closing parenthesis.
 */
module ControlBoxPrint {
  import opened Wrappers
  import opened JavaInt
  import opened ControlBoxExpr
  import opened ControlBoxParser

  /** The decimal digits of a number, most significant first. */
  function Digits(v: nat): string
  {
    if v < 10 then [('0' as int + v) as char]
    else Digits(v / 10) + [('0' as int + v % 10) as char]
  }

  /** `Integer.toString` and the parser's decimal reading agree: the digits of v read back as v. */
  lemma {:induction false} DigitsRead(v: nat)
    ensures |Digits(v)| > 0 && forall i :: 0 <= i < |Digits(v)| ==> '0' <= Digits(v)[i] <= '9'
    ensures DecimalValue(Digits(v)) == v
  {
    if v >= 10 {
      DigitsRead(v / 10);
      var r := Digits(v);
      assert r[..|r| - 1] == Digits(v / 10);
    }
  }

  /** The spelling each operator is printed with, one of those the parser accepts. */
  function OpTok(op: BinOp): Tok
  {
    match op
    case Mpy => Ch('*')
    case Div => Ch('/')
    case Mod => Ch('%')
    case Add => Ch('+')
    case Sub => Ch('-')
    case And => Word("&&")
    case Or => Word("||")
    case Xor => Ch('^')
    case Neq => Word("!=")
    case Eq => Word("==")
    case Ge => Word(">=")
    case Le => Word("<=")
    case Gt => Ch('>')
    case Lt => Ch('<')
  }

  function TokText(t: Tok): string
  {
    match t
    case Ch(ch) => [ch]
    case Word(w) => w
  }

  /**
   * The expressions the printer is meant for. The name is not recursive, so a
   * lemma's caller passes the fact on as it stands instead of unfolding it.
   */
  predicate Printable(e: Expr, funcs: map<string, int>)
  {
    Producible(e, funcs)
  }

  /** The expressions the parser can produce: no assignment, non-negative constants, known functions called with the declared number of arguments. */
  predicate Producible(e: Expr, funcs: map<string, int>)
  {
    match e
    case Void => false
    case Assign(_, _) => false
    case Const(v) => v >= 0
    case VarRef(n) => IsName(n) && n != "not" && n !in funcs
    case Func(n, args) =>
      && IsName(n) && n != "not" && n in funcs && (funcs[n] < 0 || funcs[n] == |args|)
      && forall i :: 0 <= i < |args| ==> Producible(args[i], funcs)
    case Neg(a) => Producible(a, funcs)
    case Not(a) => Producible(a, funcs)
    case Bin(_, a, b) => Producible(a, funcs) && Producible(b, funcs)
  }

  /** The text of an expression, every operation in parentheses and no blanks. */
  function Print(e: Expr): string
    decreases e, 1, 0
  {
    match e
    case Void => ""
    case Assign(_, _) => ""
    case Const(v) => Digits(if v < 0 then 0 else v)
    case VarRef(n) => n
    case Func(n, _) => n + "(" + PrintArgs(e, 0) + ")"
    case Neg(a) => "-(" + Print(a) + ")"
    case Not(a) => "!(" + Print(a) + ")"
    case Bin(op, a, b) => "(" + (Print(a) + TokText(OpTok(op)) + Print(b)) + ")"
  }

  /** A binary operation without its parentheses. */
  function Inner(op: BinOp, a: Expr, b: Expr): string
  {
    Print(a) + TokText(OpTok(op)) + Print(b)
  }

  /** The arguments from the i-th on, separated by commas. */
  function PrintArgs(f: Expr, i: nat): string
    requires f.Func? && i <= |f.args|
    decreases f, 0, |f.args| - i
  {
    if i == |f.args| then ""
    else (if i > 0 then "," else "") + Print(f.args[i]) + PrintArgs(f, i + 1)
  }

  /** The symbols an expression reads, the ones the parser collects. */
  function Vars(e: Expr): set<string>
    decreases e, 1, 0
  {
    match e
    case VarRef(n) => {n}
    case Func(_, _) => VarsFrom(e, 0)
    case Neg(a) => Vars(a)
    case Not(a) => Vars(a)
    case Bin(_, a, b) => Vars(a) + Vars(b)
    case _ => {}
  }

  function VarsFrom(f: Expr, i: nat): set<string>
    requires f.Func? && i <= |f.args|
    decreases f, 0, |f.args| - i
  {
    if i == |f.args| then {} else Vars(f.args[i]) + VarsFrom(f, i + 1)
  }


  // ---- The text of a line -------------------------------------------------

  /** Printable 7-bit characters other than the blanks and the comment sign. */
  predicate CleanChar(ch: char)
  {
    32 < ch as int <= 127 && ch != '#'
  }

  predicate Clean(s: string)
  {
    forall k :: 0 <= k < |s| ==> CleanChar(s[k])
  }

  lemma CleanConcat(x: string, y: string)
    requires Clean(x) && Clean(y)
    ensures Clean(x + y)
  {
    forall k | 0 <= k < |x + y|
      ensures CleanChar((x + y)[k])
    {
      if k >= |x| {
        assert (x + y)[k] == y[k - |x|];
      }
    }
  }

  /** The line holds `s` from index j on. */
  predicate Has(line: string, j: nat, s: string)
    decreases |s|
  {
    && j + |s| <= |line|
    && (|s| == 0 || (line[j] == s[0] && Has(line, j + 1, s[1..])))
  }

  lemma {:induction false} HasSlice(line: string, j: nat, s: string)
    ensures Has(line, j, s) <==> j + |s| <= |line| && line[j..j + |s|] == s
    decreases |s|
  {
    if |s| > 0 && j + |s| <= |line| {
      HasSlice(line, j + 1, s[1..]);
      if line[j..j + |s|] == s {
        assert line[j + 1..j + |s|] == s[1..];
      }
      if line[j] == s[0] && line[j + 1..j + |s|] == s[1..] {
        assert line[j..j + |s|] == [s[0]] + s[1..];
      }
    }
  }

  lemma HasWhole(s: string)
    ensures Has(s, 0, s)
  {
    HasSlice(s, 0, s);
    assert s[0..|s|] == s;
  }

  lemma HasAt(line: string, j: nat, s: string, i: nat)
    requires Has(line, j, s) && i < |s|
    ensures line[j + i] == s[i]
  {
    HasSlice(line, j, s);
    assert line[j..j + |s|][i] == line[j + i];
  }

  lemma HasSplit(line: string, j: nat, x: string, y: string)
    requires Has(line, j, x + y)
    ensures Has(line, j, x) && Has(line, j + |x|, y)
  {
    HasSlice(line, j, x + y);
    HasSlice(line, j, x);
    HasSlice(line, j + |x|, y);
    assert line[j..j + |x|] == (x + y)[..|x|];
    assert line[j + |x|..j + |x| + |y|] == (x + y)[|x|..];
  }

  lemma HasWrap(line: string, j: nat, pre: string, mid: string, post: string)
    requires Has(line, j, pre + mid + post)
    ensures Has(line, j, pre) && Has(line, j + |pre|, mid) && Has(line, j + |pre| + |mid|, post)
  {
    HasSplit(line, j, pre + mid, post);
    HasSplit(line, j, pre, mid);
  }

  /** The current character as the parser sees it at index j. */
  function CharAt(line: string, j: nat): char
  {
    if j < |line| then LowerAscii(line[j]) else NUL
  }

  /** The cursor `adv()` leaves on index j. */
  function At(line: string, j: nat, syms: set<string>): (r: Cursor)
    ensures Valid(line, r) && r.pe == j && r.syms == syms
  {
    Cursor(j, CharAt(line, j), syms)
  }

  /** The characters an operand can start with. */
  predicate OperandStart(ch: char)
  {
    ch == '(' || ch == '-' || ch == '!' || ('0' <= ch <= '9') || ('a' <= ch <= 'z')
  }

  /** The operator's printed spelling stands at j, and an operand starts right after it. */
  predicate OpAt(line: string, j: nat, op: BinOp)
  {
    && Has(line, j, TokText(OpTok(op)))
    && j + |TokText(OpTok(op))| < |line|
    && OperandStart(line[j + |TokText(OpTok(op))|])
  }

  /** The characters of an operator standing at j. */
  lemma OpHead(line: string, j: nat, op: BinOp)
    requires OpAt(line, j, op)
    ensures |TokText(OpTok(op))| > 0 && line[j] == TokText(OpTok(op))[0]
    ensures |TokText(OpTok(op))| > 1 ==> line[j + 1] == TokText(OpTok(op))[1]
  {
    var t := TokText(OpTok(op));
    OpTokStage(op);
    HasAt(line, j, t, 0);
    if |t| > 1 {
      HasAt(line, j, t, 1);
    }
  }

  // ---- The shape of printed text ------------------------------------------

  /** Printed text is never empty and starts the way an operand does; only names and calls start with a letter. */
  lemma PrintStart(e: Expr, funcs: map<string, int>)
    requires Printable(e, funcs)
    ensures |Print(e)| > 0 && OperandStart(Print(e)[0])
    ensures 'a' <= Print(e)[0] <= 'z' ==> e.VarRef? || e.Func?
  {
    match e
    case Const(v) =>
      DigitsRead(v as nat);
    case VarRef(n) =>
    case Func(n, args) =>
      assert Print(e)[0] == n[0];
    case Neg(a) =>
    case Not(a) =>
    case Bin(op, a, b) =>
  }

  /** The arguments after the first each start with a comma; the whole list is the first argument and the rest. */
  lemma ArgsStart(f: Expr, i: nat)
    requires f.Func? && i <= |f.args|
    ensures 0 < i < |f.args| ==> |PrintArgs(f, i)| > 0 && PrintArgs(f, i)[0] == ','
    ensures 0 == i < |f.args| ==> PrintArgs(f, i) == Print(f.args[0]) + PrintArgs(f, 1)
  {
    if 0 < i < |f.args| {
      assert PrintArgs(f, i) == "," + Print(f.args[i]) + PrintArgs(f, i + 1);
    }
  }

  /** Printed text holds no blank, no comment sign and nothing outside 7-bit ASCII. */
  lemma {:induction false} PrintClean(e: Expr, funcs: map<string, int>)
    requires Printable(e, funcs)
    ensures Clean(Print(e))
    decreases e, 1, 0
  {
    match e
    case Const(v) =>
      DigitsRead(v as nat);
    case VarRef(n) =>
    case Func(n, args) =>
      ArgsClean(e, 0, funcs);
      CleanConcat(n, "(");
      CleanConcat(n + "(", PrintArgs(e, 0));
      CleanConcat(n + "(" + PrintArgs(e, 0), ")");
    case Neg(a) =>
      PrintClean(a, funcs);
      CleanConcat("-(", Print(a));
      CleanConcat("-(" + Print(a), ")");
    case Not(a) =>
      PrintClean(a, funcs);
      CleanConcat("!(", Print(a));
      CleanConcat("!(" + Print(a), ")");
    case Bin(op, a, b) =>
      PrintClean(a, funcs);
      PrintClean(b, funcs);
      CleanConcat(Print(a), TokText(OpTok(op)));
      CleanConcat(Print(a) + TokText(OpTok(op)), Print(b));
      CleanConcat("(", Inner(op, a, b));
      CleanConcat("(" + Inner(op, a, b), ")");
  }

  lemma {:induction false} ArgsClean(f: Expr, i: nat, funcs: map<string, int>)
    requires f.Func? && i <= |f.args| && forall m :: 0 <= m < |f.args| ==> Printable(f.args[m], funcs)
    ensures Clean(PrintArgs(f, i))
    decreases f, 0, |f.args| - i
  {
    if i < |f.args| {
      PrintClean(f.args[i], funcs);
      ArgsClean(f, i + 1, funcs);
      var sep: string := if i > 0 then "," else "";
      CleanConcat(sep, Print(f.args[i]));
      CleanConcat(sep + Print(f.args[i]), PrintArgs(f, i + 1));
    }
  }

  /** A run of decimal digits from j up to f. */
  predicate DigitsAt(line: string, j: nat, f: nat)
  {
    && j < f <= |line|
    && (forall k :: j <= k < f ==> '0' <= line[k] <= '9')
    && (f < |line| ==> !('0' <= line[f] <= '9'))
  }

  lemma ConstLayout(line: string, j: nat, v: nat)
    requires Has(line, j, Digits(v)) && Closes(line, j + |Digits(v)|, 0)
    ensures DigitsAt(line, j, j + |Digits(v)|) && DecimalValue(line[j..j + |Digits(v)|]) == v
  {
    var d := Digits(v);
    DigitsRead(v);
    HasSlice(line, j, d);
    forall k | j <= k < j + |d|
      ensures '0' <= line[k] <= '9'
    {
      HasAt(line, j, d, k - j);
    }
  }

  /** The name n stands at index j. */
  predicate NameAt(line: string, j: nat, n: string)
  {
    && j + |n| <= |line|
    && (forall k :: j <= k < j + |n| ==> IsLitChar(line[k]))
    && line[j..j + |n|] == n
  }

  lemma NameLayout(line: string, j: nat, n: string)
    requires IsName(n) && Has(line, j, n)
    ensures NameAt(line, j, n)
  {
    HasSlice(line, j, n);
    forall k | j <= k < j + |n|
      ensures IsLitChar(line[k])
    {
      HasAt(line, j, n, k - j);
    }
  }

  /** `-(a)` and `!(a)`: the sign, the opening parenthesis, the operand and the closing one. */
  lemma WrapLayout(line: string, j: nat, pre: string, a: Expr)
    requires |pre| == 2 && Has(line, j, pre + Print(a) + ")")
    ensures j + 2 + |Print(a)| < |line| && line[j] == pre[0] && line[j + 1] == pre[1]
    ensures Has(line, j + 2, Print(a)) && line[j + 2 + |Print(a)|] == ')'
  {
    HasWrap(line, j, pre, Print(a), ")");
    HasAt(line, j, pre, 0);
    HasAt(line, j, pre, 1);
    HasAt(line, j + 2 + |Print(a)|, ")", 0);
  }

  lemma BinLayout(line: string, j: nat, op: BinOp, a: Expr, b: Expr)
    requires Has(line, j, "(" + Inner(op, a, b) + ")")
    ensures j + 1 + |Inner(op, a, b)| < |line| && line[j] == '('
    ensures Has(line, j + 1, Inner(op, a, b)) && line[j + 1 + |Inner(op, a, b)|] == ')'
  {
    HasWrap(line, j, "(", Inner(op, a, b), ")");
    HasAt(line, j, "(", 0);
    HasAt(line, j + 1 + |Inner(op, a, b)|, ")", 0);
  }

  /**
   * The left operand, an operator of strength s, then the right operand: the
   * left one closes at the operator, the right one where the whole does.
   */
  lemma OpSplit(line: string, j: nat, pa: string, t: string, pb: string, s: nat)
    requires Has(line, j, pa + t + pb) && |t| > 0 && |pb| > 0 && OperandStart(pb[0])
    requires 1 <= s && StageOf(t[0]) == s && Closes(line, j + |pa + t + pb|, s)
    ensures j + |pa| + |t| + |pb| == j + |pa + t + pb|
    ensures Has(line, j, pa) && Closes(line, j + |pa|, s - 1)
    ensures Has(line, j + |pa|, t)
    ensures j + |pa| + |t| < |line| && OperandStart(line[j + |pa| + |t|])
    ensures Has(line, j + |pa| + |t|, pb) && Closes(line, j + |pa| + |t| + |pb|, s - 1)
  {
    HasWrap(line, j, pa, t, pb);
    HasAt(line, j + |pa|, t, 0);
    HasAt(line, j + |pa| + |t|, pb, 0);
  }

  lemma OpTokStage(op: BinOp)
    ensures |TokText(OpTok(op))| > 0 && StageOf(TokText(OpTok(op))[0]) == OpStage(op)
  {
  }

  /** A call: the name, `(`, the arguments separated by commas, `)`. */
  lemma CallLayout(line: string, j: nat, e: Expr)
    requires e.Func? && IsName(e.name) && Has(line, j, Print(e))
    ensures NameAt(line, j, e.name) && |Print(e)| == |e.name| + |PrintArgs(e, 0)| + 2
    ensures j + |e.name| + 1 + |PrintArgs(e, 0)| < |line|
    ensures line[j + |e.name|] == '(' && line[j + |e.name| + 1 + |PrintArgs(e, 0)|] == ')'
    ensures Has(line, j + |e.name| + 1, PrintArgs(e, 0))
  {
    var n := e.name;
    var pa := PrintArgs(e, 0);
    HasWrap(line, j, n + "(", pa, ")");
    HasSplit(line, j, n, "(");
    NameLayout(line, j, n);
    HasAt(line, j + |n|, "(", 0);
    HasAt(line, j + |n| + 1 + |pa|, ")", 0);
  }

  /** The facts a printable call carries about its name and its arguments. */
  lemma CallParts(e: Expr, funcs: map<string, int>)
    requires e.Func? && Printable(e, funcs)
    ensures IsName(e.name) && e.name != "not" && e.name in funcs
    ensures funcs[e.name] < 0 || funcs[e.name] == |e.args|
    ensures forall m :: 0 <= m < |e.args| ==> Printable(e.args[m], funcs)
  {
  }

  /** The first argument, then the rest of the list, up to the closing parenthesis. */
  lemma FirstArgLayout(line: string, ja: nat, e: Expr, funcs: map<string, int>)
    requires e.Func? && |e.args| > 0 && Printable(e.args[0], funcs)
    requires Has(line, ja, PrintArgs(e, 0)) && ja + |PrintArgs(e, 0)| < |line| && line[ja + |PrintArgs(e, 0)|] == ')'
    ensures Has(line, ja, Print(e.args[0])) && line[ja] != ')'
    ensures Has(line, ja + |Print(e.args[0])|, PrintArgs(e, 1)) && Closes(line, ja + |Print(e.args[0])|, 6)
    ensures ja + |Print(e.args[0])| + |PrintArgs(e, 1)| < |line|
    ensures line[ja + |Print(e.args[0])| + |PrintArgs(e, 1)|] == ')'
  {
    var p := Print(e.args[0]);
    var rest := PrintArgs(e, 1);
    ArgsStart(e, 0);
    HasSplit(line, ja, p, rest);
    PrintStart(e.args[0], funcs);
    HasAt(line, ja, p, 0);
    ArgsStart(e, 1);
    if |e.args| > 1 {
      HasAt(line, ja + |p|, rest, 0);
      assert line[ja + |p|] == ',';
      assert StageOf(',') == 7;
      assert Closes(line, ja + |p|, 6);
    } else {
      assert rest == "";
    }
  }

  /** One argument after the first: a comma, the argument, then the rest. */
  lemma ArgLayout(line: string, j: nat, f: Expr, i: nat, funcs: map<string, int>)
    requires f.Func? && 1 <= i < |f.args| && forall m :: 0 <= m < |f.args| ==> Printable(f.args[m], funcs)
    requires Has(line, j, PrintArgs(f, i)) && j + |PrintArgs(f, i)| < |line| && line[j + |PrintArgs(f, i)|] == ')'
    ensures var p := Print(f.args[i]);
            && line[j] == ','
            && |PrintArgs(f, i)| == 1 + |p| + |PrintArgs(f, i + 1)|
            && Has(line, j + 1, p) && Has(line, j + 1 + |p|, PrintArgs(f, i + 1))
            && Closes(line, j + 1 + |p|, 6)
  {
    var p := Print(f.args[i]);
    var rest := PrintArgs(f, i + 1);
    HasWrap(line, j, ",", p, rest);
    HasAt(line, j, ",", 0);
    ArgsStart(f, i + 1);
    if i + 1 < |f.args| {
      HasAt(line, j + 1 + |p|, rest, 0);
    }
  }

  // ---- Tokens -------------------------------------------------------------

  /** The token is next at index j, as `adv(char)` and `adv(String)` test it with no blank in the way. */
  predicate Starts(line: string, j: nat, t: Tok)
  {
    match t
    case Ch(ch) => CharAt(line, j) == ch
    case Word(w) => RegionMatches(line, j, w)
  }

  lemma AdvAt(line: string, j: nat, syms: set<string>)
    requires Clean(line) && j < |line|
    ensures Adv(line, At(line, j, syms)) == Ok((), At(line, j + 1, syms))
  {
  }

  lemma SkipNone(line: string, j: nat, syms: set<string>)
    requires Clean(line)
    ensures SkipBlanks(line, At(line, j, syms)) == Ok((), At(line, j, syms))
  {
    assert !IsBlank(CharAt(line, j));
  }

  lemma MissTok(line: string, j: nat, syms: set<string>, t: Tok)
    requires Clean(line) && ValidTok(t) && !Starts(line, j, t)
    ensures AdvTok(line, At(line, j, syms), t) == Ok(false, At(line, j, syms))
  {
    SkipNone(line, j, syms);
  }

  lemma HitTok(line: string, j: nat, syms: set<string>, t: Tok)
    requires Clean(line) && ValidTok(t) && Starts(line, j, t)
    ensures j + |TokText(t)| <= |line|
    ensures AdvTok(line, At(line, j, syms), t) == Ok(true, At(line, j + |TokText(t)|, syms))
  {
    SkipNone(line, j, syms);
    var cur := At(line, j, syms);
    match t
    case Ch(ch) =>
      AdvAt(line, j, syms);
    case Word(w) =>
      var n := Adv(line, cur.(pe := j + |w| - 1));
      assert n == Ok((), At(line, j + |w|, syms));
  }

  lemma WordMissAt(line: string, j: nat, w: string, i: nat)
    requires i < |w| && (j + i < |line| ==> LowerAscii(line[j + i]) != LowerAscii(w[i]))
    ensures !RegionMatches(line, j, w)
  {
  }

  // ---- Binding strength ---------------------------------------------------

  /** How loosely an operator binds: 1 for `*` up to 6 for `||`. */
  function OpStage(op: BinOp): (r: nat)
    ensures 1 <= r <= 6
  {
    match op
    case Mpy | Div | Mod => 1
    case Add | Sub => 2
    case Neq | Eq | Ge | Le | Gt | Lt => 3
    case And => 4
    case Xor => 5
    case Or => 6
  }

  /** The strength of the operator a character starts; 7 for the characters that close an operand, 0 for the rest. */
  function StageOf(ch: char): nat
  {
    if ch == '*' || ch == '/' || ch == '%' then 1
    else if ch == '+' || ch == '-' then 2
    else if ch == '!' || ch == '=' || ch == '<' || ch == '>' then 3
    else if ch == '&' then 4
    else if ch == '^' then 5
    else if ch == '|' then 6
    else if ch == ')' || ch == ',' then 7
    else 0
  }

  function TokStage(t: Tok): nat
    requires ValidTok(t)
  {
    match t
    case Ch(ch) => StageOf(ch)
    case Word(w) => StageOf(w[0])
  }

  /** Index j ends an operand read at strength s: nothing there continues it. */
  predicate Closes(line: string, j: nat, s: nat)
  {
    j < |line| ==> StageOf(line[j]) > s
  }

  /** A token of a looser-or-equal strength than s is not next where an operand of strength s closes. */
  lemma StageMiss(line: string, j: nat, t: Tok, s: nat)
    requires Clean(line) && ValidTok(t) && TokStage(t) <= s && Closes(line, j, s)
    ensures !Starts(line, j, t)
  {
    if j < |line| {
      assert LowerAscii(line[j]) == line[j];
      if t.Word? {
        WordMissAt(line, j, t.w, 0);
      }
    }
  }

  function LevelAt(s: nat): Level
    requires 1 <= s <= 6 && s != 3
  {
    if s == 1 then MpyLevel
    else if s == 2 then AddLevel
    else if s == 4 then AndLevel
    else if s == 5 then XorLevel
    else OrLevel
  }

  /** The parsing function of each strength: 0 is `arith_fact`, 3 `expr_rel`, 6 `expr`. */
  function ParseAt(line: string, funcs: map<string, int>, s: nat, cur: Cursor): Parsed<Expr>
    requires Valid(line, cur) && s <= 6
  {
    if s == 0 then ArithFact(line, funcs, cur)
    else if s == 3 then ExprRel(line, funcs, cur)
    else ParseBinary(line, funcs, LevelAt(s), cur)
  }

  /** The loop over the arguments after the first, `while(adv(',')) args.add(expr());`. */
  function ArgsAt(line: string, funcs: map<string, int>, cur: Cursor): Parsed<seq<Expr>>
    requires Valid(line, cur)
  {
    ArgsTail(line, funcs, cur)
  }

  /** The operator loop of each strength. */
  function Tail(line: string, funcs: map<string, int>, s: nat, x: Expr, cur: Cursor): Parsed<Expr>
    requires Valid(line, cur) && 1 <= s <= 6
  {
    if s == 3 then RelTail(line, funcs, x, cur) else BinaryTail(line, funcs, LevelAt(s), x, cur)
  }

  /** Where the operator's printed spelling sits among those alternatives. */
  function OpIndex(op: BinOp): nat
  {
    match op
    case Mpy => 0
    case Div => 1
    case Mod => 2
    case Add => 0
    case Sub => 1
    case And => 1
    case Or => 1
    case Xor => 1
    case Neq => 0
    case Eq => 2
    case Ge => 3
    case Le => 4
    case Gt => 5
    case Lt => 6
  }

  lemma ParseExprAt(line: string, funcs: map<string, int>, cur: Cursor)
    requires Valid(line, cur)
    ensures ParseExpr(line, funcs, cur) == ParseAt(line, funcs, 6, cur)
  {
  }

  lemma BelowAt(line: string, funcs: map<string, int>, s: nat, cur: Cursor)
    requires Valid(line, cur) && 1 <= s <= 6 && s != 3
    ensures ParseBelow(line, funcs, LevelAt(s), cur) == ParseAt(line, funcs, s - 1, cur)
  {
  }

  /** Each strength reads an operand of the next tighter strength, then runs its operator loop. */
  lemma Climb(line: string, funcs: map<string, int>, s: nat, cur: Cursor, x: Expr, n: Cursor)
    requires Valid(line, cur) && Valid(line, n) && 1 <= s <= 6
    requires ParseAt(line, funcs, s - 1, cur) == Ok(x, n)
    ensures ParseAt(line, funcs, s, cur) == Tail(line, funcs, s, x, n)
  {
    if s != 3 {
      BelowAt(line, funcs, s, cur);
    }
  }

  lemma TryOpsMiss(line: string, j: nat, syms: set<string>, ops: seq<(Tok, BinOp)>, i: nat)
    requires Clean(line) && i <= |ops| && forall k :: 0 <= k < |ops| ==> ValidTok(ops[k].0)
    requires forall k :: i <= k < |ops| ==> !Starts(line, j, ops[k].0)
    ensures TryOps(line, At(line, j, syms), ops, i) == Ok(None, At(line, j, syms))
    decreases |ops| - i
  {
    if i < |ops| {
      MissTok(line, j, syms, ops[i].0);
      TryOpsMiss(line, j, syms, ops, i + 1);
    }
  }

  lemma TryOpsHit(line: string, j: nat, syms: set<string>, ops: seq<(Tok, BinOp)>, i: nat, k: nat)
    requires Clean(line) && i <= k < |ops| && forall m :: 0 <= m < |ops| ==> ValidTok(ops[m].0)
    requires forall m :: i <= m < k ==> !Starts(line, j, ops[m].0)
    requires Starts(line, j, ops[k].0)
    ensures j + |TokText(ops[k].0)| <= |line|
    ensures TryOps(line, At(line, j, syms), ops, i) == Ok(Some(ops[k].1), At(line, j + |TokText(ops[k].0)|, syms))
    decreases k - i
  {
    if i < k {
      MissTok(line, j, syms, ops[i].0);
      TryOpsHit(line, j, syms, ops, i + 1, k);
    } else {
      HitTok(line, j, syms, ops[k].0);
    }
  }

  lemma RelMiss(line: string, funcs: map<string, int>, x: Expr, j: nat, syms: set<string>, i: nat)
    requires Clean(line) && i < |RelOps| && Closes(line, j, 3)
    ensures RelSteps(line, funcs, x, At(line, j, syms), i) == Ok(x, At(line, j, syms))
    decreases |RelOps| - i
  {
    StageMiss(line, j, RelOps[i].0, 3);
    MissTok(line, j, syms, RelOps[i].0);
    if i + 1 < |RelOps| {
      RelMiss(line, funcs, x, j, syms, i + 1);
    }
  }

  /** An operator loop stops where its operand closes. */
  lemma TailMiss(line: string, funcs: map<string, int>, s: nat, x: Expr, j: nat, syms: set<string>)
    requires Clean(line) && 1 <= s <= 6 && Closes(line, j, s)
    ensures Tail(line, funcs, s, x, At(line, j, syms)) == Ok(x, At(line, j, syms))
  {
    if s == 3 {
      RelMiss(line, funcs, x, j, syms, 0);
    } else {
      var ops := Ops(LevelAt(s));
      forall k | 0 <= k < |ops|
        ensures !Starts(line, j, ops[k].0)
      {
        StageMiss(line, j, ops[k].0, s);
      }
      TryOpsMiss(line, j, syms, ops, 0);
    }
  }

  /** A comparison's printed spelling is the first of the comparison alternatives that matches. */
  lemma RelHit(line: string, j: nat, op: BinOp)
    requires Clean(line) && OpStage(op) == 3 && OpAt(line, j, op)
    ensures OpIndex(op) < |RelOps| && RelOps[OpIndex(op)] == (OpTok(op), op)
    ensures Starts(line, j, OpTok(op))
    ensures forall m :: 0 <= m < OpIndex(op) ==> !Starts(line, j, RelOps[m].0)
  {
    match op
    case Neq => RelHitNeq(line, j);
    case Eq => RelHitEq(line, j);
    case Ge => RelHitGe(line, j);
    case Le => RelHitLe(line, j);
    case Gt => RelHitGt(line, j);
    case Lt => RelHitLt(line, j);
  }

  lemma RelHitNeq(line: string, j: nat)
    requires Clean(line) && OpAt(line, j, Neq)
    ensures OpIndex(Neq) < |RelOps| && RelOps[OpIndex(Neq)] == (OpTok(Neq), Neq)
    ensures Starts(line, j, OpTok(Neq))
  {
    OpHead(line, j, Neq);
  }

  lemma RelHitEq(line: string, j: nat)
    requires Clean(line) && OpAt(line, j, Eq)
    ensures OpIndex(Eq) < |RelOps| && RelOps[OpIndex(Eq)] == (OpTok(Eq), Eq)
    ensures Starts(line, j, OpTok(Eq))
    ensures forall m :: 0 <= m < OpIndex(Eq) ==> !Starts(line, j, RelOps[m].0)
  {
    OpHead(line, j, Eq);
    WordMissAt(line, j, "!=", 0);
    WordMissAt(line, j, "<>", 0);
  }

  lemma RelHitGe(line: string, j: nat)
    requires Clean(line) && OpAt(line, j, Ge)
    ensures OpIndex(Ge) < |RelOps| && RelOps[OpIndex(Ge)] == (OpTok(Ge), Ge)
    ensures Starts(line, j, OpTok(Ge))
    ensures forall m :: 0 <= m < OpIndex(Ge) ==> !Starts(line, j, RelOps[m].0)
  {
    OpHead(line, j, Ge);
    WordMissAt(line, j, "!=", 0);
    WordMissAt(line, j, "<>", 0);
    WordMissAt(line, j, "==", 0);
  }

  lemma RelHitLe(line: string, j: nat)
    requires Clean(line) && OpAt(line, j, Le)
    ensures OpIndex(Le) < |RelOps| && RelOps[OpIndex(Le)] == (OpTok(Le), Le)
    ensures Starts(line, j, OpTok(Le))
    ensures forall m :: 0 <= m < OpIndex(Le) ==> !Starts(line, j, RelOps[m].0)
  {
    OpHead(line, j, Le);
    WordMissAt(line, j, "!=", 0);
    WordMissAt(line, j, "<>", 1);
    WordMissAt(line, j, "==", 0);
    WordMissAt(line, j, ">=", 0);
  }

  lemma RelHitGt(line: string, j: nat)
    requires Clean(line) && OpAt(line, j, Gt)
    ensures OpIndex(Gt) < |RelOps| && RelOps[OpIndex(Gt)] == (OpTok(Gt), Gt)
    ensures Starts(line, j, OpTok(Gt))
    ensures forall m :: 0 <= m < OpIndex(Gt) ==> !Starts(line, j, RelOps[m].0)
  {
    OpHead(line, j, Gt);
    WordMissAt(line, j, "!=", 0);
    WordMissAt(line, j, "<>", 0);
    WordMissAt(line, j, "==", 0);
    WordMissAt(line, j, ">=", 1);
    WordMissAt(line, j, "<=", 0);
  }

  lemma RelHitLt(line: string, j: nat)
    requires Clean(line) && OpAt(line, j, Lt)
    ensures OpIndex(Lt) < |RelOps| && RelOps[OpIndex(Lt)] == (OpTok(Lt), Lt)
    ensures Starts(line, j, OpTok(Lt))
    ensures forall m :: 0 <= m < OpIndex(Lt) ==> !Starts(line, j, RelOps[m].0)
  {
    OpHead(line, j, Lt);
    WordMissAt(line, j, "!=", 0);
    WordMissAt(line, j, "<>", 1);
    WordMissAt(line, j, "==", 0);
    WordMissAt(line, j, ">=", 0);
    WordMissAt(line, j, "<=", 1);
  }

  /** Any other operator's printed spelling is the first alternative of its strength that matches. */
  lemma LevelHit(line: string, j: nat, op: BinOp)
    requires Clean(line) && OpStage(op) != 3 && OpAt(line, j, op)
    ensures var ops := Ops(LevelAt(OpStage(op)));
            && OpIndex(op) < |ops| && ops[OpIndex(op)] == (OpTok(op), op)
            && (forall m :: 0 <= m < |ops| ==> ValidTok(ops[m].0))
            && Starts(line, j, OpTok(op))
            && (forall m :: 0 <= m < OpIndex(op) ==> !Starts(line, j, ops[m].0))
  {
    OpHead(line, j, op);
    match op
    case And =>
      WordMissAt(line, j, "and", 0);
    case Or =>
      WordMissAt(line, j, "or", 0);
    case Xor =>
      WordMissAt(line, j, "xor", 0);
    case _ =>
  }

  lemma RelSkip(line: string, funcs: map<string, int>, x: Expr, j: nat, syms: set<string>, i: nat, k: nat)
    requires Clean(line) && i <= k < |RelOps|
    requires forall m :: i <= m < k ==> !Starts(line, j, RelOps[m].0)
    ensures RelSteps(line, funcs, x, At(line, j, syms), i) == RelSteps(line, funcs, x, At(line, j, syms), k)
    decreases k - i
  {
    if i < k {
      MissTok(line, j, syms, RelOps[i].0);
      RelSkip(line, funcs, x, j, syms, i + 1, k);
    }
  }

  /** An operator loop that meets its own operator builds the node and stops where the right operand closes. */
  lemma TailHit(line: string, funcs: map<string, int>, op: BinOp, a: Expr, b: Expr,
                j: nat, k: nat, syms: set<string>, syms2: set<string>)
    requires Clean(line) && OpAt(line, j, op)
    requires ParseAt(line, funcs, OpStage(op) - 1, At(line, j + |TokText(OpTok(op))|, syms)) == Ok(b, At(line, k, syms2))
    requires Closes(line, k, OpStage(op))
    ensures Tail(line, funcs, OpStage(op), a, At(line, j, syms)) == Ok(Bin(op, a, b), At(line, k, syms2))
  {
    if OpStage(op) == 3 {
      RelTailHit(line, funcs, op, a, b, j, k, syms, syms2);
    } else {
      LevelTailHit(line, funcs, op, a, b, j, k, syms, syms2);
    }
  }

  lemma RelTailHit(line: string, funcs: map<string, int>, op: BinOp, a: Expr, b: Expr,
                   j: nat, k: nat, syms: set<string>, syms2: set<string>)
    requires Clean(line) && OpStage(op) == 3 && OpAt(line, j, op)
    requires ParseBinary(line, funcs, AddLevel, At(line, j + |TokText(OpTok(op))|, syms)) == Ok(b, At(line, k, syms2))
    requires Closes(line, k, 3)
    ensures RelTail(line, funcs, a, At(line, j, syms)) == Ok(Bin(op, a, b), At(line, k, syms2))
  {
    var i := OpIndex(op);
    var cur := At(line, j, syms);
    var after := At(line, k, syms2);
    RelHit(line, j, op);
    HitTok(line, j, syms, OpTok(op));
    if i + 1 < |RelOps| {
      RelMiss(line, funcs, Bin(op, a, b), k, syms2, i + 1);
    } else {
      RelMiss(line, funcs, Bin(op, a, b), k, syms2, 0);
    }
    RelSkip(line, funcs, a, j, syms, 0, i);
    RelStep(line, funcs, a, cur, i, At(line, j + |TokText(OpTok(op))|, syms), b, after);
  }

  /** A comparison statement that matches builds the node and hands it to the next statement, or to the next pass. */
  lemma RelStep(line: string, funcs: map<string, int>, x: Expr, cur: Cursor, i: nat, next: Cursor, y: Expr, after: Cursor)
    requires Valid(line, cur) && Valid(line, next) && Valid(line, after) && i < |RelOps|
    requires AdvTok(line, cur, RelOps[i].0) == Ok(true, next)
    requires ParseBinary(line, funcs, AddLevel, next) == Ok(y, after)
    ensures i + 1 < |RelOps| ==> RelSteps(line, funcs, x, cur, i) == RelSteps(line, funcs, Bin(RelOps[i].1, x, y), after, i + 1)
    ensures i + 1 == |RelOps| ==> RelSteps(line, funcs, x, cur, i) == RelTail(line, funcs, Bin(RelOps[i].1, x, y), after)
  {
  }

  lemma LevelTailHit(line: string, funcs: map<string, int>, op: BinOp, a: Expr, b: Expr,
                     j: nat, k: nat, syms: set<string>, syms2: set<string>)
    requires Clean(line) && OpStage(op) != 3 && OpAt(line, j, op)
    requires ParseAt(line, funcs, OpStage(op) - 1, At(line, j + |TokText(OpTok(op))|, syms)) == Ok(b, At(line, k, syms2))
    requires Closes(line, k, OpStage(op))
    ensures BinaryTail(line, funcs, LevelAt(OpStage(op)), a, At(line, j, syms)) == Ok(Bin(op, a, b), At(line, k, syms2))
  {
    var s := OpStage(op);
    var next := At(line, j + |TokText(OpTok(op))|, syms);
    LevelHit(line, j, op);
    TryOpsHit(line, j, syms, Ops(LevelAt(s)), 0, OpIndex(op));
    TailMiss(line, funcs, s, Bin(op, a, b), k, syms2);
    BelowAt(line, funcs, s, next);
    LoopStep(line, funcs, LevelAt(s), a, At(line, j, syms), op, next, b, At(line, k, syms2));
  }

  /** One pass of an operator loop: the operator and the operand after it are folded into the left operand. */
  lemma LoopStep(line: string, funcs: map<string, int>, lv: Level, x: Expr, cur: Cursor,
                 op: BinOp, next: Cursor, y: Expr, after: Cursor)
    requires Valid(line, cur) && Valid(line, next) && Valid(line, after)
    requires TryOps(line, cur, Ops(lv), 0) == Ok(Some(op), next)
    requires ParseBelow(line, funcs, lv, next) == Ok(y, after)
    ensures BinaryTail(line, funcs, lv, x, cur) == BinaryTail(line, funcs, lv, Bin(op, x, y), after)
  {
  }

  /** A strength stops where its operand closes. */
  lemma ClimbMiss(line: string, funcs: map<string, int>, s: nat, x: Expr, j: nat, k: nat,
                  syms: set<string>, syms2: set<string>)
    requires Clean(line) && 1 <= s <= 6 && Closes(line, k, s)
    requires ParseAt(line, funcs, s - 1, At(line, j, syms)) == Ok(x, At(line, k, syms2))
    ensures ParseAt(line, funcs, s, At(line, j, syms)) == Ok(x, At(line, k, syms2))
  {
    Climb(line, funcs, s, At(line, j, syms), x, At(line, k, syms2));
    TailMiss(line, funcs, s, x, k, syms2);
  }

  /** An operator's own strength joins its two operands. */
  lemma ClimbHit(line: string, funcs: map<string, int>, op: BinOp, a: Expr, b: Expr, j: nat, jo: nat, k: nat,
                 syms: set<string>, syms1: set<string>, syms2: set<string>)
    requires Clean(line) && Closes(line, k, OpStage(op))
    requires ParseAt(line, funcs, OpStage(op) - 1, At(line, j, syms)) == Ok(a, At(line, jo, syms1))
    requires OpAt(line, jo, op)
    requires ParseAt(line, funcs, OpStage(op) - 1, At(line, jo + |TokText(OpTok(op))|, syms1)) == Ok(b, At(line, k, syms2))
    ensures ParseAt(line, funcs, OpStage(op), At(line, j, syms)) == Ok(Bin(op, a, b), At(line, k, syms2))
  {
    Climb(line, funcs, OpStage(op), At(line, j, syms), a, At(line, jo, syms1));
    TailHit(line, funcs, op, a, b, jo, k, syms1, syms2);
  }

  // ---- Factors ------------------------------------------------------------

  /** No sign in front: `arith_fact` goes straight to the rest. */
  lemma Unsigned(line: string, funcs: map<string, int>, j: nat, syms: set<string>)
    requires Clean(line) && CharAt(line, j) != '+' && CharAt(line, j) != '-'
    ensures ParseAt(line, funcs, 0, At(line, j, syms)) == FactRest(line, funcs, At(line, j, syms))
  {
    MissTok(line, j, syms, Ch('+'));
    MissTok(line, j, syms, Ch('-'));
  }

  /** Neither `!` nor `(`: a number, a name, or an error. */
  lemma Plain(line: string, funcs: map<string, int>, j: nat, syms: set<string>)
    requires Clean(line) && CharAt(line, j) != '!' && CharAt(line, j) != '('
    ensures '0' <= CharAt(line, j) <= '9' ==>
              FactRest(line, funcs, At(line, j, syms)) == ConstNumber(line, At(line, j, syms))
    ensures 'a' <= CharAt(line, j) <= 'z' ==>
              FactRest(line, funcs, At(line, j, syms)) == Atom(line, funcs, At(line, j, syms))
  {
    MissTok(line, j, syms, Ch('!'));
    MissTok(line, j, syms, Ch('('));
  }

  /** `(x)` read as a factor is x. */
  lemma ParenFact(line: string, funcs: map<string, int>, x: Expr, j: nat, k: nat, syms: set<string>, syms2: set<string>)
    requires Clean(line) && j < k < |line| && line[j] == '(' && line[k] == ')'
    requires ParseAt(line, funcs, 6, At(line, j + 1, syms)) == Ok(x, At(line, k, syms2))
    ensures ParseAt(line, funcs, 0, At(line, j, syms)) == Ok(x, At(line, k + 1, syms2))
  {
    Unsigned(line, funcs, j, syms);
    MissTok(line, j, syms, Ch('!'));
    HitTok(line, j, syms, Ch('('));
    ParseExprAt(line, funcs, At(line, j + 1, syms));
    HitTok(line, k, syms2, Ch(')'));
  }

  lemma NegFact(line: string, funcs: map<string, int>, a: Expr, j: nat, k: nat, syms: set<string>, syms2: set<string>)
    requires Clean(line) && j + 1 < k < |line| && line[j] == '-' && line[j + 1] == '(' && line[k] == ')'
    requires ParseAt(line, funcs, 6, At(line, j + 2, syms)) == Ok(a, At(line, k, syms2))
    ensures ParseAt(line, funcs, 0, At(line, j, syms)) == Ok(Neg(a), At(line, k + 1, syms2))
  {
    ParenFact(line, funcs, a, j + 1, k, syms, syms2);
    MissTok(line, j, syms, Ch('+'));
    HitTok(line, j, syms, Ch('-'));
    MissTok(line, j + 1, syms, Ch('-'));
  }

  lemma NotFact(line: string, funcs: map<string, int>, a: Expr, j: nat, k: nat, syms: set<string>, syms2: set<string>)
    requires Clean(line) && j + 1 < k < |line| && line[j] == '!' && line[j + 1] == '(' && line[k] == ')'
    requires ParseAt(line, funcs, 6, At(line, j + 2, syms)) == Ok(a, At(line, k, syms2))
    ensures ParseAt(line, funcs, 0, At(line, j, syms)) == Ok(Not(a), At(line, k + 1, syms2))
  {
    ParenFact(line, funcs, a, j + 1, k, syms, syms2);
    Unsigned(line, funcs, j, syms);
    HitTok(line, j, syms, Ch('!'));
  }

  lemma DigitRun(line: string, j: nat, f: nat, syms: set<string>)
    requires Clean(line) && j <= f <= |line|
    requires forall k :: j <= k < f ==> '0' <= line[k] <= '9'
    requires f < |line| ==> !('0' <= line[f] <= '9')
    ensures DigitLoop(line, At(line, j, syms)) == Ok((), At(line, f, syms))
    decreases f - j
  {
    if j < f {
      AdvAt(line, j, syms);
      DigitRun(line, j + 1, f, syms);
    }
  }

  lemma ConstFact(line: string, funcs: map<string, int>, v: Int32, j: nat, f: nat, syms: set<string>)
    requires Clean(line) && DigitsAt(line, j, f) && DecimalValue(line[j..f]) == v
    ensures ParseAt(line, funcs, 0, At(line, j, syms)) == Ok(Const(v), At(line, f, syms))
  {
    Unsigned(line, funcs, j, syms);
    Plain(line, funcs, j, syms);
    DigitRun(line, j, f, syms);
  }

  lemma LitRun(line: string, j: nat, f: nat, syms: set<string>)
    requires Clean(line) && j <= f <= |line|
    requires forall k :: j <= k < f ==> IsLitChar(line[k])
    requires f < |line| ==> !IsLitChar(LowerAscii(line[f]))
    ensures LiteralLoop(line, At(line, j, syms)) == Ok((), At(line, f, syms))
    decreases f - j
  {
    if j < f {
      AdvAt(line, j, syms);
      LitRun(line, j + 1, f, syms);
    }
  }

  lemma LowerName(n: string)
    requires forall i :: 0 <= i < |n| ==> IsLitChar(n[i])
    ensures LowerString(n) == n
  {
  }

  /** A name starts with a lower-case letter, which the parser sees unchanged. */
  lemma NameStart(line: string, j: nat, n: string)
    requires IsName(n) && NameAt(line, j, n)
    ensures j < |line| && line[j] == n[0] && CharAt(line, j) == n[0] && 'a' <= n[0] <= 'z'
  {
    assert line[j..j + |n|][0] == line[j];
  }

  /** `const_literal` reads a whole name and nothing after it. */
  lemma NameFact(line: string, n: string, j: nat, syms: set<string>)
    requires Clean(line) && IsName(n) && NameAt(line, j, n)
    requires j + |n| < |line| ==> !IsLitChar(LowerAscii(line[j + |n|]))
    ensures j < |line| && line[j] == n[0]
    ensures ConstLiteral(line, At(line, j, syms)) == Ok(n, At(line, j + |n|, syms))
  {
    assert line[j..j + |n|][0] == line[j];
    LitRun(line, j, j + |n|, syms);
    LowerName(n);
  }

  /** A name that is neither `not` nor followed by `(` is a symbol reference. */
  lemma AtomVar(line: string, funcs: map<string, int>, n: string, cur: Cursor, c1: Cursor)
    requires Valid(line, cur) && 'a' <= cur.c <= 'z' && Valid(line, c1)
    requires ConstLiteral(line, cur) == Ok(n, c1) && n != "not" && n !in funcs
    requires AdvTok(line, c1, Ch('(')) == Ok(false, c1)
    ensures Atom(line, funcs, cur) == Ok(VarRef(n), c1.(syms := c1.syms + {n}))
  {
  }

  /** A name other than `not` followed by `(` is a call. */
  lemma AtomCall(line: string, funcs: map<string, int>, n: string, cur: Cursor, c1: Cursor, c2: Cursor)
    requires Valid(line, cur) && 'a' <= cur.c <= 'z' && Valid(line, c1) && Valid(line, c2)
    requires ConstLiteral(line, cur) == Ok(n, c1) && n != "not"
    requires AdvTok(line, c1, Ch('(')) == Ok(true, c2)
    ensures Atom(line, funcs, cur) == CallArgs(line, funcs, n, c2)
  {
  }

  /** A name read as a factor goes through `atom`. */
  lemma NameAtom(line: string, funcs: map<string, int>, n: string, j: nat, syms: set<string>)
    requires Clean(line) && IsName(n) && NameAt(line, j, n)
    ensures 'a' <= At(line, j, syms).c <= 'z'
    ensures ParseAt(line, funcs, 0, At(line, j, syms)) == Atom(line, funcs, At(line, j, syms))
  {
    NameStart(line, j, n);
    Unsigned(line, funcs, j, syms);
    Plain(line, funcs, j, syms);
  }

  lemma VarFact(line: string, funcs: map<string, int>, n: string, j: nat, syms: set<string>)
    requires Clean(line) && IsName(n) && n != "not" && n !in funcs
    requires NameAt(line, j, n) && Closes(line, j + |n|, 0)
    ensures ParseAt(line, funcs, 0, At(line, j, syms)) == Ok(VarRef(n), At(line, j + |n|, syms + {n}))
  {
    var cur := At(line, j, syms);
    var c1 := At(line, j + |n|, syms);
    MissTok(line, j + |n|, syms, Ch('('));
    NameFact(line, n, j, syms);
    AtomVar(line, funcs, n, cur, c1);
    assert c1.(syms := c1.syms + {n}) == At(line, j + |n|, syms + {n});
    NameAtom(line, funcs, n, j, syms);
  }

  /** A name followed by `(` is a call: the argument list is read next. */
  lemma CallFact(line: string, funcs: map<string, int>, n: string, j: nat, syms: set<string>)
    requires Clean(line) && IsName(n) && n != "not" && NameAt(line, j, n)
    requires j + |n| < |line| && line[j + |n|] == '('
    ensures ParseAt(line, funcs, 0, At(line, j, syms)) == CallArgs(line, funcs, n, At(line, j + |n| + 1, syms))
  {
    var cur := At(line, j, syms);
    var c1 := At(line, j + |n|, syms);
    HitTok(line, j + |n|, syms, Ch('('));
    NameFact(line, n, j, syms);
    AtomCall(line, funcs, n, cur, c1, At(line, j + |n| + 1, syms));
    NameAtom(line, funcs, n, j, syms);
  }

  lemma CallNoArgs(line: string, funcs: map<string, int>, n: string, j: nat, syms: set<string>)
    requires Clean(line) && IsName(n) && n != "not" && n in funcs && funcs[n] <= 0 && NameAt(line, j, n)
    requires j + |n| + 1 < |line| && line[j + |n|] == '(' && line[j + |n| + 1] == ')'
    ensures ParseAt(line, funcs, 0, At(line, j, syms)) == Ok(Func(n, []), At(line, j + |n| + 2, syms))
  {
    CallFact(line, funcs, n, j, syms);
    HitTok(line, j + |n| + 1, syms, Ch(')'));
  }

  lemma CallSomeArgs(line: string, funcs: map<string, int>, n: string, args: seq<Expr>, j: nat, k1: nat, k: nat,
                     syms: set<string>, syms1: set<string>, syms2: set<string>)
    requires Clean(line) && IsName(n) && n != "not" && n in funcs && NameAt(line, j, n)
    requires |args| > 0 && (funcs[n] < 0 || funcs[n] == |args|)
    requires j + |n| + 1 < |line| && line[j + |n|] == '(' && line[j + |n| + 1] != ')'
    requires k < |line| && line[k] == ')'
    requires ParseAt(line, funcs, 6, At(line, j + |n| + 1, syms)) == Ok(args[0], At(line, k1, syms1))
    requires ArgsAt(line, funcs, At(line, k1, syms1)) == Ok(args[1..], At(line, k, syms2))
    ensures ParseAt(line, funcs, 0, At(line, j, syms)) == Ok(Func(n, args), At(line, k + 1, syms2))
  {
    var ja := j + |n| + 1;
    MissTok(line, ja, syms, Ch(')'));
    HitTok(line, k, syms2, Ch(')'));
    ParseExprAt(line, funcs, At(line, ja, syms));
    CallStep(line, funcs, n, At(line, ja, syms), args[0], At(line, k1, syms1), args[1..], At(line, k, syms2), At(line, k + 1, syms2));
    assert [args[0]] + args[1..] == args;
    CallFact(line, funcs, n, j, syms);
  }

  /** The argument list of a call that has arguments: the first `expr()`, the loop, the closing parenthesis, the arity check. */
  lemma CallStep(line: string, funcs: map<string, int>, n: string, cur: Cursor, x: Expr, c1: Cursor, rest: seq<Expr>,
                 c2: Cursor, c3: Cursor)
    requires Valid(line, cur) && Valid(line, c1) && Valid(line, c2) && Valid(line, c3)
    requires AdvTok(line, cur, Ch(')')) == Ok(false, cur)
    requires ParseExpr(line, funcs, cur) == Ok(x, c1)
    requires ArgsAt(line, funcs, c1) == Ok(rest, c2)
    requires AdvTok(line, c2, Ch(')')) == Ok(true, c3)
    requires n in funcs && (funcs[n] < 0 || funcs[n] == 1 + |rest|)
    ensures CallArgs(line, funcs, n, cur) == Ok(Func(n, [x] + rest), c3)
  {
  }

  lemma ArgsEnd(line: string, funcs: map<string, int>, j: nat, syms: set<string>)
    requires Clean(line) && j < |line| && line[j] == ')'
    ensures ArgsAt(line, funcs, At(line, j, syms)) == Ok([], At(line, j, syms))
  {
    MissTok(line, j, syms, Ch(','));
  }

  lemma ArgsStep(line: string, funcs: map<string, int>, x: Expr, rest: seq<Expr>, j: nat, k1: nat, k: nat,
                 syms: set<string>, syms1: set<string>, syms2: set<string>)
    requires Clean(line) && j < |line| && line[j] == ','
    requires ParseAt(line, funcs, 6, At(line, j + 1, syms)) == Ok(x, At(line, k1, syms1))
    requires ArgsAt(line, funcs, At(line, k1, syms1)) == Ok(rest, At(line, k, syms2))
    ensures ArgsAt(line, funcs, At(line, j, syms)) == Ok([x] + rest, At(line, k, syms2))
  {
    HitTok(line, j, syms, Ch(','));
    ParseExprAt(line, funcs, At(line, j + 1, syms));
  }

  // ---- Reading printed text back ------------------------------------------

  /**
   * Read at any strength, a printed expression is read back whole, the
   * cursor stops right after it, and the names it references are added to
   * the symbols.
   */
  lemma {:induction false} ParsesAt(line: string, funcs: map<string, int>, e: Expr, s: nat, j: nat, syms: set<string>)
    requires Clean(line) && s <= 6 && Printable(e, funcs)
    requires Has(line, j, Print(e)) && Closes(line, j + |Print(e)|, s)
    ensures ParseAt(line, funcs, s, At(line, j, syms)) == Ok(e, At(line, j + |Print(e)|, syms + Vars(e)))
    decreases e, 1, s, 0
  {
    if s > 0 {
      ParsesAt(line, funcs, e, s - 1, j, syms);
      ClimbMiss(line, funcs, s, e, j, j + |Print(e)|, syms, syms + Vars(e));
    } else {
      match e
      case Const(_) => ConstAt(line, funcs, e, j, syms);
      case VarRef(_) => VarAt(line, funcs, e, j, syms);
      case Neg(_) => NegAt(line, funcs, e, j, syms);
      case Not(_) => NotAt(line, funcs, e, j, syms);
      case Bin(_, _, _) => ParenAt(line, funcs, e, j, syms);
      case Func(_, _) => FuncAt(line, funcs, e, j, syms);
    }
  }

  lemma ConstAt(line: string, funcs: map<string, int>, e: Expr, j: nat, syms: set<string>)
    requires Clean(line) && e.Const? && Printable(e, funcs)
    requires Has(line, j, Print(e)) && Closes(line, j + |Print(e)|, 0)
    ensures ParseAt(line, funcs, 0, At(line, j, syms)) == Ok(e, At(line, j + |Print(e)|, syms + Vars(e)))
  {
    ConstLayout(line, j, e.value as nat);
    ConstFact(line, funcs, e.value, j, j + |Print(e)|, syms);
    assert syms + Vars(e) == syms;
  }

  lemma VarAt(line: string, funcs: map<string, int>, e: Expr, j: nat, syms: set<string>)
    requires Clean(line) && e.VarRef? && Printable(e, funcs)
    requires Has(line, j, Print(e)) && Closes(line, j + |Print(e)|, 0)
    ensures ParseAt(line, funcs, 0, At(line, j, syms)) == Ok(e, At(line, j + |Print(e)|, syms + Vars(e)))
  {
    NameLayout(line, j, e.name);
    VarFact(line, funcs, e.name, j, syms);
  }

  lemma {:induction false} NegAt(line: string, funcs: map<string, int>, e: Expr, j: nat, syms: set<string>)
    requires Clean(line) && e.Neg? && Printable(e, funcs) && Has(line, j, Print(e))
    ensures ParseAt(line, funcs, 0, At(line, j, syms)) == Ok(e, At(line, j + |Print(e)|, syms + Vars(e)))
    decreases e, 0, 0, 0
  {
    var a := e.arg;
    WrapLayout(line, j, "-(", a);
    ParsesAt(line, funcs, a, 6, j + 2, syms);
    NegFact(line, funcs, a, j, j + 2 + |Print(a)|, syms, syms + Vars(a));
  }

  lemma {:induction false} NotAt(line: string, funcs: map<string, int>, e: Expr, j: nat, syms: set<string>)
    requires Clean(line) && e.Not? && Printable(e, funcs) && Has(line, j, Print(e))
    ensures ParseAt(line, funcs, 0, At(line, j, syms)) == Ok(e, At(line, j + |Print(e)|, syms + Vars(e)))
    decreases e, 0, 0, 0
  {
    var a := e.arg;
    WrapLayout(line, j, "!(", a);
    ParsesAt(line, funcs, a, 6, j + 2, syms);
    NotFact(line, funcs, a, j, j + 2 + |Print(a)|, syms, syms + Vars(a));
  }

  /** A printed operation is its inside in parentheses. */
  lemma {:induction false} ParenAt(line: string, funcs: map<string, int>, e: Expr, j: nat, syms: set<string>)
    requires Clean(line) && e.Bin? && Printable(e, funcs) && Has(line, j, Print(e))
    ensures ParseAt(line, funcs, 0, At(line, j, syms)) == Ok(e, At(line, j + |Print(e)|, syms + Vars(e)))
    decreases e, 0, 7, 1
  {
    var inner := Inner(e.op, e.lhs, e.rhs);
    BinLayout(line, j, e.op, e.lhs, e.rhs);
    BinAt(line, funcs, e.op, e.lhs, e.rhs, 6, j + 1, syms);
    ParenFact(line, funcs, e, j, j + 1 + |inner|, syms, syms + Vars(e));
  }

  /** The inside of a printed operation, read at its operator's strength or looser, is that operation. */
  lemma {:induction false} BinAt(line: string, funcs: map<string, int>, op: BinOp, a: Expr, b: Expr,
                                 s: nat, j: nat, syms: set<string>)
    requires Clean(line) && OpStage(op) <= s <= 6 && Printable(a, funcs) && Printable(b, funcs)
    requires Has(line, j, Inner(op, a, b)) && Closes(line, j + |Inner(op, a, b)|, s)
    ensures ParseAt(line, funcs, s, At(line, j, syms))
            == Ok(Bin(op, a, b), At(line, j + |Inner(op, a, b)|, syms + Vars(Bin(op, a, b))))
    decreases Bin(op, a, b), 0, s, 3
  {
    if s > OpStage(op) {
      var e := Bin(op, a, b);
      BinAt(line, funcs, op, a, b, s - 1, j, syms);
      ClimbMiss(line, funcs, s, e, j, j + |Inner(op, a, b)|, syms, syms + Vars(e));
    } else {
      BinBase(line, funcs, op, a, b, j, syms);
    }
  }

  /** At its operator's own strength, the inside of a printed operation is read as the two operands joined. */
  lemma {:induction false} BinBase(line: string, funcs: map<string, int>, op: BinOp, a: Expr, b: Expr,
                                   j: nat, syms: set<string>)
    requires Clean(line) && Printable(a, funcs) && Printable(b, funcs)
    requires Has(line, j, Inner(op, a, b)) && Closes(line, j + |Inner(op, a, b)|, OpStage(op))
    ensures ParseAt(line, funcs, OpStage(op), At(line, j, syms))
            == Ok(Bin(op, a, b), At(line, j + |Inner(op, a, b)|, syms + Vars(Bin(op, a, b))))
    decreases Bin(op, a, b), 0, OpStage(op), 2
  {
    var jo := j + |Print(a)|;
    var jb := jo + |TokText(OpTok(op))|;
    var k := j + |Inner(op, a, b)|;
    BinSplit(line, j, jo, jb, k, op, a, b, funcs);
    BinVars(syms, op, a, b);
    ParsesAt(line, funcs, a, OpStage(op) - 1, j, syms);
    BinRight(line, funcs, op, a, b, j, jo, jb, k, syms, syms + Vars(a), syms + Vars(Bin(op, a, b)));
  }

  /** With the left operand read, the right one is read after the operator and the two are joined. */
  lemma {:induction false} BinRight(line: string, funcs: map<string, int>, op: BinOp, a: Expr, b: Expr,
                                    j: nat, jo: nat, jb: nat, k: nat, syms: set<string>, syms1: set<string>, syms2: set<string>)
    requires Clean(line) && Printable(b, funcs)
    requires jb == jo + |TokText(OpTok(op))| && k == jb + |Print(b)| && syms2 == syms1 + Vars(b)
    requires ParseAt(line, funcs, OpStage(op) - 1, At(line, j, syms)) == Ok(a, At(line, jo, syms1))
    requires OpAt(line, jo, op)
    requires Has(line, jb, Print(b)) && Closes(line, k, OpStage(op) - 1) && Closes(line, k, OpStage(op))
    ensures ParseAt(line, funcs, OpStage(op), At(line, j, syms)) == Ok(Bin(op, a, b), At(line, k, syms2))
    decreases Bin(op, a, b), 0, OpStage(op), 0
  {
    ParsesAt(line, funcs, b, OpStage(op) - 1, jb, syms1);
    ClimbHit(line, funcs, op, a, b, j, jo, k, syms, syms1, syms2);
  }

  lemma BinVars(syms: set<string>, op: BinOp, a: Expr, b: Expr)
    ensures syms + Vars(a) + Vars(b) == syms + Vars(Bin(op, a, b))
  {
  }

  /** Where the pieces of a printed operation's inside sit, and that each operand closes before the next piece. */
  lemma BinSplit(line: string, j: nat, jo: nat, jb: nat, k: nat, op: BinOp, a: Expr, b: Expr, funcs: map<string, int>)
    requires Printable(b, funcs)
    requires jo == j + |Print(a)| && jb == jo + |TokText(OpTok(op))| && k == j + |Inner(op, a, b)|
    requires Has(line, j, Inner(op, a, b)) && Closes(line, k, OpStage(op))
    ensures k == jb + |Print(b)|
    ensures Has(line, j, Print(a)) && Closes(line, jo, OpStage(op) - 1)
    ensures OpAt(line, jo, op)
    ensures Has(line, jb, Print(b)) && Closes(line, k, OpStage(op) - 1)
  {
    InnerText(line, j, op, a, b);
    OpParts(line, j, op, a, b, funcs);
  }

  lemma InnerText(line: string, j: nat, op: BinOp, a: Expr, b: Expr)
    requires Has(line, j, Inner(op, a, b)) && Closes(line, j + |Inner(op, a, b)|, OpStage(op))
    ensures |Inner(op, a, b)| == |Print(a)| + |TokText(OpTok(op))| + |Print(b)|
    ensures Has(line, j, Print(a) + TokText(OpTok(op)) + Print(b))
    ensures Closes(line, j + |Print(a)| + |TokText(OpTok(op))| + |Print(b)|, OpStage(op))
  {
    assert Inner(op, a, b) == Print(a) + TokText(OpTok(op)) + Print(b);
  }

  lemma OpParts(line: string, j: nat, op: BinOp, a: Expr, b: Expr, funcs: map<string, int>)
    requires Printable(b, funcs)
    requires Has(line, j, Print(a) + TokText(OpTok(op)) + Print(b))
    requires Closes(line, j + |Print(a)| + |TokText(OpTok(op))| + |Print(b)|, OpStage(op))
    ensures Has(line, j, Print(a)) && Closes(line, j + |Print(a)|, OpStage(op) - 1)
    ensures OpAt(line, j + |Print(a)|, op)
    ensures Has(line, j + |Print(a)| + |TokText(OpTok(op))|, Print(b))
    ensures Closes(line, j + |Print(a)| + |TokText(OpTok(op))| + |Print(b)|, OpStage(op) - 1)
  {
    PrintStart(b, funcs);
    OpTokStage(op);
    OpSplit(line, j, Print(a), TokText(OpTok(op)), Print(b), OpStage(op));
  }

  /** A printed call is read back as that call. */
  lemma {:induction false} FuncAt(line: string, funcs: map<string, int>, e: Expr, j: nat, syms: set<string>)
    requires Clean(line) && e.Func? && Printable(e, funcs) && Has(line, j, Print(e))
    ensures ParseAt(line, funcs, 0, At(line, j, syms)) == Ok(e, At(line, j + |Print(e)|, syms + Vars(e)))
    decreases e, 0, |e.args|, 3
  {
    if |e.args| == 0 {
      FuncNoArgsAt(line, funcs, e, j, syms);
    } else {
      FuncArgsAt(line, funcs, e, j, syms);
    }
  }

  lemma FuncNoArgsAt(line: string, funcs: map<string, int>, e: Expr, j: nat, syms: set<string>)
    requires Clean(line) && e.Func? && |e.args| == 0 && Printable(e, funcs) && Has(line, j, Print(e))
    ensures ParseAt(line, funcs, 0, At(line, j, syms)) == Ok(e, At(line, j + |Print(e)|, syms + Vars(e)))
  {
    CallParts(e, funcs);
    CallLayout(line, j, e);
    CallNoArgs(line, funcs, e.name, j, syms);
    assert e == Func(e.name, []);
  }

  lemma {:induction false} FuncArgsAt(line: string, funcs: map<string, int>, e: Expr, j: nat, syms: set<string>)
    requires Clean(line) && e.Func? && |e.args| > 0 && Printable(e, funcs) && Has(line, j, Print(e))
    ensures ParseAt(line, funcs, 0, At(line, j, syms)) == Ok(e, At(line, j + |Print(e)|, syms + Vars(e)))
    decreases e, 0, |e.args|, 2
  {
    var k1 := j + |e.name| + 1 + |Print(e.args[0])|;
    ArgsLayout(line, j, e, funcs);
    CallVars(syms, e);
    FuncJoin(line, funcs, e, j, k1, k1 + |PrintArgs(e, 1)|, syms, syms + Vars(e.args[0]), syms + Vars(e));
  }

  /** The first argument read back as an `expr()`, the rest by the argument loop, and the call built from them. */
  lemma {:induction false} FuncJoin(line: string, funcs: map<string, int>, e: Expr, j: nat, k1: nat, k: nat,
                                    syms: set<string>, syms1: set<string>, syms2: set<string>)
    requires Clean(line) && e.Func? && |e.args| > 0
    requires IsName(e.name) && e.name != "not" && e.name in funcs && (funcs[e.name] < 0 || funcs[e.name] == |e.args|)
    requires forall m :: 0 <= m < |e.args| ==> Printable(e.args[m], funcs)
    requires NameAt(line, j, e.name) && j + |e.name| + 1 < |line| && line[j + |e.name|] == '('
    requires Has(line, j + |e.name| + 1, Print(e.args[0])) && line[j + |e.name| + 1] != ')'
    requires k1 == j + |e.name| + 1 + |Print(e.args[0])| && Closes(line, k1, 6)
    requires Has(line, k1, PrintArgs(e, 1)) && k == k1 + |PrintArgs(e, 1)| && k < |line| && line[k] == ')'
    requires syms1 == syms + Vars(e.args[0]) && syms2 == syms1 + VarsFrom(e, 1)
    ensures ParseAt(line, funcs, 0, At(line, j, syms)) == Ok(e, At(line, k + 1, syms2))
    decreases e, 0, |e.args|, 1
  {
    ParsesAt(line, funcs, e.args[0], 6, j + |e.name| + 1, syms);
    FuncRight(line, funcs, e, j, k1, k, syms, syms1, syms2);
  }

  /** With the first argument read, the argument loop reads the rest and the call is built. */
  lemma {:induction false} FuncRight(line: string, funcs: map<string, int>, e: Expr, j: nat, k1: nat, k: nat,
                                     syms: set<string>, syms1: set<string>, syms2: set<string>)
    requires Clean(line) && e.Func? && |e.args| > 0
    requires IsName(e.name) && e.name != "not" && e.name in funcs && (funcs[e.name] < 0 || funcs[e.name] == |e.args|)
    requires forall m :: 0 <= m < |e.args| ==> Printable(e.args[m], funcs)
    requires NameAt(line, j, e.name) && j + |e.name| + 1 < |line| && line[j + |e.name|] == '(' && line[j + |e.name| + 1] != ')'
    requires ParseAt(line, funcs, 6, At(line, j + |e.name| + 1, syms)) == Ok(e.args[0], At(line, k1, syms1))
    requires Has(line, k1, PrintArgs(e, 1)) && k == k1 + |PrintArgs(e, 1)| && k < |line| && line[k] == ')'
    requires syms2 == syms1 + VarsFrom(e, 1)
    ensures ParseAt(line, funcs, 0, At(line, j, syms)) == Ok(e, At(line, k + 1, syms2))
    decreases e, 0, |e.args|, 0
  {
    ArgsTailAt(line, funcs, e, 1, k1, syms1);
    CallSomeArgs(line, funcs, e.name, e.args, j, k1, k, syms, syms1, syms2);
    assert e == Func(e.name, e.args);
  }

  /** Where the name, the first argument and the rest of a printed call with arguments sit. */
  lemma ArgsLayout(line: string, j: nat, e: Expr, funcs: map<string, int>)
    requires e.Func? && |e.args| > 0 && Printable(e, funcs) && Has(line, j, Print(e))
    ensures IsName(e.name) && e.name != "not" && e.name in funcs && (funcs[e.name] < 0 || funcs[e.name] == |e.args|)
    ensures Printable(e.args[0], funcs) && forall m :: 0 <= m < |e.args| ==> Printable(e.args[m], funcs)
    ensures NameAt(line, j, e.name) && j + |e.name| + 1 < |line| && line[j + |e.name|] == '('
    ensures Has(line, j + |e.name| + 1, Print(e.args[0])) && line[j + |e.name| + 1] != ')'
    ensures Closes(line, j + |e.name| + 1 + |Print(e.args[0])|, 6)
    ensures Has(line, j + |e.name| + 1 + |Print(e.args[0])|, PrintArgs(e, 1))
    ensures j + |e.name| + 1 + |Print(e.args[0])| + |PrintArgs(e, 1)| < |line|
    ensures line[j + |e.name| + 1 + |Print(e.args[0])| + |PrintArgs(e, 1)|] == ')'
    ensures j + |e.name| + 1 + |Print(e.args[0])| + |PrintArgs(e, 1)| + 1 == j + |Print(e)|
  {
    CallParts(e, funcs);
    CallLayout(line, j, e);
    ArgsStart(e, 0);
    FirstArgLayout(line, j + |e.name| + 1, e, funcs);
  }

  /** The names a call reads are those of its first argument and of the rest. */
  lemma CallVars(syms: set<string>, e: Expr)
    requires e.Func? && |e.args| > 0
    ensures syms + Vars(e.args[0]) + VarsFrom(e, 1) == syms + Vars(e)
  {
    assert Vars(e) == VarsFrom(e, 0) == Vars(e.args[0]) + VarsFrom(e, 1);
  }

  /** `while(adv(',')) args.add(expr());` reads the printed arguments after the first, up to the closing parenthesis. */
  lemma {:induction false} ArgsTailAt(line: string, funcs: map<string, int>, f: Expr, i: nat, j: nat, syms: set<string>)
    requires Clean(line) && f.Func? && 1 <= i <= |f.args|
    requires forall m :: 0 <= m < |f.args| ==> Printable(f.args[m], funcs)
    requires Has(line, j, PrintArgs(f, i)) && j + |PrintArgs(f, i)| < |line| && line[j + |PrintArgs(f, i)|] == ')'
    ensures ArgsAt(line, funcs, At(line, j, syms))
            == Ok(f.args[i..], At(line, j + |PrintArgs(f, i)|, syms + VarsFrom(f, i)))
    decreases f, 0, |f.args| - i, 2
  {
    if i == |f.args| {
      ArgsEnd(line, funcs, j, syms);
      assert f.args[i..] == [] && |PrintArgs(f, i)| == 0 && syms + VarsFrom(f, i) == syms;
    } else {
      ArgLayout(line, j, f, i, funcs);
      var x := f.args[i];
      var k1 := j + 1 + |Print(x)|;
      assert syms + Vars(x) + VarsFrom(f, i + 1) == syms + VarsFrom(f, i);
      ArgsJoin(line, funcs, f, i, j, k1, k1 + |PrintArgs(f, i + 1)|, syms, syms + Vars(x), syms + VarsFrom(f, i));
    }
  }

  /** One `adv(',')` and `expr()` of the argument loop, followed by the rest of the loop. */
  lemma {:induction false} ArgsJoin(line: string, funcs: map<string, int>, f: Expr, i: nat, j: nat, k1: nat, k: nat,
                                    syms: set<string>, syms1: set<string>, syms2: set<string>)
    requires Clean(line) && f.Func? && 1 <= i < |f.args|
    requires forall m :: 0 <= m < |f.args| ==> Printable(f.args[m], funcs)
    requires j < |line| && line[j] == ',' && Has(line, j + 1, Print(f.args[i]))
    requires k1 == j + 1 + |Print(f.args[i])| && Closes(line, k1, 6)
    requires Has(line, k1, PrintArgs(f, i + 1)) && k == k1 + |PrintArgs(f, i + 1)| && k < |line| && line[k] == ')'
    requires syms1 == syms + Vars(f.args[i]) && syms2 == syms1 + VarsFrom(f, i + 1)
    ensures ArgsAt(line, funcs, At(line, j, syms)) == Ok(f.args[i..], At(line, k, syms2))
    decreases f, 0, |f.args| - i, 1
  {
    ParsesAt(line, funcs, f.args[i], 6, j + 1, syms);
    ArgsRight(line, funcs, f, i, j, k1, k, syms, syms1, syms2);
  }

  /** With one argument read after its comma, the loop reads the rest. */
  lemma {:induction false} ArgsRight(line: string, funcs: map<string, int>, f: Expr, i: nat, j: nat, k1: nat, k: nat,
                                     syms: set<string>, syms1: set<string>, syms2: set<string>)
    requires Clean(line) && f.Func? && 1 <= i < |f.args|
    requires forall m :: 0 <= m < |f.args| ==> Printable(f.args[m], funcs)
    requires j < |line| && line[j] == ','
    requires ParseAt(line, funcs, 6, At(line, j + 1, syms)) == Ok(f.args[i], At(line, k1, syms1))
    requires Has(line, k1, PrintArgs(f, i + 1)) && k == k1 + |PrintArgs(f, i + 1)| && k < |line| && line[k] == ')'
    requires syms2 == syms1 + VarsFrom(f, i + 1)
    ensures ArgsAt(line, funcs, At(line, j, syms)) == Ok(f.args[i..], At(line, k, syms2))
    decreases f, 0, |f.args| - i, 0
  {
    ArgsTailAt(line, funcs, f, i + 1, k1, syms1);
    ArgsStep(line, funcs, f.args[i], f.args[i + 1..], j, k1, k, syms, syms1, syms2);
    assert [f.args[i]] + f.args[i + 1..] == f.args[i..];
  }

  // ---- Whole lines --------------------------------------------------------

  lemma SpanWordRun(line: string, i: nat, j: nat)
    requires i <= j <= |line| && forall k :: i <= k < j ==> IsWordOrDot(line[k])
    requires j < |line| ==> !IsWordOrDot(line[j])
    ensures SpanWord(line, i) == j
    decreases j - i
  {
    if i < j {
      SpanWordRun(line, i + 1, j);
    }
  }

  /** A clean line is no comment line, and it reaches `expr_assign` with the cursor on its first character. */
  lemma LineStart(line: string, default: string, funcs: map<string, int>, x: Expr, syms: set<string>)
    requires Clean(line) && |line| > 0 && x.Assign?
    requires ExprAssign(line, funcs, default, At(line, 0, {})) == Ok(x, At(line, |line|, syms))
    ensures ParseLine(line, default, funcs) == ParsedLine(x, LowerString(x.target), None, |line|, syms)
  {
    assert SpanSpaces(line, 0) == 0;
    assert Adv(line, Cursor(-1, ' ', {})) == Ok((), At(line, 0, {}));
  }

  /** `t=` in front: the target is read, then the expression with t among the symbols. */
  lemma AssignPrefix(line: string, default: string, funcs: map<string, int>, t: string, e: Expr, k: nat, syms: set<string>)
    requires Clean(line) && HasAssignPrefix(line) && IsName(t) && t !in funcs && NameAt(line, 0, t)
    requires |t| + 1 < |line| && line[|t|] == '='
    requires ParseAt(line, funcs, 6, At(line, |t| + 1, {t})) == Ok(e, At(line, k, syms))
    ensures ExprAssign(line, funcs, default, At(line, 0, {})) == Ok(Assign(t, e), At(line, k, syms))
  {
    NameFact(line, t, 0, {});
    HitTok(line, |t|, {}, Ch('='));
    assert At(line, |t| + 1, {}).(syms := {} + {t}) == At(line, |t| + 1, {t});
    ParseExprAt(line, funcs, At(line, |t| + 1, {t}));
  }

  /** No `name=` in front: the expression is assigned to the default target. */
  lemma NoAssignPrefix(line: string, default: string, funcs: map<string, int>, e: Expr, k: nat, syms: set<string>)
    requires Clean(line) && |line| > 0 && !HasAssignPrefix(line)
    requires ParseAt(line, funcs, 6, At(line, 0, {default})) == Ok(e, At(line, k, syms))
    ensures ExprAssign(line, funcs, default, At(line, 0, {})) == Ok(Assign(default, e), At(line, k, syms))
  {
    assert At(line, 0, {}).(syms := {} + {default}) == At(line, 0, {default});
    ParseExprAt(line, funcs, At(line, 0, {default}));
  }

  lemma CleanNoTerminator(line: string, i: nat)
    requires Clean(line) && i <= |line|
    ensures NoTerminator(line[i..])
  {
  }

  /** The text of `t=<printed expression>`. */
  lemma AssignLayout(t: string, e: Expr, funcs: map<string, int>)
    requires IsName(t) && Printable(e, funcs)
    ensures var line := t + "=" + Print(e);
            && Clean(line) && HasAssignPrefix(line) && NameAt(line, 0, t)
            && |t| + 1 < |line| && line[|t|] == '=' && Has(line, |t| + 1, Print(e))
  {
    var p := Print(e);
    var line := t + "=" + p;
    PrintStart(e, funcs);
    PrintClean(e, funcs);
    CleanConcat(t, "=");
    CleanConcat(t + "=", p);
    HasWhole(line);
    HasWrap(line, 0, t, "=", p);
    NameLayout(line, 0, t);
    assert line[|t|] == "="[0];
    assert line[|t| + 1] == p[0];
    assert line[0] == t[0];
    forall k | 0 <= k < |t|
      ensures IsWordOrDot(line[k])
    {
      assert line[0 + k] == t[k];
    }
    SpanWordRun(line, 1, |t|);
    assert SpanSpaces(line, 0) == 0;
    assert SpanSpaces(line, |t|) == |t|;
    CleanNoTerminator(line, |t| + 2);
  }

  /** A printed expression on its own does not look like `name=`. */
  lemma PrintLayout(e: Expr, funcs: map<string, int>)
    requires Printable(e, funcs)
    ensures var line := Print(e);
            Clean(line) && |line| > 0 && !HasAssignPrefix(line) && Has(line, 0, line)
  {
    var line := Print(e);
    PrintStart(e, funcs);
    PrintClean(e, funcs);
    HasWhole(line);
    PrintNoPrefix(line, e, funcs);
  }

  /** A line that starts with a printed expression, followed by nothing or by `)`, does not look like `name=`. */
  lemma PrintNoPrefix(line: string, e: Expr, funcs: map<string, int>)
    requires Clean(line) && Printable(e, funcs) && Has(line, 0, Print(e))
    requires |line| == |Print(e)| || line[|Print(e)|] == ')'
    ensures !HasAssignPrefix(line)
  {
    PrintStart(e, funcs);
    HasAt(line, 0, Print(e), 0);
    assert SpanSpaces(line, 0) == 0;
    if IsAsciiLetter(line[0]) {
      if e.Func? {
        CallParts(e, funcs);
        CallLayout(line, 0, e);
      } else {
        NameLayout(line, 0, e.name);
      }
      forall k | 1 <= k < |e.name|
        ensures IsWordOrDot(line[k])
      {
        assert line[0..|e.name|][k] == line[k];
      }
      SpanWordRun(line, 1, |e.name|);
      assert SpanSpaces(line, |e.name|) == |e.name|;
    }
  }

  /** `t=<printed expression>` is read as the assignment of the expression to t, referencing t and the expression's names. */
  lemma ParseLineReadsAssignment(t: string, e: Expr, default: string, funcs: map<string, int>)
    requires IsName(t) && t !in funcs && Printable(e, funcs)
    ensures var line := t + "=" + Print(e);
            ParseLine(line, default, funcs) == ParsedLine(Assign(t, e), t, None, |line|, {t} + Vars(e))
  {
    var line := t + "=" + Print(e);
    AssignReads(t, e, default, funcs);
    LineStart(line, default, funcs, Assign(t, e), {t} + Vars(e));
    LowerName(t);
  }

  /** `expr_assign` reads `t=<printed expression>` whole. */
  lemma AssignReads(t: string, e: Expr, default: string, funcs: map<string, int>)
    requires IsName(t) && t !in funcs && Printable(e, funcs)
    ensures var line := t + "=" + Print(e);
            && Clean(line) && |line| > 0
            && ExprAssign(line, funcs, default, At(line, 0, {})) == Ok(Assign(t, e), At(line, |line|, {t} + Vars(e)))
  {
    var line := t + "=" + Print(e);
    var syms := {t} + Vars(e);
    AssignLayout(t, e, funcs);
    assert ParseAt(line, funcs, 6, At(line, |t| + 1, {t})) == Ok(e, At(line, |line|, syms)) by {
      ParsesAt(line, funcs, e, 6, |t| + 1, {t});
    }
    AssignPrefix(line, default, funcs, t, e, |line|, syms);
  }

  /** A printed expression on its own is read as its assignment to the default target. */
  lemma ParseLineReadsDefault(e: Expr, default: string, funcs: map<string, int>)
    requires Printable(e, funcs)
    ensures var line := Print(e);
            ParseLine(line, default, funcs)
            == ParsedLine(Assign(default, e), LowerString(default), None, |line|, {default} + Vars(e))
  {
    DefaultReads(e, default, funcs);
    LineStart(Print(e), default, funcs, Assign(default, e), {default} + Vars(e));
  }

  /** `expr_assign` reads a printed expression on its own whole, as an assignment to the default name. */
  lemma DefaultReads(e: Expr, default: string, funcs: map<string, int>)
    requires Printable(e, funcs)
    ensures var line := Print(e);
            && Clean(line) && |line| > 0
            && ExprAssign(line, funcs, default, At(line, 0, {})) == Ok(Assign(default, e), At(line, |line|, {default} + Vars(e)))
  {
    var line := Print(e);
    var syms := {default} + Vars(e);
    PrintLayout(e, funcs);
    assert ParseAt(line, funcs, 6, At(line, 0, {default})) == Ok(e, At(line, |line|, syms)) by {
      ParsesAt(line, funcs, e, 6, 0, {default});
    }
    NoAssignPrefix(line, default, funcs, e, |line|, syms);
  }

  // ---- Operator chains ----------------------------------------------------

  /** A `-` with an operand after it is the additive loop's second alternative. */
  lemma SubAt(line: string, j: nat, syms: set<string>)
    requires Clean(line) && j + 1 < |line| && line[j] == '-' && OperandStart(line[j + 1])
    ensures TryOps(line, At(line, j, syms), Ops(AddLevel), 0) == Ok(Some(Sub), At(line, j + 1, syms))
  {
    HasSlice(line, j, "-");
    assert line[j..j + 1] == "-";
    LevelHit(line, j, Sub);
    TryOpsHit(line, j, syms, Ops(AddLevel), 0, 1);
  }

  /** A name that a `-` or the end of the line follows is a whole multiplicative operand. */
  lemma VarOperand(line: string, funcs: map<string, int>, n: string, j: nat, syms: set<string>)
    requires Clean(line) && IsName(n) && n != "not" && n !in funcs
    requires NameAt(line, j, n) && Closes(line, j + |n|, 1)
    ensures ParseAt(line, funcs, 1, At(line, j, syms)) == Ok(VarRef(n), At(line, j + |n|, syms + {n}))
  {
    VarFact(line, funcs, n, j, syms);
    ClimbMiss(line, funcs, 1, VarRef(n), j, j + |n|, syms, syms + {n});
  }

  lemma NameClean(n: string)
    requires IsName(n)
    ensures Clean(n)
  {
  }

  /** The text of a name, a `-`, and clean text after it. */
  lemma NameDash(n: string, rest: string)
    requires IsName(n) && Clean(rest)
    ensures var line := n + "-" + rest;
            && Clean(line) && !HasAssignPrefix(line) && NameAt(line, 0, n)
            && line[|n|] == '-' && Has(line, |n| + 1, rest)
  {
    var line := n + "-" + rest;
    NameClean(n);
    CleanConcat(n, "-");
    CleanConcat(n + "-", rest);
    HasWhole(line);
    HasWrap(line, 0, n, "-", rest);
    NameLayout(line, 0, n);
    assert line[|n|] == '-';
    assert line[0] == n[0];
    assert SpanSpaces(line, 0) == 0;
    forall k | 1 <= k < |n|
      ensures IsWordOrDot(line[k])
    {
      assert line[0..|n|][k] == line[k];
    }
    SpanWordRun(line, 1, |n|);
    assert SpanSpaces(line, |n|) == |n|;
  }

  /** The text of `a-b-c`. */
  lemma ChainLayout(a: string, b: string, c: string)
    requires IsName(a) && IsName(b) && IsName(c)
    ensures var line := a + "-" + b + "-" + c;
            && Clean(line) && !HasAssignPrefix(line)
            && NameAt(line, 0, a) && NameAt(line, |a| + 1, b) && NameAt(line, |a| + |b| + 2, c)
            && line[|a|] == '-' && line[|a| + 1] == b[0]
            && line[|a| + |b| + 1] == '-' && line[|a| + |b| + 2] == c[0]
  {
    var mid := b + "-" + c;
    var line := a + "-" + mid;
    NameClean(c);
    NameDash(b, c);
    NameDash(a, mid);
    assert line == a + "-" + b + "-" + c;
    HasWrap(line, |a| + 1, b, "-", c);
    NameLayout(line, |a| + 1, b);
    NameLayout(line, |a| + |b| + 2, c);
    HasAt(line, |a| + 1, b, 0);
    HasAt(line, |a| + 1 + |b|, "-", 0);
    HasAt(line, |a| + |b| + 2, c, 0);
  }

  /** One `-name` of a chain, ending at k: the additive loop folds the name into what it has read so far. */
  lemma ChainStep(line: string, funcs: map<string, int>, x: Expr, n: string, j: nat, k: nat,
                  syms: set<string>, syms2: set<string>)
    requires Clean(line) && IsName(n) && n != "not" && n !in funcs
    requires j < |line| && line[j] == '-' && NameAt(line, j + 1, n) && line[j + 1] == n[0]
    requires k == j + 1 + |n| && Closes(line, k, 1) && syms2 == syms + {n}
    ensures BinaryTail(line, funcs, AddLevel, x, At(line, j, syms))
            == BinaryTail(line, funcs, AddLevel, Bin(Sub, x, VarRef(n)), At(line, k, syms2))
  {
    SubAt(line, j, syms);
    VarOperand(line, funcs, n, j + 1, syms);
    BelowAt(line, funcs, 2, At(line, j + 1, syms));
    LoopStep(line, funcs, AddLevel, x, At(line, j, syms), Sub, At(line, j + 1, syms), VarRef(n), At(line, k, syms2));
  }

  /** At the end of the line the additive loop stops with what it has read. */
  lemma AddEnd(line: string, funcs: map<string, int>, x: Expr, syms: set<string>)
    requires Clean(line)
    ensures BinaryTail(line, funcs, AddLevel, x, At(line, |line|, syms)) == Ok(x, At(line, |line|, syms))
  {
    var ops := Ops(AddLevel);
    forall k | 0 <= k < |ops|
      ensures !Starts(line, |line|, ops[k].0)
    {
      StageMiss(line, |line|, ops[k].0, 2);
    }
    TryOpsMiss(line, |line|, syms, ops, 0);
  }

  /** A name heading a `-` chain is the additive loop's first operand. */
  lemma ChainHead(line: string, funcs: map<string, int>, a: string, syms: set<string>)
    requires Clean(line) && IsName(a) && a != "not" && a !in funcs
    requires NameAt(line, 0, a) && |a| < |line| && line[|a|] == '-'
    ensures ParseAt(line, funcs, 2, At(line, 0, syms)) == BinaryTail(line, funcs, AddLevel, VarRef(a), At(line, |a|, syms + {a}))
  {
    VarOperand(line, funcs, a, 0, syms);
    Climb(line, funcs, 2, At(line, 0, syms), VarRef(a), At(line, |a|, syms + {a}));
  }

  /** What the additive strength reads up to the end of the line, every looser one reads too. */
  lemma ClimbToEnd(line: string, funcs: map<string, int>, x: Expr, syms: set<string>, syms2: set<string>)
    requires Clean(line)
    requires ParseAt(line, funcs, 2, At(line, 0, syms)) == Ok(x, At(line, |line|, syms2))
    ensures ParseAt(line, funcs, 6, At(line, 0, syms)) == Ok(x, At(line, |line|, syms2))
  {
    ClimbMiss(line, funcs, 3, x, 0, |line|, syms, syms2);
    ClimbMiss(line, funcs, 4, x, 0, |line|, syms, syms2);
    ClimbMiss(line, funcs, 5, x, 0, |line|, syms, syms2);
    ClimbMiss(line, funcs, 6, x, 0, |line|, syms, syms2);
  }

  /** The additive strength reads `a-b-c` whole, joining from the left. */
  lemma ChainAdd(line: string, a: string, b: string, c: string, funcs: map<string, int>, s0: set<string>)
    requires IsName(a) && a != "not" && a !in funcs
    requires IsName(b) && b != "not" && b !in funcs
    requires IsName(c) && c != "not" && c !in funcs
    requires Clean(line) && |line| == |a| + |b| + |c| + 2
    requires NameAt(line, 0, a) && NameAt(line, |a| + 1, b) && NameAt(line, |a| + |b| + 2, c)
    requires line[|a|] == '-' && line[|a| + 1] == b[0]
    requires line[|a| + |b| + 1] == '-' && line[|a| + |b| + 2] == c[0]
    ensures ParseAt(line, funcs, 2, At(line, 0, s0))
            == Ok(Bin(Sub, Bin(Sub, VarRef(a), VarRef(b)), VarRef(c)), At(line, |line|, s0 + {a} + {b} + {c}))
  {
    var k1, k2, k3 := |a|, |a| + |b| + 1, |line|;
    var s1 := s0 + {a};
    var s2 := s1 + {b};
    var s3 := s2 + {c};
    var ab := Bin(Sub, VarRef(a), VarRef(b));
    ChainHead(line, funcs, a, s0);
    ChainStep(line, funcs, VarRef(a), b, k1, k2, s1, s2);
    ChainStep(line, funcs, ab, c, k2, k3, s2, s3);
    AddEnd(line, funcs, Bin(Sub, ab, VarRef(c)), s3);
  }

  /** `a-b-c` is read as `(a-b)-c`, the left-to-right grouping of one level's operators. */
  lemma ParseLineChain(a: string, b: string, c: string, default: string, funcs: map<string, int>)
    requires IsName(a) && a != "not" && a !in funcs
    requires IsName(b) && b != "not" && b !in funcs
    requires IsName(c) && c != "not" && c !in funcs
    ensures ParseLine(a + "-" + b + "-" + c, default, funcs)
            == ParsedLine(Assign(default, Bin(Sub, Bin(Sub, VarRef(a), VarRef(b)), VarRef(c))),
                          LowerString(default), None, |a| + |b| + |c| + 2, {default, a, b, c})
  {
    var line := a + "-" + b + "-" + c;
    var x := Bin(Sub, Bin(Sub, VarRef(a), VarRef(b)), VarRef(c));
    var s3 := {default} + {a} + {b} + {c};
    ChainReads(a, b, c, default, funcs);
    LineStart(line, default, funcs, Assign(default, x), s3);
    assert s3 == {default, a, b, c};
  }

  /** `expr_assign` reads `a-b-c` whole, as an assignment to the default name. */
  lemma ChainReads(a: string, b: string, c: string, default: string, funcs: map<string, int>)
    requires IsName(a) && a != "not" && a !in funcs
    requires IsName(b) && b != "not" && b !in funcs
    requires IsName(c) && c != "not" && c !in funcs
    ensures var line := a + "-" + b + "-" + c;
            && Clean(line) && |line| > 0
            && ExprAssign(line, funcs, default, At(line, 0, {}))
               == Ok(Assign(default, Bin(Sub, Bin(Sub, VarRef(a), VarRef(b)), VarRef(c))),
                     At(line, |line|, {default} + {a} + {b} + {c}))
  {
    var line := a + "-" + b + "-" + c;
    var x := Bin(Sub, Bin(Sub, VarRef(a), VarRef(b)), VarRef(c));
    var s3 := {default} + {a} + {b} + {c};
    ChainLayout(a, b, c);
    ChainAdd(line, a, b, c, funcs, {default});
    ClimbToEnd(line, funcs, x, {default}, s3);
    NoAssignPrefix(line, default, funcs, x, |line|, s3);
  }

  // ---- Errors -------------------------------------------------------------

  /** An operand that fails to parse fails every strength above it, with the same error at the same place. */
  lemma {:induction false} FailClimbs(line: string, funcs: map<string, int>, s: nat, cur: Cursor)
    requires Valid(line, cur) && s <= 6 && ParseAt(line, funcs, 0, cur).Fail?
    ensures ParseAt(line, funcs, s, cur) == ParseAt(line, funcs, 0, cur)
  {
    if s > 0 {
      FailClimbs(line, funcs, s - 1, cur);
      if s != 3 {
        BelowAt(line, funcs, s, cur);
      }
    }
  }

  /** A clean line whose `expr_assign` throws reports that error and nothing else. */
  lemma LineFails(line: string, default: string, funcs: map<string, int>, err: ParseError, pe: int)
    requires Clean(line) && |line| > 0
    requires ExprAssign(line, funcs, default, At(line, 0, {})) == Fail(err, pe)
    ensures ParseLine(line, default, funcs) == ParsedLine(Void, "", Some(err), pe, {})
  {
    assert SpanSpaces(line, 0) == 0;
    assert Adv(line, Cursor(-1, ' ', {})) == Ok((), At(line, 0, {}));
  }

  /** A clean line whose expression ends before the line does is rejected at the first unread character. */
  lemma LineStops(line: string, default: string, funcs: map<string, int>, x: Expr, k: nat, syms: set<string>)
    requires Clean(line) && k < |line|
    requires ExprAssign(line, funcs, default, At(line, 0, {})) == Ok(x, At(line, k, syms))
    ensures ParseLine(line, default, funcs) == ParsedLine(Void, "", Some(InvalidCharacter), k, syms)
  {
    assert SpanSpaces(line, 0) == 0;
    assert Adv(line, Cursor(-1, ' ', {})) == Ok((), At(line, 0, {}));
  }

  /** A line whose first character lies outside 7-bit ASCII is rejected at index 0. */
  lemma ParseLineNonAscii(line: string, default: string, funcs: map<string, int>)
    requires |line| > 0 && line[0] as int > 127
    ensures ParseLine(line, default, funcs) == ParsedLine(Void, "", Some(InvalidCharacter), 0, {})
  {
    assert SpanSpaces(line, 0) == 0;
    assert Adv(line, Cursor(-1, ' ', {})) == Fail(InvalidCharacter, 0);
  }

  /** The text of a printed expression followed by a stray `)`. */
  lemma TrailingLayout(e: Expr, funcs: map<string, int>)
    requires Printable(e, funcs)
    ensures var line := Print(e) + ")";
            && Clean(line) && !HasAssignPrefix(line) && Has(line, 0, Print(e))
            && Closes(line, |Print(e)|, 6)
  {
    var p := Print(e);
    var line := p + ")";
    PrintStart(e, funcs);
    PrintClean(e, funcs);
    CleanConcat(p, ")");
    HasWhole(line);
    HasSplit(line, 0, p, ")");
    assert line[|p|] == ')';
    PrintNoPrefix(line, e, funcs);
  }

  /** A printed expression followed by `)` parses up to the parenthesis and is then rejected there, with the names read so far. */
  lemma ParseLineTrailing(e: Expr, default: string, funcs: map<string, int>)
    requires Printable(e, funcs)
    ensures ParseLine(Print(e) + ")", default, funcs)
            == ParsedLine(Void, "", Some(InvalidCharacter), |Print(e)|, {default} + Vars(e))
  {
    var line := Print(e) + ")";
    TrailingLayout(e, funcs);
    ParsesAt(line, funcs, e, 6, 0, {default});
    NoAssignPrefix(line, default, funcs, e, |Print(e)|, {default} + Vars(e));
    LineStops(line, default, funcs, Assign(default, e), |Print(e)|, {default} + Vars(e));
  }

  /** Assigning to a function name is rejected just after the `=`. */
  lemma ParseLineReadonly(t: string, e: Expr, default: string, funcs: map<string, int>)
    requires IsName(t) && t in funcs && Printable(e, funcs)
    ensures ParseLine(t + "=" + Print(e), default, funcs)
            == ParsedLine(Void, "", Some(SymbolReadonly), |t| + 1, {})
  {
    var line := t + "=" + Print(e);
    AssignLayout(t, e, funcs);
    NameFact(line, t, 0, {});
    HitTok(line, |t|, {}, Ch('='));
    assert ExprAssign(line, funcs, default, At(line, 0, {})) == Fail(SymbolReadonly, |t| + 1);
    LineFails(line, default, funcs, SymbolReadonly, |t| + 1);
  }

  /**
   * `n()` for a name that is no function, or for a function that takes
   * arguments, is rejected just after the closing parenthesis.
   */
  lemma ParseLineEmptyCall(n: string, default: string, funcs: map<string, int>)
    requires IsName(n) && n != "not" && (n !in funcs || funcs[n] > 0)
    ensures ParseLine(n + "()", default, funcs)
            == ParsedLine(Void, "", Some(if n !in funcs then UnknownFunction else InvalidNumberOfArguments), |n| + 2, {})
  {
    var line := n + "()";
    var err := if n !in funcs then UnknownFunction else InvalidNumberOfArguments;
    CleanConcat(n, "()");
    HasWhole(line);
    HasSplit(line, 0, n, "()");
    NameLayout(line, 0, n);
    assert line[|n|] == '(' && line[|n| + 1] == ')';
    var c0 := At(line, 0, {default});
    CallFact(line, funcs, n, 0, {default});
    HitTok(line, |n| + 1, {default}, Ch(')'));
    CallNoArgsChecks(line, funcs, n, At(line, |n| + 1, {default}), At(line, |n| + 2, {default}));
    assert ParseAt(line, funcs, 0, c0) == Fail(err, |n| + 2);
    FailClimbs(line, funcs, 6, c0);
    assert line[0] == n[0];
    assert SpanSpaces(line, 0) == 0;
    forall k | 1 <= k < |n|
      ensures IsWordOrDot(line[k])
    {
      assert line[0..|n|][k] == line[k];
    }
    SpanWordRun(line, 1, |n|);
    assert SpanSpaces(line, |n|) == |n|;
    assert !HasAssignPrefix(line);
    assert At(line, 0, {}).(syms := {} + {default}) == c0;
    ParseExprAt(line, funcs, c0);
    LineFails(line, default, funcs, err, |n| + 2);
  }
}
