/**
 * A control-box program (`MultiLineMathExpr`) and the box's logic state
 * (`Logic`): splitting code into lines, deriving the port masks, and the
 * per-tick step from input nibbles to output nibbles.
 */
module ControlBoxProgram {
  import opened Wrappers
  import opened JavaInt
  import opened ControlBoxExpr
  import opened ControlBoxParser

  /** One parsed line and the character offset it was read at. */
  datatype Entry = Entry(offset: int, parsed: ParsedLine)

  /** `MultiLineMathExpr`: the assignments to run, the lines that failed, and the names seen. */
  datatype Program = Program(
    entries: seq<Entry>,
    invalid: seq<Entry>,
    symbols: set<string>,
    assignments: set<string>)

  const EmptyProgram: Program := Program([], [], {}, {})

  /** `s.trim().isEmpty()`: only characters up to the space. */
  predicate IsBlankText(s: string)
  {
    forall i :: 0 <= i < |s| ==> s[i] <= ' '
  }

  /** The lines that produce an entry: neither blank nor a comment. */
  predicate IsStatement(line: string)
  {
    !IsBlankText(line) && !IsCommentLine(line)
  }

  /**
   * The argument of `code.replace(...)` before splitting. `String.replace`
   * takes it literally, so it removes this exact text, not trailing blanks.
   */
  const REPLACED_TEXT: string := "[\\r\\n\\s]+$"

  function StartsWithAt(s: string, i: nat, pat: string): bool
    requires i <= |s|
  {
    i + |pat| <= |s| && s[i..i + |pat|] == pat
  }

  /** `String.replace(pat, "")`: drop every occurrence, scanning left to right. */
  function RemoveAll(s: string, pat: string): (r: string)
    requires |pat| > 0
    decreases |s|
    ensures |r| <= |s|
    ensures |s| < |pat| ==> r == s
    ensures pat[0] !in s ==> r == s
  {
    if |s| == 0 then s
    else if StartsWithAt(s, 0, pat) then RemoveAll(s[|pat|..], pat)
    else [s[0]] + RemoveAll(s[1..], pat)
  }

  /** An occurrence after the first character is an occurrence in the rest. */
  lemma StartsWithAtTail(s: string, pat: string)
    requires |s| > 0
    ensures forall i :: 1 <= i <= |s| ==> (StartsWithAt(s, i, pat) <==> StartsWithAt(s[1..], i - 1, pat))
  {
    forall i | 1 <= i <= |s|
      ensures StartsWithAt(s, i, pat) <==> StartsWithAt(s[1..], i - 1, pat)
    {
      if i + |pat| <= |s| {
        var here, there := s[i..i + |pat|], s[1..][i - 1..i - 1 + |pat|];
        forall k | 0 <= k < |pat|
          ensures here[k] == there[k]
        {
          assert s[1..][i - 1 + k] == s[i + k];
        }
        assert here == there;
      }
    }
  }

  /** The literal replace changes the text exactly when the pattern occurs in it. */
  lemma {:induction false} RemoveAllChanges(s: string, pat: string)
    requires |pat| > 0
    decreases |s|
    ensures RemoveAll(s, pat) == s <==> forall i :: 0 <= i <= |s| ==> !StartsWithAt(s, i, pat)
  {
    if |s| == 0 {
    } else if StartsWithAt(s, 0, pat) {
      assert |RemoveAll(s, pat)| < |s|;
    } else {
      var t := s[1..];
      RemoveAllChanges(t, pat);
      StartsWithAtTail(s, pat);
      assert RemoveAll(s, pat) == [s[0]] + RemoveAll(t, pat);
      if RemoveAll(t, pat) == t {
        assert RemoveAll(s, pat) == s;
      } else {
        var j :| 0 <= j <= |t| && StartsWithAt(t, j, pat);
        assert StartsWithAt(s, j + 1, pat);
        assert RemoveAll(s, pat)[1..] == RemoveAll(t, pat);
      }
    }
  }

  /** The start and length of the first match of the regex `[\r]?[\n]` at or after `i`. */
  function FirstBreak(s: string, i: nat): (r: Option<(nat, nat)>)
    requires i <= |s|
    decreases |s| - i
    ensures r.Some? ==> i <= r.value.0 && r.value.0 + r.value.1 <= |s| && 1 <= r.value.1 <= 2
    ensures r.Some? ==> s[r.value.0 + r.value.1 - 1] == '\n'
    ensures r.Some? && r.value.1 == 2 ==> s[r.value.0] == '\r'
    ensures r.None? ==> forall k :: i <= k < |s| ==> s[k] != '\n'
  {
    if i == |s| then None
    else if s[i] == '\r' && i + 1 < |s| && s[i + 1] == '\n' then Some((i, 2))
    else if s[i] == '\n' then Some((i, 1))
    else FirstBreak(s, i + 1)
  }

  /** `String.split` before trailing empty strings are dropped. */
  function SplitRaw(s: string): (r: seq<string>)
    decreases |s|
    ensures |r| >= 1
    ensures forall k :: 0 <= k < |r| ==> '\n' !in r[k]
  {
    match FirstBreak(s, 0)
    case None => [s]
    case Some((j, n)) =>
      assert '\n' !in s[..j] by {
        FirstBreakNone(s, 0, j);
        assert forall k :: 0 <= k < j ==> s[..j][k] == s[k];
      }
      [s[..j]] + SplitRaw(s[j + n..])
  }

  /** No line feed lies before the first break. */
  lemma FirstBreakNone(s: string, i: nat, j: nat)
    requires i <= |s| && FirstBreak(s, i).Some? && FirstBreak(s, i).value.0 == j
    decreases |s| - i
    ensures forall k :: i <= k < j ==> s[k] != '\n'
  {
    if s[i] == '\r' && i + 1 < |s| && s[i + 1] == '\n' {
    } else if s[i] == '\n' {
    } else {
      FirstBreakNone(s, i + 1, j);
    }
  }

  /** The line breaks `split` matched, each `"\n"` or `"\r\n"`, in order. */
  function Breaks(s: string): (r: seq<string>)
    decreases |s|
    ensures forall k :: 0 <= k < |r| ==> r[k] == "\n" || r[k] == "\r\n"
  {
    match FirstBreak(s, 0)
    case None => []
    case Some((j, n)) =>
      assert s[j..j + n] == "\n" || s[j..j + n] == "\r\n" by {
        if n == 2 { assert s[j..j + n] == [s[j], s[j + 1]]; } else { assert s[j..j + n] == [s[j]]; }
      }
      [s[j..j + n]] + Breaks(s[j + n..])
  }

  /** The pieces joined again, each break put back between its two pieces. */
  function Interleave(parts: seq<string>, seps: seq<string>): (r: string)
    requires |parts| == |seps| + 1
    decreases |seps|
  {
    if seps == [] then parts[0] else parts[0] + seps[0] + Interleave(parts[1..], seps[1..])
  }

  /** Splitting loses nothing: the pieces with the matched breaks between them are the text. */
  lemma {:induction false} SplitRawRejoins(s: string)
    decreases |s|
    ensures |SplitRaw(s)| == |Breaks(s)| + 1
    ensures Interleave(SplitRaw(s), Breaks(s)) == s
  {
    var b := FirstBreak(s, 0);
    if b.None? {
      SplitStep(s);
    } else {
      var j, n := b.value.0, b.value.1;
      var t := s[j + n..];
      SplitStep(s);
      SplitRawRejoins(t);
      Rejoin(s, j, n, SplitRaw(t), Breaks(t));
    }
  }

  /** One step of the split: the piece before the first break, the break, and the split of the rest. */
  lemma SplitStep(s: string)
    ensures FirstBreak(s, 0).None? ==> SplitRaw(s) == [s] && Breaks(s) == []
    ensures FirstBreak(s, 0).Some? ==>
              var j, n := FirstBreak(s, 0).value.0, FirstBreak(s, 0).value.1;
              SplitRaw(s) == [s[..j]] + SplitRaw(s[j + n..]) && Breaks(s) == [s[j..j + n]] + Breaks(s[j + n..])
  {
    SplitRawStep(s);
    BreaksStep(s);
  }

  /** The piece half of `SplitStep`. */
  lemma SplitRawStep(s: string)
    ensures FirstBreak(s, 0).None? ==> SplitRaw(s) == [s]
    ensures FirstBreak(s, 0).Some? ==>
              var j, n := FirstBreak(s, 0).value.0, FirstBreak(s, 0).value.1;
              SplitRaw(s) == [s[..j]] + SplitRaw(s[j + n..])
  {
  }

  /** The break half of `SplitStep`. */
  lemma BreaksStep(s: string)
    ensures FirstBreak(s, 0).None? ==> Breaks(s) == []
    ensures FirstBreak(s, 0).Some? ==>
              var j, n := FirstBreak(s, 0).value.0, FirstBreak(s, 0).value.1;
              Breaks(s) == [s[j..j + n]] + Breaks(s[j + n..])
  {
  }

  /** Putting the first piece and break back in front of a rejoined rest gives the whole text. */
  lemma Rejoin(s: string, j: nat, n: nat, parts: seq<string>, seps: seq<string>)
    requires j + n <= |s| && |parts| == |seps| + 1 && Interleave(parts, seps) == s[j + n..]
    ensures Interleave([s[..j]] + parts, [s[j..j + n]] + seps) == s
  {
    InterleaveCons(s[..j], parts, s[j..j + n], seps);
    assert s == s[..j] + s[j..j + n] + s[j + n..];
  }

  lemma InterleaveCons(p: string, parts: seq<string>, sep: string, seps: seq<string>)
    requires |parts| == |seps| + 1
    ensures Interleave([p] + parts, [sep] + seps) == p + sep + Interleave(parts, seps)
  {
    assert ([p] + parts)[1..] == parts && ([sep] + seps)[1..] == seps;
  }

  function DropTrailingEmpty(parts: seq<string>): (r: seq<string>)
    ensures |r| <= |parts| && r == parts[..|r|]
    ensures |r| > 0 ==> r[|r| - 1] != ""
    ensures forall k :: |r| <= k < |parts| ==> parts[k] == ""
  {
    if |parts| == 0 then parts
    else if parts[|parts| - 1] == "" then DropTrailingEmpty(parts[..|parts| - 1])
    else parts
  }

  /**
   * `code.split("[\\r]?[\\n]")`: the pieces of the text between its line
   * breaks, without the empty pieces at the end.
   */
  function SplitLines(s: string): (r: seq<string>)
    ensures forall k :: 0 <= k < |r| ==> '\n' !in r[k]
    ensures |r| > 0 ==> r[|r| - 1] != ""
    ensures |r| <= |SplitRaw(s)| && r == SplitRaw(s)[..|r|] && forall k :: |r| <= k < |SplitRaw(s)| ==> SplitRaw(s)[k] == ""
  {
    var raw := SplitRaw(s);
    var r := DropTrailingEmpty(raw);
    assert forall k :: 0 <= k < |r| ==> r[k] == raw[k];
    r
  }

  /** A text without a line feed is one line, or none when it is empty. */
  lemma SplitLinesOneLine(s: string)
    requires '\n' !in s
    ensures SplitLines(s) == if s == "" then [] else [s]
  {
    SplitRawStep(s);
  }

  /** The set of names the given entries assign. */
  function AssignedNames(entries: seq<Entry>): set<string>
  {
    set k | 0 <= k < |entries| :: entries[k].parsed.assignment
  }

  /** Entries are successful assignments to lower-case names, failures carry their error. */
  predicate WellSorted(p: Program)
  {
    && (forall k :: 0 <= k < |p.entries| ==> p.entries[k].parsed.error.None? && p.entries[k].parsed.expression.Assign?)
    && (forall k :: 0 <= k < |p.entries| ==> LowerString(p.entries[k].parsed.assignment) == p.entries[k].parsed.assignment)
    && (forall k :: 0 <= k < |p.invalid| ==> p.invalid[k].parsed.error.Some?)
    && p.assignments == AssignedNames(p.entries)
  }

  /** A successful assignment joins the entries and its name the assigned set. */
  function AppendEntry(acc: Program, entry: Entry, symbols: set<string>): (r: Program)
    requires entry.parsed.error.None? && entry.parsed.expression.Assign?
    requires LowerString(entry.parsed.assignment) == entry.parsed.assignment
    ensures WellSorted(acc) ==> WellSorted(r)
    ensures r.entries == acc.entries + [entry] && r.invalid == acc.invalid && r.symbols == acc.symbols + symbols
  {
    var r := Program(acc.entries + [entry], acc.invalid, acc.symbols + symbols,
                     acc.assignments + {entry.parsed.assignment});
    assert AssignedNames(r.entries) == AssignedNames(acc.entries) + {entry.parsed.assignment} by {
      assert forall k :: 0 <= k < |acc.entries| ==> r.entries[k] == acc.entries[k];
      assert r.entries[|acc.entries|] == entry;
    }
    r
  }

  /** The body of the loop in `MultiLineMathExpr.of` for one line. */
  function AddLine(acc: Program, line: string, offset: int, default: string, funcs: map<string, int>): (r: Program)
    ensures WellSorted(acc) ==> WellSorted(r)
    ensures |r.entries| + |r.invalid| == |acc.entries| + |acc.invalid| + (if IsStatement(line) then 1 else 0)
    ensures |acc.entries| <= |r.entries| && r.entries[..|acc.entries|] == acc.entries
    ensures |acc.invalid| <= |r.invalid| && r.invalid[..|acc.invalid|] == acc.invalid
    ensures acc.symbols <= r.symbols
  {
    if IsBlankText(line) then acc
    else
      var parsed := ParseLine(line, default, funcs);
      var entry := Entry(offset, parsed);
      if parsed.error.Some? then acc.(invalid := acc.invalid + [entry])
      else if parsed.expression.Assign? then
        LowerIdempotent(parsed.expression.target);
        AppendEntry(acc, entry, parsed.symbols)
      else acc.(symbols := acc.symbols + parsed.symbols)
  }

  /** The loop of `MultiLineMathExpr.of` over the remaining lines. */
  function OfLines(lines: seq<string>, default: string, funcs: map<string, int>, offset: int, acc: Program)
    : (r: Program)
    decreases |lines|
    ensures WellSorted(acc) ==> WellSorted(r)
    ensures |r.entries| + |r.invalid| == |acc.entries| + |acc.invalid| + CountStatements(lines)
    ensures |acc.entries| <= |r.entries| && r.entries[..|acc.entries|] == acc.entries
    ensures |acc.invalid| <= |r.invalid| && r.invalid[..|acc.invalid|] == acc.invalid
    ensures acc.symbols <= r.symbols
  {
    if |lines| == 0 then acc
    else
      var next := AddLine(acc, lines[0], offset, default, funcs);
      var r := OfLines(lines[1..], default, funcs, offset + |lines[0]|, next);
      assert r.entries[..|acc.entries|] == next.entries[..|next.entries|][..|acc.entries|];
      assert r.invalid[..|acc.invalid|] == next.invalid[..|next.invalid|][..|acc.invalid|];
      r
  }

  /** The number of lines that yield an entry or a failure. */
  function CountStatements(lines: seq<string>): nat
  {
    if |lines| == 0 then 0 else (if IsStatement(lines[0]) then 1 else 0) + CountStatements(lines[1..])
  }

  /** `MultiLineMathExpr.of(code, default, functions)`. */
  function ProgramOf(code: string, default: string, funcs: map<string, int>): (r: Program)
    ensures IsBlankText(code) ==> r == EmptyProgram
    ensures WellSorted(r)
    ensures !IsBlankText(code) ==>
              |r.entries| + |r.invalid| == CountStatements(SplitLines(RemoveAll(code, REPLACED_TEXT)))
  {
    if IsBlankText(code) then EmptyProgram
    else
      var p := OfLines(SplitLines(RemoveAll(code, REPLACED_TEXT)), default, funcs, 0, EmptyProgram);
      if p.entries == [] && p.invalid == [] then EmptyProgram else p
  }
}
