/** Markdown to LaTeX, line by line, and the inline escaping that goes with it. */
module Latex {
  import opened Markdown
  import opened Sequences
  import opened Whitespace
  import opened Wrappers

  // ---------- output ----------

  datatype Env = Listing | DisplayMath | Itemize | Enumerate | QuoteEnv | Abstract | Group | LongTable

  // One output line. `Begin` and `End` delimit environments (`\[` and `\]` for display math);
  // the text of every other line is inline-converted or copied.
  datatype Out =
    | Begin(env: Env)
    | End(env: Env)
    | Copied(line: string)
    | Inline(text: string)
    | Item(text: string)
    | Section(level: int, text: string)
    | Keywords
    | AppendixMark
    | TableStyle(columns: nat)
    | TableRule(name: string)
    | TableRow(cells: seq<string>)
    | EmptyLine

  // ---------- headings ----------

  predicate IsAppendix(text: string) {
    var n := |"Appendix"|;
    "Appendix" <= text && n < |text| && IsPySpace(text[n]) &&
    var letter := After(text, n);
    |letter| >= 3 && 'A' <= letter[0] <= 'Z' && letter[1] == '.' && IsPySpace(letter[2])
  }

  // What follows \d+(?:\.\d+)*\.\s+, if the text begins with that.
  function AfterNumber(digit: char -> bool, text: string): Option<string>
    decreases |text|
  {
    var n := Leading(digit, text);
    if n == 0 || n + 1 >= |text| || text[n] != '.' then None
    else if IsPySpace(text[n + 1]) then Some(After(text, n + 1))
    else AfterNumber(digit, text[n + 1..])
  }

  function CleanHeading(digit: char -> bool, text: string): (string, bool) {
    var t := Strip(text);
    if IsAppendix(t) then (After(After(t, |"Appendix"|), 2), true)
    else (match AfterNumber(digit, t) case Some(rest) => rest case None => t, false)
  }

  // Lower case, as far as it can yield the letters of `abstract` and `keywords`.
  function Lower(s: string): string {
    if s == "" then "" else
      [if 'A' <= s[0] <= 'Z' then (s[0] as int + 32) as char else if s[0] == '\U{212A}' then 'k' else s[0]]
      + Lower(s[1..])
  }

  // ---------- one turn of the scanner ----------

  datatype List = NoList | Bullets | Numbers

  datatype State = State(code: bool, math: bool, abstracted: bool, list: List, appendix: bool)

  const INITIAL := State(false, false, false, NoList, false)

  function CloseList(l: List): seq<Out> {
    match l
    case NoList => []
    case Bullets => [End(Itemize)]
    case Numbers => [End(Enumerate)]
  }

  function CloseAbstract(abstracted: bool): seq<Out> {
    if abstracted then [End(Abstract)] else []
  }

  function Padded(row: seq<string>, columns: nat): (r: seq<string>)
    ensures |r| == columns
  {
    if |row| >= columns then row[..columns] else row + seq(columns - |row|, _ => "")
  }

  function TableBody(rows: seq<Line>, columns: nat): seq<Out> {
    if rows == [] then [] else [TableRow(Padded(RowCells(rows[0]), columns))] + TableBody(rows[1..], columns)
  }

  function TableLines(rows: seq<Line>): seq<Out>
    requires |rows| >= 2
  {
    var header := RowCells(rows[0]);
    [Begin(Group), TableStyle(|header|), Begin(LongTable), TableRule("toprule"), TableRow(header),
     TableRule("midrule"), TableRule("endhead")]
    + TableBody(rows[2..], |header|) + [TableRule("bottomrule"), End(LongTable), End(Group)]
  }

  // The heading itself; only the first appendix heading gets the mark.
  function HeadingOut(mark: bool, level: int, text: string): seq<Out> {
    (if mark then [AppendixMark] else []) +
    [if Lower(text) == "abstract" then Begin(Abstract)
     else if Lower(text) == "keywords" then Keywords
     else Section(level, text), EmptyLine]
  }

  function HeadingLines(digit: char -> bool, s: State, stripped: string): (seq<Out>, State)
    requires IsHeading(stripped)
  {
    var level := Hashes(stripped);
    var (text, isAppendix) := CleanHeading(digit, After(stripped, level));
    (CloseList(s.list) + (CloseAbstract(s.abstracted) + HeadingOut(isAppendix && !s.appendix, level, text)),
     s.(list := NoList, abstracted := Lower(text) == "abstract", appendix := s.appendix || isAppendix))
  }

  // A line outside code, formulas and tables.
  function TextLines(digit: char -> bool, s: State, stripped: string): (seq<Out>, State) {
    var closed := s.(list := NoList);
    if stripped == "" then
      (CloseList(s.list) + [EmptyLine], closed)
    else if stripped[0] == '>' && |stripped| >= 2 then
      (CloseList(s.list) + [Begin(QuoteEnv), Inline(After(stripped, 1)), End(QuoteEnv)], closed)
    else if IsHeading(stripped) then
      HeadingLines(digit, s, stripped)
    else if IsBullet(stripped) then
      ((if s.list.Bullets? then [] else CloseList(s.list) + [Begin(Itemize)]) + [Item(After(stripped, 1))],
       s.(list := Bullets))
    else if IsNumbered(digit, stripped) then
      ((if s.list.Numbers? then [] else CloseList(s.list) + [Begin(Enumerate)]) +
       [Item(After(stripped, Leading(digit, stripped) + 1))],
       s.(list := Numbers))
    else
      (CloseList(s.list) + [Inline(stripped)], closed)
  }

  datatype Mode = InCode | Fence | Bracket | InMath | TableTurn | TextTurn

  // Which branch of the scanner takes the line.
  function ModeOf(lines: seq<Line>, i: nat, code: bool, math: bool): Mode
    requires i < |lines|
  {
    var stripped := Strip(lines[i]);
    if code then InCode
    else if IsFence(stripped) then Fence
    else if stripped == "\\[" then Bracket
    else if math then InMath
    else if IsTableStart(lines, i) then TableTurn
    else TextTurn
  }

  // The line after the ones that the turn at line i takes.
  function NextLine(lines: seq<Line>, i: nat, mode: Mode): (j: nat)
    requires i < |lines| && (mode.TableTurn? ==> i + 1 < |lines|)
    ensures i < j <= |lines|
  {
    if mode.TableTurn? then TableEnd(lines, i + 2) else i + 1
  }

  // What the turn at line i emits, and the state after it.
  function Turn(digit: char -> bool, lines: seq<Line>, i: nat, s: State): (seq<Out>, State)
    requires i < |lines|
  {
    var line := lines[i];
    var stripped := Strip(line);
    var closed := s.(list := NoList);
    match ModeOf(lines, i, s.code, s.math)
    case InCode =>
      if IsFence(stripped) then ([End(Listing)], s.(code := false)) else ([Copied(line)], s)
    case Fence => (CloseList(s.list) + [Begin(Listing)], closed.(code := true))
    case Bracket => (CloseList(s.list) + [Begin(DisplayMath)], closed.(math := true))
    case InMath =>
      if stripped == "\\]" then ([End(DisplayMath)], s.(math := false)) else ([Copied(line)], s)
    case TableTurn =>
      (CloseList(s.list) + TableLines(lines[i..TableEnd(lines, i + 2)]) + [EmptyLine], closed)
    case TextTurn => TextLines(digit, s, stripped)
  }

  // Everything emitted from line i on.
  function Converted(digit: char -> bool, lines: seq<Line>, i: nat, s: State): seq<Out>
    requires i <= |lines|
    decreases |lines| - i
  {
    if i == |lines| then CloseList(s.list) + CloseAbstract(s.abstracted) else
      var (out, s') := Turn(digit, lines, i, s);
      out + Converted(digit, lines, NextLine(lines, i, ModeOf(lines, i, s.code, s.math)), s')
  }

  // ---------- nesting ----------

  // The environments left open, innermost last; None once an `End` does not match.
  function Check(open: seq<Env>, out: seq<Out>): Option<seq<Env>>
    decreases |out|
  {
    if out == [] then Some(open) else
      match out[0]
      case Begin(e) => Check(open + [e], out[1..])
      case End(e) =>
        if open != [] && open[|open| - 1] == e then Check(open[..|open| - 1], out[1..]) else None
      case _ => Check(open, out[1..])
  }

  // Properly nested and fully closed.
  predicate Balanced(out: seq<Out>) {
    Check([], out) == Some([])
  }

  function Optional(b: bool, e: Env): seq<Env> {
    if b then [e] else []
  }

  // The open environments are a function of the flags.
  function Open(s: State): seq<Env> {
    Optional(s.abstracted, Abstract) + Optional(s.list.Bullets?, Itemize) + Optional(s.list.Numbers?, Enumerate) +
    Optional(s.math, DisplayMath) + Optional(s.code, Listing)
  }

  // Lists are closed before anything else opens.
  predicate Consistent(s: State) {
    s.math || s.code ==> s.list.NoList?
  }

  lemma {:induction false} CheckAppend(open: seq<Env>, a: seq<Out>, b: seq<Out>)
    requires Check(open, a).Some?
    ensures Check(open, a + b) == Check(Check(open, a).value, b)
    decreases |a|
  {
    if a == [] {
      assert a + b == b;
    } else {
      assert (a + b)[1..] == a[1..] + b;
      match a[0]
      case Begin(e) => CheckAppend(open + [e], a[1..], b);
      case End(e) => CheckAppend(open[..|open| - 1], a[1..], b);
      case _ => CheckAppend(open, a[1..], b);
    }
  }

  lemma CheckThen(open: seq<Env>, a: seq<Out>, mid: seq<Env>, b: seq<Out>, end: seq<Env>)
    requires Check(open, a) == Some(mid) && Check(mid, b) == Some(end)
    ensures Check(open, a + b) == Some(end)
  {
    CheckAppend(open, a, b);
  }

  lemma CheckBegin(open: seq<Env>, e: Env)
    ensures Check(open, [Begin(e)]) == Some(open + [e])
  {
  }

  lemma CheckEnd(open: seq<Env>, e: Env)
    ensures Check(open + [e], [End(e)]) == Some(open)
  {
    assert (open + [e])[..|open|] == open;
  }

  predicate Plain(out: seq<Out>) {
    forall i :: 0 <= i < |out| ==> !out[i].Begin? && !out[i].End?
  }

  lemma {:induction false} CheckPlain(open: seq<Env>, out: seq<Out>)
    requires Plain(out)
    ensures Check(open, out) == Some(open)
    decreases |out|
  {
    if out != [] {
      CheckPlain(open, out[1..]);
    }
  }

  lemma {:induction false} TableBodyPlain(rows: seq<Line>, columns: nat)
    ensures Plain(TableBody(rows, columns))
  {
    hide RowCells;
    if rows != [] {
      TableBodyPlain(rows[1..], columns);
    }
  }

  lemma CheckTable(open: seq<Env>, rows: seq<Line>)
    requires |rows| >= 2
    ensures Check(open, TableLines(rows)) == Some(open)
  {
    hide RowCells, Check;
    var columns := |RowCells(rows[0])|;
    var body := TableBody(rows[2..], columns);
    TableBodyPlain(rows[2..], columns);
    var inner := [TableRule("toprule"), TableRow(RowCells(rows[0])), TableRule("midrule"), TableRule("endhead")]
                 + body + [TableRule("bottomrule")];
    CheckPlain(open + [Group] + [LongTable], inner);
    CheckBegin(open, Group);
    CheckPlain(open + [Group], [TableStyle(columns)]);
    CheckBegin(open + [Group], LongTable);
    CheckEnd(open + [Group], LongTable);
    CheckEnd(open, Group);
    CheckThen(open + [Group] + [LongTable], [End(LongTable)], open + [Group], [End(Group)], open);
    CheckThen(open + [Group] + [LongTable], inner, open + [Group] + [LongTable], [End(LongTable)] + [End(Group)], open);
    var rest := inner + ([End(LongTable)] + [End(Group)]);
    CheckThen(open + [Group], [Begin(LongTable)], open + [Group] + [LongTable], rest, open);
    CheckThen(open + [Group], [TableStyle(columns)], open + [Group], [Begin(LongTable)] + rest, open);
    CheckThen(open, [Begin(Group)], open + [Group], [TableStyle(columns)] + ([Begin(LongTable)] + rest), open);
    assert TableLines(rows) == [Begin(Group)] + ([TableStyle(columns)] + ([Begin(LongTable)] + rest));
  }

  lemma CheckCloseList(s: State)
    requires Consistent(s)
    ensures Check(Open(s), CloseList(s.list)) == Some(Open(s.(list := NoList)))
  {
    var base := Open(s.(list := NoList));
    match s.list
    case NoList =>
    case Bullets =>
      assert Open(s) == base + [Itemize];
      CheckEnd(base, Itemize);
    case Numbers =>
      assert Open(s) == base + [Enumerate];
      CheckEnd(base, Enumerate);
  }

  lemma CheckCloseAbstract(s: State)
    requires s.list.NoList? && !s.math && !s.code
    ensures Check(Open(s), CloseAbstract(s.abstracted)) == Some([])
  {
    if s.abstracted {
      assert Open(s) == [] + [Abstract];
      CheckEnd([], Abstract);
    } else {
      assert Open(s) == [];
    }
  }

  // A turn that closes the list and then emits `rest`.
  lemma CheckAfterList(s: State, rest: seq<Out>, end: seq<Env>)
    requires Consistent(s) && Check(Open(s.(list := NoList)), rest) == Some(end)
    ensures Check(Open(s), CloseList(s.list) + rest) == Some(end)
  {
    CheckCloseList(s);
    CheckThen(Open(s), CloseList(s.list), Open(s.(list := NoList)), rest, end);
  }

  lemma CheckHeadingOut(mark: bool, level: int, text: string)
    ensures Check([], HeadingOut(mark, level, text)) == Some(if Lower(text) == "abstract" then [Abstract] else [])
  {
    hide Lower, Check;
    var marks: seq<Out> := if mark then [AppendixMark] else [];
    var last := HeadingOut(mark, level, text)[|marks|];
    var after := if last.Begin? then [Abstract] else [];
    CheckPlain([], marks);
    CheckPlain(after, [EmptyLine]);
    if last.Begin? {
      CheckBegin([], Abstract);
      assert [] + [Abstract] == [Abstract];
    } else {
      CheckPlain([], [last]);
    }
    CheckThen([], [last], after, [EmptyLine], after);
    CheckThen([], marks, [], [last] + [EmptyLine], after);
    assert HeadingOut(mark, level, text) == marks + ([last] + [EmptyLine]);
  }

  lemma CheckHeadingLines(s: State, s': State, mark: bool, level: int, text: string)
    requires Consistent(s) && !s.math && !s.code
    requires s'.list.NoList? && !s'.math && !s'.code && s'.abstracted == (Lower(text) == "abstract")
    ensures Check(Open(s), CloseList(s.list) + (CloseAbstract(s.abstracted) + HeadingOut(mark, level, text)))
            == Some(Open(s'))
  {
    hide Check, Lower, CloseList, HeadingOut, CloseAbstract;
    var closed := s.(list := NoList);
    CheckHeadingOut(mark, level, text);
    assert Open(s') == if s'.abstracted then [Abstract] else [];
    CheckCloseAbstract(closed);
    CheckThen(Open(closed), CloseAbstract(s.abstracted), [], HeadingOut(mark, level, text), Open(s'));
    CheckAfterList(s, CloseAbstract(s.abstracted) + HeadingOut(mark, level, text), Open(s'));
  }

  lemma CheckText(digit: char -> bool, s: State, stripped: string)
    requires Consistent(s) && !s.math && !s.code
    ensures var (out, s') := TextLines(digit, s, stripped);
            Check(Open(s), out) == Some(Open(s')) && Consistent(s') && !s'.math && !s'.code
  {
    hide Check, Open, CloseList, IsHeading, IsBullet, IsNumbered, CleanHeading, After, HeadingOut, Lower;
    var (out, s') := TextLines(digit, s, stripped);
    var closed := s.(list := NoList);
    if stripped == "" {
      CheckPlain(Open(closed), [EmptyLine]);
      CheckAfterList(s, [EmptyLine], Open(closed));
    } else if stripped[0] == '>' && |stripped| >= 2 {
      CheckQuote(Open(closed), After(stripped, 1));
      CheckAfterList(s, [Begin(QuoteEnv), Inline(After(stripped, 1)), End(QuoteEnv)], Open(closed));
    } else if IsHeading(stripped) {
      var level := Hashes(stripped);
      var (text, isAppendix) := CleanHeading(digit, After(stripped, level));
      CheckHeadingLines(s, s', isAppendix && !s.appendix, level, text);
    } else if IsBullet(stripped) {
      CheckItem(s, Bullets, Item(After(stripped, 1)));
    } else if IsNumbered(digit, stripped) {
      CheckItem(s, Numbers, out[|out| - 1]);
    } else {
      CheckPlain(Open(closed), [Inline(stripped)]);
      CheckAfterList(s, [Inline(stripped)], Open(closed));
    }
  }

  lemma CheckQuote(open: seq<Env>, text: string)
    ensures Check(open, [Begin(QuoteEnv), Inline(text), End(QuoteEnv)]) == Some(open)
  {
    hide Check;
    CheckBegin(open, QuoteEnv);
    CheckPlain(open + [QuoteEnv], [Inline(text)]);
    CheckEnd(open, QuoteEnv);
    CheckThen(open + [QuoteEnv], [Inline(text)], open + [QuoteEnv], [End(QuoteEnv)], open);
    CheckThen(open, [Begin(QuoteEnv)], open + [QuoteEnv], [Inline(text)] + [End(QuoteEnv)], open);
    assert [Begin(QuoteEnv), Inline(text), End(QuoteEnv)] == [Begin(QuoteEnv)] + ([Inline(text)] + [End(QuoteEnv)]);
  }

  // An item joins the open list of its kind, or replaces the open list by a new one.
  lemma CheckItem(s: State, l: List, item: Out)
    requires Consistent(s) && !s.math && !s.code && !l.NoList? && item.Item?
    ensures var opening := if s.list == l then []
                           else CloseList(s.list) + [Begin(if l.Bullets? then Itemize else Enumerate)];
            Check(Open(s), opening + [item]) == Some(Open(s.(list := l)))
  {
    hide Check, CloseList;
    var closed, open := s.(list := NoList), s.(list := l);
    CheckPlain(Open(open), [item]);
    if s.list == l {
      assert [] + [item] == [item];
    } else {
      var e := if l.Bullets? then Itemize else Enumerate;
      assert Open(open) == Open(closed) + [e];
      CheckBegin(Open(closed), e);
      CheckAfterList(s, [Begin(e)], Open(open));
      CheckThen(Open(s), CloseList(s.list) + [Begin(e)], Open(open), [item], Open(open));
    }
  }

  lemma CheckOpening(s: State, s': State, e: Env)
    requires Consistent(s) && Open(s') == Open(s.(list := NoList)) + [e]
    ensures Check(Open(s), CloseList(s.list) + [Begin(e)]) == Some(Open(s'))
  {
    hide Check, CloseList, Open;
    CheckBegin(Open(s.(list := NoList)), e);
    CheckAfterList(s, [Begin(e)], Open(s'));
  }

  lemma CheckTableTurn(s: State, rows: seq<Line>)
    requires Consistent(s) && |rows| >= 2
    ensures Check(Open(s), CloseList(s.list) + TableLines(rows) + [EmptyLine]) == Some(Open(s.(list := NoList)))
  {
    hide Check, CloseList, Open, TableLines;
    var closed := Open(s.(list := NoList));
    CheckTable(closed, rows);
    CheckPlain(closed, [EmptyLine]);
    CheckAfterList(s, TableLines(rows), closed);
    CheckThen(Open(s), CloseList(s.list) + TableLines(rows), closed, [EmptyLine], closed);
  }

  // The turn at line i keeps the environments that the flags stand for.
  ghost predicate TurnNests(digit: char -> bool, lines: seq<Line>, i: nat, s: State)
    requires i < |lines|
  {
    var (out, s') := Turn(digit, lines, i, s);
    Check(Open(s), out) == Some(Open(s')) && Consistent(s')
  }

  lemma CodeLineNests(digit: char -> bool, lines: seq<Line>, i: nat, s: State)
    requires i < |lines| && Consistent(s) && ModeOf(lines, i, s.code, s.math).InCode?
    ensures TurnNests(digit, lines, i, s)
  {
    hide Check, CloseList, TextLines, IsFence, IsTableStart, Strip, TableEnd, TableLines;
    if IsFence(Strip(lines[i])) {
      var s' := s.(code := false);
      assert Open(s) == Open(s') + [Listing];
      CheckEnd(Open(s'), Listing);
    } else {
      CheckPlain(Open(s), [Copied(lines[i])]);
    }
  }

  lemma FenceNests(digit: char -> bool, lines: seq<Line>, i: nat, s: State)
    requires i < |lines| && Consistent(s) && ModeOf(lines, i, s.code, s.math).Fence?
    ensures TurnNests(digit, lines, i, s)
  {
    hide Check, CloseList, TextLines, IsFence, IsTableStart, Strip, TableEnd, TableLines;
    var closed := s.(list := NoList);
    var s' := closed.(code := true);
    assert Open(s') == Open(closed) + [Listing];
    CheckOpening(s, s', Listing);
  }

  lemma BracketNests(digit: char -> bool, lines: seq<Line>, i: nat, s: State)
    requires i < |lines| && Consistent(s) && ModeOf(lines, i, s.code, s.math).Bracket? && !s.math
    ensures TurnNests(digit, lines, i, s)
  {
    hide Check, CloseList, TextLines, IsFence, IsTableStart, Strip, TableEnd, TableLines;
    var closed := s.(list := NoList);
    var s' := closed.(math := true);
    assert Open(s') == Open(closed) + [DisplayMath];
    CheckOpening(s, s', DisplayMath);
  }

  lemma FormulaLineNests(digit: char -> bool, lines: seq<Line>, i: nat, s: State)
    requires i < |lines| && Consistent(s) && ModeOf(lines, i, s.code, s.math).InMath?
    ensures TurnNests(digit, lines, i, s)
  {
    hide Check, CloseList, TextLines, IsFence, IsTableStart, Strip, TableEnd, TableLines;
    if Strip(lines[i]) == "\\]" {
      var s' := s.(math := false);
      assert Open(s) == Open(s') + [DisplayMath];
      CheckEnd(Open(s'), DisplayMath);
    } else {
      CheckPlain(Open(s), [Copied(lines[i])]);
    }
  }

  lemma TableNests(digit: char -> bool, lines: seq<Line>, i: nat, s: State)
    requires i < |lines| && Consistent(s) && ModeOf(lines, i, s.code, s.math).TableTurn?
    ensures TurnNests(digit, lines, i, s)
  {
    hide Check, CloseList, Open, TextLines, IsFence, Strip, TableLines;
    CheckTableTurn(s, lines[i..TableEnd(lines, i + 2)]);
  }

  lemma TextNests(digit: char -> bool, lines: seq<Line>, i: nat, s: State)
    requires i < |lines| && Consistent(s) && ModeOf(lines, i, s.code, s.math).TextTurn?
    ensures TurnNests(digit, lines, i, s)
  {
    hide Check, CloseList, Open, TextLines, IsFence, IsTableStart, Strip, TableLines;
    CheckText(digit, s, Strip(lines[i]));
  }

  // Every turn that does not open a formula inside a formula keeps the environments that the
  // flags stand for.
  lemma CheckTurn(digit: char -> bool, lines: seq<Line>, i: nat, s: State)
    requires i < |lines| && Consistent(s)
    requires !(ModeOf(lines, i, s.code, s.math).Bracket? && s.math)
    ensures var (out, s') := Turn(digit, lines, i, s);
            Check(Open(s), out) == Some(Open(s')) && Consistent(s')
  {
    hide Check, Turn, ModeOf, Open, Consistent;
    match ModeOf(lines, i, s.code, s.math)
    case InCode => CodeLineNests(digit, lines, i, s);
    case Fence => FenceNests(digit, lines, i, s);
    case Bracket => BracketNests(digit, lines, i, s);
    case InMath => FormulaLineNests(digit, lines, i, s);
    case TableTurn => TableNests(digit, lines, i, s);
    case TextTurn => TextNests(digit, lines, i, s);
  }

  // ---------- when the output is well nested ----------

  // Reading only fences, formula brackets and table extents: no formula bracket opens inside
  // a formula, and at the end no fence and no bracket is open.
  predicate Tidy(lines: seq<Line>, i: nat, code: bool, math: bool)
    requires i <= |lines|
    decreases |lines| - i
  {
    if i == |lines| then !code && !math else
      var mode := ModeOf(lines, i, code, math);
      var s := Strip(lines[i]);
      var j := NextLine(lines, i, mode);
      match mode
      case InCode => Tidy(lines, j, !IsFence(s), math)
      case Fence => Tidy(lines, j, true, math)
      case Bracket => !math && Tidy(lines, j, code, true)
      case InMath => Tidy(lines, j, code, s != "\\]")
      case TableTurn => Tidy(lines, j, code, math)
      case TextTurn => Tidy(lines, j, code, math)
  }

  lemma TextKeepsFlags(digit: char -> bool, s: State, stripped: string)
    ensures TextLines(digit, s, stripped).1.code == s.code && TextLines(digit, s, stripped).1.math == s.math
  {
    hide IsHeading, IsBullet, IsNumbered, CleanHeading, After, Lower, HeadingOut, CloseList, CloseAbstract;
  }

  lemma TidyStep(digit: char -> bool, lines: seq<Line>, i: nat, s: State)
    requires i < |lines|
    ensures var mode := ModeOf(lines, i, s.code, s.math);
            var s' := Turn(digit, lines, i, s).1;
            Tidy(lines, i, s.code, s.math) <==>
            !(mode.Bracket? && s.math) && Tidy(lines, NextLine(lines, i, mode), s'.code, s'.math)
  {
    hide IsFence, IsTableStart, Strip, TextLines;
    TextKeepsFlags(digit, s, Strip(lines[i]));
  }

  lemma {:induction false} TidyIsNested(digit: char -> bool, lines: seq<Line>, i: nat, s: State)
    requires i <= |lines| && Consistent(s) && Tidy(lines, i, s.code, s.math)
    ensures Check(Open(s), Converted(digit, lines, i, s)) == Some([])
    decreases |lines| - i
  {
    hide Check, Open, CloseList, CloseAbstract;
    if i == |lines| {
      var closed := s.(list := NoList);
      CheckCloseAbstract(closed);
      CheckAfterList(s, CloseAbstract(s.abstracted), []);
    } else {
      hide Turn, ModeOf;
      TidyStep(digit, lines, i, s);
      CheckTurn(digit, lines, i, s);
      var (out, s') := Turn(digit, lines, i, s);
      var j := NextLine(lines, i, ModeOf(lines, i, s.code, s.math));
      TidyIsNested(digit, lines, j, s');
      CheckThen(Open(s), out, Open(s'), Converted(digit, lines, j, s'), []);
    }
  }

  // ---------- counting ----------

  // How many more environments of a kind are begun than ended.
  function Net(e: Env, out: seq<Out>): int {
    if out == [] then 0 else
      (if out[0] == Begin(e) then 1 else if out[0] == End(e) then -1 else 0) + Net(e, out[1..])
  }

  lemma {:induction false} NetAppend(e: Env, a: seq<Out>, b: seq<Out>)
    ensures Net(e, a + b) == Net(e, a) + Net(e, b)
  {
    if a == [] {
      assert a + b == b;
    } else {
      assert (a + b)[1..] == a[1..] + b;
      NetAppend(e, a[1..], b);
    }
  }

  lemma CountPushed(e: Env, open: seq<Env>, f: Env)
    ensures multiset(open + [f])[e] == multiset(open)[e] + if e == f then 1 else 0
  {
  }

  // What one output line does to the open environments, and to their count.
  lemma CheckLine(e: Env, open: seq<Env>, out: seq<Out>) returns (next: seq<Env>)
    requires out != [] && Check(open, out).Some?
    ensures Check(open, out) == Check(next, out[1..])
    ensures multiset(next)[e] + Net(e, out[1..]) == multiset(open)[e] + Net(e, out)
  {
    match out[0]
    case Begin(f) =>
      next := open + [f];
      CountPushed(e, open, f);
    case End(f) =>
      next := open[..|open| - 1];
      CountPushed(e, next, f);
      assert open == next + [f];
    case _ => next := open;
  }

  lemma {:induction false} CheckedNet(e: Env, open: seq<Env>, out: seq<Out>)
    requires Check(open, out).Some?
    ensures multiset(Check(open, out).value)[e] == multiset(open)[e] + Net(e, out)
    decreases |out|
  {
    if out != [] {
      hide Check, Net;
      var next := CheckLine(e, open, out);
      CheckedNet(e, next, out[1..]);
    }
  }

  function Flag(b: bool): int {
    if b then 1 else 0
  }

  // The number of environments of a kind that the flags hold open.
  function Held(e: Env, s: State): int {
    match e
    case Listing => Flag(s.code)
    case DisplayMath => Flag(s.math)
    case Itemize => Flag(s.list.Bullets?)
    case Enumerate => Flag(s.list.Numbers?)
    case Abstract => Flag(s.abstracted)
    case _ => 0
  }

  lemma CountOptional(b: bool, e: Env, f: Env)
    ensures multiset(Optional(b, e))[f] == if e == f then Flag(b) else 0
  {
  }

  lemma HeldIsOpen(e: Env, s: State)
    ensures multiset(Open(s))[e] == Held(e, s)
  {
    hide Optional;
    CountOptional(s.abstracted, Abstract, e);
    CountOptional(s.list.Bullets?, Itemize, e);
    CountOptional(s.list.Numbers?, Enumerate, e);
    CountOptional(s.math, DisplayMath, e);
    CountOptional(s.code, Listing, e);
    OpenCounts(s);
  }

  lemma OpenCounts(s: State)
    ensures multiset(Open(s)) ==
            multiset(Optional(s.abstracted, Abstract)) + multiset(Optional(s.list.Bullets?, Itemize)) +
            multiset(Optional(s.list.Numbers?, Enumerate)) + multiset(Optional(s.math, DisplayMath)) +
            multiset(Optional(s.code, Listing))
  {
  }

  lemma TurnInsideFormula(digit: char -> bool, lines: seq<Line>, i: nat, s: State)
    requires i < |lines| && Consistent(s) && s.math && ModeOf(lines, i, s.code, s.math).Bracket?
    ensures Turn(digit, lines, i, s) == ([Begin(DisplayMath)], s)
  {
    hide ModeOf;
    assert s == State(s.code, true, s.abstracted, NoList, s.appendix);
    assert CloseList(NoList) + [Begin(DisplayMath)] == [Begin(DisplayMath)];
  }

  // A turn changes the count by what the flags say, plus one for a formula inside a formula.
  lemma NetOfTurn(digit: char -> bool, lines: seq<Line>, i: nat, s: State, e: Env)
    requires i < |lines| && Consistent(s)
    ensures var (out, s') := Turn(digit, lines, i, s);
            Consistent(s') &&
            Net(e, out) == Held(e, s') - Held(e, s) +
                           Flag(e.DisplayMath? && s.math && ModeOf(lines, i, s.code, s.math).Bracket?)
  {
    hide Turn, ModeOf, Check, Open, Held;
    var (out, s') := Turn(digit, lines, i, s);
    if ModeOf(lines, i, s.code, s.math).Bracket? && s.math {
      TurnInsideFormula(digit, lines, i, s);
    } else {
      hide Net;
      CheckTurn(digit, lines, i, s);
      CheckedNet(e, Open(s), out);
      HeldIsOpen(e, s);
      HeldIsOpen(e, s');
    }
  }

  // From line i on: everything held open is closed again except fences and formulas, which are
  // closed exactly when the rest is tidy.
  lemma {:induction false} NetOfRest(digit: char -> bool, lines: seq<Line>, i: nat, s: State)
    requires i <= |lines| && Consistent(s)
    ensures forall e :: e != Listing && e != DisplayMath ==> Net(e, Converted(digit, lines, i, s)) == -Held(e, s)
    ensures Net(Listing, Converted(digit, lines, i, s)) >= -Held(Listing, s)
    ensures Net(DisplayMath, Converted(digit, lines, i, s)) >= -Held(DisplayMath, s)
    ensures Tidy(lines, i, s.code, s.math) <==>
            Net(Listing, Converted(digit, lines, i, s)) == -Held(Listing, s) &&
            Net(DisplayMath, Converted(digit, lines, i, s)) == -Held(DisplayMath, s)
    decreases |lines| - i
  {
    if i == |lines| {
      forall e
        ensures Net(e, CloseList(s.list) + CloseAbstract(s.abstracted))
                == if e.Listing? || e.DisplayMath? then 0 else -Held(e, s)
      {
        NetAppend(e, CloseList(s.list), CloseAbstract(s.abstracted));
      }
    } else {
      var (out, s') := Turn(digit, lines, i, s);
      var j := NextLine(lines, i, ModeOf(lines, i, s.code, s.math));
      var rest := Converted(digit, lines, j, s');
      assert Converted(digit, lines, i, s) == out + rest;
      hide Turn, ModeOf, Net, Held, NextLine, Converted;
      TidyStep(digit, lines, i, s);
      forall e
        ensures Net(e, out + rest) == Net(e, out) + Net(e, rest)
        ensures Consistent(s')
        ensures Net(e, out) == Held(e, s') - Held(e, s) +
                               Flag(e.DisplayMath? && s.math && ModeOf(lines, i, s.code, s.math).Bracket?)
      {
        NetAppend(e, out, rest);
        NetOfTurn(digit, lines, i, s, e);
      }
      NetOfRest(digit, lines, j, s');
    }
  }

  // The output is properly nested and fully closed exactly when the input is tidy.
  lemma NestedExactlyWhenTidy(digit: char -> bool, lines: seq<Line>)
    ensures Balanced(Converted(digit, lines, 0, INITIAL)) <==> Tidy(lines, 0, false, false)
  {
    var out := Converted(digit, lines, 0, INITIAL);
    assert Open(INITIAL) == [];
    if Tidy(lines, 0, false, false) {
      TidyIsNested(digit, lines, 0, INITIAL);
    }
    if Balanced(out) {
      CheckedNet(Listing, [], out);
      CheckedNet(DisplayMath, [], out);
      NetOfRest(digit, lines, 0, INITIAL);
    }
  }

  // On any input at all, lists, quotes, tables and abstracts are begun and ended equally often.
  lemma OtherEnvironmentsBalance(digit: char -> bool, lines: seq<Line>, e: Env)
    requires e != Listing && e != DisplayMath
    ensures Net(e, Converted(digit, lines, 0, INITIAL)) == 0
  {
    NetOfRest(digit, lines, 0, INITIAL);
  }

  // A formula opened inside a formula and closed once: the output is not well nested.
  lemma NestedFormulaIsUnbalanced(digit: char -> bool)
    ensures !Balanced(Converted(digit, ["\\[", "\\[", "\\]"], 0, INITIAL))
  {
    hide Tidy, Converted, Balanced;
    var lines: seq<Line> := ["\\[", "\\[", "\\]"];
    NestedExactlyWhenTidy(digit, lines);
    TidyAtBracket(lines, 0, false);
    TidyAtBracket(lines, 1, true);
  }

  lemma TidyAtBracket(lines: seq<Line>, i: nat, math: bool)
    requires i < |lines| && lines[i] == "\\["
    ensures Tidy(lines, i, false, math) <==> !math && Tidy(lines, i + 1, false, true)
  {
    assert !IsPySpace('\\') && !IsPySpace('[');
    StripKeeps("\\[");
    hide Strip, IsTableStart;
  }

  // ---------- the scanner itself ----------

  method ConvertHeading(digit: char -> bool, stripped: string, s: State) returns (out: seq<Out>, s': State)
    requires IsHeading(stripped)
    ensures (out, s') == HeadingLines(digit, s, stripped)
  {
    hide CleanHeading, Lower, IsHeading, CloseList;
    var level := Hashes(stripped);
    var (text, isAppendix) := CleanHeading(digit, After(stripped, level));
    var heading: seq<Out> := [];
    s' := s.(list := NoList, abstracted := false);
    if isAppendix && !s.appendix {
      heading := [AppendixMark];
      s' := s'.(appendix := true);
    }
    if Lower(text) == "abstract" {
      heading := heading + [Begin(Abstract), EmptyLine];
      s' := s'.(abstracted := true);
    } else if Lower(text) == "keywords" {
      heading := heading + [Keywords, EmptyLine];
    } else {
      heading := heading + [Section(level, text), EmptyLine];
    }
    out := CloseList(s.list) + (CloseAbstract(s.abstracted) + heading);
  }

  method ConvertTable(rows: seq<Line>) returns (out: seq<Out>)
    requires |rows| >= 2
    ensures out == TableLines(rows)
  {
    hide RowCells, Padded;
    var header := RowCells(rows[0]);
    out := [Begin(Group), TableStyle(|header|), Begin(LongTable), TableRule("toprule"), TableRow(header),
            TableRule("midrule"), TableRule("endhead")];
    ghost var start := out;
    var k := 2;
    while k < |rows|
      invariant 2 <= k <= |rows|
      invariant out + TableBody(rows[k..], |header|) == start + TableBody(rows[2..], |header|)
    {
      assert rows[k..][1..] == rows[k + 1..];
      out := out + [TableRow(Padded(RowCells(rows[k]), |header|))];
      k := k + 1;
    }
    out := out + [TableRule("bottomrule"), End(LongTable), End(Group)];
  }

  // The body of the scanner's loop.
  method ConvertTurn(digit: char -> bool, lines: seq<Line>, start: nat, s: State)
    returns (out: seq<Out>, s': State, i: nat)
    requires start < |lines|
    ensures (out, s') == Turn(digit, lines, start, s)
    ensures i == NextLine(lines, start, ModeOf(lines, start, s.code, s.math))
  {
    hide TextLines, IsTableStart, IsFence, IsTableRow, TableEnd, TableLines, CloseList, Strip;
    var line := lines[start];
    var stripped := Strip(line);
    s', i := s, start + 1;
    if s.code {
      if IsFence(stripped) {
        out, s' := [End(Listing)], s.(code := false);
      } else {
        out := [Copied(line)];
      }
    } else if IsFence(stripped) {
      out, s' := CloseList(s.list) + [Begin(Listing)], s.(list := NoList, code := true);
    } else if stripped == "\\[" {
      out, s' := CloseList(s.list) + [Begin(DisplayMath)], s.(list := NoList, math := true);
    } else if s.math {
      if stripped == "\\]" {
        out, s' := [End(DisplayMath)], s.(math := false);
      } else {
        out := [Copied(line)];
      }
    } else if IsTableStart(lines, start) {
      var rows, j := ReadTable(lines, start);
      var table := ConvertTable(rows);
      out, s', i := CloseList(s.list) + table + [EmptyLine], s.(list := NoList), j;
    } else {
      out, s' := ConvertText(digit, stripped, s);
    }
  }

  method ConvertMarkdown(digit: char -> bool, lines: seq<Line>) returns (out: seq<Out>)
    ensures out == Converted(digit, lines, 0, INITIAL)
  {
    hide Turn, ModeOf, CloseList;
    out := [];
    var s, i := INITIAL, 0;
    while i < |lines|
      invariant 0 <= i <= |lines|
      invariant out + Converted(digit, lines, i, s) == Converted(digit, lines, 0, INITIAL)
    {
      var piece, s', j := ConvertTurn(digit, lines, i, s);
      Regroup(out, piece, Converted(digit, lines, j, s'));
      out, s, i := out + piece, s', j;
    }
    out := out + (CloseList(s.list) + CloseAbstract(s.abstracted));
  }

  method ReadTable(lines: seq<Line>, start: nat) returns (rows: seq<Line>, i: nat)
    requires IsTableStart(lines, start)
    ensures i == TableEnd(lines, start + 2) && rows == lines[start..i] && |rows| >= 2
  {
    hide IsTableRow, IsTableSeparator;
    rows, i := [lines[start], lines[start + 1]], start + 2;
    while i < |lines| && IsTableRow(lines[i])
      invariant start + 2 <= i <= |lines| && rows == lines[start..i]
      invariant TableEnd(lines, i) == TableEnd(lines, start + 2)
    {
      rows, i := rows + [lines[i]], i + 1;
    }
  }

  method ConvertText(digit: char -> bool, stripped: string, s: State) returns (out: seq<Out>, s': State)
    ensures (out, s') == TextLines(digit, s, stripped)
  {
    hide IsHeading, HeadingLines, CloseList;
    s' := s.(list := NoList);
    if stripped == "" {
      out := CloseList(s.list) + [EmptyLine];
    } else if stripped[0] == '>' && |stripped| >= 2 {
      out := CloseList(s.list) + [Begin(QuoteEnv), Inline(After(stripped, 1)), End(QuoteEnv)];
    } else if IsHeading(stripped) {
      out, s' := ConvertHeading(digit, stripped, s);
    } else if IsBullet(stripped) {
      out := if s.list == Bullets then [] else CloseList(s.list) + [Begin(Itemize)];
      out, s' := out + [Item(After(stripped, 1))], s.(list := Bullets);
    } else if IsNumbered(digit, stripped) {
      out := if s.list == Numbers then [] else CloseList(s.list) + [Begin(Enumerate)];
      out, s' := out + [Item(After(stripped, Leading(digit, stripped) + 1))], s.(list := Numbers);
    } else {
      out := CloseList(s.list) + [Inline(stripped)];
    }
  }
}