/** The line tests that the Markdown scanners share. Lines come from `splitlines`, so they hold
    no line feed; which characters `\d` matches is a parameter. */
module Markdown {
  import opened Whitespace

  type Line = s: string | '\n' !in s

  function Strip(s: string): (t: string)
    ensures t != "" ==> !IsPySpace(t[0]) && !IsPySpace(t[|t| - 1])
  {
    Trim(IsPySpace, s)
  }

  predicate IsStripped(s: string) {
    s == "" || (!IsPySpace(s[0]) && !IsPySpace(s[|s| - 1]))
  }

  lemma StripKeeps(s: string)
    requires IsStripped(s)
    ensures Strip(s) == s
  {
    hide IsPySpace;
    assert TrimStart(IsPySpace, s) == s;
    assert TrimEnd(IsPySpace, s) == s;
  }

  predicate IsFence(s: string) {
    "```" <= s
  }

  // ---------- tables ----------

  // Python's split on one character: always at least one piece.
  function SplitBar(s: string): (parts: seq<string>)
    ensures parts != []
  {
    if s == "" then [""]
    else
      var rest := SplitBar(s[1..]);
      if s[0] == '|' then [""] + rest else [[s[0]] + rest[0]] + rest[1..]
  }

  function StripAll(parts: seq<string>): (r: seq<string>)
    ensures |r| == |parts|
  {
    if parts == [] then [] else [Strip(parts[0])] + StripAll(parts[1..])
  }

  // split_md_row
  function RowCells(line: string): (cells: seq<string>)
    ensures cells != []
  {
    var s := Strip(line);
    var s1 := if "|" <= s then s[1..] else s;
    var s2 := if s1 != "" && s1[|s1| - 1] == '|' then s1[..|s1| - 1] else s1;
    StripAll(SplitBar(s2))
  }

  // :?-{3,}:?
  predicate IsRule(cell: string) {
    var c := if ":" <= cell then cell[1..] else cell;
    var d := if c != "" && c[|c| - 1] == ':' then c[..|c| - 1] else c;
    |d| >= 3 && forall i :: 0 <= i < |d| ==> d[i] == '-'
  }

  predicate IsTableSeparator(line: string) {
    forall cell :: cell in RowCells(line) ==> IsRule(cell)
  }

  predicate IsTableStart(lines: seq<Line>, i: nat) {
    i + 1 < |lines| && '|' in lines[i] && IsTableSeparator(lines[i + 1])
  }

  predicate IsTableRow(line: Line) {
    '|' in line && Strip(line) != ""
  }

  // The first line from i on that does not continue a table.
  function TableEnd(lines: seq<Line>, i: nat): (j: nat)
    requires i <= |lines|
    ensures i <= j <= |lines|
    decreases |lines| - i
  {
    if i < |lines| && IsTableRow(lines[i]) then TableEnd(lines, i + 1) else i
  }

  // ---------- headings, bullets and numbered items ----------

  function Leading(c: char -> bool, s: string): (n: nat)
    ensures n <= |s|
    ensures forall i :: 0 <= i < n ==> c(s[i])
    ensures n < |s| ==> !c(s[n])
  {
    if s != "" && c(s[0]) then 1 + Leading(c, s[1..]) else 0
  }

  function Hashes(s: string): nat {
    Leading(c => c == '#', s)
  }

  // ^(#{2,4})\s+ and, with text after it, ^(#{2,4})\s+(.+)$
  predicate HeadingMark(s: string) {
    var n := Hashes(s);
    2 <= n <= 4 && n < |s| && IsPySpace(s[n])
  }

  predicate IsHeading(s: string) {
    HeadingMark(s) && |s| >= Hashes(s) + 2
  }

  // ^[-*]\s+ and ^[-*]\s+(.+)$
  predicate BulletMark(s: string) {
    |s| >= 2 && (s[0] == '-' || s[0] == '*') && IsPySpace(s[1])
  }

  predicate IsBullet(s: string) {
    BulletMark(s) && |s| >= 3
  }

  // ^\d+\.\s+ and ^\d+\.\s+(.+)$
  predicate NumberMark(digit: char -> bool, s: string) {
    var n := Leading(digit, s);
    n >= 1 && n + 1 < |s| && s[n] == '.' && IsPySpace(s[n + 1])
  }

  predicate IsNumbered(digit: char -> bool, s: string) {
    NumberMark(digit, s) && |s| >= Leading(digit, s) + 3
  }

  // On a stripped line each pair of patterns says the same: some text follows the mark.
  lemma MarksNeedNoText(digit: char -> bool, s: string)
    requires IsStripped(s)
    ensures HeadingMark(s) <==> IsHeading(s)
    ensures BulletMark(s) <==> IsBullet(s)
    ensures NumberMark(digit, s) <==> IsNumbered(digit, s)
  {
  }

  // What the last group of a pattern captures, once the blanks before it are matched.
  function After(s: string, n: nat): string
    requires n <= |s|
  {
    TrimStart(IsPySpace, s[n..])
  }
}
