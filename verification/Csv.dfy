/** The one-pass CSV reader of the municipality importer, and the writer of section 2 of
    RFC 4180 that it must undo. */
module Csv {
  import opened Sequences
  import opened Whitespace

  type Row = seq<string>

  // Some value of the row has a character that trimming does not remove.
  predicate NonBlank(row: Row) {
    exists i, j :: 0 <= i < |row| && 0 <= j < |row[i]| && !IsJsSpace(row[i][j])
  }

  function KeepNonBlank(rows: seq<Row>): seq<Row> {
    if rows == [] then [] else (if NonBlank(rows[0]) then [rows[0]] else []) + KeepNonBlank(rows[1..])
  }

  // ---------- the reader ----------

  datatype State = State(rows: seq<Row>, row: Row, field: string, quoted: bool)

  const START := State([], [], "", false)

  function EndField(s: State): State {
    s.(row := s.row + [s.field], field := "")
  }

  function EndRow(s: State): State {
    var row := s.row + [s.field];
    State(if NonBlank(row) then s.rows + [row] else s.rows, [], "", s.quoted)
  }

  // The state after reading t.
  function Run(s: State, t: string): State
    decreases |t|
  {
    if t == "" then s
    else if t[0] == '"' && s.quoted && |t| > 1 && t[1] == '"' then Run(s.(field := s.field + "\""), t[2..])
    else if t[0] == '"' then Run(s.(quoted := !s.quoted), t[1..])
    else if t[0] == ',' && !s.quoted then Run(EndField(s), t[1..])
    else if (t[0] == '\n' || t[0] == '\r') && !s.quoted then
      Run(EndRow(s), if t[0] == '\r' && |t| > 1 && t[1] == '\n' then t[2..] else t[1..])
    else Run(s.(field := s.field + [t[0]]), t[1..])
  }

  function Parsed(text: string): seq<Row> {
    EndRow(Run(START, text)).rows
  }

  method IsNonBlank(row: Row) returns (some: bool)
    ensures some == NonBlank(row)
  {
    for i := 0 to |row|
      invariant forall k, j :: 0 <= k < i && 0 <= j < |row[k]| ==> IsJsSpace(row[k][j])
    {
      for j := 0 to |row[i]|
        invariant forall k :: 0 <= k < j ==> IsJsSpace(row[i][k])
      {
        if !IsJsSpace(row[i][j]) {
          return true;
        }
      }
    }
    return false;
  }

  method ParseCsv(text: string) returns (rows: seq<Row>)
    ensures rows == Parsed(text)
  {
    hide NonBlank, IsJsSpace;
    rows := [];
    var field, row: Row, quoted := "", [], false;
    var index := 0;
    while index < |text|
      invariant 0 <= index <= |text|
      invariant Run(State(rows, row, field, quoted), text[index..]) == Run(START, text)
    {
      var c := text[index];
      var hasNext := index + 1 < |text|;
      ghost var t := text[index..];
      assert t[1..] == text[index + 1..] && (hasNext ==> t[1] == text[index + 1] && t[2..] == text[index + 2..]);
      if c == '"' && quoted && hasNext && text[index + 1] == '"' {
        field := field + "\"";
        index := index + 1;
      } else if c == '"' {
        quoted := !quoted;
      } else if c == ',' && !quoted {
        row := row + [field];
        field := "";
      } else if (c == '\n' || c == '\r') && !quoted {
        if c == '\r' && hasNext && text[index + 1] == '\n' {
          index := index + 1;
        }
        row := row + [field];
        var some := IsNonBlank(row);
        if some {
          rows := rows + [row];
        }
        field := "";
        row := [];
      } else {
        field := field + [c];
      }
      index := index + 1;
    }
    row := row + [field];
    var some := IsNonBlank(row);
    if some {
      rows := rows + [row];
    }
  }

  // ---------- the writer ----------

  // A value may be written bare when it has no special character, and quoted always.
  datatype Cell = Bare(value: string) | Quoted(value: string)

  datatype Ending = CRLF | LF | CR

  datatype Line = Line(cells: seq<Cell>, ending: Ending)

  predicate BareOk(v: string) {
    forall i :: 0 <= i < |v| ==> v[i] !in "\",\n\r"
  }

  predicate Writable(line: Line) {
    line.cells != [] && forall i :: 0 <= i < |line.cells| ==> line.cells[i].Bare? ==> BareOk(line.cells[i].value)
  }

  function DoubledChar(c: char): string {
    if c == '"' then "\"\"" else [c]
  }

  function Doubled(v: string): string {
    if v == "" then "" else DoubledChar(v[0]) + Doubled(v[1..])
  }

  function CellText(c: Cell): string {
    match c
    case Bare(v) => v
    case Quoted(v) => "\"" + (Doubled(v) + "\"")
  }

  function RowText(cells: seq<Cell>): string {
    if cells == [] then ""
    else if |cells| == 1 then CellText(cells[0])
    else CellText(cells[0]) + ("," + RowText(cells[1..]))
  }

  function EndingText(e: Ending): string {
    match e
    case CRLF => "\r\n"
    case LF => "\n"
    case CR => "\r"
  }

  // Every line but the last is terminated; the last one need not be.
  function TableText(lines: seq<Line>, lastTerminated: bool): string {
    if lines == [] then ""
    else
      RowText(lines[0].cells) +
      ((if |lines| > 1 || lastTerminated then EndingText(lines[0].ending) else "")
        + TableText(lines[1..], lastTerminated))
  }

  function Values(cells: seq<Cell>): Row {
    if cells == [] then [] else [cells[0].value] + Values(cells[1..])
  }

  function Table(lines: seq<Line>): seq<Row> {
    if lines == [] then [] else [Values(lines[0].cells)] + Table(lines[1..])
  }

  // ---------- the reader undoes the writer ----------

  lemma {:induction false} ReadBare(s: State, v: string, t: string)
    requires BareOk(v) && !s.quoted
    ensures Run(s, v + t) == Run(s.(field := s.field + v), t)
    decreases |v|
  {
    if v == "" {
      assert v + t == t && s.field + v == s.field;
    } else {
      assert (v + t)[1..] == v[1..] + t;
      assert v[0] !in "\",\n\r";
      ReadBare(s.(field := s.field + [v[0]]), v[1..], t);
      assert s.field + [v[0]] + v[1..] == s.field + v;
    }
  }

  lemma ReadQuotedChar(s: State, c: char, t: string)
    requires s.quoted
    ensures Run(s, DoubledChar(c) + t) == Run(s.(field := s.field + [c]), t)
  {
    assert (DoubledChar(c) + t)[|DoubledChar(c)|..] == t;
  }

  lemma ReadClosingQuote(s: State, t: string)
    requires s.quoted && (t == "" || t[0] != '"')
    ensures Run(s, "\"" + t) == Run(s.(quoted := false), t)
  {
    assert ("\"" + t)[1..] == t;
  }

  lemma {:induction false} ReadDoubled(s: State, v: string, t: string)
    requires s.quoted && (t == "" || t[0] != '"')
    ensures Run(s, Doubled(v) + ("\"" + t)) == Run(s.(field := s.field + v, quoted := false), t)
    decreases |v|
  {
    hide Run, DoubledChar;
    if v == "" {
      assert Doubled(v) + ("\"" + t) == "\"" + t;
      ReadClosingQuote(s, t);
      assert s.field + v == s.field;
    } else {
      var rest := Doubled(v[1..]) + ("\"" + t);
      assert Doubled(v) + ("\"" + t) == DoubledChar(v[0]) + rest;
      ReadQuotedChar(s, v[0], rest);
      ReadDoubled(s.(field := s.field + [v[0]]), v[1..], t);
      assert s.field + [v[0]] + v[1..] == s.field + v;
    }
  }

  lemma ReadCell(s: State, c: Cell, t: string)
    requires !s.quoted && s.field == "" && (t == "" || t[0] != '"') && (c.Bare? ==> BareOk(c.value))
    ensures Run(s, CellText(c) + t) == Run(s.(field := c.value), t)
  {
    match c
    case Bare(v) =>
      ReadBare(s, v, t);
      assert s.field + v == v;
    case Quoted(v) =>
      var rest := Doubled(v) + ("\"" + t);
      assert CellText(c) + t == "\"" + rest;
      assert ("\"" + rest)[1..] == rest;
      ReadDoubled(s.(quoted := true), v, t);
      assert s.field + v == v;
  }

  // After a whole row the last value is still in the field, the others in the row.
  lemma {:induction false} ReadRow(s: State, cells: seq<Cell>, t: string) returns (s': State)
    requires !s.quoted && s.field == "" && (t == "" || t[0] != '"')
    requires cells != [] && forall i :: 0 <= i < |cells| ==> cells[i].Bare? ==> BareOk(cells[i].value)
    ensures Run(s, RowText(cells) + t) == Run(s', t)
    ensures !s'.quoted && s'.rows == s.rows && s'.row + [s'.field] == s.row + Values(cells)
    decreases |cells|
  {
    hide Run, CellText, BareOk;
    if |cells| == 1 {
      ReadCell(s, cells[0], t);
      s' := s.(field := cells[0].value);
    } else {
      var rest := RowText(cells[1..]) + t;
      RowTextCons(cells, t);
      ReadCell(s, cells[0], "," + rest);
      ReadComma(s.(field := cells[0].value), rest);
      hide RowText;
      s' := ReadRow(EndField(s.(field := cells[0].value)), cells[1..], t);
      ValuesCons(s.row, cells);
    }
  }

  lemma ValuesCons(row: Row, cells: seq<Cell>)
    requires cells != []
    ensures row + Values(cells) == row + [cells[0].value] + Values(cells[1..])
  {
  }

  lemma RowTextCons(cells: seq<Cell>, t: string)
    requires |cells| > 1
    ensures RowText(cells) + t == CellText(cells[0]) + ("," + (RowText(cells[1..]) + t))
  {
    hide CellText;
  }

  lemma ReadComma(s: State, t: string)
    requires !s.quoted
    ensures Run(s, "," + t) == Run(EndField(s), t)
  {
    assert ("," + t)[1..] == t;
  }

  lemma BlankRowIsDropped(rows: seq<Row>)
    ensures EndRow(State(rows, [], "", false)) == State(rows, [], "", false)
  {
  }

  // Every line ending ends the row. A CR swallows a following LF; if that LF was the ending of
  // an empty row, only a blank row is lost.
  lemma ReadEnding(s: State, e: Ending, t: string)
    requires !s.quoted
    ensures Run(s, EndingText(e) + t) == Run(EndRow(s), t)
  {
    var u := EndingText(e) + t;
    assert u[|EndingText(e)|..] == t;
    if e == CR && t != "" && t[0] == '\n' {
      assert u[2..] == t[1..];
      BlankRowIsDropped(EndRow(s).rows);
    }
    hide NonBlank;
  }

  // One line, with or without its ending.
  lemma ReadLine(rows: seq<Row>, line: Line, terminated: bool, t: string) returns (s': State)
    requires Writable(line) && (terminated || t == "")
    ensures Run(State(rows, [], "", false),
                RowText(line.cells) + ((if terminated then EndingText(line.ending) else "") + t))
            == Run(s', t)
    ensures var kept := rows + KeepNonBlank([Values(line.cells)]);
            if terminated then s' == State(kept, [], "", false) else EndRow(s').rows == kept
  {
    hide Run, RowText, NonBlank;
    var s, row := State(rows, [], "", false), Values(line.cells);
    assert KeepNonBlank([row]) == if NonBlank(row) then [row] else [];
    if terminated {
      s' := ReadRow(s, line.cells, EndingText(line.ending) + t);
      ReadEnding(s', line.ending, t);
      assert s'.row + [s'.field] == row;
      s' := EndRow(s');
    } else {
      s' := ReadRow(s, line.cells, t);
      assert "" + t == t;
      assert s'.row + [s'.field] == row;
    }
  }

  lemma {:induction false} ReadTable(rows: seq<Row>, lines: seq<Line>, lastTerminated: bool)
    requires forall i :: 0 <= i < |lines| ==> Writable(lines[i])
    ensures EndRow(Run(State(rows, [], "", false), TableText(lines, lastTerminated))).rows ==
            rows + KeepNonBlank(Table(lines))
    decreases |lines|
  {
    hide Run, RowText, Writable, EndingText, KeepNonBlank, Values;
    NothingRead(State(rows, [], "", false));
    BlankRowIsDropped(rows);
    KeptCons(rows, lines);
    if lines != [] {
      var terminated := |lines| > 1 || lastTerminated;
      var s' := ReadLine(rows, lines[0], terminated, TableText(lines[1..], lastTerminated));
      if terminated {
        ReadTable(rows + KeepNonBlank([Values(lines[0].cells)]), lines[1..], lastTerminated);
      } else {
        NothingRead(s');
        KeptCons(EndRow(s').rows, lines[1..]);
      }
    }
  }

  lemma KeptCons(rows: seq<Row>, lines: seq<Line>)
    ensures rows + KeepNonBlank(Table(lines)) ==
            if lines == [] then rows
            else rows + KeepNonBlank([Values(lines[0].cells)]) + KeepNonBlank(Table(lines[1..]))
  {
    hide NonBlank, Values;
    if lines != [] {
      var row, rest := Values(lines[0].cells), Table(lines[1..]);
      assert Table(lines) == [row] + rest;
      KeepCons(row, rest);
      Regroup(rows, KeepNonBlank([row]), KeepNonBlank(rest));
      hide KeepNonBlank, Table;
    }
  }

  lemma KeepCons(row: Row, rest: seq<Row>)
    ensures KeepNonBlank([row] + rest) == KeepNonBlank([row]) + KeepNonBlank(rest)
  {
    hide NonBlank;
    assert ([row] + rest)[1..] == rest && [row][1..] == [];
    assert KeepNonBlank([row]) == if NonBlank(row) then [row] else [];
  }

  lemma NothingRead(s: State)
    ensures Run(s, "") == s
  {
  }

  // Reading back any rendering of a table gives its rows, without those that are all blank.
  lemma ParseUndoesRender(lines: seq<Line>, lastTerminated: bool)
    requires forall i :: 0 <= i < |lines| ==> Writable(lines[i])
    ensures Parsed(TableText(lines, lastTerminated)) == KeepNonBlank(Table(lines))
  {
    ReadTable([], lines, lastTerminated);
    assert [] + KeepNonBlank(Table(lines)) == KeepNonBlank(Table(lines));
  }
}