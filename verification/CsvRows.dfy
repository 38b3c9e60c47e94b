/** Comma-separated rows with strict quoting (section 2 of RFC 4180): what the
    row scanner reads, and the printer it inverts. */
module CsvRows {
  import Text

  type Row = seq<string>

  datatype Mode = Start | Unquoted | Quoted | Closed

  datatype Outcome = Done | Malformed | Unterminated

  /** The rows handed on, in order, and how the scan ends. */
  datatype Scan = Scan(rows: seq<Row>, outcome: Outcome)

  function Emit(row: Row, rest: Scan): Scan {
    Scan([row] + rest.rows, rest.outcome)
  }

  /** How many characters a line break at the front of `s` spans. */
  function BreakSpan(s: string): nat
    requires s != []
  {
    if s[0] == '\r' && |s| > 1 && s[1] == '\n' then 2 else 1
  }

  /** The scan of the rest `s` of the input, in the middle of a row. */
  function ScanFrom(s: string, mode: Mode, field: string, row: Row): Scan
    decreases |s|
  {
    if s == [] then
      if mode == Quoted then Scan([], Unterminated)
      else if mode != Start || row != [] then Scan([row + [field]], Done)
      else Scan([], Done)
    else if mode == Quoted then
      if s[0] == '"' then
        if |s| > 1 && s[1] == '"' then ScanFrom(s[2..], Quoted, field + ['"'], row)
        else ScanFrom(s[1..], Closed, field, row)
      else ScanFrom(s[1..], Quoted, field + [s[0]], row)
    else if s[0] == '"' && mode == Start then ScanFrom(s[1..], Quoted, field, row)
    else if s[0] == ',' then ScanFrom(s[1..], Start, "", row + [field])
    else if s[0] == '\r' || s[0] == '\n' then
      Emit(row + [field], ScanFrom(s[BreakSpan(s)..], Start, "", []))
    else if s[0] == '"' || mode == Closed then Scan([], Malformed)
    else ScanFrom(s[1..], Unquoted, field + [s[0]], row)
  }

  function ScanRows(content: string): Scan {
    ScanFrom(content, Start, "", [])
  }

  // ----- Printing -------------------------------------------------------

  /** A cell and whether it is written in quotes. */
  datatype Cell = Cell(text: string, quoted: bool)

  predicate Special(c: char) {
    c == ',' || c == '"' || c == '\r' || c == '\n'
  }

  predicate Plain(text: string) {
    forall i | 0 <= i < |text| :: !Special(text[i])
  }

  /** A cell may go without quotes only when nothing in it is special. */
  predicate Printable(c: Cell) {
    c.quoted || Plain(c.text)
  }

  function DoubleQuotes(text: string): string {
    if text == [] then []
    else (if text[0] == '"' then ['"', '"'] else [text[0]]) + DoubleQuotes(text[1..])
  }

  function PrintCell(c: Cell): string {
    if c.quoted then ['"'] + (DoubleQuotes(c.text) + ['"']) else c.text
  }

  /** Cells separated by commas. */
  function PrintCells(cells: seq<Cell>): string {
    if cells == [] then []
    else if |cells| == 1 then PrintCell(cells[0])
    else PrintCell(cells[0]) + ([','] + PrintCells(cells[1..]))
  }

  datatype Ending = CrLf | Lf | Cr

  /** A row to print: its cells, and how it ends. */
  datatype Line = Line(cells: seq<Cell>, ending: Ending)

  function Terminator(ending: Ending): string {
    match ending
    case CrLf => ['\r', '\n']
    case Lf => ['\n']
    case Cr => ['\r']
  }

  function PrintLines(lines: seq<Line>): string {
    if lines == [] then []
    else PrintCells(lines[0].cells) + (Terminator(lines[0].ending) + PrintLines(lines[1..]))
  }

  function Texts(cells: seq<Cell>): (r: Row)
    ensures |r| == |cells|
  {
    if cells == [] then [] else [cells[0].text] + Texts(cells[1..])
  }

  function RowsOf(lines: seq<Line>): (r: seq<Row>)
    ensures |r| == |lines|
  {
    if lines == [] then [] else [Texts(lines[0].cells)] + RowsOf(lines[1..])
  }

  predicate PrintableCells(cells: seq<Cell>) {
    forall k | 0 <= k < |cells| :: Printable(cells[k])
  }

  predicate PrintableLines(lines: seq<Line>) {
    forall i | 0 <= i < |lines| :: PrintableCells(lines[i].cells)
  }

  predicate NoEmptyRow(lines: seq<Line>) {
    forall i | 0 <= i < |lines| :: lines[i].cells != []
  }

  /** The line prints as a line feed alone. */
  predicate OnlyLf(line: Line) {
    PrintCells(line.cells) == [] && line.ending == Lf
  }

  /** A carriage return and the line feed of the next line read as one break. */
  predicate Merges(lines: seq<Line>, i: nat)
    requires i + 1 < |lines|
  {
    lines[i].ending == Cr && OnlyLf(lines[i + 1])
  }

  predicate NothingMerges(lines: seq<Line>) {
    forall i | 0 <= i < |lines| - 1 :: !Merges(lines, i)
  }

  // ----- Scanning undoes printing ---------------------------------------

  lemma {:induction false} ScanPlain(text: string, t: string, mode: Mode, field: string, row: Row)
    requires Plain(text) && (mode == Start || mode == Unquoted)
    ensures ScanFrom(text + t, mode, field, row)
         == ScanFrom(t, if text == [] then mode else Unquoted, field + text, row)
  {
    if text == [] {
      assert text + t == t && field + text == field;
    } else {
      var s := text + t;
      assert s[0] == text[0] && s[1..] == text[1..] + t;
      assert !Special(text[0]);
      ScanPlain(text[1..], t, Unquoted, field + [text[0]], row);
      assert field + [text[0]] + text[1..] == field + text;
    }
  }

  lemma QuotedStep(c: char, u: string, field: string, row: Row)
    ensures ScanFrom((if c == '"' then ['"', '"'] else [c]) + u, Quoted, field, row)
         == ScanFrom(u, Quoted, field + [c], row)
  {
    var s := (if c == '"' then ['"', '"'] else [c]) + u;
    if c == '"' {
      assert s[2..] == u;
    } else {
      assert s[1..] == u;
    }
  }

  lemma {:induction false} ScanQuoted(text: string, t: string, field: string, row: Row)
    requires t == [] || t[0] != '"'
    ensures ScanFrom(DoubleQuotes(text) + (['"'] + t), Quoted, field, row) == ScanFrom(t, Closed, field + text, row)
  {
    if text == [] {
      var s := DoubleQuotes(text) + (['"'] + t);
      assert s[0] == '"' && s[1..] == t && field + text == field;
    } else {
      var u := DoubleQuotes(text[1..]) + (['"'] + t);
      QuotedStep(text[0], u, field, row);
      ScanQuoted(text[1..], t, field + [text[0]], row);
      Text.ConcatAssoc(if text[0] == '"' then ['"', '"'] else [text[0]], DoubleQuotes(text[1..]), ['"'] + t);
      assert field + [text[0]] + text[1..] == field + text;
    }
  }

  /** Text that ends a cell: a comma or a line break comes first. */
  predicate EndsCell(t: string) {
    t != [] && (t[0] == ',' || t[0] == '\r' || t[0] == '\n')
  }

  /** Outside quotes, what ends a cell is read the same in every mode. */
  lemma ModeDoesNotMatter(t: string, mode: Mode, field: string, row: Row)
    requires EndsCell(t) && mode != Quoted
    ensures ScanFrom(t, mode, field, row) == ScanFrom(t, Unquoted, field, row)
  {
  }

  lemma QuotedCellShape(c: Cell, t: string)
    requires c.quoted
    ensures PrintCell(c) + t == ['"'] + (DoubleQuotes(c.text) + (['"'] + t))
  {
    Text.ConcatAssoc(['"'], DoubleQuotes(c.text) + ['"'], t);
    Text.ConcatAssoc(DoubleQuotes(c.text), ['"'], t);
  }

  lemma ScanCell(c: Cell, t: string, row: Row)
    requires Printable(c) && EndsCell(t)
    ensures ScanFrom(PrintCell(c) + t, Start, "", row) == ScanFrom(t, Unquoted, c.text, row)
  {
    assert "" + c.text == c.text;
    if c.quoted {
      QuotedCellShape(c, t);
      var u := DoubleQuotes(c.text) + (['"'] + t);
      assert (['"'] + u)[1..] == u;
      ScanQuoted(c.text, t, "", row);
      ModeDoesNotMatter(t, Closed, c.text, row);
    } else {
      ScanPlain(c.text, t, Start, "", row);
      ModeDoesNotMatter(t, Start, c.text, row);
    }
  }

  lemma ScanComma(t: string, field: string, row: Row)
    ensures ScanFrom([','] + t, Unquoted, field, row) == ScanFrom(t, Start, "", row + [field])
  {
    assert ([','] + t)[1..] == t;
  }

  /** A break, unless what follows would lengthen it, ends the row. */
  lemma ScanBreak(ending: Ending, t: string, field: string, row: Row)
    requires ending == Cr ==> t == [] || t[0] != '\n'
    ensures ScanFrom(Terminator(ending) + t, Unquoted, field, row) == Emit(row + [field], ScanFrom(t, Start, "", []))
  {
    var s := Terminator(ending) + t;
    assert s[BreakSpan(s)..] == t;
  }

  lemma {:induction false} ScanLine(cells: seq<Cell>, ending: Ending, t: string, row: Row)
    requires cells != [] && PrintableCells(cells)
    requires ending == Cr ==> t == [] || t[0] != '\n'
    ensures ScanFrom(PrintCells(cells) + (Terminator(ending) + t), Start, "", row)
         == Emit(row + Texts(cells), ScanFrom(t, Start, "", []))
  {
    var end := Terminator(ending) + t;
    if |cells| == 1 {
      ScanCell(cells[0], end, row);
      ScanBreak(ending, t, cells[0].text, row);
      assert Texts(cells) == [cells[0].text];
    } else {
      var rest := PrintCells(cells[1..]) + end;
      Text.ConcatAssoc(PrintCell(cells[0]), [','] + PrintCells(cells[1..]), end);
      Text.ConcatAssoc([','], PrintCells(cells[1..]), end);
      ScanCell(cells[0], [','] + rest, row);
      ScanComma(rest, cells[0].text, row);
      ScanLine(cells[1..], ending, t, row + [cells[0].text]);
      Text.ConcatAssoc(row, [cells[0].text], Texts(cells[1..]));
    }
  }

  lemma CellsStart(cells: seq<Cell>)
    requires PrintableCells(cells)
    ensures PrintCells(cells) == [] || PrintCells(cells)[0] != '\n'
  {
    if cells != [] {
      assert Printable(cells[0]);
    }
  }

  lemma LinesStart(lines: seq<Line>)
    requires PrintableLines(lines) && lines != [] && !OnlyLf(lines[0])
    ensures PrintLines(lines) != [] && PrintLines(lines)[0] != '\n'
  {
    CellsStart(lines[0].cells);
  }

  lemma RestOfLines(lines: seq<Line>)
    requires lines != [] && PrintableLines(lines)
    ensures PrintableLines(lines[1..])
    ensures NoEmptyRow(lines) ==> NoEmptyRow(lines[1..])
    ensures NothingMerges(lines) ==> NothingMerges(lines[1..])
  {
    assert forall i | 0 <= i < |lines| - 1 :: lines[1..][i] == lines[i + 1];
    assert NothingMerges(lines) ==> forall i | 0 <= i < |lines| - 2 :: Merges(lines[1..], i) == Merges(lines, i + 1);
  }

  /** Scanning gives back exactly the rows that were printed, whatever their
      characters, whichever cells are quoted and however each line ends. */
  lemma {:induction false} ScanPrinted(lines: seq<Line>)
    requires PrintableLines(lines) && NoEmptyRow(lines) && NothingMerges(lines)
    ensures ScanRows(PrintLines(lines)) == Scan(RowsOf(lines), Done)
  {
    if lines != [] {
      RestOfLines(lines);
      ScanPrinted(lines[1..]);
      if lines[0].ending == Cr && |lines| > 1 {
        assert !Merges(lines, 0);
        LinesStart(lines[1..]);
      }
      ScanLine(lines[0].cells, lines[0].ending, PrintLines(lines[1..]), []);
      assert [] + Texts(lines[0].cells) == Texts(lines[0].cells);
    }
  }

  // ----- And only then --------------------------------------------------

  /** The scanner never hands on a row without cells. */
  lemma {:induction false} RowsHaveCells(s: string, mode: Mode, field: string, row: Row)
    ensures forall i | 0 <= i < |ScanFrom(s, mode, field, row).rows| :: ScanFrom(s, mode, field, row).rows[i] != []
    decreases |s|
  {
    if s != [] {
      if mode == Quoted {
        if s[0] == '"' {
          if |s| > 1 && s[1] == '"' {
            RowsHaveCells(s[2..], Quoted, field + ['"'], row);
          } else {
            RowsHaveCells(s[1..], Closed, field, row);
          }
        } else {
          RowsHaveCells(s[1..], Quoted, field + [s[0]], row);
        }
      } else if s[0] == '"' && mode == Start {
        RowsHaveCells(s[1..], Quoted, field, row);
      } else if s[0] == ',' {
        RowsHaveCells(s[1..], Start, "", row + [field]);
      } else if s[0] == '\r' || s[0] == '\n' {
        RowsHaveCells(s[BreakSpan(s)..], Start, "", []);
      } else if s[0] != '"' && mode != Closed {
        RowsHaveCells(s[1..], Unquoted, field + [s[0]], row);
      }
    }
  }

  /** The lines as the scanner sees them: merged breaks are CR LF. */
  function Merged(lines: seq<Line>): (r: seq<Line>)
    ensures |r| <= |lines|
  {
    if lines == [] then []
    else if |lines| > 1 && Merges(lines, 0) then [lines[0].(ending := CrLf)] + Merged(lines[2..])
    else [lines[0]] + Merged(lines[1..])
  }

  lemma MergedPrint(a: Line, b: Line, t: string)
    requires a.ending == Cr && OnlyLf(b)
    ensures PrintCells(a.cells) + (Terminator(Cr) + (PrintCells(b.cells) + (Terminator(b.ending) + t)))
         == PrintCells(a.cells) + (Terminator(CrLf) + t)
  {
    assert PrintCells(b.cells) + (Terminator(Lf) + t) == Terminator(Lf) + t;
    Text.ConcatAssoc(Terminator(Cr), Terminator(Lf), t);
    assert Terminator(Cr) + Terminator(Lf) == Terminator(CrLf);
  }

  lemma {:induction false} MergedPrintsTheSame(lines: seq<Line>)
    ensures PrintLines(Merged(lines)) == PrintLines(lines)
  {
    if lines != [] {
      if |lines| > 1 && Merges(lines, 0) {
        MergedPrintsTheSame(lines[2..]);
        assert lines[1..][0] == lines[1] && lines[1..][1..] == lines[2..];
        MergedPrint(lines[0], lines[1], PrintLines(lines[2..]));
      } else {
        MergedPrintsTheSame(lines[1..]);
      }
    }
  }

  lemma ConsLines(line: Line, rest: seq<Line>)
    requires PrintableCells(line.cells) && line.cells != []
    requires PrintableLines(rest) && NoEmptyRow(rest) && NothingMerges(rest)
    requires rest != [] ==> !(line.ending == Cr && OnlyLf(rest[0]))
    ensures PrintableLines([line] + rest) && NoEmptyRow([line] + rest) && NothingMerges([line] + rest)
  {
    var lines := [line] + rest;
    forall i | 0 <= i < |lines| - 1
      ensures !Merges(lines, i)
    {
      if i > 0 {
        assert Merges(lines, i) == Merges(rest, i - 1);
      }
    }
  }

  lemma {:induction false} MergedIsReadable(lines: seq<Line>)
    requires PrintableLines(lines) && NoEmptyRow(lines)
    ensures PrintableLines(Merged(lines)) && NoEmptyRow(Merged(lines)) && NothingMerges(Merged(lines))
    ensures lines != [] ==> Merged(lines) != [] && (OnlyLf(Merged(lines)[0]) ==> OnlyLf(lines[0]))
    ensures |Merged(lines)| == |lines| ==> NothingMerges(lines)
  {
    if lines != [] {
      RestOfLines(lines);
      if |lines| > 1 && Merges(lines, 0) {
        RestOfLines(lines[1..]);
        assert lines[1..][1..] == lines[2..];
        MergedIsReadable(lines[2..]);
        ConsLines(lines[0].(ending := CrLf), Merged(lines[2..]));
      } else {
        MergedIsReadable(lines[1..]);
        ConsLines(lines[0], Merged(lines[1..]));
        if |Merged(lines)| == |lines| {
          ConsLines(lines[0], lines[1..]);
          assert [lines[0]] + lines[1..] == lines;
        }
      }
    }
  }

  /** Printed rows come back exactly when each has a cell and no carriage return
      that ends a line is followed by a line that is a line feed alone. */
  lemma PrintedComesBackIff(lines: seq<Line>)
    requires PrintableLines(lines)
    ensures ScanRows(PrintLines(lines)) == Scan(RowsOf(lines), Done) <==> NoEmptyRow(lines) && NothingMerges(lines)
  {
    if NoEmptyRow(lines) {
      MergedPrintsTheSame(lines);
      MergedIsReadable(lines);
      ScanPrinted(Merged(lines));
      if NothingMerges(lines) {
        ScanPrinted(lines);
      }
    } else {
      var i :| 0 <= i < |lines| && lines[i].cells == [];
      RowsHaveCells(PrintLines(lines), Start, "", []);
      RowAt(lines, i);
    }
  }

  lemma {:induction false} RowAt(lines: seq<Line>, i: nat)
    requires i < |lines|
    ensures RowsOf(lines)[i] == Texts(lines[i].cells)
  {
    if i > 0 {
      RowAt(lines[1..], i - 1);
    }
  }

  // ----- The two usual printers -----------------------------------------

  /** A row with every cell quoted, or with quotes only where needed. */
  function CellsOf(row: Row, all: bool): (r: seq<Cell>)
    ensures |r| == |row| && Texts(r) == row
    ensures PrintableCells(r)
  {
    if row == [] then [] else [Cell(row[0], all || !Plain(row[0]))] + CellsOf(row[1..], all)
  }

  function LinesOf(rows: seq<Row>, all: bool): (r: seq<Line>)
    requires forall i | 0 <= i < |rows| :: rows[i] != []
    ensures RowsOf(r) == rows && PrintableLines(r) && NoEmptyRow(r)
    ensures forall i | 0 <= i < |r| :: r[i].ending == CrLf
  {
    if rows == [] then [] else [Line(CellsOf(rows[0], all), CrLf)] + LinesOf(rows[1..], all)
  }

  /** Splitting inverts all-quoted and minimally quoted printing, for every list
      of non-empty rows over arbitrary characters. */
  lemma SplitInvertsPrinting(rows: seq<Row>, all: bool)
    requires forall i | 0 <= i < |rows| :: rows[i] != []
    ensures ScanRows(PrintLines(LinesOf(rows, all))) == Scan(rows, Done)
  {
    ScanPrinted(LinesOf(rows, all));
  }

  /** A row without cells prints as an empty line, which reads back as one empty
      cell. */
  lemma EmptyRowIsLost(ending: Ending)
    ensures ScanRows(PrintLines([Line([], ending)])) == Scan([[""]], Done)
  {
    ScanBreak(ending, [], "", []);
    assert PrintCells([]) + (Terminator(ending) + []) == Terminator(ending) + [];
    assert PrintLines([Line([], ending)]) == Terminator(ending) + [];
    ModeDoesNotMatter(Terminator(ending) + [], Start, "", []);
    assert [] + [""] == [""];
  }

  /** Two rows of one empty cell, ended by CR and by LF, read back as one. */
  lemma MergedRowIsLost()
    ensures var empty := [Cell("", false)];
            ScanRows(PrintLines([Line(empty, Cr), Line(empty, Lf)])) == Scan([[""]], Done)
  {
    var empty := [Cell("", false)];
    var lines := [Line(empty, Cr), Line(empty, Lf)];
    assert lines[1..] == [Line(empty, Lf)] && lines[2..] == [];
    assert Merged(lines) == [Line(empty, CrLf)];
    MergedPrintsTheSame(lines);
    ScanPrinted([Line(empty, CrLf)]);
    assert Texts(empty) == [""] && RowsOf([Line(empty, CrLf)]) == [Texts(empty)];
  }

  // ----- Prefixes -------------------------------------------------------

  /** The scan of `s` ends right after a break that ends a row. */
  predicate EndsAtRow(s: string, mode: Mode, atRow: bool)
    decreases |s|
  {
    if s == [] then atRow
    else if mode == Quoted then
      if s[0] == '"' then
        if |s| > 1 && s[1] == '"' then EndsAtRow(s[2..], Quoted, false) else EndsAtRow(s[1..], Closed, false)
      else EndsAtRow(s[1..], Quoted, false)
    else if s[0] == '"' && mode == Start then EndsAtRow(s[1..], Quoted, false)
    else if s[0] == ',' then EndsAtRow(s[1..], Start, false)
    else if s[0] == '\r' || s[0] == '\n' then EndsAtRow(s[BreakSpan(s)..], Start, true)
    else if s[0] == '"' || mode == Closed then false
    else EndsAtRow(s[1..], Unquoted, false)
  }

  /** What is left of `t` after the break that ends `p`: a line feed right after
      a carriage return belongs to the break. */
  function AfterBreak(p: string, t: string): string {
    if p != [] && p[|p| - 1] == '\r' && t != [] && t[0] == '\n' then t[1..] else t
  }

  /** Text after complete rows changes nothing about them. */
  lemma {:induction false} RowsOfPrefix(p: string, t: string, mode: Mode, field: string, row: Row, atRow: bool)
    requires EndsAtRow(p, mode, atRow) && (atRow ==> mode == Start && field == "" && row == [])
    ensures ScanFrom(p, mode, field, row).outcome == Done
    ensures Continues(p, t, mode, field, row)
    decreases |p|
  {
    if p == [] {
      assert p + t == t;
      assert [] + ScanRows(t).rows == ScanRows(t).rows;
    } else if mode != Quoted && (p[0] == '\r' || p[0] == '\n') {
      var u := p[BreakSpan(p)..];
      RowsOfPrefix(u, t, Start, "", [], true);
      BreakInPrefix(p, t, mode, field, row);
    } else {
      var k := PrefixStep(p, t, mode, atRow);
      var u := p[k..];
      assert (p + t)[k..] == u + t;
      if mode == Quoted {
        if p[0] == '"' {
          if k == 2 {
            RowsOfPrefix(u, t, Quoted, field + ['"'], row, false);
          } else {
            RowsOfPrefix(u, t, Closed, field, row, false);
          }
        } else {
          RowsOfPrefix(u, t, Quoted, field + [p[0]], row, false);
        }
      } else if p[0] == '"' {
        RowsOfPrefix(u, t, Quoted, field, row, false);
      } else if p[0] == ',' {
        RowsOfPrefix(u, t, Start, "", row + [field], false);
      } else {
        RowsOfPrefix(u, t, Unquoted, field + [p[0]], row, false);
      }
    }
  }

  /** The scan of complete rows and more text is the rows and then the rest. */
  ghost predicate Continues(p: string, t: string, mode: Mode, field: string, row: Row) {
    var rest := ScanRows(AfterBreak(p, t));
    ScanFrom(p + t, mode, field, row) == Scan(ScanFrom(p, mode, field, row).rows + rest.rows, rest.outcome)
  }

  lemma ScanAtBreak(s: string, mode: Mode, field: string, row: Row, rest: string)
    requires s != [] && (s[0] == '\r' || s[0] == '\n') && mode != Quoted && rest == s[BreakSpan(s)..]
    ensures ScanFrom(s, mode, field, row) == Emit(row + [field], ScanRows(rest))
  {
  }

  /** After the break of `p` and in front of `t`, what is left to scan. */
  lemma BreakSplits(p: string, t: string) returns (u: string)
    requires p != [] && (p[0] == '\r' || p[0] == '\n')
    ensures u == p[BreakSpan(p)..]
    ensures (p + t)[0] == p[0] && BreakSpan(p + t) <= |p + t|
    ensures (p + t)[BreakSpan(p + t)..] == u + t || (u == [] && (p + t)[BreakSpan(p + t)..] == AfterBreak(p, t))
    ensures (p + t)[BreakSpan(p + t)..] == u + t ==> AfterBreak(u, t) == AfterBreak(p, t)
  {
    var k := BreakSpan(p);
    u := p[k..];
    if p == ['\r'] && t != [] && t[0] == '\n' {
      assert (p + t)[2..] == t[1..];
      assert |(p + t)[2..]| < |u + t|;
    } else {
      assert (p + t)[k..] == u + t;
      assert u == [] ==> AfterBreak(p, t) == t;
    }
  }

  lemma BreakInPrefix(p: string, t: string, mode: Mode, field: string, row: Row)
    requires p != [] && (p[0] == '\r' || p[0] == '\n') && mode != Quoted
    requires Continues(p[BreakSpan(p)..], t, Start, "", [])
    ensures Continues(p, t, mode, field, row)
  {
    var u := BreakSplits(p, t);
    var rest := AfterBreak(p, t);
    var left := (p + t)[BreakSpan(p + t)..];
    ScanAtBreak(p, mode, field, row, u);
    ScanAtBreak(p + t, mode, field, row, left);
    Text.ConcatAssoc([row + [field]], ScanRows(u).rows, ScanRows(rest).rows);
    if left != u + t {
      assert [] + ScanRows(rest).rows == ScanRows(rest).rows;
    }
  }

  /** How many characters the scan takes from `p` next, outside a break; looking
      past the end of `p` would not change it. */
  ghost function PrefixStep(p: string, t: string, mode: Mode, atRow: bool): (k: nat)
    requires p != [] && EndsAtRow(p, mode, atRow) && (mode == Quoted || (p[0] != '\r' && p[0] != '\n'))
    ensures 1 <= k < |p| && AfterBreak(p[k..], t) == AfterBreak(p, t)
    ensures mode == Quoted && p[0] == '"' ==>
              (k == 2 <==> |p| > 1 && p[1] == '"') && (k == 2 <==> |p + t| > 1 && (p + t)[1] == '"')
    ensures mode != Quoted || p[0] != '"' ==> k == 1
  {
    assert !EndsAtRow([], Start, false) && !EndsAtRow([], Unquoted, false);
    assert !EndsAtRow([], Quoted, false) && !EndsAtRow([], Closed, false);
    assert |p| == 1 ==> p[1..] == [];
    assert |p| == 2 ==> p[2..] == [];
    if mode == Quoted && p[0] == '"' && |p| > 1 && p[1] == '"' then 2 else 1
  }
}
