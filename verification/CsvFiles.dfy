/**
 * What a CSV file is, whoever wrote it, and what the parser makes of each one
 * (packages/security/src/csv.ts): cells bare or in quotes, three kinds of line break, an optional
 * byte-order mark. Every text is such a file, so this says what every text is read as.
 */
module CsvFiles {
  import opened Wrappers
  import opened Text
  import opened Csv
  import Utf8

  // ------------------------------------------------------------------ //
  // Files
  // ------------------------------------------------------------------ //

  /** As it stands, or in quotes with every quote inside doubled; text may go on after the closing quote. */
  datatype Cell = Bare(text: string) | Quoted(content: string, after: string)

  datatype Break = Lf | Cr | CrLf

  /** Cells with commas between them; there is at least one. */
  datatype Line = Line(before: seq<Cell>, last: Cell, end: Break)

  /** How the text ends: after a cell, after a quote where none may stand, or inside a quoted cell. */
  datatype Ending = After(cell: Cell) | Stray(cell: Cell, rest: string) | Unclosed(content: string)

  /** Full lines, and a last one that has no break. */
  datatype File = File(lines: seq<Line>, before: seq<Cell>, ending: Ending)

  predicate Plain(s: string) {
    forall k :: 0 <= k < |s| ==> s[k] != '"' && s[k] != ',' && s[k] != '\n' && s[k] != '\r'
  }

  predicate Sound(c: Cell) {
    match c
    case Bare(text) => Plain(text)
    case Quoted(_, after) => Plain(after)
  }

  predicate AllSound(cells: seq<Cell>) {
    forall k :: 0 <= k < |cells| ==> Sound(cells[k])
  }

  /** A quote here would be neither an opening one nor one that is doubled or closes. */
  predicate QuoteIsStray(c: Cell) {
    match c
    case Bare(text) => |text| > 0
    case Quoted(_, after) => |after| > 0
  }

  ghost predicate SoundFile(f: File) {
    && (forall k :: 0 <= k < |f.lines| ==> AllSound(f.lines[k].before) && Sound(f.lines[k].last))
    && AllSound(f.before)
    && match f.ending
       case After(c) => Sound(c)
       case Stray(c, _) => Sound(c) && QuoteIsStray(c)
       case Unclosed(_) => true
  }

  function CellText(c: Cell): string {
    match c
    case Bare(text) => text
    case Quoted(content, after) => "\"" + (Doubled(content) + "\"" + after)
  }

  function BreakText(b: Break): string {
    match b
    case Lf => "\n"
    case Cr => "\r"
    case CrLf => "\r\n"
  }

  /** Cells, each with the comma after it. */
  function Separated(cells: seq<Cell>): string {
    if |cells| == 0 then "" else Separated(cells[..|cells| - 1]) + (CellText(cells[|cells| - 1]) + ",")
  }

  function LineText(line: Line): string {
    Separated(line.before) + (CellText(line.last) + BreakText(line.end))
  }

  function LinesText(lines: seq<Line>): string {
    if |lines| == 0 then "" else LinesText(lines[..|lines| - 1]) + LineText(lines[|lines| - 1])
  }

  function EndingText(e: Ending): string {
    match e
    case After(c) => CellText(c)
    case Stray(c, rest) => CellText(c) + ("\"" + rest)
    case Unclosed(content) => "\"" + Doubled(content)
  }

  function FileText(f: File): string {
    LinesText(f.lines) + (Separated(f.before) + EndingText(f.ending))
  }

  // ------------------------------------------------------------------ //
  // What they say
  // ------------------------------------------------------------------ //

  function CellSays(c: Cell): string {
    match c
    case Bare(text) => text
    case Quoted(content, after) => content + after
  }

  function CellsSay(cells: seq<Cell>): (r: seq<string>)
    ensures |r| == |cells| && forall k :: 0 <= k < |cells| ==> r[k] == CellSays(cells[k])
  {
    seq(|cells|, k requires 0 <= k < |cells| => CellSays(cells[k]))
  }

  /** One row onto the others, unless it is a single empty cell. */
  function WithRow(rows: seq<seq<string>>, row: seq<string>): seq<seq<string>> {
    if row == [""] then rows else rows + [row]
  }

  function LinesSay(lines: seq<Line>): seq<seq<string>> {
    if |lines| == 0 then []
    else
      var line := lines[|lines| - 1];
      WithRow(LinesSay(lines[..|lines| - 1]), CellsSay(line.before) + [CellSays(line.last)])
  }

  /** More rows than one header and `maxRows`; otherwise what is wrong with the end; otherwise the document. */
  function FileSays(f: File, maxRows: nat): Result<Document, CsvError> {
    var rows := LinesSay(f.lines);
    if |rows| > maxRows + 1 then Err(TooManyRows)
    else match f.ending
      case Stray(_, _) => Err(StrayQuote(|rows| + 1))
      case Unclosed(_) => Err(UnclosedQuote)
      case After(c) => DocumentOf(WithRow(rows, CellsSay(f.before) + [CellSays(c)]), maxRows)
  }

  // ------------------------------------------------------------------ //
  // Scanning one
  // ------------------------------------------------------------------ //

  /** Between fields: nothing of the next one read yet. */
  predicate Fresh(s: Scan) {
    !s.inQuotes && s.field == ""
  }

  lemma {:induction false} ScanPlain(text: string, rest: string, s: Scan, maxRows: nat)
    requires Plain(text) && !s.inQuotes
    ensures ScanText(text + rest, s, maxRows) == ScanText(rest, s.(field := s.field + text), maxRows)
    decreases |text|
  {
    if |text| == 0 {
      assert text + rest == rest && s.field + text == s.field;
    } else {
      var t := s.(field := s.field + [text[0]]);
      assert (text + rest)[1..] == text[1..] + rest;
      assert Turn(text + rest, s, maxRows) == Ok((t, 1));
      ScanPlain(text[1..], rest, t, maxRows);
      assert s.field + [text[0]] + text[1..] == s.field + text;
    }
  }

  lemma ScanOpening(rest: string, s: Scan, maxRows: nat)
    requires Fresh(s)
    ensures ScanText("\"" + rest, s, maxRows) == ScanText(rest, s.(inQuotes := true), maxRows)
  {
    var text := "\"" + rest;
    assert text[0] == '"' && text[1..] == rest;
  }

  /** A cell is read as what it says, unless a quote follows that would be taken into it. */
  lemma ScanCellText(c: Cell, rest: string, s: Scan, maxRows: nat)
    requires Sound(c) && Fresh(s) && (QuoteIsStray(c) || |rest| == 0 || rest[0] != '"')
    ensures ScanText(CellText(c) + rest, s, maxRows) == ScanText(rest, s.(field := CellSays(c)), maxRows)
  {
    hide ScanText, Doubled;
    match c
    case Bare(text) =>
      ScanPlain(text, rest, s, maxRows);
      assert "" + text == text;
    case Quoted(content, after) =>
      var more := Doubled(content) + "\"" + (after + rest);
      Regroup(Doubled(content) + "\"", after, rest);
      Regroup("\"", Doubled(content) + "\"" + after, rest);
      ScanOpening(more, s, maxRows);
      ScanQuoted(content, after + rest, s.(inQuotes := true), maxRows);
      assert "" + content == content;
      ScanPlain(after, rest, s.(field := content), maxRows);
  }

  lemma {:induction false} ScanSeparated(cells: seq<Cell>, rest: string, s: Scan, maxRows: nat)
    requires AllSound(cells) && Fresh(s)
    ensures ScanText(Separated(cells) + rest, s, maxRows)
            == ScanText(rest, s.(row := s.row + CellsSay(cells)), maxRows)
    decreases |cells|
  {
    hide ScanText, CellText, CellSays, Sound;
    if |cells| == 0 {
      assert Separated(cells) + rest == rest && s.row + CellsSay(cells) == s.row;
    } else {
      var n := |cells| - 1;
      var init, last := cells[..n], cells[n];
      Regroup(Separated(init), CellText(last) + ",", rest);
      Regroup(CellText(last), ",", rest);
      ScanSeparated(init, CellText(last) + ("," + rest), s, maxRows);
      var t := s.(row := s.row + CellsSay(init));
      ScanCellText(last, "," + rest, t, maxRows);
      ScanComma(rest, t.(field := CellSays(last)), maxRows);
      assert s.row + CellsSay(init) + [CellSays(last)] == s.row + CellsSay(cells);
    }
  }

  /** A line break before anything else is read as nothing. */
  lemma BlankLine(rest: string, rows: seq<seq<string>>, maxRows: nat)
    requires |rows| <= maxRows + 1
    ensures ScanText("\n" + rest, Scan(rows, [], "", false), maxRows)
            == ScanText(rest, Scan(rows, [], "", false), maxRows)
  {
    var text := "\n" + rest;
    assert text[0] == '\n' && text[1..] == rest;
    assert [] + [""] == [""];
  }

  lemma ScanEnd(b: Break, rest: string, s: Scan, maxRows: nat)
    requires !s.inQuotes && |s.rows| <= maxRows + 1
    ensures var rows := WithRow(s.rows, s.row + [s.field]);
            ScanText(BreakText(b) + rest, s, maxRows)
            == if |rows| > maxRows + 1 then Err(TooManyRows) else ScanText(rest, Scan(rows, [], "", false), maxRows)
  {
    var text := BreakText(b) + rest;
    var rows := WithRow(s.rows, s.row + [s.field]);
    ScanOne(text, s, maxRows);
    hide ScanText;
    match b
    case Lf => assert text[0] == '\n' && text[1..] == rest;
    case Cr =>
      assert text[0] == '\r' && text[1..] == rest;
      if |rest| > 0 && rest[0] == '\n' && |rows| <= maxRows + 1 {
        assert text[1] == '\n' && text[2..] == rest[1..] && rest == "\n" + rest[1..];
        BlankLine(rest[1..], rows, maxRows);
      }
    case CrLf => assert text[0] == '\r' && text[1] == '\n' && text[2..] == rest;
  }

  lemma RowsGrow(rows: seq<seq<string>>, row: seq<string>)
    ensures |rows| <= |WithRow(rows, row)| <= |rows| + 1
  {
  }

  lemma ScanLineText(line: Line, rest: string, rows: seq<seq<string>>, maxRows: nat)
    requires AllSound(line.before) && Sound(line.last) && |rows| <= maxRows + 1
    ensures var now := WithRow(rows, CellsSay(line.before) + [CellSays(line.last)]);
            ScanText(LineText(line) + rest, Scan(rows, [], "", false), maxRows)
            == if |now| > maxRows + 1 then Err(TooManyRows) else ScanText(rest, Scan(now, [], "", false), maxRows)
  {
    hide ScanText, CellText, CellSays, Sound, Separated;
    var s := Scan(rows, [], "", false);
    var more := BreakText(line.end) + rest;
    assert |more| > 0 && more[0] != '"';
    Regroup(Separated(line.before), CellText(line.last) + BreakText(line.end), rest);
    Regroup(CellText(line.last), BreakText(line.end), rest);
    hide BreakText;
    ScanSeparated(line.before, CellText(line.last) + more, s, maxRows);
    assert [] + CellsSay(line.before) == CellsSay(line.before);
    var t := s.(row := CellsSay(line.before));
    ScanCellText(line.last, more, t, maxRows);
    ScanEnd(line.end, rest, t.(field := CellSays(line.last)), maxRows);
  }

  lemma {:induction false} ScanLinesText(lines: seq<Line>, rest: string, maxRows: nat)
    requires forall k :: 0 <= k < |lines| ==> AllSound(lines[k].before) && Sound(lines[k].last)
    ensures ScanText(LinesText(lines) + rest, START, maxRows)
            == if |LinesSay(lines)| > maxRows + 1 then Err(TooManyRows)
               else ScanText(rest, Scan(LinesSay(lines), [], "", false), maxRows)
    decreases |lines|
  {
    hide ScanText, CellSays, CellsSay, AllSound, Sound, LineText, WithRow;
    if |lines| == 0 {
      assert LinesText(lines) + rest == rest;
    } else {
      var n := |lines| - 1;
      var line := lines[n];
      Regroup(LinesText(lines[..n]), LineText(line), rest);
      ScanLinesText(lines[..n], LineText(line) + rest, maxRows);
      RowsGrow(LinesSay(lines[..n]), CellsSay(line.before) + [CellSays(line.last)]);
      if |LinesSay(lines[..n])| <= maxRows + 1 {
        ScanLineText(line, rest, LinesSay(lines[..n]), maxRows);
      }
    }
  }

  /** After the last cell of a file without a final line break. */
  lemma FinishRow(rows: seq<seq<string>>, row: seq<string>, field: string, maxRows: nat)
    requires |rows| <= maxRows + 1
    ensures Finish(Scan(rows, row, field, false), maxRows) == DocumentOf(WithRow(rows, row + [field]), maxRows)
  {
    if |field| == 0 && |row| == 0 {
      assert row + [field] == [""];
    }
  }

  lemma ScanStray(rest: string, s: Scan, maxRows: nat)
    requires !s.inQuotes && |s.field| > 0
    ensures ScanText("\"" + rest, s, maxRows) == Err(StrayQuote(|s.rows| + 1))
  {
    var text := "\"" + rest;
    assert text[0] == '"';
  }

  lemma {:induction false} ScanUnclosed(content: string, s: Scan, maxRows: nat)
    requires s.inQuotes
    ensures ScanText(Doubled(content), s, maxRows) == Ok(s.(field := s.field + content))
    decreases |content|
  {
    var text := Doubled(content);
    if |content| == 0 {
      assert s.field + content == s.field;
    } else {
      var used := if content[0] == '"' then 2 else 1;
      var t := s.(field := s.field + [content[0]]);
      assert text[used..] == Doubled(content[1..]);
      assert Turn(text, s, maxRows) == Ok((t, used));
      ScanUnclosed(content[1..], t, maxRows);
      assert s.field + [content[0]] + content[1..] == s.field + content;
    }
  }

  lemma ReadEnding(before: seq<Cell>, ending: Ending, rows: seq<seq<string>>, maxRows: nat)
    requires AllSound(before) && |rows| <= maxRows + 1
    requires match ending
             case After(c) => Sound(c)
             case Stray(c, _) => Sound(c) && QuoteIsStray(c)
             case Unclosed(_) => true
    ensures ReadFrom(Separated(before) + EndingText(ending), Scan(rows, [], "", false), maxRows)
            == match ending
               case Stray(_, _) => Err(StrayQuote(|rows| + 1))
               case Unclosed(_) => Err(UnclosedQuote)
               case After(c) => DocumentOf(WithRow(rows, CellsSay(before) + [CellSays(c)]), maxRows)
  {
    hide Sound, AllSound, Separated, CellText, DocumentOf, WithRow, Doubled;
    var s := Scan(rows, [], "", false);
    ScanSeparated(before, EndingText(ending), s, maxRows);
    assert [] + CellsSay(before) == CellsSay(before);
    var t := s.(row := CellsSay(before));
    match ending {
      case After(c) =>
        assert CellText(c) + "" == CellText(c);
        ScanCellText(c, "", t, maxRows);
        ScanNothing("", t.(field := CellSays(c)), maxRows);
        hide ScanText, CellSays, Finish;
        FinishRow(rows, CellsSay(before), CellSays(c), maxRows);
      case Stray(c, rest) =>
        ScanCellText(c, "\"" + rest, t, maxRows);
        ScanStray(rest, t.(field := CellSays(c)), maxRows);
      case Unclosed(content) =>
        ScanOpening(Doubled(content), t, maxRows);
        ScanUnclosed(content, t.(inQuotes := true), maxRows);
    }
  }

  /** This text is that file, after a byte-order mark or without one. */
  ghost predicate Holds(text: string, f: File, marked: bool) {
    && SoundFile(f)
    && text == (if marked then "\U{FEFF}" else "") + FileText(f)
    && (!marked && |text| > 0 ==> text[0] != '\U{FEFF}')
  }

  lemma FileWithoutMark(text: string, f: File, marked: bool)
    requires Holds(text, f, marked)
    ensures WithoutBom(text) == FileText(f)
  {
    hide FileText, SoundFile;
    if marked {
      assert text[0] == BOM && text[1..] == FileText(f);
    } else {
      assert text == FileText(f);
    }
  }

  lemma SoundParts(f: File)
    requires SoundFile(f)
    ensures forall k :: 0 <= k < |f.lines| ==> AllSound(f.lines[k].before) && Sound(f.lines[k].last)
    ensures AllSound(f.before)
    ensures match f.ending
            case After(c) => Sound(c)
            case Stray(c, _) => Sound(c) && QuoteIsStray(c)
            case Unclosed(_) => true
  {
  }

  /**
   * What the parser makes of a file, with a byte-order mark or without: too many bytes, or what the
   * file says. Blank lines say nothing, a line break is read alike whichever it is, and a final one
   * makes no difference.
   */
  lemma FileIsRead(text: string, f: File, marked: bool, maxRows: nat, maxBytes: nat)
    requires Holds(text, f, marked)
    ensures Parsed(text, maxRows, maxBytes)
            == if |Utf8.Encode(text)| > maxBytes then Err(TooManyBytes) else FileSays(f, maxRows)
  {
    FileWithoutMark(text, f, marked);
    ReadFile(f, maxRows);
    hide ReadFrom, FileText, SoundFile, WithoutBom;
  }

  lemma ReadFile(f: File, maxRows: nat)
    requires SoundFile(f)
    ensures ReadFrom(FileText(f), START, maxRows) == FileSays(f, maxRows)
  {
    SoundParts(f);
    hide SoundFile, AllSound, Sound, QuoteIsStray, LinesText, LinesSay, Separated, EndingText, CellsSay, CellSays;
    ScanLinesText(f.lines, Separated(f.before) + EndingText(f.ending), maxRows);
    if |LinesSay(f.lines)| <= maxRows + 1 {
      ReadLastLine(f, maxRows);
      hide ScanText, FileSays, Finish;
    } else {
      hide ScanText, Finish;
    }
  }

  lemma ReadLastLine(f: File, maxRows: nat)
    requires SoundFile(f) && |LinesSay(f.lines)| <= maxRows + 1
    ensures ReadFrom(Separated(f.before) + EndingText(f.ending), Scan(LinesSay(f.lines), [], "", false), maxRows)
            == FileSays(f, maxRows)
  {
    SoundParts(f);
    hide SoundFile, AllSound, Sound, QuoteIsStray, LinesSay, Separated, EndingText, CellSays, ReadFrom, DocumentOf;
    ReadEnding(f.before, f.ending, LinesSay(f.lines), maxRows);
  }

  // ------------------------------------------------------------------ //
  // Every text is one
  // ------------------------------------------------------------------ //

  lemma {:induction false} DoubledOneMore(content: string, c: char)
    ensures Doubled(content + [c]) == Doubled(content) + (if c == '"' then "\"\"" else [c])
    decreases |content|
  {
    if |content| == 0 {
      assert (content + [c])[1..] == "";
    } else {
      DoubledOneMore(content[1..], c);
      assert (content + [c])[1..] == content[1..] + [c];
    }
  }

  lemma CommaAfter(f: File) returns (g: File)
    requires SoundFile(f) && f.ending.After?
    ensures SoundFile(g) && FileText(g) == FileText(f) + ","
  {
    hide CellText, Sound;
    var last := f.ending.cell;
    EmptyCell();
    g := File(f.lines, f.before + [last], After(Bare("")));
    assert g.before[..|f.before|] == f.before;
    hide LinesText;
    var lines, before, cell := LinesText(f.lines), Separated(f.before), CellText(last);
    assert Separated(g.before) == before + (cell + ",");
    assert Separated(g.before) + "" == before + (cell + ",");
    Regroup(lines, before + cell, ",");
    Regroup(before, cell, ",");
  }

  lemma BreakAfter(f: File, b: Break) returns (g: File)
    requires SoundFile(f) && f.ending.After?
    ensures SoundFile(g) && FileText(g) == FileText(f) + BreakText(b)
  {
    hide CellText, Sound, Separated, BreakText;
    var line := Line(f.before, f.ending.cell, b);
    EmptyCell();
    NoCells();
    g := File(f.lines + [line], [], After(Bare("")));
    assert g.lines[..|f.lines|] == f.lines;
    var lines, before, cell := LinesText(f.lines), Separated(f.before), CellText(f.ending.cell);
    assert LinesText(g.lines) == lines + (before + (cell + BreakText(b)));
    assert FileText(g) == LinesText(g.lines) + ("" + "") == LinesText(g.lines);
    Regroup(lines, before + cell, BreakText(b));
    Regroup(before, cell, BreakText(b));
  }

  lemma NoCells()
    ensures Separated([]) == ""
  {
  }

  lemma EmptyCell()
    ensures Sound(Bare("")) && CellText(Bare("")) == ""
  {
  }

  /** The file with one more character at its end. */
  lemma OneMore(f: File, c: char) returns (g: File)
    requires SoundFile(f)
    ensures SoundFile(g) && FileText(g) == FileText(f) + [c]
  {
    hide LinesText, Separated, Doubled;
    var ending := f.ending;
    match f.ending {
      case Stray(cell, rest) => ending := Stray(cell, rest + [c]);
      case Unclosed(content) =>
        DoubledOneMore(content, c);
        ending := if c == '"' then After(Quoted(content, "")) else Unclosed(content + [c]);
      case After(cell) =>
        if c == ',' {
          g := CommaAfter(f);
          return;
        }
        if c == '\n' || c == '\r' {
          g := BreakAfter(f, if c == '\n' then Lf else Cr);
          return;
        }
        match cell {
          case Bare(text) =>
            ending := if c != '"' then After(Bare(text + [c]))
                      else if |text| == 0 then Unclosed("") else Stray(cell, "");
            EmptyDoubled();
          case Quoted(content, after) =>
            DoubledOneMore(content, '"');
            ending := if c != '"' then After(Quoted(content, after + [c]))
                      else if |after| == 0 then Unclosed(content + "\"") else Stray(cell, "");
        }
    }
    g := f.(ending := ending);
    assert EndingText(ending) == EndingText(f.ending) + [c];
  }

  lemma EmptyDoubled()
    ensures Doubled("") == ""
  {
  }

  lemma NothingIsFile()
    ensures SoundFile(File([], [], After(Bare("")))) && FileText(File([], [], After(Bare("")))) == ""
  {
  }

  lemma {:induction false} TextIsFile(text: string) returns (f: File)
    ensures SoundFile(f) && FileText(f) == text
    decreases |text|
  {
    hide *;
    if |text| == 0 {
      f := File([], [], After(Bare("")));
      NothingIsFile();
    } else {
      f := TextIsFile(text[..|text| - 1]);
      f := OneMore(f, text[|text| - 1]);
      assert text == text[..|text| - 1] + [text[|text| - 1]];
    }
  }

  /** Every text is a file, and what it is read as is what the file says, however it is taken for one. */
  lemma EveryTextIsRead(text: string, maxRows: nat, maxBytes: nat)
    ensures exists f, marked :: Holds(text, f, marked)
    ensures forall f, marked :: Holds(text, f, marked) ==>
              Parsed(text, maxRows, maxBytes)
              == if |Utf8.Encode(text)| > maxBytes then Err(TooManyBytes) else FileSays(f, maxRows)
  {
    hide SoundFile, FileText, Parsed, FileSays;
    var marked := |text| > 0 && text[0] == '\U{FEFF}';
    var f := TextIsFile(if marked then text[1..] else text);
    assert text == (if marked then "\U{FEFF}" else "") + FileText(f);
    assert Holds(text, f, marked);
    hide Holds;
    forall f, marked | Holds(text, f, marked)
      ensures Parsed(text, maxRows, maxBytes)
              == if |Utf8.Encode(text)| > maxBytes then Err(TooManyBytes) else FileSays(f, maxRows)
    {
      FileIsRead(text, f, marked, maxRows, maxBytes);
    }
  }

  // ------------------------------------------------------------------ //
  // What the exporter writes is one
  // ------------------------------------------------------------------ //

  /** What goes between a printed cell's quotes: a text that would start a formula gets an apostrophe. */
  function Content(v: CellValue): string {
    var text := match v
      case Missing => ""
      case Words(s) => s
      case Whole(n) => if n >= 0 then Decimal(n) else "-" + Decimal(-n);
    if |text| > 0 && text[0] as int in {61, 43, 45, 64, 9, 13} then "'" + text else text
  }

  /** Every cell in quotes; a row without cells is an empty line. */
  function PrintedCells(values: seq<CellValue>): (cells: seq<Cell>)
    ensures |cells| > 0
  {
    if |values| == 0 then [Bare("")]
    else seq(|values|, k requires 0 <= k < |values| => Quoted(Content(values[k]), ""))
  }

  function PrintedLine(values: seq<CellValue>): Line {
    var cells := PrintedCells(values);
    Line(cells[..|cells| - 1], cells[|cells| - 1], CrLf)
  }

  function PrintedLines(rows: seq<seq<CellValue>>): (lines: seq<Line>)
    ensures |lines| == |rows| && forall k :: 0 <= k < |rows| ==> lines[k] == PrintedLine(rows[k])
  {
    seq(|rows|, k requires 0 <= k < |rows| => PrintedLine(rows[k]))
  }

  /** CRLF between lines, and none after the last. */
  function PrintedFile(rows: seq<seq<CellValue>>): File
    requires |rows| > 0
  {
    var last := PrintedLine(rows[|rows| - 1]);
    File(PrintedLines(rows[..|rows| - 1]), last.before, After(last.last))
  }

  lemma ContentIsGuarded(v: CellValue)
    ensures Content(v) == Guard(Raw(v)) && CellText(Quoted(Content(v), "")) == CsvCell(v)
  {
    hide Decimal;
    assert forall s: string :: |s| > 0 ==> (s[0] as int in {61, 43, 45, 64, 9, 13} <==> StartsFormula(s));
    var text := "\"" + Doubled(Guard(Raw(v))) + "\"";
    assert "\"" + (Doubled(Content(v)) + "\"" + "") == text;
  }

  lemma {:induction false} SeparatedFirst(c: Cell, rest: seq<Cell>)
    ensures Separated([c] + rest) == CellText(c) + ("," + Separated(rest))
    decreases |rest|
  {
    hide CellText;
    var all := [c] + rest;
    if |rest| == 0 {
      assert all[..0] == [] && all[0] == c;
      assert Separated(all) == "" + (CellText(c) + ",");
    } else {
      var n := |rest| - 1;
      assert all[..|all| - 1] == [c] + rest[..n] && all[|all| - 1] == rest[n];
      SeparatedFirst(c, rest[..n]);
      var last := CellText(rest[n]) + ",";
      Regroup(CellText(c), "," + Separated(rest[..n]), last);
      Regroup(",", Separated(rest[..n]), last);
    }
  }

  function Joined(cells: seq<Cell>): string
    requires |cells| > 0
  {
    Separated(cells[..|cells| - 1]) + CellText(cells[|cells| - 1])
  }

  lemma JoinedFirst(c: Cell, rest: seq<Cell>)
    requires |rest| > 0
    ensures Joined([c] + rest) == CellText(c) + "," + Joined(rest)
  {
    hide CellText, Separated;
    var all, n := [c] + rest, |rest| - 1;
    assert all[..n + 1] == [c] + rest[..n] && all[n + 1] == rest[n];
    SeparatedFirst(c, rest[..n]);
    var first, before, last := CellText(c), Separated(rest[..n]), CellText(rest[n]);
    Regroup(first, "," + before, last);
    Regroup(",", before, last);
    Regroup(first, ",", before + last);
  }

  lemma OneCell(values: seq<CellValue>)
    requires |values| == 1
    ensures CsvRow(values) == Joined(PrintedCells(values))
  {
    ContentIsGuarded(values[0]);
    hide CellText, CsvCell, Content;
    var cells := PrintedCells(values);
    assert cells[..0] == [];
    assert "" + CellText(cells[0]) == CellText(cells[0]);
  }

  lemma FirstCell(values: seq<CellValue>)
    requires |values| > 1
    ensures PrintedCells(values) == [Quoted(Content(values[0]), "")] + PrintedCells(values[1..])
  {
    hide Content;
  }

  lemma {:induction false} RowIsCells(values: seq<CellValue>)
    requires |values| > 0
    ensures CsvRow(values) == Joined(PrintedCells(values))
    decreases |values|
  {
    hide *;
    if |values| == 1 {
      OneCell(values);
    } else {
      RowIsCells(values[1..]);
      ContentIsGuarded(values[0]);
      FirstCell(values);
      JoinedFirst(Quoted(Content(values[0]), ""), PrintedCells(values[1..]));
      CsvRowSplit(values);
    }
  }

  lemma CsvRowSplit(values: seq<CellValue>)
    requires |values| > 1
    ensures CsvRow(values) == CsvCell(values[0]) + "," + CsvRow(values[1..])
  {
  }

  lemma LineIsRow(values: seq<CellValue>)
    ensures var line := PrintedLine(values);
            && CsvRow(values) == Separated(line.before) + CellText(line.last)
            && LineText(line) == CsvRow(values) + "\r\n"
  {
    var line := PrintedLine(values);
    if |values| == 0 {
      assert CsvRow(values) == "";
      assert line.before == [] && Separated([]) == "";
    } else {
      RowIsCells(values);
    }
    hide CellText, Separated, CsvRow, PrintedLine, Joined;
    Regroup(Separated(line.before), CellText(line.last), "\r\n");
  }

  lemma {:induction false} LinesFirst(line: Line, rest: seq<Line>)
    ensures LinesText([line] + rest) == LineText(line) + LinesText(rest)
    decreases |rest|
  {
    hide LineText;
    var all := [line] + rest;
    if |rest| == 0 {
      assert all[..0] == [] && all[0] == line;
      assert LinesText(all) == "" + LineText(line);
      assert LineText(line) + "" == LineText(line);
    } else {
      var n := |rest| - 1;
      assert all[..|all| - 1] == [line] + rest[..n] && all[|all| - 1] == rest[n];
      LinesFirst(line, rest[..n]);
      Regroup(LineText(line), LinesText(rest[..n]), LineText(rest[n]));
    }
  }

  lemma {:induction false} LinesAreRows(rows: seq<seq<CellValue>>)
    requires |rows| > 0
    ensures Lines(rows) == LinesText(PrintedLines(rows[..|rows| - 1])) + CsvRow(rows[|rows| - 1])
    decreases |rows|
  {
    hide CsvRow, LineText, LinesText, PrintedLine;
    var last := rows[|rows| - 1];
    if |rows| == 1 {
      NoLines();
      assert PrintedLines(rows[..0]) == [];
      assert "" + CsvRow(last) == CsvRow(last);
    } else {
      LinesAreRows(rows[1..]);
      LineIsRow(rows[0]);
      var rest := rows[1..][..|rows| - 2];
      assert rows[1..][|rows| - 2] == last;
      assert PrintedLines(rows[..|rows| - 1]) == [PrintedLine(rows[0])] + PrintedLines(rest);
      LinesFirst(PrintedLine(rows[0]), PrintedLines(rest));
      hide PrintedLines;
      Regroup(CsvRow(rows[0]) + "\r\n", LinesText(PrintedLines(rest)), CsvRow(last));
    }
  }

  lemma NoLines()
    ensures LinesText([]) == ""
  {
  }

  /** An export is the file with every cell in quotes and CRLF between the lines, the header's names first. */
  lemma ExportIsFile(header: seq<string>, rows: seq<seq<CellValue>>)
    ensures ToCsv(header, rows) == FileText(PrintedFile([HeaderCells(header)] + rows))
  {
    var all := [HeaderCells(header)] + rows;
    LinesAreRows(all);
    LineIsRow(all[|all| - 1]);
    hide CsvRow, LinesText, PrintedLine, PrintedLines, Separated, CellText, Lines, HeaderCells;
  }
}
