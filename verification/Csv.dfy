/**
 * The CSV printer with its formula guard, the hand-written parser, and the row mapper
 * (packages/security/src/csv.ts).
 */
module Csv {
  import opened Wrappers
  import opened Text
  import Utf8

  // ------------------------------------------------------------------ //
  // Printing
  // ------------------------------------------------------------------ //

  /** What an exporter puts in a cell: nothing, text, or a whole number. */
  datatype CellValue = Missing | Words(s: string) | Whole(n: int)

  function Raw(v: CellValue): string {
    match v
    case Missing => ""
    case Words(s) => s
    case Whole(n) => if n < 0 then "-" + Decimal(-n) else Decimal(n)
  }

  predicate StartsFormula(s: string) {
    |s| > 0 && s[0] in {'=', '+', '-', '@', '\t', '\r'}
  }

  function Guard(s: string): string {
    if StartsFormula(s) then "'" + s else s
  }

  /** Every quote doubled. */
  function Doubled(s: string): string {
    if |s| == 0 then "" else (if s[0] == '"' then "\"\"" else [s[0]]) + Doubled(s[1..])
  }

  function CsvCell(v: CellValue): string {
    "\"" + Doubled(Guard(Raw(v))) + "\""
  }

  function CsvRow(values: seq<CellValue>): string {
    if |values| == 0 then ""
    else if |values| == 1 then CsvCell(values[0])
    else CsvCell(values[0]) + "," + CsvRow(values[1..])
  }

  function Lines(rows: seq<seq<CellValue>>): string
    requires |rows| > 0
  {
    if |rows| == 1 then CsvRow(rows[0]) else CsvRow(rows[0]) + "\r\n" + Lines(rows[1..])
  }

  function ToCsv(header: seq<string>, rows: seq<seq<CellValue>>): string {
    Lines([HeaderCells(header)] + rows)
  }

  function HeaderCells(header: seq<string>): (cells: seq<CellValue>)
    ensures |cells| == |header| && forall k :: 0 <= k < |header| ==> cells[k] == Words(header[k])
  {
    seq(|header|, k requires 0 <= k < |header| => Words(header[k]))
  }

  // ------------------------------------------------------------------ //
  // Parsing
  // ------------------------------------------------------------------ //

  datatype CsvError =
    | TooManyBytes
    | TooManyRows
    | TooManyRowsAtEnd      // the same message, thrown by the check after the scan
    | StrayQuote(row: nat)
    | UnclosedQuote
    | NoHeader

  datatype Document = Document(header: seq<string>, rows: seq<seq<string>>)

  const BOM: char := '\U{FEFF}'
  const DEFAULT_MAX_ROWS: nat := 5000
  const DEFAULT_MAX_BYTES: nat := 2 * 1024 * 1024

  /** The parser's variables between two characters. */
  datatype Scan = Scan(rows: seq<seq<string>>, row: seq<string>, field: string, inQuotes: bool)

  const START: Scan := Scan([], [], "", false)

  function EndField(s: Scan): Scan {
    s.(row := s.row + [s.field], field := "")
  }

  /** A row that is one empty cell is skipped; the cap is checked either way. */
  function EndRow(s: Scan, maxRows: nat): Result<Scan, CsvError> {
    var row := s.row + [s.field];
    var rows := if row == [""] then s.rows else s.rows + [row];
    if |rows| > maxRows + 1 then Err(TooManyRows) else Ok(Scan(rows, [], "", s.inQuotes))
  }

  /** One turn of the loop: what it makes of the state, and how many characters it uses. */
  function Turn(text: string, s: Scan, maxRows: nat): (r: Result<(Scan, nat), CsvError>)
    requires |text| > 0
    ensures r.Ok? ==> 1 <= r.value.1 <= |text|
  {
    var c := text[0];
    var next := if |text| > 1 then Some(text[1]) else None;
    if s.inQuotes then
      if c == '"' then
        if next == Some('"') then Ok((s.(field := s.field + "\""), 2)) else Ok((s.(inQuotes := false), 1))
      else Ok((s.(field := s.field + [c]), 1))
    else if c == '"' then
      if |s.field| > 0 then Err(StrayQuote(|s.rows| + 1)) else Ok((s.(inQuotes := true), 1))
    else if c == ',' then Ok((EndField(s), 1))
    else if c == '\n' || c == '\r' then
      match EndRow(s, maxRows)
      case Err(e) => Err(e)
      case Ok(t) => Ok((t, if c == '\r' && next == Some('\n') then 2 else 1))
    else Ok((s.(field := s.field + [c]), 1))
  }

  function ScanText(text: string, s: Scan, maxRows: nat): Result<Scan, CsvError>
    decreases |text|
  {
    if |text| == 0 then Ok(s)
    else match Turn(text, s, maxRows)
      case Err(e) => Err(e)
      case Ok((t, used)) => ScanText(text[used..], t, maxRows)
  }

  function Finish(s: Scan, maxRows: nat): Result<Document, CsvError> {
    if s.inQuotes then Err(UnclosedQuote)
    else
      var ended := if |s.field| > 0 || |s.row| > 0 then EndRow(s, maxRows) else Ok(s);
      match ended
      case Err(e) => Err(e)
      case Ok(t) =>
        if |t.rows| == 0 then Err(NoHeader)
        else if |t.rows| - 1 > maxRows then Err(TooManyRowsAtEnd)
        else Ok(Document(TrimAll(t.rows[0]), t.rows[1..]))
  }

  /** Scan the rest of the text from this state and finish. */
  function ReadFrom(text: string, s: Scan, maxRows: nat): Result<Document, CsvError> {
    match ScanText(text, s, maxRows)
    case Err(e) => Err(e)
    case Ok(t) => Finish(t, maxRows)
  }

  function TrimAll(cells: seq<string>): (r: seq<string>)
    ensures |r| == |cells| && forall k :: 0 <= k < |cells| ==> r[k] == Trim(cells[k])
  {
    seq(|cells|, k requires 0 <= k < |cells| => Trim(cells[k]))
  }

  function WithoutBom(text: string): string {
    if |text| > 0 && text[0] == BOM then text[1..] else text
  }

  function Parsed(text: string, maxRows: nat, maxBytes: nat): Result<Document, CsvError> {
    if |Utf8.Encode(text)| > maxBytes then Err(TooManyBytes) else ReadFrom(WithoutBom(text), START, maxRows)
  }

  lemma ScanOne(text: string, s: Scan, maxRows: nat)
    requires |text| > 0
    ensures match Turn(text, s, maxRows)
            case Err(e) => ScanText(text, s, maxRows) == Err(e)
            case Ok((t, used)) => ScanText(text, s, maxRows) == ScanText(text[used..], t, maxRows)
  {
  }

  /** The scanning loop, with the source's four variables. */
  method ScanCharacters(input: string, maxRows: nat) returns (r: Result<Scan, CsvError>)
    ensures r == ScanText(input, START, maxRows)
  {
    hide ScanText;
    var rows: seq<seq<string>> := [];
    var row: seq<string> := [];
    var field := "";
    var inQuotes := false;
    var i := 0;
    assert input[0..] == input;
    while i < |input|
      invariant 0 <= i <= |input|
      invariant ScanText(input, START, maxRows) == ScanText(input[i..], Scan(rows, row, field, inQuotes), maxRows)
    {
      var c := input[i];
      ghost var rest := input[i..];
      ScanOne(rest, Scan(rows, row, field, inQuotes), maxRows);
      assert |rest| > 1 ==> rest[1] == input[i + 1];
      assert rest[1..] == input[i + 1..];
      assert |rest| > 1 ==> rest[2..] == input[i + 2..];
      var followedBy := if i + 1 < |input| then Some(input[i + 1]) else None;
      if inQuotes {
        if c == '"' {
          if followedBy == Some('"') {
            field := field + "\"";
            i := i + 1;
          } else {
            inQuotes := false;
          }
        } else {
          field := field + [c];
        }
      } else if c == '"' {
        if |field| > 0 { return Err(StrayQuote(|rows| + 1)); }
        inQuotes := true;
      } else if c == ',' {
        row := row + [field];
        field := "";
      } else if c == '\n' || c == '\r' {
        if c == '\r' && followedBy == Some('\n') { i := i + 1; }
        row := row + [field];
        field := "";
        if row != [""] { rows := rows + [row]; }
        row := [];
        if |rows| > maxRows + 1 { return Err(TooManyRows); }
      } else {
        field := field + [c];
      }
      i := i + 1;
    }
    ScanNothing(input[i..], Scan(rows, row, field, inQuotes), maxRows);
    r := Ok(Scan(rows, row, field, inQuotes));
  }

  lemma ScanNothing(text: string, s: Scan, maxRows: nat)
    requires |text| == 0
    ensures ScanText(text, s, maxRows) == Ok(s)
  {
  }

  method ParseCsv(text: string, maxRows: nat := DEFAULT_MAX_ROWS, maxBytes: nat := DEFAULT_MAX_BYTES)
    returns (r: Result<Document, CsvError>)
    ensures r == Parsed(text, maxRows, maxBytes)
    ensures r != Err(TooManyRowsAtEnd)
  {
    FinalCapIsUnreachable(text, maxRows, maxBytes);
    hide ScanText;
    var bytes := |Utf8.Encode(text)|;
    if bytes > maxBytes { return Err(TooManyBytes); }
    var input := if |text| > 0 && text[0] == BOM then text[1..] else text;
    var sawAnyChar := |input| > 0;
    ScanNothing("", START, maxRows);
    var scanned := ScanCharacters(input, maxRows);
    if scanned.Err? { return Err(scanned.error); }
    var Scan(rows, row, field, inQuotes) := scanned.value;
    assert !sawAnyChar ==> input == "";
    if inQuotes { return Err(UnclosedQuote); }
    if sawAnyChar && (|field| > 0 || |row| > 0) {
      row := row + [field];
      if row != [""] { rows := rows + [row]; }
      if |rows| > maxRows + 1 { return Err(TooManyRows); }
    }
    if |rows| == 0 { return Err(NoHeader); }
    if |rows| - 1 > maxRows { return Err(TooManyRowsAtEnd); }
    r := Ok(Document(TrimAll(rows[0]), rows[1..]));
  }

  // ------------------------------------------------------------------ //
  // The cap after the scan can never fire
  // ------------------------------------------------------------------ //

  lemma {:induction false} ScanKeepsCap(text: string, s: Scan, maxRows: nat)
    requires |s.rows| <= maxRows + 1
    ensures match ScanText(text, s, maxRows)
            case Err(e) => e.TooManyRows? || e.StrayQuote?
            case Ok(t) => |t.rows| <= maxRows + 1
    decreases |text|
  {
    if |text| == 0 {
    } else {
      match Turn(text, s, maxRows)
      case Err(_) =>
      case Ok((t, used)) => ScanKeepsCap(text[used..], t, maxRows);
    }
  }

  lemma FinalCapIsUnreachable(text: string, maxRows: nat, maxBytes: nat)
    ensures Parsed(text, maxRows, maxBytes) != Err(TooManyRowsAtEnd)
  {
    ScanKeepsCap(WithoutBom(text), START, maxRows);
  }

  // ------------------------------------------------------------------ //
  // Reading back what was printed
  // ------------------------------------------------------------------ //

  function Guarded(values: seq<CellValue>): (cells: seq<string>)
    ensures |cells| == |values| && forall k :: 0 <= k < |values| ==> cells[k] == Guard(Raw(values[k]))
  {
    seq(|values|, k requires 0 <= k < |values| => Guard(Raw(values[k])))
  }

  /** A row the parser cannot see: it prints as nothing, or as one empty cell. */
  predicate Blank(cells: seq<string>) {
    cells == [] || cells == [""]
  }

  /** The guarded rows that are not blank, in order. */
  function Kept(rows: seq<seq<CellValue>>): seq<seq<string>> {
    if |rows| == 0 then []
    else (if Blank(Guarded(rows[0])) then [] else [Guarded(rows[0])]) + Kept(rows[1..])
  }

  lemma {:induction false} ScanQuoted(content: string, rest: string, s: Scan, maxRows: nat)
    requires s.inQuotes && (|rest| > 0 ==> rest[0] != '"')
    ensures ScanText(Doubled(content) + "\"" + rest, s, maxRows)
            == ScanText(rest, s.(field := s.field + content, inQuotes := false), maxRows)
    decreases |content|
  {
    var text := Doubled(content) + "\"" + rest;
    if |content| == 0 {
      assert text == "\"" + rest;
      assert text[1..] == rest;
      assert s.field + content == s.field;
    } else {
      var used := if content[0] == '"' then 2 else 1;
      assert text[used..] == Doubled(content[1..]) + "\"" + rest;
      assert text[0] == content[0];
      if used == 2 { assert text[1] == '"'; }
      var t := s.(field := s.field + [content[0]]);
      assert Turn(text, s, maxRows) == Ok((t, used));
      ScanQuoted(content[1..], rest, t, maxRows);
      assert s.field + [content[0]] + content[1..] == s.field + content;
    }
  }

  /** A printed cell reads back as its guarded text, whatever it contains. */
  lemma ScanCell(v: CellValue, rest: string, s: Scan, maxRows: nat)
    requires !s.inQuotes && s.field == "" && (|rest| > 0 ==> rest[0] != '"')
    ensures ScanText(CsvCell(v) + rest, s, maxRows) == ScanText(rest, s.(field := Guard(Raw(v))), maxRows)
  {
    var text := CsvCell(v) + rest;
    assert text[0] == '"';
    assert text[1..] == Doubled(Guard(Raw(v))) + "\"" + rest;
    assert Turn(text, s, maxRows) == Ok((s.(inQuotes := true), 1));
    ScanQuoted(Guard(Raw(v)), rest, s.(inQuotes := true), maxRows);
    assert "" + Guard(Raw(v)) == Guard(Raw(v));
  }

  /** The scanner after a row's text: its last cell in `field`, the others in `row`. */
  function RowScanned(s: Scan, cells: seq<string>): Scan
    requires |cells| > 0
  {
    s.(row := s.row + cells[..|cells| - 1], field := cells[|cells| - 1])
  }

  lemma RowScannedStep(s: Scan, cells: seq<string>)
    requires |cells| > 1
    ensures RowScanned(EndField(s.(field := cells[0])), cells[1..]) == RowScanned(s.(field := ""), cells)
    ensures RowScanned(s, [cells[0]]) == s.(field := cells[0])
  {
    assert s.row + [cells[0]] + cells[1..][..|cells| - 2] == s.row + cells[..|cells| - 1];
    assert s.row + [cells[0]][..0] == s.row;
  }

  lemma CsvRowParts(values: seq<CellValue>, rest: string)
    requires |values| > 1
    ensures CsvRow(values) + rest == CsvCell(values[0]) + ("," + (CsvRow(values[1..]) + rest))
    ensures Guarded(values[1..]) == Guarded(values)[1..]
  {
    hide CsvCell, Guard, Raw;
    Regroup(CsvCell(values[0]) + ",", CsvRow(values[1..]), rest);
    Regroup(CsvCell(values[0]), ",", CsvRow(values[1..]) + rest);
  }

  lemma {:induction false} ScanRow(values: seq<CellValue>, rest: string, s: Scan, maxRows: nat)
    requires |values| > 0 && !s.inQuotes && s.field == "" && (|rest| > 0 ==> rest[0] != '"')
    ensures ScanText(CsvRow(values) + rest, s, maxRows) == ScanText(rest, RowScanned(s, Guarded(values)), maxRows)
    decreases |values|
  {
    hide ScanText, CsvCell, Guard, Raw;
    var cells := Guarded(values);
    if |values| == 1 {
      ScanCell(values[0], rest, s, maxRows);
      assert s.row + cells[..0] == s.row;
    } else {
      hide CsvRow, RowScanned;
      CsvRowParts(values, rest);
      ScanCell(values[0], "," + (CsvRow(values[1..]) + rest), s, maxRows);
      var t := s.(field := cells[0]);
      ScanComma(CsvRow(values[1..]) + rest, t, maxRows);
      ScanRow(values[1..], rest, EndField(t), maxRows);
      RowScannedStep(s, cells);
    }
  }

  lemma ScanComma(rest: string, s: Scan, maxRows: nat)
    requires !s.inQuotes
    ensures ScanText("," + rest, s, maxRows) == ScanText(rest, EndField(s), maxRows)
  {
    var text := "," + rest;
    assert text[0] == ',' && text[1..] == rest;
  }

  lemma ScanBreak(rest: string, s: Scan, maxRows: nat)
    requires !s.inQuotes
    ensures EndRow(s, maxRows).Err? ==> ScanText("\r\n" + rest, s, maxRows) == EndRow(s, maxRows)
    ensures EndRow(s, maxRows).Ok? ==>
              ScanText("\r\n" + rest, s, maxRows) == ScanText(rest, EndRow(s, maxRows).value, maxRows)
  {
    var text := "\r\n" + rest;
    assert text[0] == '\r' && text[1] == '\n' && text[2..] == rest;
  }

  /** A row's text and the line break after it: the row is kept unless blank, and the cap is checked. */
  lemma ScanLine(values: seq<CellValue>, rest: string, acc: seq<seq<string>>, maxRows: nat)
    requires |acc| <= maxRows + 1
    ensures var kept := acc + Kept([values]);
            var scanned := ScanText(CsvRow(values) + "\r\n" + rest, Scan(acc, [], "", false), maxRows);
            if |kept| > maxRows + 1 then scanned == Err(TooManyRows)
            else scanned == ScanText(rest, Scan(kept, [], "", false), maxRows)
  {
    hide ScanText, CsvRow, Guard, Raw, EndRow, Kept;
    var s := Scan(acc, [], "", false);
    var more := "\r\n" + rest;
    assert CsvRow(values) + "\r\n" + rest == CsvRow(values) + more;
    var t := s;
    if |values| == 0 {
      EmptyRowPrintsNothing(values);
      assert CsvRow(values) + more == more;
    } else {
      ScanRow(values, more, s, maxRows);
      t := RowScanned(s, Guarded(values));
      assert t.row + [t.field] == Guarded(values);
    }
    EndRowKeeps(values, t, acc, maxRows);
    ScanBreak(rest, t, maxRows);
  }

  lemma EmptyRowPrintsNothing(values: seq<CellValue>)
    requires |values| == 0
    ensures CsvRow(values) == ""
  {
  }

  /** Ending a row whose cells are all scanned appends exactly what is kept of it. */
  lemma EndRowKeeps(values: seq<CellValue>, t: Scan, acc: seq<seq<string>>, maxRows: nat)
    requires t.rows == acc && !t.inQuotes
    requires t.row + [t.field] == (if |values| == 0 then [""] else Guarded(values))
    ensures EndRow(t, maxRows) == var kept := acc + Kept([values]);
                                  if |kept| > maxRows + 1 then Err(TooManyRows)
                                  else Ok(Scan(kept, [], "", false))
  {
    assert Kept([values][1..]) == [];
    assert Kept([values]) == if Blank(Guarded(values)) then [] else [Guarded(values)];
    assert |values| == 0 ==> Guarded(values) == [];
    assert acc + [] == acc;
  }

  lemma {:induction false} ScanLines(rows: seq<seq<CellValue>>, acc: seq<seq<string>>, maxRows: nat)
    requires |rows| > 0 && |acc| <= maxRows + 1
    ensures ReadFrom(Lines(rows), Scan(acc, [], "", false), maxRows)
            == DocumentOf(acc + Kept(rows), maxRows)
    decreases |rows|
  {
    hide ScanText, Finish, EndRow, Guard, Raw;
    if |rows| == 1 {
      ScanLastLine(rows[0], acc, maxRows);
      assert rows == [rows[0]];
    } else {
      ScanLine(rows[0], Lines(rows[1..]), acc, maxRows);
      var kept := acc + Kept([rows[0]]);
      assert Kept([rows[0]][1..]) == [];
      assert kept + Kept(rows[1..]) == acc + Kept(rows);
      if |kept| <= maxRows + 1 {
        ScanLines(rows[1..], kept, maxRows);
      }
    }
  }

  lemma ScanLastLine(values: seq<CellValue>, acc: seq<seq<string>>, maxRows: nat)
    requires |acc| <= maxRows + 1
    ensures ReadFrom(CsvRow(values), Scan(acc, [], "", false), maxRows)
            == DocumentOf(acc + Kept([values]), maxRows)
  {
    hide Turn, Guard, Raw;
    var cells := Guarded(values);
    assert Kept([values][1..]) == [];
    assert acc + [] == acc;
    if |values| > 0 {
      assert CsvRow(values) + "" == CsvRow(values);
      ScanRow(values, "", Scan(acc, [], "", false), maxRows);
      var t := RowScanned(Scan(acc, [], "", false), cells);
      assert t.row + [t.field] == cells;
      EndRowKeeps(values, t, acc, maxRows);
    }
  }

  /** What the rows that were kept amount to. */
  function DocumentOf(kept: seq<seq<string>>, maxRows: nat): Result<Document, CsvError> {
    if |kept| > maxRows + 1 then Err(TooManyRows)
    else if |kept| == 0 then Err(NoHeader)
    else Ok(Document(TrimAll(kept[0]), kept[1..]))
  }

  /** Every printed document, whatever its cells and its size, and exactly what the parser makes of it. */
  lemma ParseOfPrinted(header: seq<string>, rows: seq<seq<CellValue>>, maxRows: nat, maxBytes: nat)
    ensures Parsed(ToCsv(header, rows), maxRows, maxBytes)
            == if |Utf8.Encode(ToCsv(header, rows))| > maxBytes then Err(TooManyBytes)
               else DocumentOf(Kept([HeaderCells(header)] + rows), maxRows)
  {
    var all := [HeaderCells(header)] + rows;
    PrintedHasNoBom(all);
    ScanLines(all, [], maxRows);
    assert [] + Kept(all) == Kept(all);
  }

  lemma PrintedHasNoBom(rows: seq<seq<CellValue>>)
    requires |rows| > 0
    ensures WithoutBom(Lines(rows)) == Lines(rows)
  {
    var text := Lines(rows);
    if |rows[0]| > 0 {
      assert CsvRow(rows[0])[0] == '"';
      assert text[0] == '"';
    } else if |rows| > 1 {
      assert text[0] == '\r';
    }
  }

  lemma {:induction false} KeptCount(rows: seq<seq<CellValue>>)
    ensures |Kept(rows)| <= |rows|
    ensures |Kept(rows)| == |rows| <==> forall k :: 0 <= k < |rows| ==> !Blank(Guarded(rows[k]))
    ensures |Kept(rows)| == |rows| ==> forall k :: 0 <= k < |rows| ==> Kept(rows)[k] == Guarded(rows[k])
    decreases |rows|
  {
    if |rows| == 0 {
    } else {
      KeptCount(rows[1..]);
      assert forall k :: 1 <= k < |rows| ==> rows[k] == rows[1..][k - 1];
    }
  }

  ghost predicate NoBlankRow(header: seq<string>, rows: seq<seq<CellValue>>) {
    !Blank(Guarded(HeaderCells(header))) && forall k :: 0 <= k < |rows| ==> !Blank(Guarded(rows[k]))
  }

  ghost predicate ReadsBack(header: seq<string>, rows: seq<seq<CellValue>>, read: Result<Document, CsvError>) {
    read.Ok? && IsDocumentFor(header, rows, read.value)
  }

  ghost predicate IsDocumentFor(header: seq<string>, rows: seq<seq<CellValue>>, doc: Document) {
    && doc.header == TrimAll(Guarded(HeaderCells(header)))
    && |doc.rows| == |rows| && forall k :: 0 <= k < |rows| ==> doc.rows[k] == Guarded(rows[k])
  }

  /**
   * Within the limits, reading back gives the guarded cells (the header's also trimmed) exactly
   * when no row is blank; otherwise rows go missing and the first row left becomes the header.
   */
  lemma RoundTrip(header: seq<string>, rows: seq<seq<CellValue>>, maxRows: nat, maxBytes: nat)
    requires |rows| <= maxRows && |Utf8.Encode(ToCsv(header, rows))| <= maxBytes
    ensures ReadsBack(header, rows, Parsed(ToCsv(header, rows), maxRows, maxBytes)) <==> NoBlankRow(header, rows)
  {
    var all := [HeaderCells(header)] + rows;
    ParseOfPrinted(header, rows, maxRows, maxBytes);
    KeptCount(all);
    assert all[0] == HeaderCells(header);
    assert forall k :: 0 <= k < |rows| ==> all[k + 1] == rows[k];
    assert NoBlankRow(header, rows) <==> forall k :: 0 <= k < |all| ==> !Blank(Guarded(all[k]));
    if NoBlankRow(header, rows) {
      assert forall k :: 0 <= k < |rows| ==> Kept(all)[1..][k] == Guarded(rows[k]);
    }
  }

  /** Guarding twice is guarding once, though `=x` and `'=x` guard to the same text. */
  lemma GuardIdempotent(s: string)
    ensures Guard(Guard(s)) == Guard(s) && !StartsFormula(Guard(s))
    ensures StartsFormula(s) ==> Guard("'" + s) == Guard(s)
  {
  }

  function AsCells(rows: seq<seq<string>>): (cells: seq<seq<CellValue>>)
    ensures |cells| == |rows| && forall k :: 0 <= k < |rows| ==> cells[k] == HeaderCells(rows[k])
  {
    seq(|rows|, k requires 0 <= k < |rows| => HeaderCells(rows[k]))
  }

  lemma {:induction false} GuardedRowPrintsAlike(values: seq<CellValue>)
    ensures CsvRow(HeaderCells(Guarded(values))) == CsvRow(values)
    decreases |values|
  {
    if |values| == 0 {
    } else {
      GuardIdempotent(Raw(values[0]));
      GuardedRowPrintsAlike(values[1..]);
      assert HeaderCells(Guarded(values))[1..] == HeaderCells(Guarded(values[1..]));
    }
  }

  lemma {:induction false} GuardedLinesPrintAlike(rows: seq<seq<CellValue>>, back: seq<seq<string>>)
    requires |rows| == |back| > 0 && forall k :: 0 <= k < |rows| ==> back[k] == Guarded(rows[k])
    ensures Lines(AsCells(back)) == Lines(rows)
    decreases |rows|
  {
    GuardedRowPrintsAlike(rows[0]);
    if |rows| <= 1 {
    } else {
      GuardedLinesPrintAlike(rows[1..], back[1..]);
      assert AsCells(back)[1..] == AsCells(back[1..]);
    }
  }

  /** Data read back holds no formula, and exporting it again gives the same bytes. */
  lemma ReadDataIsInertAndStable(header: seq<string>, rows: seq<seq<CellValue>>, doc: Document)
    requires IsDocumentFor(header, rows, doc)
    ensures forall i, j :: 0 <= i < |doc.rows| && 0 <= j < |doc.rows[i]| ==> !StartsFormula(doc.rows[i][j])
    ensures |rows| > 0 ==> Lines(AsCells(doc.rows)) == Lines(rows)
  {
    forall i, j | 0 <= i < |doc.rows| && 0 <= j < |doc.rows[i]| ensures !StartsFormula(doc.rows[i][j]) {
      GuardIdempotent(Raw(rows[i][j]));
    }
    if |rows| > 0 {
      GuardedLinesPrintAlike(rows, doc.rows);
    }
  }

  // ------------------------------------------------------------------ //
  // Mapping rows to records
  // ------------------------------------------------------------------ //

  type Record = map<string, string>

  datatype MapError = MapError(row: nat, expected: nat, found: nat)

  datatype Mapped = Mapped(records: seq<Record>, rowNumbers: seq<nat>, errors: seq<MapError>)

  /** `Object.fromEntries`: a later column of the same name wins. */
  function RecordOf(header: seq<string>, cells: seq<string>): Record
    requires |header| == |cells|
  {
    if |header| == 0 then map[]
    else RecordOf(header[..|header| - 1], cells[..|cells| - 1])[header[|header| - 1] := Trim(cells[|cells| - 1])]
  }

  /** The records, their file rows and the complaints for the first n rows. */
  function MapRows(doc: Document, n: nat): Mapped
    requires n <= |doc.rows|
  {
    if n == 0 then Mapped([], [], [])
    else
      var m := MapRows(doc, n - 1);
      var cells := doc.rows[n - 1];
      if |cells| != |doc.header| then m.(errors := m.errors + [MapError(n + 1, |doc.header|, |cells|)])
      else m.(records := m.records + [RecordOf(doc.header, cells)], rowNumbers := m.rowNumbers + [n + 1])
  }

  method MapCsvRows(doc: Document) returns (m: Mapped)
    ensures m == MapRows(doc, |doc.rows|)
  {
    var records: seq<Record>, rowNumbers: seq<nat>, errors: seq<MapError> := [], [], [];
    for index := 0 to |doc.rows|
      invariant Mapped(records, rowNumbers, errors) == MapRows(doc, index)
    {
      var cells := doc.rows[index];
      var rowNumber := index + 2;
      if |cells| != |doc.header| {
        errors := errors + [MapError(rowNumber, |doc.header|, |cells|)];
      } else {
        records := records + [RecordOf(doc.header, cells)];
        rowNumbers := rowNumbers + [rowNumber];
      }
    }
    m := Mapped(records, rowNumbers, errors);
  }

  /** Every row is either a record that knows its own line in the file or a complaint, never both. */
  lemma {:induction false} EveryRowIsAccountedFor(doc: Document, n: nat)
    requires n <= |doc.rows|
    ensures var m := MapRows(doc, n);
            && |m.records| == |m.rowNumbers| && |m.records| + |m.errors| == n
            && (forall k :: 0 <= k < |m.records| ==>
                  2 <= m.rowNumbers[k] < n + 2
                  && |doc.rows[m.rowNumbers[k] - 2]| == |doc.header|
                  && m.records[k] == RecordOf(doc.header, doc.rows[m.rowNumbers[k] - 2]))
            && (forall j, k :: 0 <= j < k < |m.records| ==> m.rowNumbers[j] < m.rowNumbers[k])
    decreases n
  {
    if n == 0 {
    } else {
      EveryRowIsAccountedFor(doc, n - 1);
    }
  }
}
