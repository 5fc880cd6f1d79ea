/**
 * Exporting a collection as CSV and importing one (packages/db/src/queries/collections.ts), and
 * the promise between them: an owner's export, imported back in `replace` mode, changes nothing.
 */
module CollectionTransfer {
  import opened Wrappers
  import opened Text
  import opened Csv
  import opened CollectionCsv
  import opened CollectionStore
  import Utf8

  // ------------------------------------------------------------------ //
  // The catalogue
  // ------------------------------------------------------------------ //

  datatype Card = Card(setCode: string, number: string, finish: string, language: string)

  /** The variants in the order the lookup query returns them. */
  type Catalogue = seq<(VariantId, Card)>

  /** Printed set code and number, up to case, with the defaults filled in. */
  datatype VariantKey = VariantKey(setCode: string, number: string, finish: string, language: string)

  function Or(v: Option<string>, default: string): string {
    if v.Some? then v.value else default
  }

  function KeyOf(setCode: string, number: string, finish: Option<string>, language: Option<string>): VariantKey {
    VariantKey(Lower(Trim(setCode)), Lower(Trim(number)), Or(finish, "normal"), Or(language, "en"))
  }

  function CardKey(card: Card): VariantKey {
    KeyOf(Lower(card.setCode), Lower(card.number), Some(card.finish), Some(card.language))
  }

  function SetCodes(rows: seq<ParsedRow>): set<string> {
    set r | r in rows :: Lower(Trim(r.data.setCode))
  }

  /** The variant a key names, among the sets the file mentions; of two with one key the later is kept. */
  function Lookup(catalogue: Catalogue, setCodes: set<string>, key: VariantKey): Option<VariantId> {
    if |catalogue| == 0 then None
    else
      var last := catalogue[|catalogue| - 1];
      if Lower(last.1.setCode) in setCodes && CardKey(last.1) == key then Some(last.0)
      else Lookup(catalogue[..|catalogue| - 1], setCodes, key)
  }

  // ------------------------------------------------------------------ //
  // Export
  // ------------------------------------------------------------------ //

  /** What `listItems` hands an owner: the line and the card it names. */
  datatype ItemView = ItemView(card: Card, condition: string, item: Item)

  function ExportCells(view: ItemView): (cells: seq<CellValue>)
    ensures |cells| == |COLUMNS|
  {
    var item := view.item;
    [ Words(view.card.setCode), Words(view.card.number), Words(view.card.finish), Words(view.card.language),
      Words(view.condition),
      Whole(item.quantity),
      Words(if item.priceCents == None then "" else FormatCentsAsAmount(item.priceCents.value)),
      Words(item.currency),
      Words(if item.acquiredAt == None then "" else DayText(item.acquiredAt.value)),
      Words(Or(item.notes, "")) ]
  }

  function ExportRows(items: seq<ItemView>): (rows: seq<seq<CellValue>>)
    ensures |rows| == |items| && forall k :: 0 <= k < |items| ==> rows[k] == ExportCells(items[k])
  {
    seq(|items|, k requires 0 <= k < |items| => ExportCells(items[k]))
  }

  function ExportCollectionCsv(items: seq<ItemView>): string {
    ToCsv(COLUMNS, ExportRows(items))
  }

  // ------------------------------------------------------------------ //
  // Import
  // ------------------------------------------------------------------ //

  datatype ImportError =
    | BadFile(file: CsvError)
    | BadHeader(problem: HeaderProblem)
    | WrongColumns(row: nat, expected: nat, found: nat)
    | BadCell(row: nat, column: string)
    | NoSuchCard(row: nat)
    | Duplicates(row: nat, first: nat)

  datatype Report = Report(
    dryRun: bool, rows: nat, valid: nat, created: nat, updated: nat, cardsAdded: int, errors: seq<ImportError>)

  datatype ParsedRow = ParsedRow(row: nat, data: RowData)

  datatype ResolvedRow = ResolvedRow(row: nat, key: LineKey, data: RowData)

  function ColumnErrors(errors: seq<MapError>): (r: seq<ImportError>)
    ensures |r| == |errors|
  {
    seq(|errors|, k requires 0 <= k < |errors| => WrongColumns(errors[k].row, errors[k].expected, errors[k].found))
  }

  function CellErrors(row: nat, columns: seq<string>): (r: seq<ImportError>)
    ensures |r| == |columns|
  {
    seq(|columns|, k requires 0 <= k < |columns| => BadCell(row, columns[k]))
  }

  function HeaderErrors(problems: seq<HeaderProblem>): (r: seq<ImportError>)
    ensures |r| == |problems|
  {
    seq(|problems|, k requires 0 <= k < |problems| => BadHeader(problems[k]))
  }

  function LowerAll(cells: seq<string>): (r: seq<string>)
    ensures |r| == |cells| && forall k :: 0 <= k < |cells| ==> r[k] == Lower(cells[k])
  {
    seq(|cells|, k requires 0 <= k < |cells| => Lower(cells[k]))
  }

  /** The schema applied to the first n records. */
  function ParseRecords(m: Mapped, n: nat): (seq<ParsedRow>, seq<ImportError>)
    requires n <= |m.records| == |m.rowNumbers|
  {
    if n == 0 then ([], [])
    else
      var (rows, errors) := ParseRecords(m, n - 1);
      match ParseRow(m.records[n - 1])
      case Err(columns) => (rows, errors + CellErrors(m.rowNumbers[n - 1], columns))
      case Ok(data) => (rows + [ParsedRow(m.rowNumbers[n - 1], data)], errors)
  }

  datatype Resolution = Resolution(rows: seq<ResolvedRow>, seen: map<LineKey, nat>, errors: seq<ImportError>)

  function ConditionOf(data: RowData): string {
    Or(data.condition, "nm")
  }

  /** Cards looked up, and a second row about one line refused, for the first n rows. */
  function Resolve(catalogue: Catalogue, setCodes: set<string>, rows: seq<ParsedRow>, n: nat): Resolution
    requires n <= |rows|
  {
    if n == 0 then Resolution([], map[], [])
    else
      var r := Resolve(catalogue, setCodes, rows, n - 1);
      var ParsedRow(row, data) := rows[n - 1];
      match Lookup(catalogue, setCodes, KeyOf(data.setCode, data.number, data.finish, data.language))
      case None => r.(errors := r.errors + [NoSuchCard(row)])
      case Some(variant) =>
        var key := LineKey(variant, ConditionOf(data));
        if key in r.seen then r.(errors := r.errors + [Duplicates(row, r.seen[key])])
        else Resolution(r.rows + [ResolvedRow(row, key, data)], r.seen[key := row], r.errors)
  }

  function ItemOf(data: RowData): Item {
    Item(data.quantity, data.acquiredPrice, Or(data.currency, "USD"), data.acquiredAt, data.notes)
  }

  datatype Written = Written(lines: Lines, created: nat, updated: nat, cardsAdded: int)

  function WriteRows(lines: Lines, rows: seq<ResolvedRow>, n: nat, mode: Mode): Result<Written, StoreError>
    requires n <= |rows|
  {
    if n == 0 then Ok(Written(lines, 0, 0, 0))
    else match WriteRows(lines, rows, n - 1, mode)
      case Err(e) => Err(e)
      case Ok(w) =>
        var row := rows[n - 1];
        match Upsert(w.lines, row.key, ItemOf(row.data), mode)
        case Err(e) => Err(e)
        case Ok(after) =>
          Ok(Written(after,
                     w.created + (if row.key in w.lines then 0 else 1),
                     w.updated + (if row.key in w.lines then 1 else 0),
                     w.cardsAdded + row.data.quantity))
  }

  /** What the import makes of the lines and what it reports; an error is a rolled-back transaction. */
  function Imported(lines: Lines, catalogue: Catalogue, text: string, dryRun: bool, mode: Mode)
    : Result<(Lines, Report), StoreError>
  {
    var empty := Report(dryRun, 0, 0, 0, 0, 0, []);
    match Parsed(text, DEFAULT_MAX_ROWS, DEFAULT_MAX_BYTES)
    case Err(e) => Ok((lines, empty.(errors := [BadFile(e)])))
    case Ok(doc) =>
      var problems := ColumnProblems(doc.header) + MissingFrom(REQUIRED, ColumnsIn(doc.header));
      if problems != [] then Ok((lines, empty.(errors := HeaderErrors(problems))))
      else ImportedRows(lines, catalogue, Document(LowerAll(doc.header), doc.rows), dryRun, mode)
  }

  function ImportedRows(lines: Lines, catalogue: Catalogue, doc: Document, dryRun: bool, mode: Mode)
    : Result<(Lines, Report), StoreError>
  {
    EveryRowIsAccountedFor(doc, |doc.rows|);
    var m := MapRows(doc, |doc.rows|);
    var (parsed, cellErrors) := ParseRecords(m, |m.records|);
    var resolution := Resolve(catalogue, SetCodes(parsed), parsed, |parsed|);
    var errors := ColumnErrors(m.errors) + cellErrors + resolution.errors;
    var report := Report(dryRun, |doc.rows|, |resolution.rows|, 0, 0, 0, errors);
    if dryRun || |resolution.rows| == 0 then Ok((lines, report))
    else match WriteRows(lines, resolution.rows, |resolution.rows|, mode)
      case Err(e) => Err(e)
      case Ok(w) => Ok((w.lines, report.(created := w.created, updated := w.updated, cardsAdded := w.cardsAdded)))
  }

  class Collection {
    var lines: Lines

    constructor ()
      ensures lines == map[]
    {
      lines := map[];
    }

    /**
     * `add` merges into an existing line, `replace` overwrites it, and a new line needs its card in the
     * catalogue; a refused write changes nothing.
     */
    method UpsertItem(key: LineKey, incoming: Item, mode: Mode, cardExists: bool) returns (r: Result<Item, StoreError>)
      modifies this
      ensures match Upsert(old(lines), key, incoming, mode)
              case Err(e) => r == Err(e) && lines == old(lines)
              case Ok(after) =>
                if key !in old(lines) && !cardExists then r == Err(MissingCard) && lines == old(lines)
                else lines == after && key in after && r == Ok(after[key])
    {
      var row := incoming;
      if key in lines && mode == Add {
        var existing := lines[key];
        if existing.currency != incoming.currency { return Err(CurrencyMismatch); }
        if existing.quantity + incoming.quantity <= 0 { return Err(CheckFailed); }
        row := existing.(
          quantity := existing.quantity + incoming.quantity,
          priceCents := WeightedAverageCents(LotOf(existing), LotOf(incoming)),
          notes := if existing.notes.Some? then existing.notes else incoming.notes);
      }
      if !DbAccepts(row) { return Err(CheckFailed); }
      if key !in lines && !cardExists { return Err(MissingCard); }
      lines := lines[key := row];
      r := Ok(row);
    }

    method ImportCollectionCsv(catalogue: Catalogue, text: string, dryRun: bool := true, mode: Mode := Add)
      returns (r: Result<Report, StoreError>)
      modifies this
      ensures match Imported(old(lines), catalogue, text, dryRun, mode)
              case Err(e) => r == Err(e) && lines == old(lines)
              case Ok((after, report)) => r == Ok(report) && lines == after
      ensures dryRun ==> lines == old(lines)
    {
      var report := Report(dryRun, 0, 0, 0, 0, 0, []);
      var parsedCsv := ParseCsv(text);
      if parsedCsv.Err? { return Ok(report.(errors := [BadFile(parsedCsv.error)])); }
      var headerProblems := ValidateCollectionCsvHeader(parsedCsv.value.header);
      if headerProblems != [] { return Ok(report.(errors := HeaderErrors(headerProblems))); }
      var doc := Document(LowerAll(parsedCsv.value.header), parsedCsv.value.rows);
      EveryRowIsAccountedFor(doc, |doc.rows|);
      var m := MapCsvRows(doc);
      var parsedRows, cellErrors := ParseEach(m);
      var resolution := ResolveEach(catalogue, parsedRows);
      report := Report(dryRun, |doc.rows|, |resolution.rows|, 0, 0, 0,
                       ColumnErrors(m.errors) + cellErrors + resolution.errors);
      if dryRun || |resolution.rows| == 0 { return Ok(report); }

      // One transaction for the whole file: the lines are only put back once every row is written.
      var written := WriteEach(lines, resolution.rows, mode);
      if written.Err? { return Err(written.error); }
      lines := written.value.lines;
      r := Ok(report.(created := written.value.created, updated := written.value.updated,
                      cardsAdded := written.value.cardsAdded));
    }
  }

  method ParseEach(m: Mapped) returns (parsedRows: seq<ParsedRow>, errors: seq<ImportError>)
    requires |m.records| == |m.rowNumbers|
    ensures (parsedRows, errors) == ParseRecords(m, |m.records|)
  {
    hide ParseRow;
    parsedRows, errors := [], [];
    for index := 0 to |m.records|
      invariant (parsedRows, errors) == ParseRecords(m, index)
    {
      var result := ParseRow(m.records[index]);
      if result.Err? {
        errors := errors + CellErrors(m.rowNumbers[index], result.error);
      } else {
        parsedRows := parsedRows + [ParsedRow(m.rowNumbers[index], result.value)];
      }
    }
  }

  method ResolveEach(catalogue: Catalogue, parsedRows: seq<ParsedRow>) returns (r: Resolution)
    ensures r == Resolve(catalogue, SetCodes(parsedRows), parsedRows, |parsedRows|)
  {
    var setCodes := SetCodes(parsedRows);
    var resolved: seq<ResolvedRow>, errors: seq<ImportError> := [], [];
    var seen: map<LineKey, nat> := map[];
    for index := 0 to |parsedRows|
      invariant Resolution(resolved, seen, errors) == Resolve(catalogue, setCodes, parsedRows, index)
    {
      var ParsedRow(row, data) := parsedRows[index];
      var variant := Lookup(catalogue, setCodes, KeyOf(data.setCode, data.number, data.finish, data.language));
      if variant == None {
        errors := errors + [NoSuchCard(row)];
      } else {
        var key := LineKey(variant.value, Or(data.condition, "nm"));
        if key in seen {
          errors := errors + [Duplicates(row, seen[key])];
        } else {
          seen := seen[key := row];
          resolved := resolved + [ResolvedRow(row, key, data)];
        }
      }
    }
    r := Resolution(resolved, seen, errors);
  }

  method WriteEach(lines: Lines, rows: seq<ResolvedRow>, mode: Mode) returns (r: Result<Written, StoreError>)
    ensures r == WriteRows(lines, rows, |rows|, mode)
  {
    hide Upsert, ItemOf;
    var w := Written(lines, 0, 0, 0);
    for index := 0 to |rows|
      invariant WriteRows(lines, rows, index, mode) == Ok(w)
    {
      var row := rows[index];
      var existed := row.key in w.lines;
      var after := Upsert(w.lines, row.key, ItemOf(row.data), mode);
      if after.Err? {
        WriteErrorStays(lines, rows, index + 1, |rows|, mode);
        return Err(after.error);
      }
      w := Written(after.value, w.created + (if existed then 0 else 1), w.updated + (if existed then 1 else 0),
                   w.cardsAdded + row.data.quantity);
    }
    r := Ok(w);
  }

  lemma {:induction false} WriteErrorStays(lines: Lines, rows: seq<ResolvedRow>, k: nat, n: nat, mode: Mode)
    requires k <= n <= |rows| && WriteRows(lines, rows, k, mode).Err?
    ensures WriteRows(lines, rows, n, mode) == WriteRows(lines, rows, k, mode)
    decreases n
  {
    if k == n {
    } else {
      WriteErrorStays(lines, rows, k, n - 1, mode);
    }
  }

  // ------------------------------------------------------------------ //
  // One line out and back
  // ------------------------------------------------------------------ //

  lemma {:induction false} TrimEndTrims(s: string)
    ensures TrimEnd(s) <= s
    ensures |TrimEnd(s)| > 0 ==> !IsSpace(TrimEnd(s)[|TrimEnd(s)| - 1])
    ensures |s| > 0 && !IsSpace(s[0]) ==> |TrimEnd(s)| > 0
    decreases |s|
  {
    if |s| == 0 || !IsSpace(s[|s| - 1]) {
    } else {
      TrimEndTrims(s[..|s| - 1]);
    }
  }

  lemma {:induction false} TrimTrims(s: string)
    ensures Trimmed(Trim(s))
    ensures |s| > 0 && !IsSpace(s[0]) ==> |Trim(s)| > 0 && Trim(s)[0] == s[0]
    decreases |s|
  {
    if |s| > 0 && IsSpace(s[0]) {
      TrimTrims(s[1..]);
    } else {
      TrimEndTrims(s);
    }
  }

  /** A text cell comes back as it went out exactly when it is trimmed and does not start like a formula. */
  lemma TextSurvivesIff(s: string)
    ensures Trim(Guard(s)) == s <==> Trimmed(s) && !StartsFormula(s)
  {
    TrimTrims(Guard(s));
    if Trimmed(s) && !StartsFormula(s) {
      TrimOfTrimmed(s);
    }
  }

  /** What a line and its card must satisfy to come back unchanged. */
  ghost predicate PortableName(s: string) {
    s != "" && Trimmed(s) && !StartsFormula(s) && Utf16Length(s) <= 32
  }

  ghost predicate PortableNotes(notes: Option<string>) {
    notes == None
      || (notes.value != "" && Trimmed(notes.value) && !StartsFormula(notes.value) && Utf16Length(notes.value) <= 500)
  }

  ghost predicate Portable(view: ItemView) {
    && PortableName(view.card.setCode) && PortableName(view.card.number)
    && view.card.finish in FINISHES && view.card.language in LANGUAGES && view.condition in CONDITIONS
    && DbAccepts(view.item) && PortableNotes(view.item.notes)
    && (view.item.acquiredAt.Some? ==> view.item.acquiredAt.value.ms == 0 && view.item.acquiredAt.value.year <= 9999)
  }

  ghost predicate AllDifferent(names: seq<string>) {
    forall i, j :: 0 <= i < j < |names| ==> names[i] != names[j]
  }

  lemma ColumnsDiffer()
    ensures AllDifferent(COLUMNS)
  {
    var c := COLUMNS;
    assert |c[0]| == 3 && |c[1]| == 6 && |c[2]| == 6 && |c[3]| == 8 && |c[4]| == 9 && |c[5]| == 8
           && |c[6]| == 14 && |c[7]| == 8 && |c[8]| == 11 && |c[9]| == 5;
    assert c[1][0] == 'n' && c[2][0] == 'f' && c[3][0] == 'l' && c[5][0] == 'q' && c[7][0] == 'c';
  }

  lemma {:induction false} ColumnLookup(header: seq<string>, cells: seq<string>, k: nat)
    requires |header| == |cells| && k < |header| && AllDifferent(header)
    ensures header[k] in RecordOf(header, cells) && RecordOf(header, cells)[header[k]] == Trim(cells[k])
    decreases |header|
  {
    if k == |header| - 1 {
    } else {
      ColumnLookup(header[..|header| - 1], cells[..|header| - 1], k);
    }
  }

  lemma {:induction false} RecordColumns(header: seq<string>, cells: seq<string>)
    requires |header| == |cells|
    ensures forall c :: c in RecordOf(header, cells) ==> c in header
    decreases |header|
  {
    if |header| == 0 {
    } else {
      RecordColumns(header[..|header| - 1], cells[..|header| - 1]);
    }
  }

  ghost function RecordOfView(view: ItemView): Record {
    RecordOf(COLUMNS, Guarded(ExportCells(view)))
  }

  lemma CellAt(view: ItemView, k: nat)
    requires k < 10
    ensures COLUMNS[k] in RecordOfView(view)
    ensures RecordOfView(view)[COLUMNS[k]] == Trim(Guard(Raw(ExportCells(view)[k])))
  {
    ColumnsDiffer();
    ColumnLookup(COLUMNS, Guarded(ExportCells(view)), k);
  }

  lemma TextCellBack(view: ItemView, k: nat, s: string)
    requires k < 10 && Raw(ExportCells(view)[k]) == s && Trimmed(s) && !StartsFormula(s)
    ensures var record := RecordOfView(view);
            && COLUMNS[k] in record && record[COLUMNS[k]] == s && Trim(s) == s
            && OptionalText(record, COLUMNS[k]) == if s == "" then None else Some(s)
  {
    CellAt(view, k);
    TextSurvivesIff(s);
    TrimOfTrimmed(s);
  }

  ghost predicate PlainWord(s: string) {
    s != "" && Trimmed(s) && !StartsFormula(s)
  }

  lemma EnumWordsArePlain(s: string)
    requires s in FINISHES || s in LANGUAGES || s in CONDITIONS
    ensures PlainWord(s)
  {
    if s in FINISHES {
      var k :| 0 <= k < 4 && FINISHES[k] == s;
      assert s == "normal" || s == "parallel" || s == "alt_art" || s == "promo";
    } else if s in LANGUAGES {
      assert s == "en" || s == "ja";
    } else {
      assert s == "nm" || s == "lp" || s == "mp" || s == "hp" || s == "dmg";
    }
  }

  lemma NumbersArePlain(n: nat)
    ensures PlainWord(Decimal(n))
  {
    DecimalRoundTrip(n);
  }

  lemma AmountsArePlain(cents: nat)
    ensures PlainWord(FormatCentsAsAmount(cents))
  {
    DecimalRoundTrip(cents / 100);
    Pad2RoundTrip(cents % 100);
    var text := FormatCentsAsAmount(cents);
    assert text == Decimal(cents / 100) + "." + Pad2(cents % 100);
    assert text[0] == Decimal(cents / 100)[0];
    assert text[|text| - 1] == Pad2(cents % 100)[1];
  }

  lemma DaysArePlain(m: Moment)
    requires m.year <= 9999
    ensures PlainWord(DayText(m))
  {
    Pad2RoundTrip(m.year / 100);
    Pad2RoundTrip(m.day);
    var text := DayText(m);
    assert text[0] == Pad2(m.year / 100)[0];
    assert text[|text| - 1] == Pad2(m.day)[1];
  }

  function AtLeastZero(n: int): nat {
    if n < 0 then 0 else n
  }

  /** What the schema should make of an exported line. */
  ghost function DataOf(view: ItemView): RowData {
    RowData(view.card.setCode, view.card.number, Some(view.card.finish), Some(view.card.language), Some(view.condition),
            AtLeastZero(view.item.quantity),
            if view.item.priceCents == None then None else Some(AtLeastZero(view.item.priceCents.value)),
            Some(view.item.currency), view.item.acquiredAt, view.item.notes)
  }

  lemma NamesComeBack(view: ItemView)
    requires PortableName(view.card.setCode) && PortableName(view.card.number)
    ensures var record := RecordOfView(view);
            && NameOk(record, "set") && Trim(record["set"]) == view.card.setCode
            && NameOk(record, "number") && Trim(record["number"]) == view.card.number
  {
    hide Guard, Trim, Trimmed, StartsFormula, RecordOfView, Utf16Length, OptionalText;
    TextCellBack(view, 0, view.card.setCode);
    TextCellBack(view, 1, view.card.number);
  }

  lemma EnumsComeBack(view: ItemView)
    requires view.card.finish in FINISHES && view.card.language in LANGUAGES && view.condition in CONDITIONS
    ensures var record := RecordOfView(view);
            && OptionalText(record, "finish") == Some(view.card.finish)
            && OptionalText(record, "language") == Some(view.card.language)
            && OptionalText(record, "condition") == Some(view.condition)
  {
    hide Guard, Trim, Trimmed, StartsFormula, RecordOfView, OptionalText;
    EnumWordsArePlain(view.card.finish);
    EnumWordsArePlain(view.card.language);
    EnumWordsArePlain(view.condition);
    TextCellBack(view, 2, view.card.finish);
    TextCellBack(view, 3, view.card.language);
    TextCellBack(view, 4, view.condition);
  }

  lemma NotesComeBack(view: ItemView)
    requires PortableNotes(view.item.notes)
    ensures OptionalText(RecordOfView(view), "notes") == view.item.notes && NotesOk(view.item.notes)
  {
    TextCellBack(view, 9, Or(view.item.notes, ""));
  }

  lemma QuantityText(n: nat)
    requires 1 <= n <= 100000
    ensures PlainWord(Decimal(n)) && DigitsWithin(Decimal(n), 6) && ParseDigits(Decimal(n)) == n
  {
    hide StartsFormula, Trimmed;
    NumbersArePlain(n);
    DecimalRoundTrip(n);
    assert Pow10(6) == 1_000_000 by { assert Pow10(3) == 1000; assert Pow10(6) == 1000 * Pow10(3); }
    DecimalLength(n, 6);
  }

  lemma QuantityComesBack(view: ItemView)
    requires 1 <= view.item.quantity <= 100000
    ensures var record := RecordOfView(view);
            QuantityOk(record) && ParseDigits(Trim(record["quantity"])) == view.item.quantity
  {
    hide Decimal, ParseDigits, Trim, Trimmed, StartsFormula, RecordOfView, OptionalText;
    QuantityText(view.item.quantity);
    TextCellBack(view, 5, Decimal(view.item.quantity));
  }

  lemma PriceComesBack(view: ItemView)
    requires view.item.priceCents == None || 0 <= view.item.priceCents.value <= 0x7FFF_FFFF
    ensures var price := OptionalText(RecordOfView(view), "acquired_price");
            PriceOk(price) && (if price == None then None else ParseMoneyToCents(price.value)) == view.item.priceCents
  {
    var price := view.item.priceCents;
    hide ParseMoneyToCents;
    if price.Some? {
      AmountsArePlain(price.value);
      MoneyRoundTrip(price.value);
      TextCellBack(view, 6, FormatCentsAsAmount(price.value));
    } else {
      TextCellBack(view, 6, "");
    }
  }

  lemma CurrencyComesBack(view: ItemView)
    requires DbAccepts(view.item)
    ensures var currency := OptionalText(RecordOfView(view), "currency");
            CurrencyOk(currency) && currency.Some? && Upper(currency.value) == view.item.currency
  {
    TextCellBack(view, 7, view.item.currency);
    assert Upper(view.item.currency) == view.item.currency;
  }

  lemma DateComesBack(view: ItemView)
    requires view.item.acquiredAt.Some? ==>
               view.item.acquiredAt.value.ms == 0 && view.item.acquiredAt.value.year <= 9999
    ensures var date := OptionalText(RecordOfView(view), "acquired_at");
            DateOk(date) && (if date == None then None else ParseDay(date.value)) == view.item.acquiredAt
  {
    var date := view.item.acquiredAt;
    hide ParseDay;
    if date.Some? {
      DaysArePlain(date.value);
      DayRoundTrip(date.value);
      TextCellBack(view, 8, DayText(date.value));
    } else {
      TextCellBack(view, 8, "");
    }
  }

  lemma RecordOfViewColumns(view: ItemView)
    ensures forall c :: c in RecordOfView(view) ==> c in COLUMNS
  {
    RecordColumns(COLUMNS, Guarded(ExportCells(view)));
  }

  lemma LineComesBack(view: ItemView)
    requires Portable(view)
    ensures ParseRow(RecordOfView(view)) == Ok(DataOf(view)) && ItemOf(DataOf(view)) == view.item
  {
    hide RecordOfView, Trim, OptionalText, NameOk, QuantityOk, PriceOk, CurrencyOk, DateOk, NotesOk;
    hide Upper, ParseDigits, ParseMoneyToCents, ParseDay;
    var record := RecordOfView(view);
    NamesComeBack(view);
    EnumsComeBack(view);
    NotesComeBack(view);
    QuantityComesBack(view);
    PriceComesBack(view);
    CurrencyComesBack(view);
    DateComesBack(view);
    RecordOfViewColumns(view);
    assert Issues(record) == [];
  }

  // ------------------------------------------------------------------ //
  // The whole file
  // ------------------------------------------------------------------ //

  /** Stored lines satisfy the table's checks and name cards of the catalogue. */
  ghost predicate Stored(lines: Lines, cards: map<VariantId, Card>) {
    forall key :: key in lines ==> key.variant in cards && DbAccepts(lines[key])
  }

  /** Every line once, in whatever order the query sorts them. */
  ghost predicate Enumerates(order: seq<LineKey>, lines: Lines) {
    && (forall k :: 0 <= k < |order| ==> order[k] in lines)
    && (forall key :: key in lines ==> key in order)
    && (forall i, j :: 0 <= i < j < |order| ==> order[i] != order[j])
  }

  /** The lookup's rows are the catalogue, each variant at least once. */
  ghost predicate Lists(catalogue: Catalogue, cards: map<VariantId, Card>) {
    && (forall k :: 0 <= k < |catalogue| ==> catalogue[k].0 in cards && cards[catalogue[k].0] == catalogue[k].1)
    && (forall id :: id in cards ==> exists k :: 0 <= k < |catalogue| && catalogue[k].0 == id)
  }

  /** No two variants print alike up to case. Set codes are only unique within a game, so this can fail. */
  ghost predicate KeysUnique(cards: map<VariantId, Card>) {
    forall v, w :: v in cards && w in cards && CardKey(cards[v]) == CardKey(cards[w]) ==> v == w
  }

  ghost function ViewsOf(lines: Lines, cards: map<VariantId, Card>, order: seq<LineKey>): (views: seq<ItemView>)
    requires Stored(lines, cards) && Enumerates(order, lines)
    ensures |views| == |order|
    ensures forall k :: 0 <= k < |order| ==>
              views[k] == ItemView(cards[order[k].variant], order[k].condition, lines[order[k]])
  {
    seq(|order|, k requires 0 <= k < |order| => ItemView(cards[order[k].variant], order[k].condition, lines[order[k]]))
  }

  lemma LowerFacts(s: string)
    ensures Lower(Lower(s)) == Lower(s)
    ensures Trimmed(s) ==> Trimmed(Lower(s)) && Trim(s) == s && Trim(Lower(s)) == Lower(s)
  {
    if Trimmed(s) {
      TrimOfTrimmed(s);
      TrimOfTrimmed(Lower(s));
    }
  }

  /** A column name is lower-case letters and underscores. */
  ghost predicate ColumnWord(s: string) {
    |s| > 0 && forall j :: 0 <= j < |s| ==> 'a' <= s[j] <= 'z' || s[j] == '_'
  }

  lemma ColumnsAreWords(k: nat)
    requires k < 10
    ensures ColumnWord(COLUMNS[k])
  {
    if k == 0 { assert ColumnWord("set"); }
    else if k == 1 { assert ColumnWord("number"); }
    else if k == 2 { assert ColumnWord("finish"); }
    else if k == 3 { assert ColumnWord("language"); }
    else if k == 4 { assert ColumnWord("condition"); }
    else if k == 5 { assert ColumnWord("quantity"); }
    else if k == 6 { assert ColumnWord("acquired_price"); }
    else if k == 7 { assert ColumnWord("currency"); }
    else if k == 8 { assert ColumnWord("acquired_at"); }
    else { assert ColumnWord("notes"); }
  }

  lemma ColumnWordSurvives(s: string)
    requires ColumnWord(s)
    ensures Trim(Guard(s)) == s && ColumnOf(s) == s && Lower(s) == s
  {
    TextSurvivesIff(s);
    TrimOfTrimmed(s);
    assert Lower(s) == s;
  }

  lemma ColumnSurvives(k: nat)
    requires k < 10
    ensures Trim(Guard(COLUMNS[k])) == COLUMNS[k] && ColumnOf(COLUMNS[k]) == COLUMNS[k]
    ensures Lower(COLUMNS[k]) == COLUMNS[k]
  {
    hide ColumnWord, Trim, Guard, ColumnOf, Lower;
    ColumnsAreWords(k);
    ColumnWordSurvives(COLUMNS[k]);
  }

  lemma HeaderSurvives()
    ensures TrimAll(Guarded(HeaderCells(COLUMNS))) == COLUMNS && LowerAll(COLUMNS) == COLUMNS
  {
    hide Trim, Guard, ColumnOf, Lower;
    forall k | 0 <= k < 10 ensures Trim(Guard(COLUMNS[k])) == COLUMNS[k] && Lower(COLUMNS[k]) == COLUMNS[k] {
      ColumnSurvives(k);
    }
  }

  lemma ColumnsAreGood()
    ensures GoodColumns(COLUMNS)
  {
    hide ColumnOf;
    var c := COLUMNS;
    forall k | 0 <= k < |c| ensures ColumnOf(c[k]) == c[k] && c[k] in c {
      ColumnSurvives(k);
    }
    ColumnsDiffer();
  }

  lemma RequiredArePresent(k: nat)
    requires k < |REQUIRED|
    ensures REQUIRED[k] in ColumnsIn(COLUMNS)
  {
    hide ColumnOf;
    var j := if k == 2 then 5 else k;
    ColumnSurvives(j);
    RepeatedIff(COLUMNS, COLUMNS[j]);
    assert REQUIRED[k] == COLUMNS[j];
  }

  lemma HeaderIsAccepted()
    ensures ColumnProblems(COLUMNS) + MissingFrom(REQUIRED, ColumnsIn(COLUMNS)) == []
  {
    hide GoodColumns, ColumnProblems, MissingFrom, ColumnsIn;
    HeaderAcceptedIff(COLUMNS);
    ColumnsAreGood();
    forall k | 0 <= k < |REQUIRED| ensures REQUIRED[k] in ColumnsIn(COLUMNS) {
      RequiredArePresent(k);
    }
  }

  lemma {:induction false} MapFullRows(doc: Document, n: nat)
    requires n <= |doc.rows| && forall k :: 0 <= k < |doc.rows| ==> |doc.rows[k]| == |doc.header|
    ensures var m := MapRows(doc, n);
            && |m.records| == n && |m.rowNumbers| == n && m.errors == []
            && forall k :: 0 <= k < n ==> m.records[k] == RecordOf(doc.header, doc.rows[k]) && m.rowNumbers[k] == k + 2
    decreases n
  {
    hide RecordOf;
    if n == 0 {
    } else {
      MapFullRows(doc, n - 1);
      assert |doc.rows[n - 1]| == |doc.header|;
    }
  }

  lemma {:induction false} ParseGoodRecords(m: Mapped, data: seq<RowData>, n: nat)
    requires n <= |data| == |m.records| == |m.rowNumbers|
    requires forall k :: 0 <= k < |data| ==> ParseRow(m.records[k]) == Ok(data[k]) && m.rowNumbers[k] == k + 2
    ensures var (rows, errors) := ParseRecords(m, n);
            && |rows| == n && errors == [] && forall k :: 0 <= k < n ==> rows[k] == ParsedRow(k + 2, data[k])
    decreases n
  {
    hide ParseRow;
    if n == 0 {
    } else {
      ParseGoodRecords(m, data, n - 1);
    }
  }

  lemma {:induction false} LookupFinds(catalogue: Catalogue, cards: map<VariantId, Card>, setCodes: set<string>,
          id: VariantId)
    requires KeysUnique(cards) && id in cards && Lower(cards[id].setCode) in setCodes
    requires forall k :: 0 <= k < |catalogue| ==> catalogue[k].0 in cards && cards[catalogue[k].0] == catalogue[k].1
    requires exists k :: 0 <= k < |catalogue| && catalogue[k].0 == id
    ensures Lookup(catalogue, setCodes, CardKey(cards[id])) == Some(id)
    decreases |catalogue|
  {
    hide CardKey;
    var n := |catalogue| - 1;
    if catalogue[n].0 == id {
    } else {
      var k :| 0 <= k < |catalogue| && catalogue[k].0 == id;
      assert catalogue[..n][k].0 == id;
      LookupFinds(catalogue[..n], cards, setCodes, id);
    }
  }

  /** An exported row names its own variant again. */
  lemma RowFindsItsCard(catalogue: Catalogue, cards: map<VariantId, Card>, setCodes: set<string>, id: VariantId,
          view: ItemView)
    requires Lists(catalogue, cards) && KeysUnique(cards) && id in cards && view.card == cards[id] && Portable(view)
    requires Lower(Trim(view.card.setCode)) in setCodes
    ensures Lookup(catalogue, setCodes,
                   KeyOf(view.card.setCode, view.card.number, Some(view.card.finish), Some(view.card.language)))
                     == Some(id)
  {
    LowerFacts(view.card.setCode);
    LowerFacts(view.card.number);
    assert KeyOf(view.card.setCode, view.card.number, Some(view.card.finish), Some(view.card.language))
      == CardKey(cards[id]);
    LookupFinds(catalogue, cards, setCodes, id);
  }

  /** Rows that each find their own line, all different, are all resolved. */
  lemma {:induction false} ResolveGoodRows(
      order: seq<LineKey>, catalogue: Catalogue, setCodes: set<string>, rows: seq<ParsedRow>, n: nat)
    requires n <= |rows| == |order| && forall i, j :: 0 <= i < j < |order| ==> order[i] != order[j]
    requires forall k :: 0 <= k < |rows| ==> FindsLine(catalogue, setCodes, rows[k].data, order[k])
    ensures var r := Resolve(catalogue, setCodes, rows, n);
            && |r.rows| == n && r.errors == []
            && (forall k :: 0 <= k < n ==> r.rows[k] == ResolvedRow(rows[k].row, order[k], rows[k].data))
            && (forall key :: key in r.seen ==> key in order[..n])
    decreases n
  {
    hide KeyOf, Lookup, ConditionOf;
    if n == 0 {
    } else {
      ResolveGoodRows(order, catalogue, setCodes, rows, n - 1);
      assert FindsLine(catalogue, setCodes, rows[n - 1].data, order[n - 1]);
      assert order[n - 1] !in order[..n - 1];
      assert order[..n] == order[..n - 1] + [order[n - 1]];
    }
  }

  ghost predicate FindsLine(catalogue: Catalogue, setCodes: set<string>, data: RowData, key: LineKey) {
    && Lookup(catalogue, setCodes, KeyOf(data.setCode, data.number, data.finish, data.language)) == Some(key.variant)
    && ConditionOf(data) == key.condition
  }

  ghost function CardsIn(rows: seq<ResolvedRow>, n: nat): int
    requires n <= |rows|
  {
    if n == 0 then 0 else CardsIn(rows, n - 1) + rows[n - 1].data.quantity
  }

  /** Replacing every line by itself leaves the lines as they are and counts each as updated. */
  lemma {:induction false} WritingBackChangesNothing(lines: Lines, rows: seq<ResolvedRow>, n: nat)
    requires n <= |rows|
    requires forall k :: 0 <= k < |rows| ==>
               rows[k].key in lines && ItemOf(rows[k].data) == lines[rows[k].key] && DbAccepts(lines[rows[k].key])
    ensures WriteRows(lines, rows, n, Replace) == Ok(Written(lines, 0, n, CardsIn(rows, n)))
    decreases n
  {
    if n == 0 {
    } else {
      WritingBackChangesNothing(lines, rows, n - 1);
      var key := rows[n - 1].key;
      assert lines[key := lines[key]] == lines;
    }
  }

  lemma ExportHasNoBlankRow(views: seq<ItemView>)
    ensures NoBlankRow(COLUMNS, ExportRows(views))
  {
    forall k | 0 <= k < |views| ensures !Blank(Guarded(ExportRows(views)[k])) {
      assert |Guarded(ExportCells(views[k]))| == 10;
    }
  }

  lemma ExportParses(lines: Lines, cards: map<VariantId, Card>, order: seq<LineKey>) returns (doc: Document)
    requires Stored(lines, cards) && Enumerates(order, lines)
    requires |order| <= DEFAULT_MAX_ROWS
    requires |Utf8.Encode(ExportCollectionCsv(ViewsOf(lines, cards, order)))| <= DEFAULT_MAX_BYTES
    ensures Parsed(ExportCollectionCsv(ViewsOf(lines, cards, order)), DEFAULT_MAX_ROWS, DEFAULT_MAX_BYTES) == Ok(doc)
    ensures doc.header == COLUMNS && |doc.rows| == |order|
    ensures forall k :: 0 <= k < |order| ==> doc.rows[k] == Guarded(ExportCells(ViewsOf(lines, cards, order)[k]))
  {
    var views := ViewsOf(lines, cards, order);
    hide Parsed, Utf8.Encode, Guard, Trim, ToCsv;
    RoundTrip(COLUMNS, ExportRows(views), DEFAULT_MAX_ROWS, DEFAULT_MAX_BYTES);
    ExportHasNoBlankRow(views);
    doc := Parsed(ExportCollectionCsv(views), DEFAULT_MAX_ROWS, DEFAULT_MAX_BYTES).value;
    HeaderSurvives();
  }

  /**
   * An owner's export imported back with `mode: 'replace'` and `dryRun: false` reports no errors,
   * creates nothing, updates every line, and leaves every line exactly as it was.
   */
  lemma ExportThenReplaceChangesNothing(
      lines: Lines, cards: map<VariantId, Card>, order: seq<LineKey>, catalogue: Catalogue)
    requires Stored(lines, cards) && Enumerates(order, lines) && Lists(catalogue, cards) && KeysUnique(cards)
    requires forall k :: 0 <= k < |order| ==> Portable(ViewsOf(lines, cards, order)[k])
    requires |order| <= DEFAULT_MAX_ROWS
    requires |Utf8.Encode(ExportCollectionCsv(ViewsOf(lines, cards, order)))| <= DEFAULT_MAX_BYTES
    ensures var imported := Imported(lines, catalogue, ExportCollectionCsv(ViewsOf(lines, cards, order)), false,
              Replace);
            && imported.Ok? && imported.value.0 == lines
            && var report := imported.value.1;
               report.errors == [] && report.created == 0 && report.updated == |order|
                 && report.valid == |order| == report.rows
  {
    var views := ViewsOf(lines, cards, order);
    var doc := ExportParses(lines, cards, order);
    HeaderSurvives();
    HeaderIsAccepted();
    ImportOfMatchingRows(lines, cards, order, catalogue, doc);
  }

  ghost predicate Exported(lines: Lines, cards: map<VariantId, Card>, order: seq<LineKey>, doc: Document) {
    && Stored(lines, cards) && Enumerates(order, lines)
    && doc.header == COLUMNS && |doc.rows| == |order|
    && forall k :: 0 <= k < |order| ==> doc.rows[k] == Guarded(ExportCells(ViewsOf(lines, cards, order)[k]))
  }

  lemma ExportedRecordsParse(lines: Lines, cards: map<VariantId, Card>, order: seq<LineKey>, doc: Document)
    requires Exported(lines, cards, order, doc)
    requires forall k :: 0 <= k < |order| ==> Portable(ViewsOf(lines, cards, order)[k])
    ensures var m := MapRows(doc, |doc.rows|);
            && m.errors == [] && |m.records| == |m.rowNumbers| == |order|
            && var (rows, errors) := ParseRecords(m, |m.records|);
               && |rows| == |order| && errors == []
               && forall k :: 0 <= k < |order| ==> rows[k].data == DataOf(ViewsOf(lines, cards, order)[k])
  {
    hide DataOf, ParseRow, Portable, RecordOf, ItemOf, Guarded, ExportCells, MapRows, ParseRecords;
    var views := ViewsOf(lines, cards, order);
    MapFullRows(doc, |order|);
    var m := MapRows(doc, |order|);
    var data := seq(|order|, k requires 0 <= k < |order| => DataOf(views[k]));
    forall k | 0 <= k < |order| ensures ParseRow(m.records[k]) == Ok(data[k]) {
      LineComesBack(views[k]);
      assert m.records[k] == RecordOfView(views[k]);
    }
    ParseGoodRecords(m, data, |order|);
  }

  lemma ImportOfMatchingRows(
      lines: Lines, cards: map<VariantId, Card>, order: seq<LineKey>, catalogue: Catalogue, doc: Document)
    requires Exported(lines, cards, order, doc) && Lists(catalogue, cards) && KeysUnique(cards)
    requires forall k :: 0 <= k < |order| ==> Portable(ViewsOf(lines, cards, order)[k])
    ensures var imported := ImportedRows(lines, catalogue, doc, false, Replace);
            && imported.Ok? && imported.value.0 == lines
            && var report := imported.value.1;
               report.errors == [] && report.created == 0 && report.updated == |order|
                 && report.valid == |order| == report.rows
  {
    hide DataOf, ParseRow, Portable, ItemOf, Lists, KeysUnique, Guard;
    var views := ViewsOf(lines, cards, order);
    ExportedRecordsParse(lines, cards, order, doc);
    var rows := ParseRecords(MapRows(doc, |doc.rows|), |order|).0;
    forall k | 0 <= k < |order|
      ensures FindsLine(catalogue, SetCodes(rows), rows[k].data, order[k]) && ItemOf(rows[k].data) == lines[order[k]]
    {
      LineComesBack(views[k]);
      ExportedRowFindsLine(catalogue, cards, rows, k, views[k], order[k]);
    }
    hide FindsLine;
    ResolveGoodRows(order, catalogue, SetCodes(rows), rows, |order|);
    WritingBackChangesNothing(lines, Resolve(catalogue, SetCodes(rows), rows, |order|).rows, |order|);
  }

  lemma ExportedRowFindsLine(
      catalogue: Catalogue, cards: map<VariantId, Card>, rows: seq<ParsedRow>, k: nat, view: ItemView, key: LineKey)
    requires Lists(catalogue, cards) && KeysUnique(cards) && key.variant in cards && Portable(view)
    requires k < |rows| && rows[k].data == DataOf(view) && view.card == cards[key.variant]
    requires view.condition == key.condition
    ensures FindsLine(catalogue, SetCodes(rows), rows[k].data, key)
  {
    hide Lists, KeysUnique, Portable, Lookup, KeyOf;
    assert rows[k] in rows;
    RowFindsItsCard(catalogue, cards, SetCodes(rows), key.variant, view);
  }
}
