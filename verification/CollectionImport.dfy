/**
 * What an import file says, cell by cell, and what importing it does
 * (packages/core/src/collections.ts, packages/db/src/queries/collections.ts): what a row means, what
 * may be left out of one, and what rows about new lines leave behind.
 */
module CollectionImport {
  import opened Wrappers
  import opened Text
  import opened Csv
  import opened CollectionCsv
  import opened CollectionStore
  import opened CollectionTransfer

  // ------------------------------------------------------------------ //
  // What a row says
  // ------------------------------------------------------------------ //

  /** The trimmed cell under this column, whatever case the header writes it in; "" when there is none. */
  function Said(header: seq<string>, cells: seq<string>, column: string): string
    requires |header| == |cells|
  {
    if |header| == 0 then ""
    else
      var n := |header| - 1;
      if Lower(header[n]) == column then Trim(cells[n]) else Said(header[..n], cells[..n], column)
  }

  lemma {:induction false} RecordSays(header: seq<string>, cells: seq<string>, column: string)
    requires |header| == |cells|
    ensures var record := RecordOf(LowerAll(header), cells);
            if column in record then record[column] == Said(header, cells, column)
            else Said(header, cells, column) == ""
    decreases |header|
  {
    hide Trim, Lower;
    if |header| == 0 {
    } else {
      var n := |header| - 1;
      assert LowerAll(header)[..n] == LowerAll(header[..n]);
      RecordSays(header[..n], cells[..n], column);
    }
  }

  lemma TrimTwice(s: string)
    ensures Trim(Trim(s)) == Trim(s)
  {
    TrimTrims(s);
    TrimOfTrimmed(Trim(s));
  }

  lemma {:induction false} SaidIsTrimmed(header: seq<string>, cells: seq<string>, column: string)
    requires |header| == |cells|
    ensures Trim(Said(header, cells, column)) == Said(header, cells, column)
    decreases |header|
  {
    hide Trim, Lower;
    if |header| == 0 {
      EmptyIsTrimmed();
    } else {
      TrimTwice(cells[|header| - 1]);
      SaidIsTrimmed(header[..|header| - 1], cells[..|header| - 1], column);
    }
  }

  lemma EmptyIsTrimmed()
    ensures Trim("") == ""
  {
  }

  function Given(said: string): Option<string> {
    if said == "" then None else Some(said)
  }

  /** What the schema reads in a column is what the row says there. */
  lemma ReadsWhatIsSaid(header: seq<string>, cells: seq<string>, column: string)
    requires |header| == |cells|
    ensures var record, said := RecordOf(LowerAll(header), cells), Said(header, cells, column);
            && OptionalText(record, column) == Given(said)
            && (NameOk(record, column) <==> said != "" && Utf16Length(said) <= 32)
            && (column in record ==> Trim(record[column]) == said)
  {
    hide Trim, Said, Utf16Length;
    RecordSays(header, cells, column);
    SaidIsTrimmed(header, cells, column);
    EmptyIsTrimmed();
  }

  lemma QuantitySaid(header: seq<string>, cells: seq<string>)
    requires |header| == |cells|
    ensures var record, said := RecordOf(LowerAll(header), cells), Said(header, cells, "quantity");
            QuantityOk(record) <==> DigitsWithin(said, 6) && 1 <= ParseDigits(said) <= 100000
  {
    hide Said, ParseDigits, Trim;
    RecordSays(header, cells, "quantity");
    ReadsWhatIsSaid(header, cells, "quantity");
  }

  /** A header whose columns are known, up to case, as the parser leaves it. */
  ghost predicate KnownColumns(header: seq<string>) {
    forall k :: 0 <= k < |header| ==> Lower(header[k]) in COLUMNS
  }

  lemma KnownInRecord(header: seq<string>, cells: seq<string>)
    requires |header| == |cells| && KnownColumns(header)
    ensures forall c :: c in RecordOf(LowerAll(header), cells) ==> c in COLUMNS
  {
    hide Lower;
    RecordColumns(LowerAll(header), cells);
    forall c | c in RecordOf(LowerAll(header), cells) ensures c in COLUMNS {
      var k :| 0 <= k < |header| && LowerAll(header)[k] == c;
    }
  }

  ghost predicate OneOf(said: string, given: Option<string>, allowed: set<string>) {
    given == Given(said) && (said != "" ==> said in allowed)
  }

  ghost predicate NameMeans(said: string, name: string) {
    name == said != "" && Utf16Length(said) <= 32
  }

  ghost predicate QuantityMeans(said: string, quantity: nat) {
    1 <= |said| <= 6 && AllDigits(said) && quantity == ParseDigits(said) && 1 <= quantity <= 100000
  }

  ghost predicate PriceMeans(said: string, price: Option<nat>) {
    if said == "" then price == None else price.Some? && ParseMoneyToCents(said) == price
  }

  ghost predicate CurrencyMeans(said: string, currency: Option<string>) {
    if said == "" then currency == None
    else
      && |said| == 3 && (forall k :: 0 <= k < 3 ==> 65 <= said[k] as int <= 90 || 97 <= said[k] as int <= 122)
      && currency == Some(Upper(said))
  }

  ghost predicate DateMeans(said: string, date: Option<Moment>) {
    if said == "" then date == None else date.Some? && ParseDay(said) == date
  }

  /** What a row must say to mean this. */
  ghost predicate RowMeans(header: seq<string>, cells: seq<string>, data: RowData)
    requires |header| == |cells|
  {
    && NameMeans(Said(header, cells, "set"), data.setCode)
    && NameMeans(Said(header, cells, "number"), data.number)
    && OneOf(Said(header, cells, "finish"), data.finish, {"normal", "parallel", "alt_art", "promo"})
    && OneOf(Said(header, cells, "language"), data.language, {"en", "ja"})
    && OneOf(Said(header, cells, "condition"), data.condition, {"nm", "lp", "mp", "hp", "dmg"})
    && QuantityMeans(Said(header, cells, "quantity"), data.quantity)
    && PriceMeans(Said(header, cells, "acquired_price"), data.acquiredPrice)
    && CurrencyMeans(Said(header, cells, "currency"), data.currency)
    && DateMeans(Said(header, cells, "acquired_at"), data.acquiredAt)
    && data.notes == Given(Said(header, cells, "notes")) && Utf16Length(Said(header, cells, "notes")) <= 500
  }

  /** The schema, column by column. */
  lemma ParseRowParts(record: Record, data: RowData)
    ensures ParseRow(record) == Ok(data)
            <==> && NameOk(record, "set") && data.setCode == Trim(record["set"])
                 && NameOk(record, "number") && data.number == Trim(record["number"])
                 && Within(data.finish, FINISHES) && data.finish == OptionalText(record, "finish")
                 && Within(data.language, LANGUAGES) && data.language == OptionalText(record, "language")
                 && Within(data.condition, CONDITIONS) && data.condition == OptionalText(record, "condition")
                 && QuantityOk(record) && data.quantity == ParseDigits(Trim(record["quantity"]))
                 && var price := OptionalText(record, "acquired_price");
                 && PriceOk(price)
                 && data.acquiredPrice == (if price == None then None else ParseMoneyToCents(price.value))
                 && var currency := OptionalText(record, "currency");
                 && CurrencyOk(currency)
                 && data.currency == (if currency == None then None else Some(Upper(currency.value)))
                 && var date := OptionalText(record, "acquired_at");
                 && DateOk(date) && data.acquiredAt == (if date == None then None else ParseDay(date.value))
                 && NotesOk(data.notes) && data.notes == OptionalText(record, "notes")
                 && forall c :: c in record ==> c in COLUMNS
  {
    hide Trim, OptionalText, PriceOk, CurrencyOk, DateOk, NotesOk, Within;
    hide ParseDigits, ParseMoneyToCents, ParseDay, Upper;
    hide Utf16Length, AllDigits, DigitsWithin, COLUMNS, FINISHES, LANGUAGES, CONDITIONS;
    NoIssues(record);
    hide Issues, NameOk, QuantityOk;
  }

  lemma NoIssues(record: Record)
    ensures Issues(record) == []
            <==> && NameOk(record, "set") && NameOk(record, "number")
                 && Within(OptionalText(record, "finish"), FINISHES)
                 && Within(OptionalText(record, "language"), LANGUAGES)
                 && Within(OptionalText(record, "condition"), CONDITIONS)
                 && QuantityOk(record) && PriceOk(OptionalText(record, "acquired_price"))
                 && CurrencyOk(OptionalText(record, "currency")) && DateOk(OptionalText(record, "acquired_at"))
                 && NotesOk(OptionalText(record, "notes")) && forall c :: c in record ==> c in COLUMNS
  {
    hide NameOk, Within, OptionalText, QuantityOk, PriceOk, CurrencyOk, DateOk, NotesOk;
    hide COLUMNS, FINISHES, LANGUAGES, CONDITIONS;
  }

  /** A row is accepted, and as this, exactly when that is what its cells say. */
  lemma RowMeansIff(header: seq<string>, cells: seq<string>, data: RowData)
    requires |header| == |cells| && KnownColumns(header)
    ensures ParseRow(RecordOf(LowerAll(header), cells)) == Ok(data) <==> RowMeans(header, cells, data)
  {
    var record := RecordOf(LowerAll(header), cells);
    ParseRowParts(record, data);
    KnownInRecord(header, cells);
    NamesSaid(header, cells, data);
    ChoicesSaid(header, cells, data);
    QuantitySaid(header, cells);
    ReadsWhatIsSaid(header, cells, "quantity");
    ValuesSaid(header, cells, data);
    hide Said, Trim, Lower, RecordOf, OptionalText, ParseDigits, ParseMoneyToCents;
    hide ParseDay, Upper, Utf16Length, IsLetter;
    hide NameMeans, OneOf, PriceMeans, CurrencyMeans, DateMeans, AllDigits, ParseRow, KnownColumns, Within;
    hide NameOk, PriceOk, CurrencyOk, DateOk, NotesOk, COLUMNS, FINISHES, LANGUAGES, CONDITIONS, LowerAll;
  }

  lemma NamesSaid(header: seq<string>, cells: seq<string>, data: RowData)
    requires |header| == |cells|
    ensures var record := RecordOf(LowerAll(header), cells);
            && (NameOk(record, "set") && data.setCode == Trim(record["set"])
                <==> NameMeans(Said(header, cells, "set"), data.setCode))
            && (NameOk(record, "number") && data.number == Trim(record["number"])
                <==> NameMeans(Said(header, cells, "number"), data.number))
  {
    hide Said, Trim, Lower, RecordOf, Utf16Length;
    ReadsWhatIsSaid(header, cells, "set");
    ReadsWhatIsSaid(header, cells, "number");
  }

  lemma ChoicesSaid(header: seq<string>, cells: seq<string>, data: RowData)
    requires |header| == |cells|
    ensures var record := RecordOf(LowerAll(header), cells);
            && (Within(data.finish, FINISHES) && data.finish == OptionalText(record, "finish")
                <==> OneOf(Said(header, cells, "finish"), data.finish, {"normal", "parallel", "alt_art", "promo"}))
            && (Within(data.language, LANGUAGES) && data.language == OptionalText(record, "language")
                <==> OneOf(Said(header, cells, "language"), data.language, {"en", "ja"}))
            && (Within(data.condition, CONDITIONS) && data.condition == OptionalText(record, "condition")
                <==> OneOf(Said(header, cells, "condition"), data.condition, {"nm", "lp", "mp", "hp", "dmg"}))
  {
    hide Said, Trim, Lower, RecordOf, OptionalText;
    ReadsWhatIsSaid(header, cells, "finish");
    ReadsWhatIsSaid(header, cells, "language");
    ReadsWhatIsSaid(header, cells, "condition");
    AllowedWords();
    hide FINISHES, LANGUAGES, CONDITIONS;
  }

  lemma AllowedWords()
    ensures forall s :: s in FINISHES <==> s in {"normal", "parallel", "alt_art", "promo"}
    ensures forall s :: s in LANGUAGES <==> s in {"en", "ja"}
    ensures forall s :: s in CONDITIONS <==> s in {"nm", "lp", "mp", "hp", "dmg"}
  {
    assert FINISHES[0] == "normal" && FINISHES[1] == "parallel" && FINISHES[2] == "alt_art" && FINISHES[3] == "promo";
    assert LANGUAGES[0] == "en" && LANGUAGES[1] == "ja";
    assert CONDITIONS[0] == "nm" && CONDITIONS[1] == "lp" && CONDITIONS[2] == "mp" && CONDITIONS[3] == "hp"
      && CONDITIONS[4] == "dmg";
  }

  lemma ValuesSaid(header: seq<string>, cells: seq<string>, data: RowData)
    requires |header| == |cells|
    ensures var record := RecordOf(LowerAll(header), cells);
            var price, currency := OptionalText(record, "acquired_price"), OptionalText(record, "currency");
            var date := OptionalText(record, "acquired_at");
            && (PriceOk(price) && data.acquiredPrice == (if price == None then None else ParseMoneyToCents(price.value))
                <==> PriceMeans(Said(header, cells, "acquired_price"), data.acquiredPrice))
            && (CurrencyOk(currency)
                && data.currency == (if currency == None then None else Some(Upper(currency.value)))
                <==> CurrencyMeans(Said(header, cells, "currency"), data.currency))
            && (DateOk(date) && data.acquiredAt == (if date == None then None else ParseDay(date.value))
                <==> DateMeans(Said(header, cells, "acquired_at"), data.acquiredAt))
            && (NotesOk(data.notes) && data.notes == OptionalText(record, "notes")
                <==> data.notes == Given(Said(header, cells, "notes"))
                     && Utf16Length(Said(header, cells, "notes")) <= 500)
  {
    ReadsWhatIsSaid(header, cells, "acquired_price");
    ReadsWhatIsSaid(header, cells, "currency");
    ReadsWhatIsSaid(header, cells, "acquired_at");
    ReadsWhatIsSaid(header, cells, "notes");
    PriceGiven(Said(header, cells, "acquired_price"), data.acquiredPrice);
    CurrencyGiven(Said(header, cells, "currency"), data.currency);
    DateGiven(Said(header, cells, "acquired_at"), data.acquiredAt);
    NotesGiven(Said(header, cells, "notes"));
    hide Said, RecordOf, LowerAll, OptionalText, NameOk, Trim, Utf16Length, Given, PriceOk, CurrencyOk, DateOk, NotesOk;
    hide PriceMeans, CurrencyMeans, DateMeans, ParseMoneyToCents, ParseDay, Upper;
  }

  lemma PriceGiven(said: string, price: Option<nat>)
    ensures PriceOk(Given(said))
            && price == (if Given(said) == None then None else ParseMoneyToCents(Given(said).value))
            <==> PriceMeans(said, price)
  {
    hide ParseMoneyToCents;
  }

  lemma CurrencyGiven(said: string, currency: Option<string>)
    ensures CurrencyOk(Given(said))
            && currency == (if Given(said) == None then None else Some(Upper(Given(said).value)))
            <==> CurrencyMeans(said, currency)
  {
    hide Upper;
  }

  lemma DateGiven(said: string, date: Option<Moment>)
    ensures DateOk(Given(said)) && date == (if Given(said) == None then None else ParseDay(Given(said).value))
            <==> DateMeans(said, date)
  {
    hide ParseDay;
  }

  lemma NotesGiven(said: string)
    ensures NotesOk(Given(said)) <==> Utf16Length(said) <= 500
  {
  }

  // ------------------------------------------------------------------ //
  // What may be left out
  // ------------------------------------------------------------------ //

  /** The same, or a default written where nothing was said. */
  ghost predicate FilledIn(said: string, written: string, default: string) {
    written == said || (said == "" && written == default)
  }

  /** The second row says what the first does, except that it may spell out what the first leaves to the defaults. */
  ghost predicate SpellsOut(header: seq<string>, cells: seq<string>, fullHeader: seq<string>, fullCells: seq<string>)
    requires |header| == |cells| && |fullHeader| == |fullCells|
  {
    && Said(fullHeader, fullCells, "set") == Said(header, cells, "set")
    && Said(fullHeader, fullCells, "number") == Said(header, cells, "number")
    && FilledIn(Said(header, cells, "finish"), Said(fullHeader, fullCells, "finish"), "normal")
    && FilledIn(Said(header, cells, "language"), Said(fullHeader, fullCells, "language"), "en")
    && FilledIn(Said(header, cells, "condition"), Said(fullHeader, fullCells, "condition"), "nm")
    && Said(fullHeader, fullCells, "quantity") == Said(header, cells, "quantity")
    && Said(fullHeader, fullCells, "acquired_price") == Said(header, cells, "acquired_price")
    && FilledIn(Said(header, cells, "currency"), Said(fullHeader, fullCells, "currency"), "USD")
    && Said(fullHeader, fullCells, "acquired_at") == Said(header, cells, "acquired_at")
    && Said(fullHeader, fullCells, "notes") == Said(header, cells, "notes")
  }

  /** Two parsed rows that come to the same line, item and card count. */
  ghost predicate DataAlike(a: RowData, b: RowData) {
    && a.setCode == b.setCode && a.quantity == b.quantity && ItemOf(a) == ItemOf(b) && ConditionOf(a) == ConditionOf(b)
    && KeyOf(a.setCode, a.number, a.finish, a.language) == KeyOf(b.setCode, b.number, b.finish, b.language)
  }

  ghost predicate ParsedAlike(a: Result<RowData, seq<string>>, b: Result<RowData, seq<string>>) {
    match a
    case Err(columns) => b == a
    case Ok(data) => b.Ok? && DataAlike(data, b.value)
  }

  lemma SameIssues(a: Record, b: Record)
    requires NameOk(a, "set") == NameOk(b, "set") && NameOk(a, "number") == NameOk(b, "number")
    requires Within(OptionalText(a, "finish"), FINISHES) == Within(OptionalText(b, "finish"), FINISHES)
    requires Within(OptionalText(a, "language"), LANGUAGES) == Within(OptionalText(b, "language"), LANGUAGES)
    requires Within(OptionalText(a, "condition"), CONDITIONS) == Within(OptionalText(b, "condition"), CONDITIONS)
    requires QuantityOk(a) == QuantityOk(b)
    requires PriceOk(OptionalText(a, "acquired_price")) == PriceOk(OptionalText(b, "acquired_price"))
    requires CurrencyOk(OptionalText(a, "currency")) == CurrencyOk(OptionalText(b, "currency"))
    requires DateOk(OptionalText(a, "acquired_at")) == DateOk(OptionalText(b, "acquired_at"))
    requires NotesOk(OptionalText(a, "notes")) == NotesOk(OptionalText(b, "notes"))
    requires (forall c :: c in a ==> c in COLUMNS) && (forall c :: c in b ==> c in COLUMNS)
    ensures Issues(a) == Issues(b)
  {
    hide NameOk, Within, OptionalText, QuantityOk, PriceOk, CurrencyOk, DateOk, NotesOk, COLUMNS;
  }

  lemma FilledChoice(said: string, written: string, default: string, allowed: seq<string>)
    requires FilledIn(said, written, default) && default != "" && default in allowed
    ensures Within(Given(said), allowed) == Within(Given(written), allowed)
    ensures Or(Given(said), default) == Or(Given(written), default)
  {
  }

  lemma DefaultsAreAllowed()
    ensures "normal" in FINISHES && "en" in LANGUAGES && "nm" in CONDITIONS
    ensures CurrencyOk(Some("USD")) && Upper("USD") == "USD"
    ensures "normal" != "" && "en" != "" && "nm" != "" && "USD" != ""
  {
    assert FINISHES[0] == "normal" && LANGUAGES[0] == "en" && CONDITIONS[0] == "nm";
    var usd := "USD";
    assert Upper(usd) == usd;
  }

  function CurrencyFrom(currency: Option<string>): Option<string> {
    if currency == None then None else Some(Upper(currency.value))
  }

  lemma FilledCurrency(said: string, written: string)
    requires FilledIn(said, written, "USD")
    ensures CurrencyOk(Given(said)) == CurrencyOk(Given(written))
    ensures Or(CurrencyFrom(Given(said)), "USD") == Or(CurrencyFrom(Given(written)), "USD")
  {
    DefaultsAreAllowed();
    hide Upper, IsLetter;
  }

  lemma SpelledOutIssues(header: seq<string>, cells: seq<string>, fullHeader: seq<string>, fullCells: seq<string>)
    requires |header| == |cells| && |fullHeader| == |fullCells|
    requires KnownColumns(header) && KnownColumns(fullHeader) && SpellsOut(header, cells, fullHeader, fullCells)
    ensures Issues(RecordOf(LowerAll(header), cells)) == Issues(RecordOf(LowerAll(fullHeader), fullCells))
  {
    var a, b := RecordOf(LowerAll(header), cells), RecordOf(LowerAll(fullHeader), fullCells);
    KnownInRecord(header, cells);
    KnownInRecord(fullHeader, fullCells);
    QuantitySaid(header, cells);
    QuantitySaid(fullHeader, fullCells);
    AllRead(header, cells);
    AllRead(fullHeader, fullCells);
    DefaultsAreAllowed();
    hide Said, RecordOf, LowerAll, KnownColumns, OptionalText, Within, CurrencyOk, PriceOk, DateOk, NotesOk, Given;
    hide NameOk, QuantityOk, Issues, COLUMNS, FINISHES, LANGUAGES, CONDITIONS;
    hide Upper, FilledIn, DigitsWithin, ParseDigits;
    hide Utf16Length;
    FilledChoice(Said(header, cells, "finish"), Said(fullHeader, fullCells, "finish"), "normal", FINISHES);
    FilledChoice(Said(header, cells, "language"), Said(fullHeader, fullCells, "language"), "en", LANGUAGES);
    FilledChoice(Said(header, cells, "condition"), Said(fullHeader, fullCells, "condition"), "nm", CONDITIONS);
    FilledCurrency(Said(header, cells, "currency"), Said(fullHeader, fullCells, "currency"));
    SameIssues(a, b);
  }

  /** Everything the schema reads, by column. */
  lemma AllRead(header: seq<string>, cells: seq<string>)
    requires |header| == |cells|
    ensures var record := RecordOf(LowerAll(header), cells);
            && (NameOk(record, "set") <==>
                Said(header, cells, "set") != "" && Utf16Length(Said(header, cells, "set")) <= 32)
            && (NameOk(record, "number") <==>
                Said(header, cells, "number") != "" && Utf16Length(Said(header, cells, "number")) <= 32)
            && ("set" in record ==> Trim(record["set"]) == Said(header, cells, "set"))
            && ("number" in record ==> Trim(record["number"]) == Said(header, cells, "number"))
            && ("quantity" in record ==> Trim(record["quantity"]) == Said(header, cells, "quantity"))
            && OptionalText(record, "finish") == Given(Said(header, cells, "finish"))
            && OptionalText(record, "language") == Given(Said(header, cells, "language"))
            && OptionalText(record, "condition") == Given(Said(header, cells, "condition"))
            && OptionalText(record, "acquired_price") == Given(Said(header, cells, "acquired_price"))
            && OptionalText(record, "currency") == Given(Said(header, cells, "currency"))
            && OptionalText(record, "acquired_at") == Given(Said(header, cells, "acquired_at"))
            && OptionalText(record, "notes") == Given(Said(header, cells, "notes"))
  {
    hide Said, RecordOf, LowerAll, OptionalText, Trim, Given, NameOk, Utf16Length;
    ReadsWhatIsSaid(header, cells, "set");
    ReadsWhatIsSaid(header, cells, "number");
    ReadsWhatIsSaid(header, cells, "finish");
    ReadsWhatIsSaid(header, cells, "language");
    ReadsWhatIsSaid(header, cells, "condition");
    ReadsWhatIsSaid(header, cells, "quantity");
    ReadsWhatIsSaid(header, cells, "acquired_price");
    ReadsWhatIsSaid(header, cells, "currency");
    ReadsWhatIsSaid(header, cells, "acquired_at");
    ReadsWhatIsSaid(header, cells, "notes");
  }

  lemma ParsedSays(header: seq<string>, cells: seq<string>, data: RowData)
    requires |header| == |cells| && ParseRow(RecordOf(LowerAll(header), cells)) == Ok(data)
    ensures data.setCode == Said(header, cells, "set") && data.number == Said(header, cells, "number")
    ensures data.finish == Given(Said(header, cells, "finish"))
    ensures data.language == Given(Said(header, cells, "language"))
    ensures data.condition == Given(Said(header, cells, "condition"))
    ensures AllDigits(Said(header, cells, "quantity")) && data.quantity == ParseDigits(Said(header, cells, "quantity"))
    ensures var price := Given(Said(header, cells, "acquired_price"));
            data.acquiredPrice == if price == None then None else ParseMoneyToCents(price.value)
    ensures data.currency == CurrencyFrom(Given(Said(header, cells, "currency")))
    ensures var date := Given(Said(header, cells, "acquired_at"));
            data.acquiredAt == if date == None then None else ParseDay(date.value)
    ensures data.notes == Given(Said(header, cells, "notes"))
  {
    ParseRowParts(RecordOf(LowerAll(header), cells), data);
    AllRead(header, cells);
    hide Said, RecordOf, LowerAll, OptionalText, Within, CurrencyOk, PriceOk, DateOk, NotesOk, Given, ParseRow, Trim;
    hide COLUMNS, FINISHES, LANGUAGES, CONDITIONS, Upper, ParseDigits;
    hide Utf16Length, ParseMoneyToCents, ParseDay, AllDigits;
  }

  lemma SpelledOutData(header: seq<string>, cells: seq<string>, fullHeader: seq<string>, fullCells: seq<string>,
                       data: RowData, full: RowData)
    requires |header| == |cells| && |fullHeader| == |fullCells| && SpellsOut(header, cells, fullHeader, fullCells)
    requires ParseRow(RecordOf(LowerAll(header), cells)) == Ok(data)
    requires ParseRow(RecordOf(LowerAll(fullHeader), fullCells)) == Ok(full)
    ensures DataAlike(data, full)
  {
    ParsedSays(header, cells, data);
    ParsedSays(fullHeader, fullCells, full);
    assert SpellsOut(header, cells, fullHeader, fullCells);
    ChoicesAlike(header, cells, fullHeader, fullCells);
    FilledCurrency(Said(header, cells, "currency"), Said(fullHeader, fullCells, "currency"));
    hide Said, RecordOf, LowerAll, Given, ParseRow, Trim, Lower, Or, FilledIn, CurrencyFrom, Within, CurrencyOk;
    hide FINISHES, LANGUAGES, CONDITIONS, Upper, ParseDigits, ParseMoneyToCents, ParseDay, AllDigits;
    hide KeyOf, ItemOf, ConditionOf, DataAlike;
    SameParts(data, full);
  }

  lemma ChoicesAlike(header: seq<string>, cells: seq<string>, fullHeader: seq<string>, fullCells: seq<string>)
    requires |header| == |cells| && |fullHeader| == |fullCells| && SpellsOut(header, cells, fullHeader, fullCells)
    ensures Or(Given(Said(header, cells, "finish")), "normal")
            == Or(Given(Said(fullHeader, fullCells, "finish")), "normal")
    ensures Or(Given(Said(header, cells, "language")), "en") == Or(Given(Said(fullHeader, fullCells, "language")), "en")
    ensures Or(Given(Said(header, cells, "condition")), "nm")
            == Or(Given(Said(fullHeader, fullCells, "condition")), "nm")
  {
    DefaultsAreAllowed();
    hide Said, FINISHES, LANGUAGES, CONDITIONS, Or, Given, FilledIn, Within;
    FilledChoice(Said(header, cells, "finish"), Said(fullHeader, fullCells, "finish"), "normal", FINISHES);
    FilledChoice(Said(header, cells, "language"), Said(fullHeader, fullCells, "language"), "en", LANGUAGES);
    FilledChoice(Said(header, cells, "condition"), Said(fullHeader, fullCells, "condition"), "nm", CONDITIONS);
  }

  lemma SameParts(a: RowData, b: RowData)
    requires a.setCode == b.setCode && a.number == b.number && a.quantity == b.quantity
    requires a.acquiredPrice == b.acquiredPrice && a.acquiredAt == b.acquiredAt && a.notes == b.notes
    requires Or(a.finish, "normal") == Or(b.finish, "normal") && Or(a.language, "en") == Or(b.language, "en")
    requires Or(a.condition, "nm") == Or(b.condition, "nm") && Or(a.currency, "USD") == Or(b.currency, "USD")
    ensures DataAlike(a, b)
  {
    hide Or, Lower, Trim;
  }

  lemma SpelledOutParses(header: seq<string>, cells: seq<string>, fullHeader: seq<string>, fullCells: seq<string>)
    requires |header| == |cells| && |fullHeader| == |fullCells|
    requires KnownColumns(header) && KnownColumns(fullHeader) && SpellsOut(header, cells, fullHeader, fullCells)
    ensures ParsedAlike(ParseRow(RecordOf(LowerAll(header), cells)),
                        ParseRow(RecordOf(LowerAll(fullHeader), fullCells)))
  {
    var a, b := RecordOf(LowerAll(header), cells), RecordOf(LowerAll(fullHeader), fullCells);
    SpelledOutIssues(header, cells, fullHeader, fullCells);
    ParseRowFails(a);
    ParseRowFails(b);
    hide RecordOf, LowerAll, Issues, SpellsOut, KnownColumns, ParseRow, DataAlike;
    if Issues(a) == [] {
      SpelledOutData(header, cells, fullHeader, fullCells, ParseRow(a).value, ParseRow(b).value);
    }
  }

  lemma ParseRowFails(record: Record)
    ensures if Issues(record) == [] then ParseRow(record).Ok? else ParseRow(record) == Err(Issues(record))
  {
    hide Issues, OptionalText, Trim, ParseDigits, ParseMoneyToCents, ParseDay, Upper;
  }

  // The same file, read on.

  lemma {:induction false} RecordsAlike(a: Mapped, b: Mapped, n: nat)
    requires n <= |a.records| == |b.records| && |a.rowNumbers| == |b.rowNumbers| == |a.records|
    requires forall k :: 0 <= k < |a.records| ==>
               a.rowNumbers[k] == b.rowNumbers[k] && ParsedAlike(ParseRow(a.records[k]), ParseRow(b.records[k]))
    ensures var (rows, errors) := ParseRecords(a, n);
            var (fullRows, fullErrors) := ParseRecords(b, n);
            && errors == fullErrors && RowsAlike(rows, fullRows)
    decreases n
  {
    hide ParseRow, DataAlike, CellErrors;
    if n == 0 {
    } else {
      RecordsAlike(a, b, n - 1);
      assert ParsedAlike(ParseRow(a.records[n - 1]), ParseRow(b.records[n - 1]));
    }
  }

  ghost predicate RowsAlike(a: seq<ParsedRow>, b: seq<ParsedRow>) {
    |a| == |b| && forall k :: 0 <= k < |a| ==> a[k].row == b[k].row && DataAlike(a[k].data, b[k].data)
  }

  lemma SameSetCodes(a: seq<ParsedRow>, b: seq<ParsedRow>)
    requires RowsAlike(a, b)
    ensures SetCodes(a) == SetCodes(b)
  {
    SetCodesWithin(a, b);
    SetCodesWithin(b, a);
  }

  lemma SetCodesWithin(a: seq<ParsedRow>, b: seq<ParsedRow>)
    requires |a| == |b| && forall k :: 0 <= k < |a| ==> a[k].data.setCode == b[k].data.setCode
    ensures SetCodes(a) <= SetCodes(b)
  {
    forall code | code in SetCodes(a) ensures code in SetCodes(b) {
      var r :| r in a && code == Lower(Trim(r.data.setCode));
      var k :| 0 <= k < |a| && a[k] == r;
      assert b[k] in b && Lower(Trim(b[k].data.setCode)) == code;
    }
  }

  /** Resolved to the same lines, with items and card counts alike. */
  ghost predicate ResolvedAlike(a: seq<ResolvedRow>, b: seq<ResolvedRow>) {
    && |a| == |b|
    && forall k :: 0 <= k < |a| ==>
         a[k].key == b[k].key && ItemOf(a[k].data) == ItemOf(b[k].data) && a[k].data.quantity == b[k].data.quantity
  }

  lemma {:induction false} ResolutionsAlike(catalogue: Catalogue, setCodes: set<string>, a: seq<ParsedRow>,
                                            b: seq<ParsedRow>, n: nat)
    requires n <= |a| && RowsAlike(a, b)
    ensures var r, full := Resolve(catalogue, setCodes, a, n), Resolve(catalogue, setCodes, b, n);
            ResolvedAlike(r.rows, full.rows) && r.seen == full.seen && r.errors == full.errors
    decreases n
  {
    hide KeyOf, Lookup, ConditionOf, ItemOf;
    if n == 0 {
    } else {
      ResolutionsAlike(catalogue, setCodes, a, b, n - 1);
      assert DataAlike(a[n - 1].data, b[n - 1].data);
    }
  }

  lemma {:induction false} WritesAlike(lines: Lines, a: seq<ResolvedRow>, b: seq<ResolvedRow>, n: nat, mode: Mode)
    requires n <= |a| && ResolvedAlike(a, b)
    ensures WriteRows(lines, a, n, mode) == WriteRows(lines, b, n, mode)
    decreases n
  {
    hide Upsert, ItemOf;
    if n == 0 {
    } else {
      WritesAlike(lines, a, b, n - 1, mode);
    }
  }

  /** A document whose header is accepted, every row as long as it. */
  ghost predicate WellFormed(doc: Document) {
    && GoodColumns(doc.header) && (forall k :: 0 <= k < |REQUIRED| ==> REQUIRED[k] in ColumnsIn(doc.header))
    && (forall k :: 0 <= k < |doc.header| ==> Trimmed(doc.header[k]))
    && forall k :: 0 <= k < |doc.rows| ==> |doc.rows[k]| == |doc.header|
  }

  lemma AcceptedColumnsAreKnown(doc: Document)
    requires WellFormed(doc)
    ensures KnownColumns(doc.header)
    ensures ColumnProblems(doc.header) + MissingFrom(REQUIRED, ColumnsIn(doc.header)) == []
  {
    HeaderAcceptedIff(doc.header);
    forall k | 0 <= k < |doc.header| ensures Lower(doc.header[k]) in COLUMNS {
      TrimOfTrimmed(doc.header[k]);
      assert ColumnOf(doc.header[k]) in COLUMNS;
    }
  }

  ghost predicate DocumentSpellsOut(doc: Document, full: Document)
    requires WellFormed(doc) && WellFormed(full)
  {
    && |full.rows| == |doc.rows|
    && forall k :: 0 <= k < |doc.rows| ==> SpellsOut(doc.header, doc.rows[k], full.header, full.rows[k])
  }

  /** What is left of an import once the rows have been through the schema. */
  ghost function Resolved(lines: Lines, catalogue: Catalogue, count: nat, parsed: seq<ParsedRow>,
                          errors: seq<ImportError>, dryRun: bool, mode: Mode): Result<(Lines, Report), StoreError>
  {
    var resolution := Resolve(catalogue, SetCodes(parsed), parsed, |parsed|);
    var report := Report(dryRun, count, |resolution.rows|, 0, 0, 0, errors + resolution.errors);
    if dryRun || |resolution.rows| == 0 then Ok((lines, report))
    else match WriteRows(lines, resolution.rows, |resolution.rows|, mode)
      case Err(e) => Err(e)
      case Ok(w) => Ok((w.lines, report.(created := w.created, updated := w.updated, cardsAdded := w.cardsAdded)))
  }

  lemma ImportResolves(lines: Lines, catalogue: Catalogue, doc: Document, dryRun: bool, mode: Mode)
    requires forall k :: 0 <= k < |doc.rows| ==> |doc.rows[k]| == |doc.header|
    ensures var m := MapRows(doc, |doc.rows|);
            && |m.records| == |m.rowNumbers| == |doc.rows|
            && var (parsed, errors) := ParseRecords(m, |m.records|);
               ImportedRows(lines, catalogue, doc, dryRun, mode)
               == Resolved(lines, catalogue, |doc.rows|, parsed, errors, dryRun, mode)
  {
    MapFullRows(doc, |doc.rows|);
    hide RecordOf, MapRows, ParseRecords, Resolve, WriteRows, SetCodes;
    var m := MapRows(doc, |doc.rows|);
    var errors := ParseRecords(m, |m.records|).1;
    assert ColumnErrors(m.errors) + errors == errors;
  }

  lemma ResolvedTheSame(lines: Lines, catalogue: Catalogue, count: nat, a: seq<ParsedRow>, b: seq<ParsedRow>,
                        errors: seq<ImportError>, dryRun: bool, mode: Mode)
    requires RowsAlike(a, b)
    ensures Resolved(lines, catalogue, count, a, errors, dryRun, mode)
            == Resolved(lines, catalogue, count, b, errors, dryRun, mode)
  {
    assert |a| == |b|;
    SameSetCodes(a, b);
    ResolutionsAlike(catalogue, SetCodes(a), a, b, |a|);
    hide Resolve, SetCodes, RowsAlike, WriteRows;
    var r, f := Resolve(catalogue, SetCodes(a), a, |a|), Resolve(catalogue, SetCodes(b), b, |b|);
    WritesAlike(lines, r.rows, f.rows, |r.rows|, mode);
  }

  lemma ImportsAlike(lines: Lines, catalogue: Catalogue, doc: Document, full: Document, dryRun: bool, mode: Mode)
    requires WellFormed(doc) && WellFormed(full) && DocumentSpellsOut(doc, full)
    ensures ImportedRows(lines, catalogue, Document(LowerAll(doc.header), doc.rows), dryRun, mode)
            == ImportedRows(lines, catalogue, Document(LowerAll(full.header), full.rows), dryRun, mode)
  {
    var a, b := Document(LowerAll(doc.header), doc.rows), Document(LowerAll(full.header), full.rows);
    var n := |doc.rows|;
    DocumentsParseAlike(doc, full);
    assert |full.rows| == n;
    hide WellFormed, SpellsOut, LowerAll, RowAlike, ParsedAlike, ImportedRows;
    hide ParseRecords, MapRows, Resolved, RowsAlike;
    RowsParseAlike(a, b);
    ImportResolves(lines, catalogue, a, dryRun, mode);
    ImportResolves(lines, catalogue, b, dryRun, mode);
    var (rows, errors) := ParseRecords(MapRows(a, n), n);
    ResolvedTheSame(lines, catalogue, n, rows, ParseRecords(MapRows(b, n), n).0, errors, dryRun, mode);
  }

  lemma RowParsesAlike(doc: Document, full: Document, k: nat)
    requires WellFormed(doc) && WellFormed(full) && DocumentSpellsOut(doc, full) && k < |doc.rows|
    ensures ParsedAlike(ParseRow(RecordOf(LowerAll(doc.header), doc.rows[k])),
                        ParseRow(RecordOf(LowerAll(full.header), full.rows[k])))
  {
    AcceptedColumnsAreKnown(doc);
    AcceptedColumnsAreKnown(full);
    assert |doc.rows[k]| == |doc.header| && |full.rows[k]| == |full.header|;
    assert SpellsOut(doc.header, doc.rows[k], full.header, full.rows[k]);
    hide *;
    SpelledOutParses(doc.header, doc.rows[k], full.header, full.rows[k]);
  }

  ghost predicate FullRows(doc: Document) {
    forall k :: 0 <= k < |doc.rows| ==> |doc.rows[k]| == |doc.header|
  }

  ghost predicate RowAlike(a: Document, b: Document, k: nat)
    requires k < |a.rows| == |b.rows| && FullRows(a) && FullRows(b)
  {
    ParsedAlike(ParseRow(RecordOf(a.header, a.rows[k])), ParseRow(RecordOf(b.header, b.rows[k])))
  }

  lemma RowsParseAlike(a: Document, b: Document)
    requires FullRows(a) && FullRows(b) && |a.rows| == |b.rows|
    requires forall k :: 0 <= k < |a.rows| ==> RowAlike(a, b, k)
    ensures var n := |a.rows|;
            && |MapRows(a, n).records| == |MapRows(b, n).records| == n
            && |MapRows(a, n).rowNumbers| == |MapRows(b, n).rowNumbers| == n
            && ParseRecords(MapRows(a, n), n).1 == ParseRecords(MapRows(b, n), n).1
            && RowsAlike(ParseRecords(MapRows(a, n), n).0, ParseRecords(MapRows(b, n), n).0)
  {
    var n := |a.rows|;
    MapFullRows(a, n);
    MapFullRows(b, n);
    var m, fullM := MapRows(a, n), MapRows(b, n);
    hide ParseRow, RecordOf, ParsedAlike, MapRows, ParseRecords, RowsAlike;
    forall k | 0 <= k < n ensures ParsedAlike(ParseRow(m.records[k]), ParseRow(fullM.records[k])) {
      assert RowAlike(a, b, k);
    }
    RecordsAlike(m, fullM, n);
  }

  lemma DocumentsParseAlike(doc: Document, full: Document)
    requires WellFormed(doc) && WellFormed(full) && DocumentSpellsOut(doc, full)
    ensures var a, b := Document(LowerAll(doc.header), doc.rows), Document(LowerAll(full.header), full.rows);
            FullRows(a) && FullRows(b) && forall k :: 0 <= k < |a.rows| ==> RowAlike(a, b, k)
  {
    var a, b := Document(LowerAll(doc.header), doc.rows), Document(LowerAll(full.header), full.rows);
    assert FullRows(doc) && FullRows(full);
    assert FullRows(a) && FullRows(b);
    hide ParsedAlike, ParseRow, LowerAll, RecordOf, WellFormed, SpellsOut, FullRows;
    forall k | 0 <= k < |a.rows| ensures RowAlike(a, b, k) {
      RowParsesAlike(doc, full, k);
    }
  }

  /**
   * Condition, finish, language and currency may be left out, by column or by cell: the file leaves
   * the same lines and reports the same as one that writes `nm`, `normal`, `en` and `USD` out, whatever
   * else either gets right or wrong.
   */
  lemma DefaultsMayBeLeftOut(lines: Lines, catalogue: Catalogue, text: string, fullText: string, doc: Document,
                             full: Document, dryRun: bool, mode: Mode)
    requires Parsed(text, 5000, 2097152) == Ok(doc) && Parsed(fullText, 5000, 2097152) == Ok(full)
    requires WellFormed(doc) && WellFormed(full) && DocumentSpellsOut(doc, full)
    ensures Imported(lines, catalogue, text, dryRun, mode) == Imported(lines, catalogue, fullText, dryRun, mode)
  {
    AcceptedColumnsAreKnown(doc);
    AcceptedColumnsAreKnown(full);
    ImportsAlike(lines, catalogue, doc, full, dryRun, mode);
    hide WellFormed, DocumentSpellsOut, Parsed, ImportedRows, ColumnProblems, MissingFrom, LowerAll;
  }

  // ------------------------------------------------------------------ //
  // What a row's card is
  // ------------------------------------------------------------------ //

  lemma {:induction false} TrimEndOfLower(s: string)
    ensures TrimEnd(Lower(s)) == Lower(TrimEnd(s))
    decreases |s|
  {
    if |s| == 0 || !IsSpace(s[|s| - 1]) {
    } else {
      TrimEndOfLower(s[..|s| - 1]);
      assert Lower(s)[..|s| - 1] == Lower(s[..|s| - 1]);
    }
  }

  lemma {:induction false} TrimOfLower(s: string)
    ensures Trim(Lower(s)) == Lower(Trim(s))
    decreases |s|
  {
    if |s| > 0 && IsSpace(s[0]) {
      TrimOfLower(s[1..]);
      assert Lower(s)[1..] == Lower(s[1..]);
    } else {
      TrimEndOfLower(s);
    }
  }

  /** This card has the set code and number the row gives, up to case, and its finish and language or the defaults. */
  ghost predicate Fits(card: Card, data: RowData) {
    && Lower(card.setCode) == Lower(data.setCode) && Lower(Trim(card.number)) == Lower(data.number)
    && card.finish == (if data.finish == None then "normal" else data.finish.value)
    && card.language == (if data.language == None then "en" else data.language.value)
  }

  /** The row's card is in the catalogue, and is this variant and no other. */
  ghost predicate Names(catalogue: Catalogue, data: RowData, id: VariantId) {
    && (exists j :: 0 <= j < |catalogue| && catalogue[j].0 == id && Fits(catalogue[j].1, data))
    && forall j :: 0 <= j < |catalogue| && Fits(catalogue[j].1, data) ==> catalogue[j].0 == id
  }

  ghost predicate TrimmedCodes(setCodes: set<string>) {
    forall c :: c in setCodes ==> Trim(c) == c && Lower(c) == c
  }

  lemma FitsIff(card: Card, data: RowData, setCodes: set<string>)
    requires Trim(data.setCode) == data.setCode && Trim(data.number) == data.number
    requires TrimmedCodes(setCodes) && Lower(data.setCode) in setCodes
    ensures Fits(card, data) <==>
            && Lower(card.setCode) in setCodes
            && CardKey(card) == KeyOf(data.setCode, data.number, data.finish, data.language)
  {
    LowerFacts(card.setCode);
    LowerFacts(card.number);
    LowerFacts(Trim(card.number));
    LowerFacts(data.setCode);
    TrimOfLower(card.number);
    TrimOfLower(data.setCode);
    hide Trim, Lower;
  }

  lemma {:induction false} LookupIsFit(catalogue: Catalogue, setCodes: set<string>, data: RowData)
    requires Trim(data.setCode) == data.setCode && Trim(data.number) == data.number
    requires TrimmedCodes(setCodes) && Lower(data.setCode) in setCodes
    ensures match Lookup(catalogue, setCodes, KeyOf(data.setCode, data.number, data.finish, data.language))
            case None => forall j :: 0 <= j < |catalogue| ==> !Fits(catalogue[j].1, data)
            case Some(id) => exists j :: 0 <= j < |catalogue| && catalogue[j].0 == id && Fits(catalogue[j].1, data)
    decreases |catalogue|
  {
    hide Trim, Lower, Fits, KeyOf, CardKey, TrimmedCodes;
    if |catalogue| == 0 {
    } else {
      var n := |catalogue| - 1;
      FitsIff(catalogue[n].1, data, setCodes);
      LookupIsFit(catalogue[..n], setCodes, data);
      var found := Lookup(catalogue[..n], setCodes, KeyOf(data.setCode, data.number, data.finish, data.language));
      if Fits(catalogue[n].1, data) {
      } else if found.Some? {
        var j :| 0 <= j < n && catalogue[..n][j].0 == found.value && Fits(catalogue[..n][j].1, data);
        assert catalogue[j].0 == found.value && Fits(catalogue[j].1, data);
      } else {
        assert forall j :: 0 <= j < n ==> catalogue[..n][j] == catalogue[j];
      }
    }
  }

  /** The card is found exactly as its row names it. */
  lemma NamedCardIsFound(catalogue: Catalogue, setCodes: set<string>, data: RowData, id: VariantId)
    requires Trim(data.setCode) == data.setCode && Trim(data.number) == data.number
    requires TrimmedCodes(setCodes) && Lower(data.setCode) in setCodes && Names(catalogue, data, id)
    ensures Lookup(catalogue, setCodes, KeyOf(data.setCode, data.number, data.finish, data.language)) == Some(id)
  {
    hide Trim, Lower, Fits, KeyOf, TrimmedCodes, Lookup;
    LookupIsFit(catalogue, setCodes, data);
  }

  // ------------------------------------------------------------------ //
  // Rows about lines that are not there
  // ------------------------------------------------------------------ //

  /** The line a row is about, once its card is known. */
  ghost function LineNamed(data: RowData, id: VariantId): LineKey {
    LineKey(id, if data.condition == None then "nm" else data.condition.value)
  }

  /** What the line holds. */
  ghost function ItemNamed(data: RowData): Item {
    Item(data.quantity, data.acquiredPrice, if data.currency == None then "USD" else data.currency.value,
         data.acquiredAt, data.notes)
  }

  ghost function CardsNamed(data: seq<RowData>): int {
    if |data| == 0 then 0 else CardsNamed(data[..|data| - 1]) + data[|data| - 1].quantity
  }

  lemma {:induction false} Utf16Counts(s: string)
    ensures Utf16Length(s) >= |s|
    decreases |s|
  {
    if |s| == 0 {
    } else {
      Utf16Counts(s[1..]);
    }
  }

  lemma RowIsAccepted(header: seq<string>, cells: seq<string>, data: RowData)
    requires |header| == |cells| && RowMeans(header, cells, data)
    requires data.acquiredPrice.Some? ==> data.acquiredPrice.value <= 0x7FFF_FFFF
    ensures DbAccepts(ItemNamed(data))
    ensures Trim(data.setCode) == data.setCode && Trim(data.number) == data.number
  {
    SaidIsTrimmed(header, cells, "set");
    SaidIsTrimmed(header, cells, "number");
    hide Said, Trim, NameMeans, OneOf, PriceMeans, DateMeans, ParseDigits, AllDigits, Utf16Length;
    assert NameMeans(Said(header, cells, "set"), data.setCode) && NameMeans(Said(header, cells, "number"), data.number);
    NameIsSaid(Said(header, cells, "set"), data.setCode);
    NameIsSaid(Said(header, cells, "number"), data.number);
    Utf16Counts(Said(header, cells, "notes"));
  }

  lemma NameIsSaid(said: string, name: string)
    requires NameMeans(said, name)
    ensures name == said
  {
  }

  /** The first n rows' lines have been added with their items, and nothing else has changed. */
  ghost predicate Arrived(before: Lines, after: Lines, keys: seq<LineKey>, items: seq<Item>, n: nat)
    requires n <= |keys| == |items|
  {
    && (forall key :: key in before ==> key in after && after[key] == before[key])
    && (forall k :: 0 <= k < n ==> keys[k] in after && after[keys[k]] == items[k])
    && (forall key :: key in after ==> key in before || exists k :: 0 <= k < n && keys[k] == key)
  }

  ghost predicate Distinct(keys: seq<LineKey>) {
    forall i, j :: 0 <= i < j < |keys| ==> keys[i] != keys[j]
  }

  lemma OneArrives(before: Lines, after: Lines, keys: seq<LineKey>, items: seq<Item>, n: nat)
    requires n < |keys| == |items| && Distinct(keys) && keys[n] !in before && Arrived(before, after, keys, items, n)
    ensures keys[n] !in after
    ensures Arrived(before, after[keys[n] := items[n]], keys, items, n + 1)
  {
  }

  lemma {:induction false} NewRowsAreWritten(lines: Lines, rows: seq<ResolvedRow>, keys: seq<LineKey>,
                                             items: seq<Item>, n: nat, mode: Mode)
    requires n <= |rows| == |keys| == |items| && Distinct(keys)
    requires forall k :: 0 <= k < |rows| ==> keys[k] !in lines && RowIsFor(rows[k], keys[k], items[k])
    ensures var written := WriteRows(lines, rows, n, mode);
            && written.Ok? && written.value.created == n && written.value.updated == 0
            && written.value.cardsAdded == CardsIn(rows, n)
            && Arrived(lines, written.value.lines, keys, items, n)
    decreases n
  {
    hide DbAccepts, ItemOf, Merged, Arrived;
    if n == 0 {
      NothingArrived(lines, keys, items);
    } else {
      NewRowsAreWritten(lines, rows, keys, items, n - 1, mode);
      OneArrives(lines, WriteRows(lines, rows, n - 1, mode).value.lines, keys, items, n - 1);
      assert RowIsFor(rows[n - 1], keys[n - 1], items[n - 1]);
    }
  }

  lemma NothingArrived(lines: Lines, keys: seq<LineKey>, items: seq<Item>)
    requires |keys| == |items|
    ensures Arrived(lines, lines, keys, items, 0)
  {
  }

  ghost predicate RowIsFor(row: ResolvedRow, key: LineKey, item: Item) {
    row.key == key && ItemOf(row.data) == item && DbAccepts(item)
  }

  lemma {:induction false} CardsCounted(rows: seq<ResolvedRow>, data: seq<RowData>, n: nat)
    requires n <= |rows| == |data| && forall k :: 0 <= k < |rows| ==> rows[k].data == data[k]
    ensures CardsIn(rows, n) == CardsNamed(data[..n])
    decreases n
  {
    if n == 0 {
    } else {
      CardsCounted(rows, data, n - 1);
      assert data[..n][..n - 1] == data[..n - 1];
    }
  }

  lemma CodesAreTrimmed(rows: seq<ParsedRow>)
    ensures TrimmedCodes(SetCodes(rows))
  {
    forall c | c in SetCodes(rows) ensures Trim(c) == c && Lower(c) == c {
      var r :| r in rows && c == Lower(Trim(r.data.setCode));
      TrimTwice(r.data.setCode);
      TrimOfLower(Trim(r.data.setCode));
      LowerFacts(Trim(r.data.setCode));
    }
  }

  /** Rows that mean `data`, about the distinct lines that are not there yet. */
  ghost predicate NewRows(lines: Lines, catalogue: Catalogue, doc: Document, data: seq<RowData>, ids: seq<VariantId>)
    requires WellFormed(doc)
  {
    && |doc.rows| == |data| == |ids|
    && (forall k :: 0 <= k < |data| ==> RowMeans(doc.header, doc.rows[k], data[k]))
    && (forall k :: 0 <= k < |data| ==> Names(catalogue, data[k], ids[k]))
    && (forall k :: 0 <= k < |data| ==> LineNamed(data[k], ids[k]) !in lines)
    && (forall j, k :: 0 <= j < k < |data| ==> LineNamed(data[j], ids[j]) != LineNamed(data[k], ids[k]))
    && (forall k :: 0 <= k < |data| ==> data[k].acquiredPrice.Some? ==> data[k].acquiredPrice.value <= 0x7FFF_FFFF)
  }

  ghost function LinesNamed(data: seq<RowData>, ids: seq<VariantId>): (keys: seq<LineKey>)
    requires |data| == |ids|
    ensures |keys| == |data| && forall k :: 0 <= k < |keys| ==> keys[k] == LineNamed(data[k], ids[k])
  {
    seq(|data|, k requires 0 <= k < |data| => LineNamed(data[k], ids[k]))
  }

  ghost function ItemsNamed(data: seq<RowData>): (items: seq<Item>)
    ensures |items| == |data| && forall k :: 0 <= k < |items| ==> items[k] == ItemNamed(data[k])
  {
    seq(|data|, k requires 0 <= k < |data| => ItemNamed(data[k]))
  }

  lemma NewRowsParse(lines: Lines, catalogue: Catalogue, doc: Document, data: seq<RowData>, ids: seq<VariantId>)
    requires WellFormed(doc) && NewRows(lines, catalogue, doc, data, ids)
    ensures var m := MapRows(Document(LowerAll(doc.header), doc.rows), |data|);
            && |m.records| == |m.rowNumbers| == |data|
            && var (rows, errors) := ParseRecords(m, |data|);
               && |rows| == |data| && errors == []
               && forall k :: 0 <= k < |data| ==> rows[k] == ParsedRow(k + 2, data[k])
  {
    var a := Document(LowerAll(doc.header), doc.rows);
    AcceptedColumnsAreKnown(doc);
    MapFullRows(a, |data|);
    var m := MapRows(a, |data|);
    hide RecordOf, LowerAll, ParseRow, RowMeans, MapRows, ParseRecords;
    hide Names, ColumnProblems, MissingFrom, KnownColumns;
    forall k | 0 <= k < |data| ensures ParseRow(m.records[k]) == Ok(data[k]) {
      RowMeansIff(doc.header, doc.rows[k], data[k]);
    }
    hide WellFormed, NewRows;
    ParseGoodRecords(m, data, |data|);
  }

  lemma NewRowsResolve(lines: Lines, catalogue: Catalogue, doc: Document, data: seq<RowData>, ids: seq<VariantId>,
                       rows: seq<ParsedRow>)
    requires WellFormed(doc) && NewRows(lines, catalogue, doc, data, ids)
    requires |rows| == |data| && forall k :: 0 <= k < |data| ==> rows[k] == ParsedRow(k + 2, data[k])
    ensures var r := Resolve(catalogue, SetCodes(rows), rows, |rows|);
            && |r.rows| == |rows| && r.errors == []
            && forall k :: 0 <= k < |rows| ==>
                 && r.rows[k].data == data[k]
                 && RowIsFor(r.rows[k], LinesNamed(data, ids)[k], ItemsNamed(data)[k])
  {
    var order := LinesNamed(data, ids);
    assert |order| == |rows| && forall j, k :: 0 <= j < k < |order| ==> order[j] != order[k];
    hide *;
    forall k | 0 <= k < |rows|
      ensures FindsLine(catalogue, SetCodes(rows), rows[k].data, order[k])
      ensures DbAccepts(ItemNamed(data[k])) && ItemOf(data[k]) == ItemNamed(data[k])
    {
      NewRowFindsLine(lines, catalogue, doc, data, ids, rows, k);
    }
    ResolveGoodRows(order, catalogue, SetCodes(rows), rows, |rows|);
    var r := Resolve(catalogue, SetCodes(rows), rows, |rows|);
    forall k | 0 <= k < |rows| ensures r.rows[k].data == data[k] && RowIsFor(r.rows[k], order[k], ItemsNamed(data)[k]) {
      RowIsForIts(r.rows[k], order[k], data[k]);
    }
  }

  lemma RowIsForIts(row: ResolvedRow, key: LineKey, data: RowData)
    requires row.key == key && row.data == data && DbAccepts(ItemNamed(data)) && ItemOf(data) == ItemNamed(data)
    ensures RowIsFor(row, key, ItemNamed(data))
  {
    hide DbAccepts, ItemOf, ItemNamed;
  }

  lemma NewRowFindsLine(lines: Lines, catalogue: Catalogue, doc: Document, data: seq<RowData>, ids: seq<VariantId>,
                        rows: seq<ParsedRow>, k: nat)
    requires WellFormed(doc) && NewRows(lines, catalogue, doc, data, ids) && k < |rows| == |data|
    requires rows[k] == ParsedRow(k + 2, data[k])
    ensures FindsLine(catalogue, SetCodes(rows), rows[k].data, LinesNamed(data, ids)[k])
    ensures DbAccepts(ItemNamed(data[k])) && ItemOf(data[k]) == ItemNamed(data[k])
  {
    assert RowMeans(doc.header, doc.rows[k], data[k]) && Names(catalogue, data[k], ids[k]);
    assert data[k].acquiredPrice.Some? ==> data[k].acquiredPrice.value <= 0x7FFF_FFFF;
    hide WellFormed, NewRows, RowMeans, Names, KeyOf, Lookup, TrimmedCodes, DbAccepts, Trim, Lower, SetCodes;
    RowIsAccepted(doc.header, doc.rows[k], data[k]);
    CodesAreTrimmed(rows);
    CodeIsThere(rows, k);
    NamedCardIsFound(catalogue, SetCodes(rows), data[k], ids[k]);
  }

  lemma CodeIsThere(rows: seq<ParsedRow>, k: nat)
    requires k < |rows| && Trim(rows[k].data.setCode) == rows[k].data.setCode
    ensures Lower(rows[k].data.setCode) in SetCodes(rows)
  {
    assert rows[k] in rows;
  }

  /**
   * Rows about distinct lines that are not there, for real: every line arrives, under its condition or
   * `nm` and at its currency or `USD`, nothing else changes, and the report counts each row as created.
   */
  lemma NewLinesArrive(lines: Lines, catalogue: Catalogue, text: string, doc: Document, data: seq<RowData>,
                       ids: seq<VariantId>, mode: Mode)
    requires Parsed(text, 5000, 2097152) == Ok(doc) && WellFormed(doc) && NewRows(lines, catalogue, doc, data, ids)
    ensures var n := |data|;
            var imported := Imported(lines, catalogue, text, false, mode);
            && imported.Ok? && Arrived(lines, imported.value.0, LinesNamed(data, ids), ItemsNamed(data), n)
            && imported.value.1 == Report(false, n, n, n, 0, CardsNamed(data), [])
  {
    AcceptedColumnsAreKnown(doc);
    assert Imported(lines, catalogue, text, false, mode)
        == ImportedRows(lines, catalogue, Document(LowerAll(doc.header), doc.rows), false, mode) by {
      hide ImportedRows, Parsed, ColumnProblems, MissingFrom, WellFormed, NewRows;
    }
    hide *;
    NewRowsImported(lines, catalogue, doc, data, ids, mode);
  }

  lemma NewRowsImported(lines: Lines, catalogue: Catalogue, doc: Document, data: seq<RowData>, ids: seq<VariantId>,
                        mode: Mode)
    requires WellFormed(doc) && NewRows(lines, catalogue, doc, data, ids)
    ensures var n := |data|;
            var imported := ImportedRows(lines, catalogue, Document(LowerAll(doc.header), doc.rows), false, mode);
            && |ids| == n
            && imported.Ok? && Arrived(lines, imported.value.0, LinesNamed(data, ids), ItemsNamed(data), n)
            && imported.value.1 == Report(false, n, n, n, 0, CardsNamed(data), [])
  {
    var a := Document(LowerAll(doc.header), doc.rows);
    assert |doc.rows| == |data| == |ids|;
    assert forall k :: 0 <= k < |a.rows| ==> |a.rows[k]| == |a.header|;
    hide *;
    NewRowsParse(lines, catalogue, doc, data, ids);
    var rows := ParseRecords(MapRows(a, |data|), |data|).0;
    NewRowsWritten(lines, catalogue, doc, data, ids, rows, mode);
    ImportResolves(lines, catalogue, a, false, mode);
  }

  lemma NewRowsWritten(lines: Lines, catalogue: Catalogue, doc: Document, data: seq<RowData>, ids: seq<VariantId>,
                       rows: seq<ParsedRow>, mode: Mode)
    requires WellFormed(doc) && NewRows(lines, catalogue, doc, data, ids)
    requires |rows| == |data| && forall k :: 0 <= k < |data| ==> rows[k] == ParsedRow(k + 2, data[k])
    ensures var n := |data|;
            var imported := Resolved(lines, catalogue, n, rows, [], false, mode);
            && |ids| == n
            && imported.Ok? && Arrived(lines, imported.value.0, LinesNamed(data, ids), ItemsNamed(data), n)
            && imported.value.1 == Report(false, n, n, n, 0, CardsNamed(data), [])
  {
    hide *;
    LinesAreNew(lines, catalogue, doc, data, ids);
    NewRowsResolve(lines, catalogue, doc, data, ids, rows);
    ResolvedRowsArrive(lines, catalogue, rows, data, LinesNamed(data, ids), ItemsNamed(data), mode);
  }

  lemma LinesAreNew(lines: Lines, catalogue: Catalogue, doc: Document, data: seq<RowData>, ids: seq<VariantId>)
    requires WellFormed(doc) && NewRows(lines, catalogue, doc, data, ids)
    ensures |ids| == |data| && Distinct(LinesNamed(data, ids))
    ensures forall k :: 0 <= k < |data| ==> LinesNamed(data, ids)[k] !in lines
  {
    hide WellFormed, RowMeans, Names, LineNamed;
  }

  lemma ResolvedRowsArrive(lines: Lines, catalogue: Catalogue, rows: seq<ParsedRow>, data: seq<RowData>,
                           keys: seq<LineKey>, items: seq<Item>, mode: Mode)
    requires |rows| == |data| == |keys| == |items| && Distinct(keys)
    requires forall k :: 0 <= k < |keys| ==> keys[k] !in lines
    requires var r := Resolve(catalogue, SetCodes(rows), rows, |rows|);
             && |r.rows| == |rows| && r.errors == []
             && forall k :: 0 <= k < |rows| ==> r.rows[k].data == data[k] && RowIsFor(r.rows[k], keys[k], items[k])
    ensures var n := |rows|;
            var imported := Resolved(lines, catalogue, n, rows, [], false, mode);
            && imported.Ok? && Arrived(lines, imported.value.0, keys, items, n)
            && imported.value.1 == Report(false, n, n, n, 0, CardsNamed(data), [])
  {
    hide *;
    var r := Resolve(catalogue, SetCodes(rows), rows, |rows|);
    CardsCounted(r.rows, data, |rows|);
    assert data[..|rows|] == data;
    NewRowsAreWritten(lines, r.rows, keys, items, |rows|, mode);
    ResolvedNew(lines, catalogue, rows, mode);
  }

  lemma ResolvedNew(lines: Lines, catalogue: Catalogue, rows: seq<ParsedRow>, mode: Mode)
    requires var r := Resolve(catalogue, SetCodes(rows), rows, |rows|);
             |r.rows| == |rows| && r.errors == [] && WriteRows(lines, r.rows, |r.rows|, mode).Ok?
    ensures var r := Resolve(catalogue, SetCodes(rows), rows, |rows|);
            var w := WriteRows(lines, r.rows, |r.rows|, mode).value;
            Resolved(lines, catalogue, |rows|, rows, [], false, mode)
            == Ok((w.lines, Report(false, |rows|, |rows|, w.created, w.updated, w.cardsAdded, [])))
  {
    hide Resolve, SetCodes;
    assert [] + Resolve(catalogue, SetCodes(rows), rows, |rows|).errors == [];
  }

  // ------------------------------------------------------------------ //
  // What is complained of
  // ------------------------------------------------------------------ //

  ghost predicate BadName(said: string) {
    said == "" || Utf16Length(said) > 32
  }

  ghost predicate FinishWord(said: string) {
    said in {"", "normal", "parallel", "alt_art", "promo"}
  }

  ghost predicate LanguageWord(said: string) {
    said in {"", "en", "ja"}
  }

  ghost predicate ConditionWord(said: string) {
    said in {"", "nm", "lp", "mp", "hp", "dmg"}
  }

  /** What is wrong with what a row says under this column. */
  ghost predicate BadAt(column: string, said: string) {
    if column == "set" || column == "number" then BadName(said)
    else if column == "finish" then !FinishWord(said)
    else if column == "language" then !LanguageWord(said)
    else if column == "condition" then !ConditionWord(said)
    else if column == "quantity" then !exists n :: QuantityMeans(said, n)
    else if column == "acquired_price" then !exists price :: PriceMeans(said, price)
    else if column == "currency" then !exists currency :: CurrencyMeans(said, currency)
    else if column == "acquired_at" then !exists date :: DateMeans(said, date)
    else column == "notes" && Utf16Length(said) > 500
  }

  lemma UnlessIn(ok: bool, name: string, column: string)
    ensures column in Unless(ok, name) <==> !ok && column == name
  {
  }

  /** The columns the schema objects to. */
  lemma IssuesAre(record: Record, column: string)
    requires forall c :: c in record ==> c in COLUMNS
    ensures column in Issues(record) <==>
            if column == "set" || column == "number" then !NameOk(record, column)
            else if column == "finish" then !Within(OptionalText(record, "finish"), FINISHES)
            else if column == "language" then !Within(OptionalText(record, "language"), LANGUAGES)
            else if column == "condition" then !Within(OptionalText(record, "condition"), CONDITIONS)
            else if column == "quantity" then !QuantityOk(record)
            else if column == "acquired_price" then !PriceOk(OptionalText(record, "acquired_price"))
            else if column == "currency" then !CurrencyOk(OptionalText(record, "currency"))
            else if column == "acquired_at" then !DateOk(OptionalText(record, "acquired_at"))
            else column == "notes" && !NotesOk(OptionalText(record, "notes"))
  {
    hide NameOk, Within, OptionalText, QuantityOk, PriceOk, CurrencyOk, DateOk, NotesOk;
    hide COLUMNS, FINISHES, LANGUAGES, CONDITIONS, Unless;
    UnlessIn(NameOk(record, "set"), "set", column);
    UnlessIn(NameOk(record, "number"), "number", column);
    UnlessIn(Within(OptionalText(record, "finish"), FINISHES), "finish", column);
    UnlessIn(Within(OptionalText(record, "language"), LANGUAGES), "language", column);
    UnlessIn(Within(OptionalText(record, "condition"), CONDITIONS), "condition", column);
    UnlessIn(QuantityOk(record), "quantity", column);
    UnlessIn(PriceOk(OptionalText(record, "acquired_price")), "acquired_price", column);
    UnlessIn(CurrencyOk(OptionalText(record, "currency")), "currency", column);
    UnlessIn(DateOk(OptionalText(record, "acquired_at")), "acquired_at", column);
    UnlessIn(NotesOk(OptionalText(record, "notes")), "notes", column);
    UnlessIn(forall c :: c in record ==> c in COLUMNS, "", column);
  }

  lemma ValuesBad(said: string)
    ensures PriceOk(Given(said)) <==> exists price :: PriceMeans(said, price)
    ensures CurrencyOk(Given(said)) <==> exists currency :: CurrencyMeans(said, currency)
    ensures DateOk(Given(said)) <==> exists date :: DateMeans(said, date)
  {
    if PriceOk(Given(said)) {
      PriceGiven(said, if Given(said) == None then None else ParseMoneyToCents(said));
    }
    if price :| PriceMeans(said, price) { PriceGiven(said, price); }
    if CurrencyOk(Given(said)) {
      CurrencyGiven(said, if Given(said) == None then None else Some(Upper(said)));
    }
    if currency :| CurrencyMeans(said, currency) { CurrencyGiven(said, currency); }
    if DateOk(Given(said)) {
      DateGiven(said, if Given(said) == None then None else ParseDay(said));
    }
    if date :| DateMeans(said, date) { DateGiven(said, date); }
    hide ParseMoneyToCents, ParseDay, Upper;
  }

  lemma QuantityBad(said: string)
    ensures DigitsWithin(said, 6) && 1 <= ParseDigits(said) <= 100000 <==> exists n :: QuantityMeans(said, n)
  {
    if DigitsWithin(said, 6) && 1 <= ParseDigits(said) <= 100000 { assert QuantityMeans(said, ParseDigits(said)); }
  }

  /** The same, of what the row says. */
  ghost predicate BadCellAt(header: seq<string>, cells: seq<string>, column: string)
    requires |header| == |cells|
  {
    BadAt(column, Said(header, cells, column))
  }

  /** What the schema checks of a column is what a row says there. */
  lemma ChecksSaid(header: seq<string>, cells: seq<string>, column: string)
    requires |header| == |cells|
    ensures var record, said := RecordOf(LowerAll(header), cells), Said(header, cells, column);
            && (NameOk(record, column) <==> !BadName(said))
            && (Within(OptionalText(record, column), FINISHES) <==> FinishWord(said))
            && (Within(OptionalText(record, column), LANGUAGES) <==> LanguageWord(said))
            && (Within(OptionalText(record, column), CONDITIONS) <==> ConditionWord(said))
            && (PriceOk(OptionalText(record, column)) <==> exists price :: PriceMeans(said, price))
            && (CurrencyOk(OptionalText(record, column)) <==> exists currency :: CurrencyMeans(said, currency))
            && (DateOk(OptionalText(record, column)) <==> exists date :: DateMeans(said, date))
            && (NotesOk(OptionalText(record, column)) <==> Utf16Length(said) <= 500)
  {
    var said := Said(header, cells, column);
    ReadsWhatIsSaid(header, cells, column);
    ChoiceBad(said);
    ValuesBad(said);
    NotesGiven(said);
    hide Said, RecordOf, LowerAll, OptionalText, CurrencyOk, PriceOk, DateOk, NotesOk, NameOk, Within, Given, Trim;
    hide PriceMeans, CurrencyMeans, DateMeans, Utf16Length, FINISHES, LANGUAGES, CONDITIONS;
    hide FinishWord, LanguageWord, ConditionWord;
  }

  lemma QuantityChecked(header: seq<string>, cells: seq<string>)
    requires |header| == |cells|
    ensures QuantityOk(RecordOf(LowerAll(header), cells))
            <==> exists n :: QuantityMeans(Said(header, cells, "quantity"), n)
  {
    QuantitySaid(header, cells);
    QuantityBad(Said(header, cells, "quantity"));
    hide Said, RecordOf, LowerAll, QuantityOk, QuantityMeans, DigitsWithin, ParseDigits;
  }

  lemma BadAtIff(header: seq<string>, cells: seq<string>, column: string)
    requires |header| == |cells| && KnownColumns(header)
    ensures column in Issues(RecordOf(LowerAll(header), cells)) <==> BadCellAt(header, cells, column)
  {
    KnownInRecord(header, cells);
    IssuesAre(RecordOf(LowerAll(header), cells), column);
    ChecksSaid(header, cells, column);
    QuantityChecked(header, cells);
    hide Said, RecordOf, LowerAll, OptionalText, CurrencyOk, PriceOk, DateOk, NotesOk;
    hide NameOk, Within, QuantityOk, Issues;
    hide QuantityMeans, PriceMeans, CurrencyMeans, DateMeans, Utf16Length, FINISHES, LANGUAGES, CONDITIONS, COLUMNS;
    hide FinishWord, LanguageWord, ConditionWord, BadName, KnownColumns;
  }

  lemma ChoiceBad(said: string)
    ensures Within(Given(said), FINISHES) <==> FinishWord(said)
    ensures Within(Given(said), LANGUAGES) <==> LanguageWord(said)
    ensures Within(Given(said), CONDITIONS) <==> ConditionWord(said)
  {
    AllowedWords();
    hide FINISHES, LANGUAGES, CONDITIONS;
  }

  /** The last variant of the catalogue that fits the row, if any does. */
  ghost function LastFit(catalogue: Catalogue, data: RowData): Option<VariantId> {
    if |catalogue| == 0 then None
    else if Fits(catalogue[|catalogue| - 1].1, data) then Some(catalogue[|catalogue| - 1].0)
    else LastFit(catalogue[..|catalogue| - 1], data)
  }

  lemma {:induction false} LookupIsLastFit(catalogue: Catalogue, setCodes: set<string>, data: RowData)
    requires Trim(data.setCode) == data.setCode && Trim(data.number) == data.number
    requires TrimmedCodes(setCodes) && Lower(data.setCode) in setCodes
    ensures Lookup(catalogue, setCodes, KeyOf(data.setCode, data.number, data.finish, data.language))
            == LastFit(catalogue, data)
    decreases |catalogue|
  {
    hide Trim, Lower, Fits, KeyOf, CardKey, TrimmedCodes;
    if |catalogue| == 0 {
    } else {
      var n := |catalogue| - 1;
      FitsIff(catalogue[n].1, data, setCodes);
      LookupIsLastFit(catalogue[..n], setCodes, data);
    }
  }

  // The two loops, whatever their rows.

  ghost predicate CellErrorAt(m: Mapped, k: nat, column: string, e: ImportError)
    requires k < |m.records| == |m.rowNumbers|
  {
    ParseRow(m.records[k]).Err? && column in ParseRow(m.records[k]).error && e == BadCell(m.rowNumbers[k], column)
  }

  ghost predicate SomeCellError(m: Mapped, n: nat, e: ImportError)
    requires n <= |m.records| == |m.rowNumbers|
  {
    exists k: nat, column :: k < n && CellErrorAt(m, k, column, e)
  }

  lemma CellErrorsOf(row: nat, columns: seq<string>, e: ImportError)
    ensures e in CellErrors(row, columns) <==> exists column :: column in columns && e == BadCell(row, column)
  {
    if column :| column in columns && e == BadCell(row, column) {
      var k :| 0 <= k < |columns| && columns[k] == column;
      assert CellErrors(row, columns)[k] == e;
    }
  }

  lemma {:induction false} CellErrorsAre(m: Mapped, n: nat, e: ImportError)
    requires n <= |m.records| == |m.rowNumbers|
    ensures e in ParseRecords(m, n).1 <==> SomeCellError(m, n, e)
    decreases n
  {
    hide ParseRow, CellErrors;
    if n == 0 {
    } else {
      CellErrorsAre(m, n - 1, e);
      var parsed := ParseRow(m.records[n - 1]);
      if parsed.Err? { CellErrorsOf(m.rowNumbers[n - 1], parsed.error, e); }
      if SomeCellError(m, n, e) {
        var k: nat, column :| k < n && CellErrorAt(m, k, column, e);
        assert k < n - 1 ==> SomeCellError(m, n - 1, e);
      }
      if SomeCellError(m, n - 1, e) {
        var k: nat, column :| k < n - 1 && CellErrorAt(m, k, column, e);
        assert k < n && CellErrorAt(m, k, column, e);
      }
      if parsed.Err? && exists column :: column in parsed.error && e == BadCell(m.rowNumbers[n - 1], column) {
        var column :| column in parsed.error && e == BadCell(m.rowNumbers[n - 1], column);
        assert n - 1 < n && CellErrorAt(m, n - 1, column, e);
      }
    }
  }

  ghost predicate ParsedAt(m: Mapped, k: nat, r: ParsedRow)
    requires k < |m.records| == |m.rowNumbers|
  {
    ParseRow(m.records[k]) == Ok(r.data) && r.row == m.rowNumbers[k]
  }

  ghost predicate RowsRise(rows: seq<ParsedRow>) {
    forall i, j :: 0 <= i < j < |rows| ==> rows[i].row < rows[j].row
  }

  lemma {:induction false} ParsedRowsAre(m: Mapped, n: nat, r: ParsedRow)
    requires n <= |m.records| == |m.rowNumbers|
    ensures r in ParseRecords(m, n).0 <==> exists k: nat :: k < n && ParsedAt(m, k, r)
    decreases n
  {
    hide ParseRow, CellErrors;
    if n == 0 {
    } else {
      ParsedRowsAre(m, n - 1, r);
      if k: nat :| k < n - 1 && ParsedAt(m, k, r) { assert k < n && ParsedAt(m, k, r); }
      if ParsedAt(m, n - 1, r) { assert n - 1 < n && ParsedAt(m, n - 1, r); }
    }
  }

  lemma {:induction false} ParsedRowsRise(m: Mapped, n: nat)
    requires n <= |m.records| == |m.rowNumbers|
    requires forall j, k :: 0 <= j < k < |m.records| ==> m.rowNumbers[j] < m.rowNumbers[k]
    ensures RowsRise(ParseRecords(m, n).0)
    ensures n > 0 ==> forall r :: r in ParseRecords(m, n).0 ==> r.row <= m.rowNumbers[n - 1]
    decreases n
  {
    hide ParseRow, CellErrors;
    if n == 0 {
    } else {
      ParsedRowsRise(m, n - 1);
      var before := ParseRecords(m, n - 1).0;
      forall r | r in before ensures r.row < m.rowNumbers[n - 1] {
        if n > 1 { assert m.rowNumbers[n - 2] < m.rowNumbers[n - 1]; }
      }
      assert forall i :: 0 <= i < |before| ==> before[i] in before;
    }
  }

  /** The line a parsed row is about, if its card is found. */
  ghost function KeyAt(catalogue: Catalogue, setCodes: set<string>, r: ParsedRow): Option<LineKey> {
    match Lookup(catalogue, setCodes, KeyOf(r.data.setCode, r.data.number, r.data.finish, r.data.language))
    case None => None
    case Some(variant) => Some(LineKey(variant, ConditionOf(r.data)))
  }

  ghost predicate FirstAbout(catalogue: Catalogue, setCodes: set<string>, rows: seq<ParsedRow>, i: nat, key: LineKey) {
    && i < |rows| && KeyAt(catalogue, setCodes, rows[i]) == Some(key)
    && forall h :: 0 <= h < i ==> KeyAt(catalogue, setCodes, rows[h]) != Some(key)
  }

  ghost predicate Unfound(catalogue: Catalogue, setCodes: set<string>, rows: seq<ParsedRow>, i: nat, e: ImportError) {
    i < |rows| && KeyAt(catalogue, setCodes, rows[i]) == None && e == NoSuchCard(rows[i].row)
  }

  ghost predicate Repeats(catalogue: Catalogue, setCodes: set<string>, rows: seq<ParsedRow>, i: nat, j: nat,
                          e: ImportError) {
    && i < j < |rows| && KeyAt(catalogue, setCodes, rows[j]).Some?
    && FirstAbout(catalogue, setCodes, rows, i, KeyAt(catalogue, setCodes, rows[j]).value)
    && e == Duplicates(rows[j].row, rows[i].row)
  }

  ghost predicate SomeResolveError(catalogue: Catalogue, setCodes: set<string>, rows: seq<ParsedRow>, n: nat,
                                   e: ImportError) {
    || (exists i: nat :: i < n && Unfound(catalogue, setCodes, rows, i, e))
    || (exists i: nat, j: nat :: j < n && Repeats(catalogue, setCodes, rows, i, j, e))
  }

  ghost predicate SeenOk(catalogue: Catalogue, setCodes: set<string>, rows: seq<ParsedRow>, n: nat,
                         seen: map<LineKey, nat>)
  {
    && (forall key :: key in seen ==>
          exists i: nat :: i < n && FirstAbout(catalogue, setCodes, rows, i, key) && seen[key] == rows[i].row)
    && forall i: nat :: i < n && i < |rows| && KeyAt(catalogue, setCodes, rows[i]).Some? ==>
         KeyAt(catalogue, setCodes, rows[i]).value in seen
  }

  lemma FirstIsUnique(catalogue: Catalogue, setCodes: set<string>, rows: seq<ParsedRow>, i: nat, j: nat, key: LineKey)
    requires FirstAbout(catalogue, setCodes, rows, i, key) && FirstAbout(catalogue, setCodes, rows, j, key)
    ensures i == j
  {
    hide KeyAt;
  }

  lemma {:induction false} SeenAre(catalogue: Catalogue, setCodes: set<string>, rows: seq<ParsedRow>, n: nat)
    requires n <= |rows|
    ensures SeenOk(catalogue, setCodes, rows, n, Resolve(catalogue, setCodes, rows, n).seen)
    decreases n
  {
    if n == 0 {
    } else {
      hide SeenOk, Lookup, KeyOf, ConditionOf;
      SeenAre(catalogue, setCodes, rows, n - 1);
      var before, after := Resolve(catalogue, setCodes, rows, n - 1).seen, Resolve(catalogue, setCodes, rows, n).seen;
      var key := KeyAt(catalogue, setCodes, rows[n - 1]);
      assert after == if key.Some? && key.value !in before then before[key.value := rows[n - 1].row] else before;
      SeenGrows(catalogue, setCodes, rows, n, before, after);
    }
  }

  lemma SeenGrows(catalogue: Catalogue, setCodes: set<string>, rows: seq<ParsedRow>, n: nat,
                  before: map<LineKey, nat>, after: map<LineKey, nat>)
    requires 0 < n <= |rows| && SeenOk(catalogue, setCodes, rows, n - 1, before)
    requires var key := KeyAt(catalogue, setCodes, rows[n - 1]);
             after == if key.Some? && key.value !in before then before[key.value := rows[n - 1].row] else before
    ensures SeenOk(catalogue, setCodes, rows, n, after)
  {
    hide KeyAt;
    var key := KeyAt(catalogue, setCodes, rows[n - 1]);
    if key.Some? && key.value !in before { assert FirstAbout(catalogue, setCodes, rows, n - 1, key.value); }
    forall k | k in after
      ensures exists i: nat :: i < n && FirstAbout(catalogue, setCodes, rows, i, k) && after[k] == rows[i].row
    {
      if k in before {
        var i: nat :| i < n - 1 && FirstAbout(catalogue, setCodes, rows, i, k) && before[k] == rows[i].row;
        assert i < n && FirstAbout(catalogue, setCodes, rows, i, k) && after[k] == rows[i].row;
      } else {
        assert FirstAbout(catalogue, setCodes, rows, n - 1, k);
      }
    }
  }

  lemma ResolveStep(catalogue: Catalogue, setCodes: set<string>, rows: seq<ParsedRow>, n: nat, e: ImportError)
    requires 0 < n <= |rows|
    ensures var before, key := Resolve(catalogue, setCodes, rows, n - 1), KeyAt(catalogue, setCodes, rows[n - 1]);
            e in Resolve(catalogue, setCodes, rows, n).errors
            <==> || e in before.errors
                 || (key == None && e == NoSuchCard(rows[n - 1].row))
                 || (key.Some? && key.value in before.seen && e == Duplicates(rows[n - 1].row, before.seen[key.value]))
  {
    hide Lookup, KeyOf, ConditionOf;
  }

  lemma NothingResolved(catalogue: Catalogue, setCodes: set<string>, rows: seq<ParsedRow>, e: ImportError)
    ensures e !in Resolve(catalogue, setCodes, rows, 0).errors && !SomeResolveError(catalogue, setCodes, rows, 0, e)
  {
  }

  lemma {:induction false} ResolveErrorsAre(catalogue: Catalogue, setCodes: set<string>, rows: seq<ParsedRow>, n: nat,
                                            e: ImportError)
    requires n <= |rows|
    ensures e in Resolve(catalogue, setCodes, rows, n).errors <==> SomeResolveError(catalogue, setCodes, rows, n, e)
    decreases n
  {
    hide *;
    if n == 0 {
      NothingResolved(catalogue, setCodes, rows, e);
    } else {
      ResolveErrorsAre(catalogue, setCodes, rows, n - 1, e);
      SeenAre(catalogue, setCodes, rows, n - 1);
      var before := Resolve(catalogue, setCodes, rows, n - 1);
      ResolveStep(catalogue, setCodes, rows, n, e);
      OneMoreError(catalogue, setCodes, rows, n, before.seen, e);
    }
  }

  lemma OneMoreError(catalogue: Catalogue, setCodes: set<string>, rows: seq<ParsedRow>, n: nat, seen: map<LineKey, nat>,
                     e: ImportError)
    requires 0 < n <= |rows| && SeenOk(catalogue, setCodes, rows, n - 1, seen)
    ensures var key := KeyAt(catalogue, setCodes, rows[n - 1]);
            SomeResolveError(catalogue, setCodes, rows, n, e)
            <==> || SomeResolveError(catalogue, setCodes, rows, n - 1, e)
                 || (key == None && e == NoSuchCard(rows[n - 1].row))
                 || (key.Some? && key.value in seen && e == Duplicates(rows[n - 1].row, seen[key.value]))
  {
    hide KeyAt, FirstAbout;
    var last := n - 1;
    var key := KeyAt(catalogue, setCodes, rows[last]);
    if key == None && e == NoSuchCard(rows[n - 1].row) { assert Unfound(catalogue, setCodes, rows, last, e); }
    if key.Some? && key.value in seen {
      var i: nat :| i < n - 1 && FirstAbout(catalogue, setCodes, rows, i, key.value) && seen[key.value] == rows[i].row;
      if e == Duplicates(rows[n - 1].row, rows[i].row) { assert Repeats(catalogue, setCodes, rows, i, last, e); }
      if j: nat :| Repeats(catalogue, setCodes, rows, j, last, e) {
        FirstIsUnique(catalogue, setCodes, rows, i, j, key.value);
      }
    } else if key.Some? {
      if j: nat :| Repeats(catalogue, setCodes, rows, j, last, e) {
        FirstIsSeen(catalogue, setCodes, rows, n, seen, j);
      }
    }
  }

  lemma FirstIsSeen(catalogue: Catalogue, setCodes: set<string>, rows: seq<ParsedRow>, n: nat, seen: map<LineKey, nat>,
                    j: nat)
    requires 0 < n <= |rows| && SeenOk(catalogue, setCodes, rows, n - 1, seen) && j < n - 1
    requires KeyAt(catalogue, setCodes, rows[n - 1]).Some?
    requires FirstAbout(catalogue, setCodes, rows, j, KeyAt(catalogue, setCodes, rows[n - 1]).value)
    ensures KeyAt(catalogue, setCodes, rows[n - 1]).value in seen
  {
    hide KeyAt;
  }

  // The file's own rows.

  /** As many cells as the header has columns. */
  ghost predicate FullRow(doc: Document, k: nat) {
    k < |doc.rows| && |doc.rows[k]| == |doc.header|
  }

  ghost predicate Means(doc: Document, k: nat, data: RowData) {
    FullRow(doc, k) && RowMeans(doc.header, doc.rows[k], data)
  }

  /** The row means something whose card is found, and this is its line. */
  ghost predicate About(catalogue: Catalogue, doc: Document, k: nat, key: LineKey) {
    exists data :: && Means(doc, k, data) && LastFit(catalogue, data).Some?
                   && key == LineNamed(data, LastFit(catalogue, data).value)
  }

  ghost predicate WrongLengthOf(doc: Document, k: nat, e: ImportError) {
    k < |doc.rows| && !FullRow(doc, k) && e == WrongColumns(k + 2, |doc.header|, |doc.rows[k]|)
  }

  ghost predicate BadCellOf(doc: Document, k: nat, column: string, e: ImportError) {
    FullRow(doc, k) && BadCellAt(doc.header, doc.rows[k], column) && e == BadCell(k + 2, column)
  }

  ghost predicate NoCardOf(catalogue: Catalogue, doc: Document, k: nat, data: RowData, e: ImportError) {
    Means(doc, k, data) && LastFit(catalogue, data) == None && e == NoSuchCard(k + 2)
  }

  /** Row k is about the line that row j is the first to be about. */
  ghost predicate RepeatOf(catalogue: Catalogue, doc: Document, j: nat, k: nat, key: LineKey, e: ImportError) {
    && j < k && About(catalogue, doc, k, key) && About(catalogue, doc, j, key)
    && (forall h: nat :: h < j ==> !About(catalogue, doc, h, key)) && e == Duplicates(k + 2, j + 2)
  }

  ghost predicate Complaint(catalogue: Catalogue, doc: Document, e: ImportError) {
    || (exists k :: WrongLengthOf(doc, k, e))
    || (exists k, column :: BadCellOf(doc, k, column, e))
    || (exists k, data :: NoCardOf(catalogue, doc, k, data, e))
    || (exists j, k, key :: RepeatOf(catalogue, doc, j, k, key, e))
  }

  /** The rows that got through the schema: what each row of the file means, in order. */
  ghost predicate Parsing(doc: Document, rows: seq<ParsedRow>) {
    && RowsRise(rows)
    && (forall i :: 0 <= i < |rows| ==> rows[i].row >= 2 && Means(doc, rows[i].row - 2, rows[i].data))
    && forall k: nat, data :: Means(doc, k, data) ==> ParsedRow(k + 2, data) in rows
  }

  lemma KeyIsLine(catalogue: Catalogue, doc: Document, rows: seq<ParsedRow>, i: nat)
    requires Parsing(doc, rows) && i < |rows|
    ensures var fit := LastFit(catalogue, rows[i].data);
            KeyAt(catalogue, SetCodes(rows), rows[i])
            == if fit.Some? then Some(LineNamed(rows[i].data, fit.value)) else None
  {
    var data := rows[i].data;
    assert rows[i].row >= 2 && Means(doc, rows[i].row - 2, data);
    var k: nat := rows[i].row - 2;
    hide RowMeans, KeyOf, Lookup, TrimmedCodes, Trim, Lower, SetCodes, LastFit, Parsing, DbAccepts;
    NamesAreTrimmed(doc.header, doc.rows[k], data);
    CodesAreTrimmed(rows);
    CodeIsThere(rows, i);
    LookupIsLastFit(catalogue, SetCodes(rows), data);
  }

  lemma NamesAreTrimmed(header: seq<string>, cells: seq<string>, data: RowData)
    requires |header| == |cells| && RowMeans(header, cells, data)
    ensures Trim(data.setCode) == data.setCode && Trim(data.number) == data.number
  {
    SaidIsTrimmed(header, cells, "set");
    SaidIsTrimmed(header, cells, "number");
    assert NameMeans(Said(header, cells, "set"), data.setCode) && NameMeans(Said(header, cells, "number"), data.number);
    hide RowMeans, Said, Trim, Utf16Length;
  }

  lemma MeansOneThing(doc: Document, k: nat, a: RowData, b: RowData)
    requires KnownColumns(doc.header) && Means(doc, k, a) && Means(doc, k, b)
    ensures a == b
  {
    hide RowMeans, KnownColumns;
    RowMeansIff(doc.header, doc.rows[k], a);
    RowMeansIff(doc.header, doc.rows[k], b);
  }

  /** A parsed row's key is a line its file row is about, and the other way round. */
  lemma AboutIff(catalogue: Catalogue, doc: Document, rows: seq<ParsedRow>, i: nat, key: LineKey)
    requires KnownColumns(doc.header) && Parsing(doc, rows) && i < |rows|
    ensures rows[i].row >= 2
    ensures KeyAt(catalogue, SetCodes(rows), rows[i]) == Some(key) <==> About(catalogue, doc, rows[i].row - 2, key)
  {
    KeyIsLine(catalogue, doc, rows, i);
    var data := rows[i].data;
    assert rows[i].row >= 2 && Means(doc, rows[i].row - 2, data);
    var k: nat := rows[i].row - 2;
    hide Means, KeyAt, LastFit, Parsing, SetCodes, LineNamed, KnownColumns;
    if About(catalogue, doc, k, key) {
      var other :| && Means(doc, k, other) && LastFit(catalogue, other).Some?
                   && key == LineNamed(other, LastFit(catalogue, other).value);
      MeansOneThing(doc, k, data, other);
    }
  }

  /** Where a row of the file that is about a line stands among the parsed rows. */
  lemma AboutIsParsed(catalogue: Catalogue, doc: Document, rows: seq<ParsedRow>, k: nat, key: LineKey) returns (i: nat)
    requires Parsing(doc, rows) && About(catalogue, doc, k, key)
    ensures i < |rows| && rows[i].row == k + 2 && KeyAt(catalogue, SetCodes(rows), rows[i]) == Some(key)
  {
    hide Means, KeyAt, LastFit, SetCodes, LineNamed;
    var data :| && Means(doc, k, data) && LastFit(catalogue, data).Some?
                && key == LineNamed(data, LastFit(catalogue, data).value);
    assert ParsedRow(k + 2, data) in rows;
    i :| 0 <= i < |rows| && rows[i] == ParsedRow(k + 2, data);
    hide Parsing;
    KeyIsLine(catalogue, doc, rows, i);
  }

  lemma RowsAreApart(rows: seq<ParsedRow>, i: nat, j: nat)
    requires RowsRise(rows) && i < |rows| && j < |rows|
    ensures i < j <==> rows[i].row < rows[j].row
  {
  }

  lemma RepeatsAreOf(catalogue: Catalogue, doc: Document, rows: seq<ParsedRow>, i: nat, j: nat, e: ImportError)
    requires KnownColumns(doc.header) && Parsing(doc, rows) && Repeats(catalogue, SetCodes(rows), rows, i, j, e)
    ensures exists j', k', key :: RepeatOf(catalogue, doc, j', k', key, e)
  {
    hide Means, KeyAt, SetCodes, KnownColumns, About, RowsRise;
    var key := KeyAt(catalogue, SetCodes(rows), rows[j]).value;
    AboutIff(catalogue, doc, rows, i, key);
    AboutIff(catalogue, doc, rows, j, key);
    RowsAreApart(rows, i, j);
    var j': nat, k': nat := rows[i].row - 2, rows[j].row - 2;
    forall h: nat | h < j' ensures !About(catalogue, doc, h, key) {
      if About(catalogue, doc, h, key) {
        var at := AboutIsParsed(catalogue, doc, rows, h, key);
        RowsAreApart(rows, at, i);
      }
    }
    assert RepeatOf(catalogue, doc, j', k', key, e);
  }

  lemma RepeatOfRepeats(catalogue: Catalogue, doc: Document, rows: seq<ParsedRow>, j: nat, k: nat, key: LineKey,
                        e: ImportError)
    requires KnownColumns(doc.header) && Parsing(doc, rows) && RepeatOf(catalogue, doc, j, k, key, e)
    ensures exists i: nat, i': nat :: i' < |rows| && Repeats(catalogue, SetCodes(rows), rows, i, i', e)
  {
    hide Means, KeyAt, SetCodes, KnownColumns, About, RowsRise;
    var first := AboutIsParsed(catalogue, doc, rows, j, key);
    var again := AboutIsParsed(catalogue, doc, rows, k, key);
    RowsAreApart(rows, first, again);
    forall h | 0 <= h < first ensures KeyAt(catalogue, SetCodes(rows), rows[h]) != Some(key) {
      RowsAreApart(rows, h, first);
      AboutIff(catalogue, doc, rows, h, key);
    }
    assert FirstAbout(catalogue, SetCodes(rows), rows, first, key);
    assert again < |rows| && Repeats(catalogue, SetCodes(rows), rows, first, again, e);
  }

  lemma UnfoundAre(catalogue: Catalogue, doc: Document, rows: seq<ParsedRow>, e: ImportError)
    requires Parsing(doc, rows)
    ensures (exists i: nat :: i < |rows| && Unfound(catalogue, SetCodes(rows), rows, i, e))
            <==> exists k, data :: NoCardOf(catalogue, doc, k, data, e)
  {
    hide Means, KeyAt, SetCodes, LastFit;
    if i: nat :| i < |rows| && Unfound(catalogue, SetCodes(rows), rows, i, e) {
      KeyIsLine(catalogue, doc, rows, i);
      var r := rows[i];
      assert r.row >= 2 && Means(doc, r.row - 2, r.data);
      assert NoCardOf(catalogue, doc, r.row - 2, r.data, e);
    }
    if k: nat, data :| NoCardOf(catalogue, doc, k, data, e) {
      assert ParsedRow(k + 2, data) in rows;
      var i: nat :| i < |rows| && rows[i] == ParsedRow(k + 2, data);
      KeyIsLine(catalogue, doc, rows, i);
      assert i < |rows| && Unfound(catalogue, SetCodes(rows), rows, i, e);
    }
  }

  /** What the mapper made of the first n rows: a record for each full one, a complaint about each other. */
  ghost predicate IsMapped(doc: Document, m: Mapped, n: nat) {
    && n <= |doc.rows| && |m.records| == |m.rowNumbers|
    && (forall i :: 0 <= i < |m.records| ==> RecordIs(doc, m, i) && m.rowNumbers[i] < n + 2)
    && (forall i, j :: 0 <= i < j < |m.records| ==> m.rowNumbers[i] < m.rowNumbers[j])
    && (forall k: nat :: k < n && FullRow(doc, k) ==> k + 2 in m.rowNumbers)
    && forall e :: e in ColumnErrors(m.errors) <==> exists k: nat :: k < n && WrongLengthOf(doc, k, e)
  }

  ghost predicate RecordIs(doc: Document, m: Mapped, i: nat)
    requires i < |m.records| == |m.rowNumbers|
  {
    && m.rowNumbers[i] >= 2 && FullRow(doc, m.rowNumbers[i] - 2)
    && m.records[i] == RecordOf(LowerAll(doc.header), doc.rows[m.rowNumbers[i] - 2])
  }

  lemma {:induction false} DocumentIsMapped(doc: Document, n: nat)
    requires n <= |doc.rows|
    ensures IsMapped(doc, MapRows(Document(LowerAll(doc.header), doc.rows), n), n)
    decreases n
  {
    hide RecordOf;
    var a := Document(LowerAll(doc.header), doc.rows);
    if n == 0 {
    } else {
      DocumentIsMapped(doc, n - 1);
      OneMoreMapped(doc, MapRows(a, n - 1), MapRows(a, n), n);
    }
  }

  lemma OneMoreMapped(doc: Document, before: Mapped, after: Mapped, n: nat)
    requires 0 < n <= |doc.rows| && IsMapped(doc, before, n - 1)
    requires var cells := doc.rows[n - 1];
             after == if |cells| != |doc.header|
                      then before.(errors := before.errors + [MapError(n + 1, |doc.header|, |cells|)])
                      else before.(records := before.records + [RecordOf(LowerAll(doc.header), cells)],
                                   rowNumbers := before.rowNumbers + [n + 1])
    ensures IsMapped(doc, after, n)
  {
    hide RecordOf, LowerAll;
    var last := n - 1;
    forall i | 0 <= i < |after.records| ensures RecordIs(doc, after, i) && after.rowNumbers[i] < n + 2 {
      if i < |before.records| { assert RecordIs(doc, before, i); }
    }
    forall k: nat | k < n && FullRow(doc, k) ensures k + 2 in after.rowNumbers {
      if k < last {
        assert k + 2 in before.rowNumbers;
      } else {
        assert after.rowNumbers[|before.rowNumbers|] == k + 2;
      }
    }
    forall e ensures e in ColumnErrors(after.errors) <==> exists k: nat :: k < n && WrongLengthOf(doc, k, e) {
      LengthErrors(doc, before, after, n, e);
    }
  }

  lemma LengthErrors(doc: Document, before: Mapped, after: Mapped, n: nat, e: ImportError)
    requires 0 < n <= |doc.rows|
    requires e in ColumnErrors(before.errors) <==> exists k: nat :: k < n - 1 && WrongLengthOf(doc, k, e)
    requires after.errors == if |doc.rows[n - 1]| != |doc.header|
                             then before.errors + [MapError(n + 1, |doc.header|, |doc.rows[n - 1]|)]
                             else before.errors
    ensures e in ColumnErrors(after.errors) <==> exists k: nat :: k < n && WrongLengthOf(doc, k, e)
  {
    var last := n - 1;
    if |doc.rows[last]| != |doc.header| {
      var one := WrongColumns(n + 1, |doc.header|, |doc.rows[last]|);
      assert ColumnErrors(after.errors) == ColumnErrors(before.errors) + [one];
      assert e == one <==> WrongLengthOf(doc, last, e);
    }
    if k: nat :| k < last && WrongLengthOf(doc, k, e) { assert k < n && WrongLengthOf(doc, k, e); }
  }

  lemma RowsAreParsing(doc: Document, m: Mapped, e: ImportError)
    requires KnownColumns(doc.header) && IsMapped(doc, m, |doc.rows|)
    ensures Parsing(doc, ParseRecords(m, |m.records|).0)
    ensures e in ParseRecords(m, |m.records|).1 <==> exists k, column :: BadCellOf(doc, k, column, e)
  {
    assert |m.records| == |m.rowNumbers|;
    assert forall j, k :: 0 <= j < k < |m.records| ==> m.rowNumbers[j] < m.rowNumbers[k];
    hide *;
    ParsedRowsRise(m, |m.records|);
    BadCellsAre(doc, m, e);
    RowsMean(doc, m);
  }

  lemma BadCellsAre(doc: Document, m: Mapped, e: ImportError)
    requires KnownColumns(doc.header) && IsMapped(doc, m, |doc.rows|)
    ensures e in ParseRecords(m, |m.records|).1 <==> exists k, column :: BadCellOf(doc, k, column, e)
  {
    hide LowerAll, RecordOf, ParseRecords, ParseRow, KnownColumns, BadCellAt, Issues, ColumnErrors;
    CellErrorsAre(m, |m.records|, e);
    if i: nat, column :| i < |m.records| && CellErrorAt(m, i, column, e) {
      assert RecordIs(doc, m, i);
      var k: nat := m.rowNumbers[i] - 2;
      ParseRowFails(m.records[i]);
      BadAtIff(doc.header, doc.rows[k], column);
      assert BadCellOf(doc, k, column, e);
    }
    if k: nat, column :| BadCellOf(doc, k, column, e) {
      assert k + 2 in m.rowNumbers;
      var i: nat :| i < |m.rowNumbers| && m.rowNumbers[i] == k + 2;
      assert RecordIs(doc, m, i);
      ParseRowFails(m.records[i]);
      BadAtIff(doc.header, doc.rows[k], column);
      assert i < |m.records| && CellErrorAt(m, i, column, e);
    }
  }

  lemma RowsMean(doc: Document, m: Mapped)
    requires KnownColumns(doc.header) && IsMapped(doc, m, |doc.rows|)
    requires RowsRise(ParseRecords(m, |m.records|).0)
    ensures Parsing(doc, ParseRecords(m, |m.records|).0)
  {
    hide LowerAll, RecordOf, ParseRecords, ParseRow, KnownColumns, RowMeans, ColumnErrors;
    var rows := ParseRecords(m, |m.records|).0;
    forall i | 0 <= i < |rows| ensures rows[i].row >= 2 && Means(doc, rows[i].row - 2, rows[i].data) {
      ParsedRowsAre(m, |m.records|, rows[i]);
      assert rows[i] in rows;
      var at: nat :| at < |m.records| && ParsedAt(m, at, rows[i]);
      assert RecordIs(doc, m, at);
      RowMeansIff(doc.header, doc.rows[rows[i].row - 2], rows[i].data);
    }
    forall k: nat, data | Means(doc, k, data) ensures ParsedRow(k + 2, data) in rows {
      assert k + 2 in m.rowNumbers;
      var at: nat :| at < |m.rowNumbers| && m.rowNumbers[at] == k + 2;
      assert RecordIs(doc, m, at);
      RowMeansIff(doc.header, doc.rows[k], data);
      ParsedRowsAre(m, |m.records|, ParsedRow(k + 2, data));
      assert at < |m.records| && ParsedAt(m, at, ParsedRow(k + 2, data));
    }
  }

  lemma ComplaintsAre(catalogue: Catalogue, doc: Document, rows: seq<ParsedRow>, e: ImportError)
    requires KnownColumns(doc.header) && Parsing(doc, rows)
    ensures Complaint(catalogue, doc, e) <==>
            || (exists k :: WrongLengthOf(doc, k, e))
            || (exists k, column :: BadCellOf(doc, k, column, e))
            || e in Resolve(catalogue, SetCodes(rows), rows, |rows|).errors
  {
    ResolveErrorsAre(catalogue, SetCodes(rows), rows, |rows|, e);
    hide Resolve, Parsing, KnownColumns, Repeats, RepeatOf, Unfound, NoCardOf, BadCellOf, WrongLengthOf, SetCodes;
    UnfoundAre(catalogue, doc, rows, e);
    if i: nat, j: nat :| j < |rows| && Repeats(catalogue, SetCodes(rows), rows, i, j, e) {
      RepeatsAreOf(catalogue, doc, rows, i, j, e);
    }
    if j: nat, k: nat, key :| RepeatOf(catalogue, doc, j, k, key, e) {
      RepeatOfRepeats(catalogue, doc, rows, j, k, key, e);
    }
  }

  lemma ImportErrorsAre(lines: Lines, catalogue: Catalogue, doc: Document, dryRun: bool, mode: Mode)
    requires var m := MapRows(doc, |doc.rows|); |m.records| == |m.rowNumbers|
    requires ImportedRows(lines, catalogue, doc, dryRun, mode).Ok?
    ensures var m := MapRows(doc, |doc.rows|);
            var (rows, errors) := ParseRecords(m, |m.records|);
            var report := ImportedRows(lines, catalogue, doc, dryRun, mode).value.1;
            && report.errors
               == ColumnErrors(m.errors) + errors + Resolve(catalogue, SetCodes(rows), rows, |rows|).errors
            && report.rows == |doc.rows|
  {
    hide MapRows, ParseRecords, Resolve, SetCodes, WriteRows, ColumnErrors;
  }

  lemma AcceptedIsKnown(header: seq<string>)
    requires HeaderAccepted(header) && forall k :: 0 <= k < |header| ==> Trimmed(header[k])
    ensures KnownColumns(header) && ColumnProblems(header) + MissingFrom(REQUIRED, ColumnsIn(header)) == []
  {
    AcceptedColumnsAreKnown(Document(header, []));
  }

  lemma HeaderIsTrimmed(text: string, maxRows: nat, maxBytes: nat)
    requires Parsed(text, maxRows, maxBytes).Ok?
    ensures forall k :: 0 <= k < |Parsed(text, maxRows, maxBytes).value.header| ==>
              Trimmed(Parsed(text, maxRows, maxBytes).value.header[k])
  {
    hide ScanText, Trim;
    var header := Parsed(text, maxRows, maxBytes).value.header;
    forall k | 0 <= k < |header| ensures Trimmed(header[k]) {
      TrimmedCell(text, maxRows, maxBytes, k);
    }
  }

  lemma TrimmedCell(text: string, maxRows: nat, maxBytes: nat, k: nat)
    requires Parsed(text, maxRows, maxBytes).Ok? && k < |Parsed(text, maxRows, maxBytes).value.header|
    ensures Trimmed(Parsed(text, maxRows, maxBytes).value.header[k])
  {
    hide ScanText, Trim;
    var t := ScanText(WithoutBom(text), START, maxRows).value;
    var ended := if |t.field| > 0 || |t.row| > 0 then EndRow(t, maxRows).value else t;
    TrimTrims(ended.rows[0][k]);
  }

  /**
   * Exactly what an import complains of, dry or not: each row of the wrong length, each cell the schema
   * objects to, each row whose card is not there, each row about a line an earlier row is about, with
   * their rows in the file.
   */
  lemma ComplaintsIff(lines: Lines, catalogue: Catalogue, text: string, doc: Document, dryRun: bool, mode: Mode,
                      e: ImportError)
    requires Parsed(text, 5000, 2097152) == Ok(doc) && HeaderAccepted(doc.header)
    requires Imported(lines, catalogue, text, dryRun, mode).Ok?
    ensures e in Imported(lines, catalogue, text, dryRun, mode).value.1.errors <==> Complaint(catalogue, doc, e)
    ensures Imported(lines, catalogue, text, dryRun, mode).value.1.rows == |doc.rows|
  {
    var a := Document(LowerAll(doc.header), doc.rows);
    HeaderIsTrimmed(text, 5000, 2097152);
    AcceptedIsKnown(doc.header);
    assert Imported(lines, catalogue, text, dryRun, mode) == ImportedRows(lines, catalogue, a, dryRun, mode) by {
      hide ImportedRows, Parsed, ColumnProblems, MissingFrom, HeaderAccepted;
    }
    DocumentIsMapped(doc, |doc.rows|);
    var m := MapRows(a, |doc.rows|);
    LengthsComplained(doc, m, e);
    hide *;
    RowsAreParsing(doc, m, e);
    ImportErrorsAre(lines, catalogue, a, dryRun, mode);
    ComplaintsAre(catalogue, doc, ParseRecords(m, |m.records|).0, e);
  }

  lemma LengthsComplained(doc: Document, m: Mapped, e: ImportError)
    requires IsMapped(doc, m, |doc.rows|)
    ensures |m.records| == |m.rowNumbers|
    ensures e in ColumnErrors(m.errors) <==> exists k :: WrongLengthOf(doc, k, e)
  {
    hide ColumnErrors;
    if k: nat :| WrongLengthOf(doc, k, e) { assert k < |doc.rows| && WrongLengthOf(doc, k, e); }
  }

  lemma UnparsedFile(lines: Lines, catalogue: Catalogue, text: string, dryRun: bool, mode: Mode, e: CsvError)
    requires Parsed(text, 5000, 2097152) == Err(e)
    ensures Imported(lines, catalogue, text, dryRun, mode) == Ok((lines, Report(dryRun, 0, 0, 0, 0, 0, [BadFile(e)])))
  {
    hide Parsed, ImportedRows, ColumnProblems, MissingFrom, ColumnsIn, HeaderErrors, REQUIRED;
  }

  lemma BadlyHeadedFile(lines: Lines, catalogue: Catalogue, text: string, dryRun: bool, mode: Mode, doc: Document)
    requires Parsed(text, 5000, 2097152) == Ok(doc)
    requires ColumnProblems(doc.header) + MissingFrom(REQUIRED, ColumnsIn(doc.header)) != []
    ensures Imported(lines, catalogue, text, dryRun, mode)
            == Ok((lines, Report(dryRun, 0, 0, 0, 0, 0,
                                 HeaderErrors(ColumnProblems(doc.header)
                                              + MissingFrom(REQUIRED, ColumnsIn(doc.header))))))
  {
    hide Parsed, ImportedRows, ColumnProblems, MissingFrom, ColumnsIn, HeaderErrors, REQUIRED;
  }

  /** The header names known columns, none twice, and the three required ones. */
  ghost predicate HeaderAccepted(header: seq<string>) {
    GoodColumns(header) && forall k :: 0 <= k < |REQUIRED| ==> REQUIRED[k] in ColumnsIn(header)
  }

  /** A file that does not parse, or whose header is not accepted, is reported as that and changes nothing. */
  lemma RefusedFileChangesNothing(lines: Lines, catalogue: Catalogue, text: string, dryRun: bool, mode: Mode)
    requires var parsed := Parsed(text, 5000, 2097152); parsed.Err? || !HeaderAccepted(parsed.value.header)
    ensures var parsed, imported := Parsed(text, 5000, 2097152), Imported(lines, catalogue, text, dryRun, mode);
            && imported.Ok? && imported.value.0 == lines
            && |imported.value.1.errors| > 0
            && imported.value.1 == Report(dryRun, 0, 0, 0, 0, 0, imported.value.1.errors)
            && (parsed.Err? ==> imported.value.1.errors == [BadFile(parsed.error)])
            && (parsed.Ok? ==> forall e :: e in imported.value.1.errors ==> e.BadHeader?)
  {
    var parsed := Parsed(text, 5000, 2097152);
    if parsed.Err? {
      UnparsedFile(lines, catalogue, text, dryRun, mode, parsed.error);
      hide Parsed, Imported, HeaderAccepted;
    } else {
      HeaderAcceptedIff(parsed.value.header);
      assert !HeaderAccepted(parsed.value.header);
      hide Parsed, Imported, ColumnProblems, MissingFrom, ColumnsIn, GoodColumns, REQUIRED;
      BadlyHeadedFile(lines, catalogue, text, dryRun, mode, parsed.value);
    }
  }
}
