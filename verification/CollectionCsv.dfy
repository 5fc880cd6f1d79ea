/**
 * The collection CSV contract: money, dates, the header check and the row schema
 * (packages/core/src/collections.ts).
 */
module CollectionCsv {
  import opened Wrappers
  import opened Text
  import opened Csv

  // ------------------------------------------------------------------ //
  // Money
  // ------------------------------------------------------------------ //

  function WithoutSymbol(s: string): string {
    if |s| > 0 && (s[0] == '$' || s[0] == '\U{00A3}' || s[0] == '\U{20AC}' || s[0] == '\U{00A5}') then s[1..] else s
  }

  function WithoutCommas(s: string): string {
    if |s| == 0 then "" else (if s[0] == ',' then "" else [s[0]]) + WithoutCommas(s[1..])
  }

  predicate DigitsWithin(s: string, most: nat) {
    1 <= |s| <= most && AllDigits(s)
  }

  function ParseMoneyToCents(input: string): Option<nat> {
    var parts := SplitOn(WithoutCommas(WithoutSymbol(Trim(input))), '.');
    if |parts| > 2 then None
    else if !DigitsWithin(parts[0], 9) then None
    else if |parts| == 2 && !DigitsWithin(parts[1], 2) then None
    else
      var fraction := if |parts| == 2 then parts[1] else "";
      var cents := if |fraction| == 2 then ParseDigits(fraction) else 10 * ParseDigits(fraction);
      Some(ParseDigits(parts[0]) * 100 + cents)
  }

  function FormatCentsAsAmount(cents: int): string {
    var abs := if cents < 0 then -cents else cents;
    (if cents < 0 then "-" else "") + Decimal(abs / 100) + "." + Pad2(abs % 100)
  }

  /** The largest amount the parser can read is nine digits and two. */
  const MONEY_LIMIT: nat := 100_000_000_000

  lemma {:induction false} NoCommas(s: string)
    requires ',' !in s
    ensures WithoutCommas(s) == s
    decreases |s|
  {
    if |s| == 0 {
    } else {
      NoCommas(s[1..]);
      assert [s[0]] + s[1..] == s;
    }
  }

  lemma {:induction false} ManyDigits(n: nat, k: nat)
    requires n >= Pow10(k)
    ensures |Decimal(n)| > k
    decreases k
  {
    if k == 0 {
    } else {
      assert n / 10 >= Pow10(k - 1);
      if n < 10 {
        assert Pow10(k) == 10 * Pow10(k - 1);
        PowersArePositive(k - 1);
      } else {
        ManyDigits(n / 10, k - 1);
      }
    }
  }

  lemma {:induction false} PowersArePositive(k: nat)
    ensures Pow10(k) >= 1
  {
    if k == 0 {
    } else {
      PowersArePositive(k - 1);
    }
  }

  lemma Pow10Of9()
    ensures Pow10(9) == 1_000_000_000
  {
    assert Pow10(3) == 1000;
    assert Pow10(6) == 1000 * Pow10(3);
    assert Pow10(9) == 1000 * Pow10(6);
  }

  function WholePart(cents: int): string {
    if cents < 0 then "-" + Decimal(-cents / 100) else Decimal(cents / 100)
  }

  function Cents(cents: int): nat {
    (if cents < 0 then -cents else cents) % 100
  }

  lemma WholePartText(cents: int)
    ensures |WholePart(cents)| > 0 && '.' !in WholePart(cents) && ',' !in WholePart(cents)
    ensures WithoutSymbol(WholePart(cents)) == WholePart(cents) && !IsSpace(WholePart(cents)[0])
    ensures cents < 0 ==> !IsDigit(WholePart(cents)[0])
  {
    DecimalRoundTrip((if cents < 0 then -cents else cents) / 100);
  }

  /** The printed amount splits back into its whole part and its two decimals. */
  lemma AmountParts(cents: int)
    ensures SplitOn(WithoutCommas(WithoutSymbol(Trim(FormatCentsAsAmount(cents)))), '.')
            == [WholePart(cents), Pad2(Cents(cents))]
  {
    hide Decimal, SplitOn, WithoutCommas, TrimStart, TrimEnd;
    var whole, fraction := WholePart(cents), Pad2(Cents(cents));
    WholePartText(cents);
    Pad2RoundTrip(Cents(cents));
    var text := FormatCentsAsAmount(cents);
    assert text == whole + ("." + fraction);
    assert text[0] == whole[0] && text[|text| - 1] == fraction[1];
    TrimOfTrimmed(text);
    assert WithoutSymbol(text) == text;
    NoCommas(text);
    SplitOfFirst(whole, fraction, '.');
    SplitOfWhole(fraction, '.');
  }

  /** An amount is read back as itself exactly when it is not negative and its whole part has at most nine digits. */
  lemma MoneyRoundTrip(cents: int)
    ensures ParseMoneyToCents(FormatCentsAsAmount(cents)) == (if 0 <= cents < MONEY_LIMIT then Some(cents) else None)
  {
    hide SplitOn, WithoutCommas, WithoutSymbol, Trim, FormatCentsAsAmount, Decimal, Pow10;
    AmountParts(cents);
    WholePartText(cents);
    Pad2RoundTrip(Cents(cents));
    Pow10Of9();
    if cents >= 0 {
      DecimalRoundTrip(cents / 100);
      if cents / 100 < Pow10(9) {
        DecimalLength(cents / 100, 9);
      } else {
        ManyDigits(cents / 100, 9);
      }
    }
  }

  lemma {:induction false} DigitsAreSmall(s: string)
    requires AllDigits(s)
    ensures ParseDigits(s) < Pow10(|s|)
    decreases |s|
  {
    if |s| == 0 {
    } else {
      DigitsAreSmall(s[..|s| - 1]);
    }
  }

  lemma {:induction false} PowersGrow(a: nat, b: nat)
    requires a <= b
    ensures Pow10(a) <= Pow10(b)
    decreases b
  {
    if a == b {
    } else {
      PowersGrow(a, b - 1);
      PowersArePositive(b - 1);
    }
  }

  /** However an amount was written, printing what was read and reading that again gives the same cents. */
  lemma WrittenAmountsSettle(input: string)
    ensures match ParseMoneyToCents(input)
            case None => true
            case Some(cents) => cents < MONEY_LIMIT && ParseMoneyToCents(FormatCentsAsAmount(cents)) == Some(cents)
  {
    match ParseMoneyToCents(input)
    case None =>
    case Some(cents) =>
      var parts := SplitOn(WithoutCommas(WithoutSymbol(Trim(input))), '.');
      DigitsAreSmall(parts[0]);
      PowersGrow(|parts[0]|, 9);
      Pow10Of9();
      if |parts| == 2 {
        DigitsAreSmall(parts[1]);
        assert Pow10(2) == 100 && Pow10(1) == 10;
      }
      MoneyRoundTrip(cents);
  }

  /** How an amount is printed: a sign if it is owed, the whole units, a point and two digits. */
  lemma AmountText(cents: nat)
    ensures FormatCentsAsAmount(cents)
            == Decimal(cents / 100) + ['.', "0123456789"[cents / 10 % 10], "0123456789"[cents % 10]]
    ensures cents > 0 ==> FormatCentsAsAmount(-(cents as int)) == "-" + FormatCentsAsAmount(cents)
  {
    hide *;
    TwoDigits(cents % 100);
    LastTwoDigits(cents);
    var whole, fraction := Decimal(cents / 100), Pad2(cents % 100);
    AmountPieces(cents);
    PointAndDigits("", whole, fraction);
    PointAndDigits("-", whole, fraction);
  }

  lemma LastTwoDigits(n: nat)
    ensures n % 100 / 10 == n / 10 % 10 && n % 100 % 10 == n % 10
  {
  }

  lemma AmountPieces(cents: nat)
    ensures FormatCentsAsAmount(cents) == "" + Decimal(cents / 100) + "." + Pad2(cents % 100)
    ensures cents > 0 ==> FormatCentsAsAmount(-(cents as int)) == "-" + Decimal(cents / 100) + "." + Pad2(cents % 100)
  {
    hide Decimal, Pad2;
  }

  lemma PointAndDigits(sign: string, whole: string, fraction: string)
    requires |fraction| == 2
    ensures sign + whole + "." + fraction == sign + (whole + ['.', fraction[0], fraction[1]])
    ensures sign == "" ==> sign + (whole + ['.', fraction[0], fraction[1]]) == whole + ['.', fraction[0], fraction[1]]
  {
    assert fraction == [fraction[0], fraction[1]];
  }

  lemma TwoDigits(n: nat)
    requires n < 100
    ensures |Pad2(n)| == 2 && Pad2(n)[0] == "0123456789"[n / 10] && Pad2(n)[1] == "0123456789"[n % 10]
  {
    DigitTable(n / 10);
    DigitTable(n % 10);
  }

  ghost predicate CurrencySymbol(symbol: string) {
    symbol in {"", "$", "\U{00A3}", "\U{20AC}", "\U{00A5}"}
  }

  ghost predicate DigitsOnly(s: string) {
    forall k :: 0 <= k < |s| ==> '0' <= s[k] <= '9'
  }

  lemma DigitsHoldNoMarks(s: string)
    requires DigitsOnly(s)
    ensures ',' !in s && '.' !in s && AllDigits(s) && forall k :: 0 <= k < |s| ==> !IsSpace(s[k])
  {
  }

  lemma SymbolIsStripped(symbol: string, rest: string)
    requires CurrencySymbol(symbol) && |rest| > 0 && IsDigit(rest[0]) && !IsSpace(rest[|rest| - 1])
    ensures WithoutSymbol(Trim(symbol + rest)) == rest
  {
    var text := symbol + rest;
    assert !IsSpace(text[0]) by {
      if symbol == "" { assert text == rest; }
    }
    assert text[|text| - 1] == rest[|rest| - 1];
    TrimOfTrimmed(text);
    hide Trim;
    if symbol == "" { assert text == rest; } else { assert text[1..] == rest; }
  }

  lemma WholeParts(symbol: string, whole: string)
    requires CurrencySymbol(symbol) && DigitsOnly(whole) && 1 <= |whole| <= 9
    ensures SplitOn(WithoutCommas(WithoutSymbol(Trim(symbol + whole))), '.') == [whole]
  {
    DigitsHoldNoMarks(whole);
    hide SplitOn, WithoutCommas, WithoutSymbol, Trim, CurrencySymbol;
    SymbolIsStripped(symbol, whole);
    NoCommas(whole);
    SplitOfWhole(whole, '.');
  }

  lemma FractionParts(symbol: string, whole: string, fraction: string)
    requires CurrencySymbol(symbol) && DigitsOnly(whole) && 1 <= |whole| <= 9
    requires DigitsOnly(fraction) && 1 <= |fraction| <= 2
    ensures SplitOn(WithoutCommas(WithoutSymbol(Trim(symbol + (whole + ("." + fraction))))), '.') == [whole, fraction]
  {
    DigitsHoldNoMarks(whole);
    DigitsHoldNoMarks(fraction);
    var text := whole + ("." + fraction);
    assert ',' !in text && text[0] == whole[0] && text[|text| - 1] == fraction[|fraction| - 1];
    hide SplitOn, WithoutCommas, WithoutSymbol, Trim, CurrencySymbol;
    SymbolIsStripped(symbol, text);
    NoCommas(text);
    SplitOfFirst(whole, fraction, '.');
    SplitOfWhole(fraction, '.');
  }

  /** Whole units, or units and one or two decimals, after a currency symbol or none. */
  lemma AmountsRead(symbol: string, whole: string, fraction: string)
    requires CurrencySymbol(symbol) && DigitsOnly(whole) && 1 <= |whole| <= 9
    requires DigitsOnly(fraction) && 1 <= |fraction| <= 2
    ensures AllDigits(whole) && AllDigits(fraction)
    ensures ParseMoneyToCents(symbol + whole) == Some(100 * ParseDigits(whole))
    ensures ParseMoneyToCents(symbol + (whole + ("." + fraction)))
            == Some(100 * ParseDigits(whole)
                    + (if |fraction| == 1 then 10 * ParseDigits(fraction) else ParseDigits(fraction)))
  {
    DigitsHoldNoMarks(whole);
    DigitsHoldNoMarks(fraction);
    WholeParts(symbol, whole);
    FractionParts(symbol, whole, fraction);
    hide *;
    ReadWhole(symbol + whole, whole);
    ReadFraction(symbol + (whole + ("." + fraction)), whole, fraction);
  }

  lemma ReadWhole(input: string, whole: string)
    requires SplitOn(WithoutCommas(WithoutSymbol(Trim(input))), '.') == [whole] && 1 <= |whole| <= 9 && AllDigits(whole)
    ensures ParseMoneyToCents(input) == Some(100 * ParseDigits(whole))
  {
    NoDigits();
    hide WithoutSymbol, Trim, WithoutCommas, SplitOn, ParseDigits, AllDigits;
  }

  lemma ReadFraction(input: string, whole: string, fraction: string)
    requires SplitOn(WithoutCommas(WithoutSymbol(Trim(input))), '.') == [whole, fraction]
    requires 1 <= |whole| <= 9 && AllDigits(whole) && 1 <= |fraction| <= 2 && AllDigits(fraction)
    ensures ParseMoneyToCents(input)
            == Some(100 * ParseDigits(whole)
                    + (if |fraction| == 1 then 10 * ParseDigits(fraction) else ParseDigits(fraction)))
  {
    hide WithoutSymbol, Trim, WithoutCommas, SplitOn, ParseDigits, AllDigits;
    var parts := SplitOn(WithoutCommas(WithoutSymbol(Trim(input))), '.');
    assert |parts| == 2 && parts[0] == whole && parts[1] == fraction;
    assert DigitsWithin(whole, 9) && DigitsWithin(fraction, 2);
    hide DigitsWithin;
  }

  lemma NoDigits()
    ensures ParseDigits("") == 0
  {
  }

  lemma {:induction false} CommasGo(a: string, b: string)
    ensures WithoutCommas(a + ("," + b)) == WithoutCommas(a + b)
    decreases |a|
  {
    if |a| == 0 {
      assert a + ("," + b) == "," + b && a + b == b;
      assert ("," + b)[1..] == b;
    } else {
      assert (a + ("," + b))[1..] == a[1..] + ("," + b) && (a + b)[1..] == a[1..] + b;
      CommasGo(a[1..], b);
    }
  }

  /** Commas do not count, wherever they stand after the first character. */
  lemma CommasDoNotCount(a: string, b: string)
    requires |a| > 0 && forall k :: 0 <= k < |a + b| ==> !IsSpace((a + b)[k])
    ensures ParseMoneyToCents(a + ("," + b)) == ParseMoneyToCents(a + b)
  {
    var with, without := a + ("," + b), a + b;
    assert with[0] == a[0] == without[0];
    assert with[|with| - 1] == if |b| == 0 then ',' else without[|without| - 1];
    TrimOfTrimmed(with);
    TrimOfTrimmed(without);
    CommasGo(a, b);
    CommasGo(a[1..], b);
    assert with[1..] == a[1..] + ("," + b) && without[1..] == a[1..] + b;
    hide WithoutCommas, SplitOn, ParseDigits, Trim;
  }

  // ------------------------------------------------------------------ //
  // Dates
  // ------------------------------------------------------------------ //

  predicate IsLeap(year: nat) {
    year % 4 == 0 && (year % 100 != 0 || year % 400 == 0)
  }

  function DaysInMonth(year: nat, month: nat): nat {
    if month == 2 then (if IsLeap(year) then 29 else 28)
    else if month in {4, 6, 9, 11} then 30
    else 31
  }

  datatype MomentFields = MomentFields(year: nat, month: nat, day: nat, ms: nat)

  predicate RealMoment(m: MomentFields) {
    1 <= m.month <= 12 && 1 <= m.day <= DaysInMonth(m.year, m.month) && m.ms < 86_400_000
  }

  /** A point in time: a calendar day of the common era and the milliseconds into it, in UTC. */
  type Moment = m: MomentFields | RealMoment(m) witness MomentFields(2000, 1, 1, 0)

  /** `toISOString().slice(0, 10)`: years past 9999 print signed and with six digits, and are cut short. */
  function DayText(m: Moment): string {
    if m.year <= 9999 then Pad2(m.year / 100) + Pad2(m.year % 100) + "-" + Pad2(m.month) + "-" + Pad2(m.day)
    else "+" + Pad2(m.year / 10000 % 100) + Pad2(m.year / 100 % 100) + Pad2(m.year % 100) + "-" + Pad2(m.month)
  }

  /** The calendar day of `YYYY-MM-DD`, at midnight. */
  function ParseDay(s: string): Option<Moment> {
    if |s| != 10 || s[4] != '-' || s[7] != '-' then None
    else if !AllDigits(s[..4]) || !AllDigits(s[5..7]) || !AllDigits(s[8..]) then None
    else
      var m := MomentFields(ParseDigits(s[..4]), ParseDigits(s[5..7]), ParseDigits(s[8..]), 0);
      if RealMoment(m) then Some(m) else None
  }

  lemma FourDigits(year: nat)
    requires year <= 9999
    ensures var s := Pad2(year / 100) + Pad2(year % 100);
            |s| == 4 && AllDigits(s) && ParseDigits(s) == year
  {
    var hi, lo := Pad2(year / 100), Pad2(year % 100);
    var s := hi + lo;
    Pad2RoundTrip(year / 100);
    assert s[..3][..2] == hi && s[..3] == hi + [lo[0]];
    assert ParseDigits(s[..3]) == ParseDigits(hi) * 10 + (year % 100 / 10);
  }

  /** The Gregorian calendar, as ISO 8601 takes it. */
  lemma MonthsOfTheCalendar(year: nat, month: nat)
    requires 1 <= month <= 12
    ensures DaysInMonth(year, month)
            == if month != 2 then [31, 0, 31, 30, 31, 30, 31, 31, 30, 31, 30, 31][month - 1]
               else if year % 400 == 0 then 29
               else if year % 100 == 0 then 28
               else if year % 4 == 0 then 29
               else 28
  {
  }

  lemma TenCharacters(a: string, b: string, c: string, d: string)
    requires |a| == |b| == |c| == |d| == 2
    ensures a + b + "-" + c + "-" + d == [a[0], a[1], b[0], b[1], '-', c[0], c[1], '-', d[0], d[1]]
  {
    assert a == [a[0], a[1]] && b == [b[0], b[1]] && c == [c[0], c[1]] && d == [d[0], d[1]];
  }

  /** How a date is printed: four digits, two and two, with hyphens: year, month, day. */
  lemma DayTextDigits(m: Moment)
    requires m.year <= 9999
    ensures var d := "0123456789";
            DayText(m)
            == [d[m.year / 1000], d[m.year / 100 % 10], d[m.year / 10 % 10], d[m.year % 10], '-',
                d[m.month / 10], d[m.month % 10], '-', d[m.day / 10], d[m.day % 10]]
  {
    TwoDigits(m.year / 100);
    TwoDigits(m.year % 100);
    TwoDigits(m.month);
    TwoDigits(m.day);
    LastTwoDigits(m.year);
    assert m.year / 100 / 10 == m.year / 1000;
    assert DayText(m) == Pad2(m.year / 100) + Pad2(m.year % 100) + "-" + Pad2(m.month) + "-" + Pad2(m.day);
    hide DayText, Pad2, DaysInMonth;
    TenCharacters(Pad2(m.year / 100), Pad2(m.year % 100), Pad2(m.month), Pad2(m.day));
  }

  /** A date survives exactly when it is a midnight no later than the year 9999. */
  lemma DayRoundTrip(m: Moment)
    ensures ParseDay(DayText(m)) == Some(m) <==> m.ms == 0 && m.year <= 9999
    ensures m.year <= 9999 ==> ParseDay(DayText(m)) == Some(m.(ms := 0))
  {
    if m.year <= 9999 {
      var s := DayText(m);
      var year := Pad2(m.year / 100) + Pad2(m.year % 100);
      FourDigits(m.year);
      Pad2RoundTrip(m.month);
      Pad2RoundTrip(m.day);
      assert s[..4] == year && s[5..7] == Pad2(m.month) && s[8..] == Pad2(m.day);
    } else {
      assert DayText(m)[0] == '+';
      assert DayText(m)[..4][0] == '+';
    }
  }

  // ------------------------------------------------------------------ //
  // The header
  // ------------------------------------------------------------------ //

  const COLUMNS: seq<string> :=
    ["set", "number", "finish", "language", "condition", "quantity", "acquired_price", "currency", "acquired_at",
      "notes"]

  const REQUIRED: seq<string> := ["set", "number", "quantity"]

  datatype HeaderProblem = UnknownColumn(name: string) | DuplicateColumn(column: string) | MissingColumn(column: string)

  function ColumnOf(name: string): string {
    Lower(Trim(name))
  }

  function ColumnProblems(header: seq<string>): seq<HeaderProblem> {
    if |header| == 0 then []
    else
      var before := header[..|header| - 1];
      var name := header[|header| - 1];
      ColumnProblems(before)
      + (if ColumnOf(name) !in COLUMNS then [UnknownColumn(name)]
         else if ColumnOf(name) in ColumnsIn(before) then [DuplicateColumn(ColumnOf(name))]
         else [])
  }

  function ColumnsIn(header: seq<string>): set<string> {
    set name | name in header :: ColumnOf(name)
  }

  function MissingFrom(required: seq<string>, columns: set<string>): seq<HeaderProblem> {
    if |required| == 0 then []
    else
      MissingFrom(required[..|required| - 1], columns)
      + (if required[|required| - 1] in columns then [] else [MissingColumn(required[|required| - 1])])
  }

  lemma NextColumn(header: seq<string>, i: nat)
    requires i < |header|
    ensures ColumnsIn(header[..i + 1]) == ColumnsIn(header[..i]) + {ColumnOf(header[i])}
    ensures ColumnProblems(header[..i + 1])
            == ColumnProblems(header[..i])
               + (if ColumnOf(header[i]) !in COLUMNS then [UnknownColumn(header[i])]
                  else if ColumnOf(header[i]) in ColumnsIn(header[..i]) then [DuplicateColumn(ColumnOf(header[i]))]
                  else [])
  {
    hide ColumnOf;
    assert header[..i + 1][..i] == header[..i] && header[..i + 1] == header[..i] + [header[i]];
  }

  lemma NoColumns(header: seq<string>)
    ensures ColumnsIn(header[..0]) == {} && ColumnProblems(header[..0]) == []
  {
  }

  method ValidateCollectionCsvHeader(header: seq<string>) returns (problems: seq<HeaderProblem>)
    ensures problems == ColumnProblems(header) + MissingFrom(REQUIRED, ColumnsIn(header))
  {
    hide ColumnOf, ColumnsIn, ColumnProblems;
    problems := [];
    var seen: set<string> := {};
    NoColumns(header);
    for i := 0 to |header|
      invariant problems == ColumnProblems(header[..i]) && seen == ColumnsIn(header[..i])
    {
      var column := ColumnOf(header[i]);
      NextColumn(header, i);
      if column !in COLUMNS {
        problems := problems + [UnknownColumn(header[i])];
      } else if column in seen {
        problems := problems + [DuplicateColumn(column)];
      }
      seen := seen + {column};
    }
    assert header[..|header|] == header;
    for i := 0 to |REQUIRED|
      invariant problems == ColumnProblems(header) + MissingFrom(REQUIRED[..i], seen)
    {
      assert REQUIRED[..i + 1][..i] == REQUIRED[..i];
      if REQUIRED[i] !in seen {
        problems := problems + [MissingColumn(REQUIRED[i])];
      }
    }
    assert REQUIRED[..|REQUIRED|] == REQUIRED;
  }

  /** The columns named: all known, none twice. */
  ghost predicate GoodColumns(header: seq<string>) {
    && (forall k :: 0 <= k < |header| ==> ColumnOf(header[k]) in COLUMNS)
    && (forall j, k :: 0 <= j < k < |header| ==> ColumnOf(header[j]) != ColumnOf(header[k]))
  }

  lemma RepeatedIff(header: seq<string>, column: string)
    ensures column in ColumnsIn(header) <==> exists j :: 0 <= j < |header| && ColumnOf(header[j]) == column
  {
    if column in ColumnsIn(header) {
      var name :| name in header && ColumnOf(name) == column;
      var j :| 0 <= j < |header| && header[j] == name;
      assert ColumnOf(header[j]) == column;
    }
  }

  lemma GoodColumnsSplit(header: seq<string>)
    requires |header| > 0
    ensures var n := |header| - 1;
            GoodColumns(header) <==> && GoodColumns(header[..n]) && ColumnOf(header[n]) in COLUMNS
                                     && ColumnOf(header[n]) !in ColumnsIn(header[..n])
  {
    hide ColumnOf, ColumnsIn;
    var n := |header| - 1;
    var before := header[..n];
    RepeatedIff(before, ColumnOf(header[n]));
    assert forall j :: 0 <= j < n ==> before[j] == header[j];
  }

  lemma {:induction false} NoColumnProblems(header: seq<string>)
    ensures ColumnProblems(header) == [] <==> GoodColumns(header)
    decreases |header|
  {
    if |header| == 0 {
    } else {
      NoColumnProblems(header[..|header| - 1]);
      GoodColumnsSplit(header);
    }
  }

  /**
   * Accepted exactly when every column is known, no two are the same up to case and the three required
   * ones are there.
   */
  lemma HeaderAcceptedIff(header: seq<string>)
    ensures ColumnProblems(header) + MissingFrom(REQUIRED, ColumnsIn(header)) == []
            <==> GoodColumns(header) && forall k :: 0 <= k < |REQUIRED| ==> REQUIRED[k] in ColumnsIn(header)
  {
    NoColumnProblems(header);
    NothingMissing(REQUIRED, ColumnsIn(header));
  }

  lemma {:induction false} NothingMissing(required: seq<string>, columns: set<string>)
    ensures MissingFrom(required, columns) == [] <==> forall k :: 0 <= k < |required| ==> required[k] in columns
    decreases |required|
  {
    if |required| == 0 {
    } else {
      NothingMissing(required[..|required| - 1], columns);
    }
  }

  // ------------------------------------------------------------------ //
  // The row schema
  // ------------------------------------------------------------------ //

  const FINISHES: seq<string> := ["normal", "parallel", "alt_art", "promo"]
  const LANGUAGES: seq<string> := ["en", "ja"]
  const CONDITIONS: seq<string> := ["nm", "lp", "mp", "hp", "dmg"]

  datatype RowData = RowData(
    setCode: string,
    number: string,
    finish: Option<string>,
    language: Option<string>,
    condition: Option<string>,
    quantity: nat,
    acquiredPrice: Option<nat>,
    currency: Option<string>,
    acquiredAt: Option<Moment>,
    notes: Option<string>)

  /** `.length`, which counts UTF-16 units. */
  function Utf16Length(s: string): nat {
    if |s| == 0 then 0 else (if s[0] as int > 0xFFFF then 2 else 1) + Utf16Length(s[1..])
  }

  predicate IsLetter(c: char) {
    'A' <= c <= 'Z' || 'a' <= c <= 'z'
  }

  function UpperChar(c: char): char {
    if 'a' <= c <= 'z' then c - 'a' + 'A' else c
  }

  function Upper(s: string): (r: string)
    ensures |r| == |s| && forall k :: 0 <= k < |s| ==> r[k] == UpperChar(s[k])
  {
    seq(|s|, k requires 0 <= k < |s| => UpperChar(s[k]))
  }

  /** Absent, or blank, is "not given". */
  function OptionalText(record: Record, column: string): Option<string> {
    if column in record && Trim(record[column]) != "" then Some(Trim(record[column])) else None
  }

  predicate Within(v: Option<string>, allowed: seq<string>) {
    v == None || v.value in allowed
  }

  predicate NameOk(record: Record, column: string) {
    column in record && Trim(record[column]) != "" && Utf16Length(Trim(record[column])) <= 32
  }

  predicate QuantityOk(record: Record) {
    "quantity" in record
    && var q := Trim(record["quantity"]);
       DigitsWithin(q, 6) && 1 <= ParseDigits(q) <= 100000
  }

  predicate CurrencyOk(v: Option<string>) {
    v == None || (|v.value| == 3 && IsLetter(v.value[0]) && IsLetter(v.value[1]) && IsLetter(v.value[2]))
  }

  function Unless(ok: bool, column: string): seq<string> {
    if ok then [] else [column]
  }

  /** One entry per column the schema objects to, in schema order. */
  function Issues(record: Record): seq<string> {
    Unless(NameOk(record, "set"), "set")
    + Unless(NameOk(record, "number"), "number")
    + Unless(Within(OptionalText(record, "finish"), FINISHES), "finish")
    + Unless(Within(OptionalText(record, "language"), LANGUAGES), "language")
    + Unless(Within(OptionalText(record, "condition"), CONDITIONS), "condition")
    + Unless(QuantityOk(record), "quantity")
    + Unless(PriceOk(OptionalText(record, "acquired_price")), "acquired_price")
    + Unless(CurrencyOk(OptionalText(record, "currency")), "currency")
    + Unless(DateOk(OptionalText(record, "acquired_at")), "acquired_at")
    + Unless(NotesOk(OptionalText(record, "notes")), "notes")
    + Unless(forall c :: c in record ==> c in COLUMNS, "")
  }

  predicate PriceOk(v: Option<string>) {
    v == None || ParseMoneyToCents(v.value).Some?
  }

  predicate DateOk(v: Option<string>) {
    v == None || ParseDay(v.value).Some?
  }

  predicate NotesOk(v: Option<string>) {
    v == None || Utf16Length(v.value) <= 500
  }

  function ParseRow(record: Record): Result<RowData, seq<string>> {
    if Issues(record) != [] then Err(Issues(record))
    else
      assert NameOk(record, "set") && NameOk(record, "number") && QuantityOk(record);
      var price := OptionalText(record, "acquired_price");
      var currency := OptionalText(record, "currency");
      var date := OptionalText(record, "acquired_at");
      Ok(RowData(
           Trim(record["set"]), Trim(record["number"]),
           OptionalText(record, "finish"), OptionalText(record, "language"), OptionalText(record, "condition"),
           ParseDigits(Trim(record["quantity"])),
           if price == None then None else ParseMoneyToCents(price.value),
           if currency == None then None else Some(Upper(currency.value)),
           if date == None then None else ParseDay(date.value),
           OptionalText(record, "notes")))
  }
}
