/**
 * The tamper-evident pull log: canonical JSON, the row hash and the chain walk
 * (packages/core/src/fairness.ts). SHA-256 is a parameter; what a log proves is stated as
 * "equal, or here is a collision".
 */
module PullChain {
  import opened Wrappers
  import opened Sorting
  import opened Text

  // ------------------------------------------------------------------ //
  // JSON.stringify on an object of strings, whole numbers and nulls
  // ------------------------------------------------------------------ //

  datatype Value = Null | Num(n: int) | Str(s: string)

  function HexDigit(d: nat): char
    requires d < 16
  {
    if d < 10 then '0' + d as char else 'a' + (d - 10) as char
  }

  function HexValue(c: char): nat {
    if '0' <= c <= '9' then c as int - '0' as int
    else if 'a' <= c <= 'f' then c as int - 'a' as int + 10
    else 0
  }

  function Escape(c: char): (e: string)
    ensures |e| > 0 && e[0] != '"'
  {
    if c == '"' then "\\\""
    else if c == '\\' then "\\\\"
    else if c == '\U{0008}' then "\\b"
    else if c == '\U{000C}' then "\\f"
    else if c == '\n' then "\\n"
    else if c == '\r' then "\\r"
    else if c == '\t' then "\\t"
    else if c < ' ' then "\\u00" + [HexDigit(c as int / 16), HexDigit(c as int % 16)]
    else [c]
  }

  function QuoteBody(s: string): string {
    if |s| == 0 then "\"" else Escape(s[0]) + QuoteBody(s[1..])
  }

  function Quote(s: string): string {
    "\"" + QuoteBody(s)
  }

  function NumText(n: int): string {
    if n < 0 then "-" + Decimal(-n) else Decimal(n)
  }

  function ValueText(v: Value): string {
    match v
    case Null => "null"
    case Num(n) => NumText(n)
    case Str(s) => Quote(s)
  }

  type Entry = (string, Value)

  function EntryText(entry: Entry): string {
    Quote(entry.0) + (":" + ValueText(entry.1))
  }

  function EntriesText(entries: seq<Entry>): string
    decreases |entries|, 0
  {
    if |entries| == 0 then "}" else EntryText(entries[0]) + AfterEntry(entries[1..])
  }

  function AfterEntry(rest: seq<Entry>): string
    decreases |rest|, 1
  {
    if |rest| == 0 then "}" else "," + EntriesText(rest)
  }

  /** How a character is written in a string: short escapes, four hexadecimal digits, or itself. */
  lemma EscapeTable(c: char)
    ensures Escape(c)
            == match c
               case '"' => "\\\""
               case '\\' => "\\\\"
               case '\n' => "\\n"
               case '\r' => "\\r"
               case '\t' => "\\t"
               case _ =>
                 if c as int == 8 then "\\b"
                 else if c as int == 12 then "\\f"
                 else if c as int < 32 then
                   "\\u00" + ["0123456789abcdef"[c as int / 16], "0123456789abcdef"[c as int % 16]]
                 else [c]
  {
    if c < ' ' {
      HexDigitTable(c as int / 16);
      HexDigitTable(c as int % 16);
    }
  }

  lemma HexDigitTable(d: nat)
    requires d < 16
    ensures HexDigit(d) == "0123456789abcdef"[d]
  {
  }

  /** A string is written between quotes, one character after another. */
  lemma {:induction false} QuotedOneByOne(s: string, c: char)
    ensures Quote("") == "\"\"" && |Quote(s)| >= 2
    ensures Quote(s + [c]) == Quote(s)[..|Quote(s)| - 1] + Escape(c) + "\""
    decreases |s|
  {
    hide Escape;
    if |s| == 0 {
      assert (s + [c])[0] == c && (s + [c])[1..] == "";
    } else {
      QuotedOneByOne(s[1..], c);
      assert (s + [c])[0] == s[0] && (s + [c])[1..] == s[1..] + [c];
      var rest := QuoteBody(s[1..]);
      assert rest == Quote(s[1..])[1..];
      BodyOneMore(Escape(s[0]), rest, QuoteBody(s[1..] + [c]), Escape(c));
    }
  }

  lemma BodyOneMore(first: string, rest: string, longer: string, last: string)
    requires |rest| >= 1 && "\"" + longer == ("\"" + rest)[..|rest|] + last + "\""
    ensures "\"" + (first + longer) == ("\"" + (first + rest))[..|first + rest|] + last + "\""
  {
    assert longer == ("\"" + longer)[1..] == rest[..|rest| - 1] + last + "\"";
  }

  /** The object's own entries, in insertion order, printed in key order. */
  function Canonicalise(entries: seq<Entry>): string {
    "{" + EntriesText(SortByKey(entries))
  }

  /** Two servers that build the same object in different orders print the same text. */
  lemma CanonicalIgnoresKeyOrder(a: seq<Entry>, b: seq<Entry>)
    requires DistinctKeys(a) && DistinctKeys(b) && |a| == |b|
    requires forall e :: e in a <==> e in b
    ensures Canonicalise(a) == Canonicalise(b)
  {
    SortIgnoresOrder(a, b);
  }

  // Reading back what was printed.

  /** The character an escape stands for, and how many characters it takes. */
  function Unescape(s: string): (char, nat)
    requires |s| > 0
  {
    if s[0] != '\\' || |s| < 2 then (s[0], 1)
    else if s[1] == 'b' then ('\U{0008}', 2)
    else if s[1] == 'f' then ('\U{000C}', 2)
    else if s[1] == 'n' then ('\n', 2)
    else if s[1] == 'r' then ('\r', 2)
    else if s[1] == 't' then ('\t', 2)
    else if s[1] == 'u' && |s| >= 6 then ((HexValue(s[4]) * 16 + HexValue(s[5])) as char, 6)
    else (s[1], 2)
  }

  lemma UnescapeEscape(c: char, rest: string)
    ensures Unescape(Escape(c) + rest) == (c, |Escape(c)|)
  {
    var e := Escape(c);
    assert forall k :: 0 <= k < |e| ==> (e + rest)[k] == e[k];
    if c < ' ' {
      assert (c as int / 16 * 16 + c as int % 16) as char == c;
    }
  }

  lemma {:induction false} QuoteBodyUnique(a: string, b: string, ra: string, rb: string)
    requires QuoteBody(a) + ra == QuoteBody(b) + rb
    ensures a == b && ra == rb
    decreases |a|
  {
    if |a| == 0 || |b| == 0 {
      assert (QuoteBody(a) + ra)[0] == (QuoteBody(b) + rb)[0];
      assert |a| == 0 && |b| == 0;
      assert ra == (QuoteBody(a) + ra)[1..];
      assert rb == (QuoteBody(b) + rb)[1..];
    } else {
      hide Escape, Unescape;
      var ta := QuoteBody(a[1..]) + ra;
      var tb := QuoteBody(b[1..]) + rb;
      assert QuoteBody(a) + ra == Escape(a[0]) + ta;
      assert QuoteBody(b) + rb == Escape(b[0]) + tb;
      UnescapeEscape(a[0], ta);
      UnescapeEscape(b[0], tb);
      assert ta == (Escape(a[0]) + ta)[|Escape(a[0])|..];
      assert tb == (Escape(b[0]) + tb)[|Escape(b[0])|..];
      QuoteBodyUnique(a[1..], b[1..], ra, rb);
      assert a == [a[0]] + a[1..] && b == [b[0]] + b[1..];
    }
  }

  function DigitRun(s: string): (k: nat)
    ensures k <= |s|
  {
    if |s| > 0 && IsDigit(s[0]) then 1 + DigitRun(s[1..]) else 0
  }

  lemma {:induction false} DigitRunStops(digits: string, rest: string)
    requires AllDigits(digits) && (|rest| > 0 ==> !IsDigit(rest[0]))
    ensures DigitRun(digits + rest) == |digits|
    decreases |digits|
  {
    if |digits| > 0 {
      assert (digits + rest)[1..] == digits[1..] + rest;
      DigitRunStops(digits[1..], rest);
    } else {
      assert digits + rest == rest;
    }
  }

  lemma DecimalUnique(a: nat, b: nat, ra: string, rb: string)
    requires Decimal(a) + ra == Decimal(b) + rb
    requires (|ra| > 0 ==> !IsDigit(ra[0])) && (|rb| > 0 ==> !IsDigit(rb[0]))
    ensures a == b && ra == rb
  {
    DecimalRoundTrip(a);
    DecimalRoundTrip(b);
    DigitRunStops(Decimal(a), ra);
    DigitRunStops(Decimal(b), rb);
    var k := |Decimal(a)|;
    assert Decimal(a) == (Decimal(a) + ra)[..k] && Decimal(b) == (Decimal(b) + rb)[..k];
    assert ra == (Decimal(a) + ra)[k..] && rb == (Decimal(b) + rb)[k..];
  }

  lemma NumUnique(a: int, b: int, ra: string, rb: string)
    requires NumText(a) + ra == NumText(b) + rb
    requires (|ra| > 0 ==> !IsDigit(ra[0])) && (|rb| > 0 ==> !IsDigit(rb[0]))
    ensures a == b && ra == rb
  {
    hide Decimal;
    NumSign(a, ra);
    NumSign(b, rb);
    if a < 0 {
      DecimalUnique(-a, -b, ra, rb);
    } else {
      DecimalUnique(a, b, ra, rb);
    }
  }

  /** Only a negative number starts with a minus, and its digits follow. */
  lemma NumSign(n: int, rest: string)
    ensures |NumText(n)| > 0
    ensures n < 0 ==> (NumText(n) + rest)[0] == '-' && (NumText(n) + rest)[1..] == Decimal(-n) + rest
    ensures n >= 0 ==> IsDigit((NumText(n) + rest)[0])
  {
    hide Decimal;
    DecimalRoundTrip(if n < 0 then -n else n);
    if n < 0 {
      assert NumText(n) + rest == "-" + (Decimal(-n) + rest);
    }
  }

  ghost predicate ValueEnds(rest: string) {
    |rest| > 0 && (rest[0] == ',' || rest[0] == '}')
  }

  lemma ValueUnique(a: Value, b: Value, ra: string, rb: string)
    requires ValueText(a) + ra == ValueText(b) + rb && ValueEnds(ra) && ValueEnds(rb)
    ensures a == b && ra == rb
  {
    hide QuoteBody, NumText, IsDigit;
    ValueFirst(a);
    ValueFirst(b);
    PunctuationIsNoDigit();
    assert (ValueText(a) + ra)[0] == (ValueText(b) + rb)[0];
    match a
    case Null =>
      assert ra == (ValueText(a) + ra)[4..] && rb == (ValueText(b) + rb)[4..];
    case Num(n) =>
      NumUnique(n, b.n, ra, rb);
    case Str(s) =>
      assert QuoteBody(s) + ra == (ValueText(a) + ra)[1..];
      assert QuoteBody(b.s) + rb == (ValueText(b) + rb)[1..];
      QuoteBodyUnique(s, b.s, ra, rb);
  }

  lemma PunctuationIsNoDigit()
    ensures !IsDigit(',') && !IsDigit('}') && !IsDigit('n') && !IsDigit('"') && !IsDigit('-')
  {
  }

  lemma ValueFirst(v: Value)
    ensures |ValueText(v)| > 0
    ensures v.Null? ==> ValueText(v)[0] == 'n'
    ensures v.Str? ==> ValueText(v)[0] == '"'
    ensures v.Num? ==> ValueText(v)[0] == '-' || IsDigit(ValueText(v)[0])
  {
    hide Decimal;
    PunctuationIsNoDigit();
    if v.Num? {
      DecimalRoundTrip(if v.n < 0 then -v.n else v.n);
    }
  }

  lemma EntryUnique(a: Entry, b: Entry, ra: string, rb: string)
    requires EntryText(a) + ra == EntryText(b) + rb && ValueEnds(ra) && ValueEnds(rb)
    ensures a == b && ra == rb
  {
    EntryParts(a, ra);
    EntryParts(b, rb);
    QuoteBodyUnique(a.0, b.0, ":" + (ValueText(a.1) + ra), ":" + (ValueText(b.1) + rb));
    assert (":" + (ValueText(a.1) + ra))[1..] == ValueText(a.1) + ra;
    assert (":" + (ValueText(b.1) + rb))[1..] == ValueText(b.1) + rb;
    ValueUnique(a.1, b.1, ra, rb);
  }

  lemma EntryParts(a: Entry, rest: string)
    ensures (EntryText(a) + rest)[1..] == QuoteBody(a.0) + (":" + (ValueText(a.1) + rest))
  {
    var key, value := QuoteBody(a.0), ValueText(a.1);
    assert EntryText(a) + rest == "\"" + (key + (":" + (value + rest)));
  }

  lemma {:induction false} EntriesTextInjective(a: seq<Entry>, b: seq<Entry>)
    requires EntriesText(a) == EntriesText(b)
    ensures a == b
    decreases |a|
  {
    if |a| == 0 || |b| == 0 {
      assert EntriesText(a)[0] == EntriesText(b)[0];
    } else {
      EntryUnique(a[0], b[0], AfterEntry(a[1..]), AfterEntry(b[1..]));
      assert a == [a[0]] + a[1..] && b == [b[0]] + b[1..];
      if |a| > 1 && |b| > 1 {
        assert EntriesText(a[1..]) == AfterEntry(a[1..])[1..];
        assert EntriesText(b[1..]) == AfterEntry(b[1..])[1..];
        EntriesTextInjective(a[1..], b[1..]);
      } else {
        assert AfterEntry(a[1..])[0] == AfterEntry(b[1..])[0];
      }
    }
  }

  // ------------------------------------------------------------------ //
  // Rows
  // ------------------------------------------------------------------ //

  /** The six fields the chain commits to. */
  datatype Pull = Pull(
    seqNo: int,
    cardVariantId: Option<string>,
    cardLabel: Option<string>,
    valueCentsAtPull: int,
    valueSource: string,
    pulledAt: string)

  datatype Row = Row(pull: Pull, prevHash: string, rowHash: string)

  function Nullable(s: Option<string>): Value {
    match s
    case None => Null
    case Some(t) => Str(t)
  }

  function Fields(p: Pull): seq<Entry> {
    [ ("seq", Num(p.seqNo)),
      ("cardVariantId", Nullable(p.cardVariantId)),
      ("label", Nullable(p.cardLabel)),
      ("valueCentsAtPull", Num(p.valueCentsAtPull)),
      ("valueSource", Str(p.valueSource)),
      ("pulledAt", Str(p.pulledAt)) ]
  }

  function CanonicalPull(p: Pull): string {
    Canonicalise(Fields(p))
  }

  predicate PlainCharacters(s: string) {
    forall k :: 0 <= k < |s| ==> ' ' <= s[k] && s[k] != '"' && s[k] != '\\'
  }

  lemma {:induction false} PlainQuote(s: string)
    requires PlainCharacters(s)
    ensures Quote(s) == "\"" + s + "\""
    decreases |s|
  {
    if |s| == 0 {
    } else {
      PlainQuote(s[1..]);
      assert QuoteBody(s[1..]) == Quote(s[1..])[1..] == s[1..] + "\"";
      assert s == [s[0]] + s[1..];
    }
  }

  function InOrder(p: Pull): seq<Entry> {
    [ ("cardVariantId", Nullable(p.cardVariantId)),
      ("label", Nullable(p.cardLabel)),
      ("pulledAt", Str(p.pulledAt)),
      ("seq", Num(p.seqNo)),
      ("valueCentsAtPull", Num(p.valueCentsAtPull)),
      ("valueSource", Str(p.valueSource)) ]
  }

  lemma KeysInOrder()
    ensures Before("cardVariantId", "label") && Before("label", "pulledAt") && Before("pulledAt", "seq")
    ensures Before("seq", "valueCentsAtPull") && Before("valueCentsAtPull", "valueSource")
  {
    var a, b := "valueCentsAtPull", "valueSource";
    assert a[..5] == b[..5];
    assert SmallerAt(a, b, 5);
    BeforeIff(a, b);
  }

  lemma InOrderIsSorted(p: Pull)
    ensures StrictlySorted(InOrder(p))
  {
    KeysInOrder();
    var sorted := InOrder(p);
    hide Before, Nullable;
    forall i, j | 0 <= i < j < 6 ensures Before(sorted[i].0, sorted[j].0) {
      StepsClimb(sorted, i, j);
    }
  }

  lemma SameFields(p: Pull, e: Entry)
    ensures e in Fields(p) <==> e in InOrder(p)
  {
    hide Nullable;
    assert Fields(p)[0] == InOrder(p)[3] && Fields(p)[1] == InOrder(p)[0] && Fields(p)[2] == InOrder(p)[1];
    assert Fields(p)[3] == InOrder(p)[4] && Fields(p)[4] == InOrder(p)[5] && Fields(p)[5] == InOrder(p)[2];
  }

  lemma FieldsInOrder(p: Pull)
    ensures SortByKey(Fields(p)) == InOrder(p)
  {
    FieldKeysDistinct(p);
    InOrderIsSorted(p);
    assert |Fields(p)| == |InOrder(p)|;
    hide *;
    SortByKeySorts(Fields(p));
    forall e ensures e in SortByKey(Fields(p)) <==> e in InOrder(p) {
      SortMember(e, Fields(p));
      SameFields(p, e);
    }
    SortedIsUnique(SortByKey(Fields(p)), InOrder(p));
  }

  lemma {:induction false} StepsClimb(entries: seq<Entry>, i: nat, j: nat)
    requires forall k :: 0 <= k < |entries| - 1 ==> Before(entries[k].0, entries[k + 1].0)
    requires i < j < |entries|
    ensures Before(entries[i].0, entries[j].0)
    decreases j
  {
    if i + 1 == j {
    } else {
      StepsClimb(entries, i, j - 1);
      BeforeTransitive(entries[i].0, entries[j - 1].0, entries[j].0);
    }
  }

  lemma Flatten(before: string, key: string, value: string, after: string)
    ensures before + ((key + (":" + value)) + after) == before + (key + ":") + value + after
  {
    Regroup(key, ":", value);
    Regroup(key + ":", value, after);
    Regroup(before, key + ":", value + after);
    Regroup(before + (key + ":"), value, after);
  }

  /** One entry with a plain key, and what comes after it. */
  lemma PlainEntry(before: string, entries: seq<Entry>, printed: string)
    requires |entries| > 0 && PlainCharacters(entries[0].0) && printed == "\"" + entries[0].0 + "\":"
    ensures before + EntriesText(entries) == before + printed + ValueText(entries[0].1) + AfterEntry(entries[1..])
  {
    var key, value, after := Quote(entries[0].0), ValueText(entries[0].1), AfterEntry(entries[1..]);
    PlainQuote(entries[0].0);
    Flatten(before, key, value, after);
    KeyPrinted(entries[0].0);
    assert EntriesText(entries) == (key + (":" + value)) + after by {
      hide ValueText, Quote;
    }
  }

  lemma KeyPrinted(key: string)
    ensures "\"" + key + "\"" + ":" == "\"" + key + "\":"
  {
  }

  /** The same after an earlier entry. */
  lemma NextPlainEntry(before: string, entries: seq<Entry>, printed: string)
    requires |entries| > 0 && PlainCharacters(entries[0].0) && printed == "\"" + entries[0].0 + "\":"
    ensures before + AfterEntry(entries)
            == before + ("," + printed) + ValueText(entries[0].1) + AfterEntry(entries[1..])
  {
    assert AfterEntry(entries) == "," + EntriesText(entries);
    hide *;
    PlainEntry(before + ",", entries, printed);
    Regroup(before, ",", printed);
    Regroup(before, ",", EntriesText(entries));
  }

  /** How the key of field k is printed, after what separates it from the one before. */
  const PRINTED_KEYS: seq<string> :=
    ["{\"cardVariantId\":", ",\"label\":", ",\"pulledAt\":", ",\"seq\":", ",\"valueCentsAtPull\":",
     ",\"valueSource\":"]

  const KEYS: seq<string> := ["cardVariantId", "label", "pulledAt", "seq", "valueCentsAtPull", "valueSource"]

  lemma KeyIsPlain(k: nat)
    requires k < 6
    ensures PlainCharacters(KEYS[k])
  {
  }

  lemma KeyWithQuotes(k: nat)
    requires k < 6
    ensures PRINTED_KEYS[k] == (if k == 0 then "{" else ",") + ("\"" + KEYS[k] + "\":")
  {
  }

  lemma KeyIsPrinted(p: Pull, k: nat)
    requires k < 6
    ensures PlainCharacters(InOrder(p)[k].0)
    ensures PRINTED_KEYS[k] == (if k == 0 then "{" else ",") + ("\"" + InOrder(p)[k].0 + "\":")
  {
    assert InOrder(p)[k].0 == KEYS[k] by { hide Nullable; }
    hide *;
    KeyIsPlain(k);
    KeyWithQuotes(k);
  }

  /** What is printed from field k on, after `before`. */
  function FromField(p: Pull, k: nat, before: string): string
    requires k <= 6
    decreases 6 - k
  {
    if k == 6 then before + "}" else FromField(p, k + 1, before + PRINTED_KEYS[k] + ValueText(InOrder(p)[k].1))
  }

  lemma {:induction false} FieldsPrinted(p: Pull, k: nat, before: string)
    requires 1 <= k <= 6
    ensures before + AfterEntry(InOrder(p)[k..]) == FromField(p, k, before)
    decreases 6 - k
  {
    var e := InOrder(p);
    if k == 6 {
      assert e[k..] == [];
    } else {
      KeyIsPrinted(p, k);
      FieldsPrinted(p, k + 1, before + PRINTED_KEYS[k] + ValueText(e[k].1));
      hide ValueText, InOrder, PRINTED_KEYS, AfterEntry, PlainCharacters;
      assert e[k..][0] == e[k] && e[k..][1..] == e[k + 1..];
      NextPlainEntry(before, e[k..], "\"" + e[k].0 + "\":");
    }
  }

  lemma CanonicalPullFields(p: Pull)
    ensures CanonicalPull(p) == FromField(p, 0, "")
  {
    var e := InOrder(p);
    FieldsInOrder(p);
    assert CanonicalPull(p) == "{" + EntriesText(e) by { hide EntriesText, InOrder, Fields; }
    assert |e| == 6 && FromField(p, 0, "") == FromField(p, 1, "" + PRINTED_KEYS[0] + ValueText(e[0].1)) by {
      hide PRINTED_KEYS, ValueText, Nullable;
    }
    hide *;
    KeyIsPrinted(p, 0);
    PlainEntry("{", e, "\"" + e[0].0 + "\":");
    FieldsPrinted(p, 1, PRINTED_KEYS[0] + ValueText(e[0].1));
    assert "" + PRINTED_KEYS[0] == PRINTED_KEYS[0];
  }

  /**
   * What is hashed of a pull: its six fields in this order, whatever order they are stored in, and no
   * white space.
   */
  lemma CanonicalPullText(p: Pull)
    ensures CanonicalPull(p)
            == "{\"cardVariantId\":" + ValueText(Nullable(p.cardVariantId))
               + ",\"label\":" + ValueText(Nullable(p.cardLabel))
               + ",\"pulledAt\":" + ValueText(Str(p.pulledAt))
               + ",\"seq\":" + ValueText(Num(p.seqNo))
               + ",\"valueCentsAtPull\":" + ValueText(Num(p.valueCentsAtPull))
               + ",\"valueSource\":" + ValueText(Str(p.valueSource)) + "}"
  {
    CanonicalPullFields(p);
    hide ValueText, Nullable, CanonicalPull;
    assert "" + PRINTED_KEYS[0] == PRINTED_KEYS[0];
  }

  /** Different pulls never print alike, so a hash of the text is a hash of the pull. */
  lemma CanonicalPullInjective(p: Pull, q: Pull)
    requires CanonicalPull(p) == CanonicalPull(q)
    ensures p == q
  {
    assert EntriesText(SortByKey(Fields(p))) == CanonicalPull(p)[1..];
    assert EntriesText(SortByKey(Fields(q))) == CanonicalPull(q)[1..];
    EntriesTextInjective(SortByKey(Fields(p)), SortByKey(Fields(q)));
    forall k | 0 <= k < 6 ensures Fields(p)[k] == Fields(q)[k] {
      var e := Fields(p)[k];
      SortMember(e, Fields(p));
      SortMember(e, Fields(q));
      var m :| 0 <= m < 6 && Fields(q)[m] == e;
      FieldKeysDistinct(q);
      assert Fields(p)[k].0 == Fields(q)[k].0;
      assert m == k;
    }
    assert Fields(p)[0] == Fields(q)[0] && Fields(p)[1] == Fields(q)[1] && Fields(p)[2] == Fields(q)[2];
    assert Fields(p)[3] == Fields(q)[3] && Fields(p)[4] == Fields(q)[4] && Fields(p)[5] == Fields(q)[5];
  }

  lemma FieldKeysDistinct(p: Pull)
    ensures DistinctKeys(Fields(p))
  {
    var keys := ["seq", "cardVariantId", "label", "valueCentsAtPull", "valueSource", "pulledAt"];
    assert forall k :: 0 <= k < 6 ==> Fields(p)[k].0 == keys[k];
    assert |keys[0]| == 3 && |keys[1]| == 13 && |keys[2]| == 5 && |keys[3]| == 16 && |keys[4]| == 11 && |keys[5]| == 8;
  }

  // ------------------------------------------------------------------ //
  // The chain
  // ------------------------------------------------------------------ //

  type Hash = string -> string

  function Repeated(c: char, n: nat): (s: string)
    ensures |s| == n && forall k :: 0 <= k < n ==> s[k] == c
  {
    seq(n, _ => c)
  }

  const GENESIS_HASH: string := Repeated('0', 64)

  function HashInput(prevHash: string, p: Pull): string {
    prevHash + CanonicalPull(p)
  }

  function HashPull(sha256: Hash, prevHash: string, p: Pull): string {
    sha256(HashInput(prevHash, p))
  }

  function ExpectedPrev(rows: seq<Row>, k: nat): string
    requires k <= |rows|
  {
    if k == 0 then GENESIS_HASH else rows[k - 1].rowHash
  }

  predicate RowLinked(sha256: Hash, rows: seq<Row>, k: nat)
    requires k < |rows|
  {
    && rows[k].prevHash == ExpectedPrev(rows, k)
    && rows[k].rowHash == HashPull(sha256, rows[k].prevHash, rows[k].pull)
  }

  predicate WellLinked(sha256: Hash, rows: seq<Row>) {
    forall k :: 0 <= k < |rows| ==> RowLinked(sha256, rows, k)
  }

  datatype Verdict = Verdict(valid: bool, brokenAtSeq: Option<int>)

  /** Row k is the first that does not link. */
  ghost predicate FirstBroken(sha256: Hash, rows: seq<Row>, k: nat) {
    k < |rows| && WellLinked(sha256, rows[..k]) && !RowLinked(sha256, rows, k)
  }

  lemma WellLinkedExtends(sha256: Hash, rows: seq<Row>, k: nat)
    requires k < |rows| && WellLinked(sha256, rows[..k])
    ensures RowLinked(sha256, rows, k) <==> WellLinked(sha256, rows[..k + 1])
  {
    var longer := rows[..k + 1];
    forall i | 0 <= i < k ensures RowLinked(sha256, longer, i) {
      assert RowLinked(sha256, rows[..k], i);
    }
    assert RowLinked(sha256, rows, k) == RowLinked(sha256, longer, k);
  }

  /** What linking takes: the hash before, or 64 zeros, and the hash of it followed by the pull's text. */
  lemma WellLinkedIff(sha256: Hash, rows: seq<Row>)
    ensures WellLinked(sha256, rows)
            <==> && (|rows| > 0 ==> |rows[0].prevHash| == 64 && forall k :: 0 <= k < 64 ==> rows[0].prevHash[k] == '0')
                 && (forall k :: 0 < k < |rows| ==> rows[k].prevHash == rows[k - 1].rowHash)
                 && forall k :: 0 <= k < |rows| ==>
                      rows[k].rowHash == sha256(rows[k].prevHash + CanonicalPull(rows[k].pull))
  {
    if |rows| > 0 { GenesisIsZeros(rows[0].prevHash); }
    hide GENESIS_HASH, CanonicalPull;
    if WellLinked(sha256, rows) {
      forall k | 0 <= k < |rows|
        ensures rows[k].prevHash == ExpectedPrev(rows, k)
        ensures rows[k].rowHash == sha256(rows[k].prevHash + CanonicalPull(rows[k].pull))
      {
        assert RowLinked(sha256, rows, k);
      }
    }
  }

  lemma GenesisIsZeros(h: string)
    ensures h == GENESIS_HASH <==> |h| == 64 && forall k :: 0 <= k < 64 ==> h[k] == '0'
  {
    var zeros := Repeated('0', 64);
    if |h| == 64 && forall k :: 0 <= k < 64 ==> h[k] == '0' {
      assert forall k :: 0 <= k < 64 ==> h[k] == zeros[k];
      assert h == zeros;
    }
  }

  /** Accepts exactly the well-linked logs, and otherwise names the first row that does not link. */
  method VerifyChain(sha256: Hash, rows: seq<Row>) returns (v: Verdict)
    ensures v.valid <==> WellLinked(sha256, rows)
    ensures v.valid ==> v.brokenAtSeq == None
    ensures !v.valid ==> exists k: nat :: FirstBroken(sha256, rows, k) && v.brokenAtSeq == Some(rows[k].pull.seqNo)
  {
    var expectedPrev := GENESIS_HASH;
    for i := 0 to |rows|
      invariant expectedPrev == ExpectedPrev(rows, i)
      invariant WellLinked(sha256, rows[..i])
    {
      var row := rows[i];
      WellLinkedExtends(sha256, rows, i);
      if row.prevHash != expectedPrev {
        assert FirstBroken(sha256, rows, i);
        return Verdict(false, Some(row.pull.seqNo));
      }
      var expectedHash := HashPull(sha256, row.prevHash, row.pull);
      if expectedHash != row.rowHash {
        assert FirstBroken(sha256, rows, i);
        return Verdict(false, Some(row.pull.seqNo));
      }
      expectedPrev := row.rowHash;
    }
    assert rows[..|rows|] == rows;
    return Verdict(true, None);
  }

  /** Two different texts hashed by these logs that hash alike. */
  ghost predicate Collision(sha256: Hash, a: seq<Row>, b: seq<Row>) {
    exists i, j :: 0 <= i < |a| && 0 <= j < |b|
                   && HashInput(a[i].prevHash, a[i].pull) != HashInput(b[j].prevHash, b[j].pull)
                   && HashPull(sha256, a[i].prevHash, a[i].pull) == HashPull(sha256, b[j].prevHash, b[j].pull)
  }

  /** A row whose hash is the genesis value. */
  ghost predicate HitsGenesis(rows: seq<Row>) {
    exists k :: 0 <= k < |rows| && rows[k].rowHash == GENESIS_HASH
  }

  lemma ExpectedPrevLength(sha256: Hash, rows: seq<Row>, k: nat)
    requires WellLinked(sha256, rows) && k <= |rows|
    requires forall s :: |sha256(s)| == 64
    ensures |ExpectedPrev(rows, k)| == 64
  {
    if k > 0 { assert RowLinked(sha256, rows, k - 1); }
  }

  lemma SameInputSameRow(sha256: Hash, a: seq<Row>, m: nat, b: seq<Row>, n: nat)
    requires forall s :: |sha256(s)| == 64
    requires WellLinked(sha256, a) && WellLinked(sha256, b) && m < |a| && n < |b|
    requires HashInput(a[m].prevHash, a[m].pull) == HashInput(b[n].prevHash, b[n].pull)
    ensures a[m] == b[n] && ExpectedPrev(a, m) == ExpectedPrev(b, n)
  {
    assert RowLinked(sha256, a, m) && RowLinked(sha256, b, n);
    ExpectedPrevLength(sha256, a, m);
    ExpectedPrevLength(sha256, b, n);
    var input := HashInput(a[m].prevHash, a[m].pull);
    assert a[m].prevHash == input[..64] && b[n].prevHash == input[..64];
    assert CanonicalPull(a[m].pull) == input[64..] && CanonicalPull(b[n].pull) == input[64..];
    CanonicalPullInjective(a[m].pull, b[n].pull);
  }

  /**
   * The last hash fixes the whole log: two accepted logs that end alike are the same, row for row,
   * unless one of them exhibits a collision or a row hashing to the genesis value.
   */
  lemma {:induction false} SameTipSameLog(sha256: Hash, a: seq<Row>, b: seq<Row>)
    requires forall s :: |sha256(s)| == 64
    requires WellLinked(sha256, a) && WellLinked(sha256, b) && |a| > 0 && |b| > 0
    requires a[|a| - 1].rowHash == b[|b| - 1].rowHash
    ensures a == b || Collision(sha256, a, b) || HitsGenesis(a) || HitsGenesis(b)
    decreases |a|
  {
    hide HashInput, WellLinked, Collision, HitsGenesis;
    var m, n := |a| - 1, |b| - 1;
    LastRowLinked(sha256, a);
    LastRowLinked(sha256, b);
    if HashInput(a[m].prevHash, a[m].pull) == HashInput(b[n].prevHash, b[n].pull) {
      SameInputSameRow(sha256, a, m, b, n);
      GenesisBehind(a, m);
      GenesisBehind(b, n);
      assert a == a[..m] + [a[m]] && b == b[..n] + [b[n]];
      if m > 0 && n > 0 {
        PrefixAccepted(sha256, a, m);
        PrefixAccepted(sha256, b, n);
        SameTipSameLog(sha256, a[..m], b[..n]);
        FaultInPrefix(sha256, a, m, b, n);
      }
    } else {
      DifferentInputsCollide(sha256, a, m, b, n);
    }
  }

  lemma GenesisBehind(rows: seq<Row>, k: nat)
    requires k < |rows|
    ensures k > 0 && ExpectedPrev(rows, k) == GENESIS_HASH ==> HitsGenesis(rows)
  {
  }

  lemma DifferentInputsCollide(sha256: Hash, a: seq<Row>, m: nat, b: seq<Row>, n: nat)
    requires m < |a| && n < |b| && RowLinked(sha256, a, m) && RowLinked(sha256, b, n) && a[m].rowHash == b[n].rowHash
    requires HashInput(a[m].prevHash, a[m].pull) != HashInput(b[n].prevHash, b[n].pull)
    ensures Collision(sha256, a, b)
  {
    hide HashInput;
  }

  lemma LastRowLinked(sha256: Hash, rows: seq<Row>)
    requires WellLinked(sha256, rows) && |rows| > 0
    ensures RowLinked(sha256, rows, |rows| - 1)
  {
  }

  lemma FaultInPrefix(sha256: Hash, a: seq<Row>, m: nat, b: seq<Row>, n: nat)
    requires m <= |a| && n <= |b|
    ensures Collision(sha256, a[..m], b[..n]) ==> Collision(sha256, a, b)
    ensures HitsGenesis(a[..m]) ==> HitsGenesis(a)
    ensures HitsGenesis(b[..n]) ==> HitsGenesis(b)
  {
    hide HashInput;
    var pa, pb := a[..m], b[..n];
    if Collision(sha256, pa, pb) {
      var i, j :| 0 <= i < m && 0 <= j < n
                  && HashInput(pa[i].prevHash, pa[i].pull) != HashInput(pb[j].prevHash, pb[j].pull)
                  && HashPull(sha256, pa[i].prevHash, pa[i].pull) == HashPull(sha256, pb[j].prevHash, pb[j].pull);
      assert HashInput(a[i].prevHash, a[i].pull) != HashInput(b[j].prevHash, b[j].pull);
    }
    assert forall k :: 0 <= k < m ==> pa[k] == a[k];
    assert forall k :: 0 <= k < n ==> pb[k] == b[k];
  }

  /** A prefix of an accepted log is accepted: cutting off the tail is not detected. */
  lemma PrefixAccepted(sha256: Hash, rows: seq<Row>, k: nat)
    requires WellLinked(sha256, rows) && k <= |rows|
    ensures WellLinked(sha256, rows[..k])
  {
    forall i | 0 <= i < k ensures RowLinked(sha256, rows[..k], i) {
      assert RowLinked(sha256, rows, i);
    }
  }
}
