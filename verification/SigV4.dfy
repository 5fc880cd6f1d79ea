/**
 * Percent-encoding for AWS signatures (packages/photos/src/sigv4.ts), and reading it back (RFC 3986,
 * sections 2.1 and 2.3). Strings are sequences of Unicode scalar values.
 */
module SigV4 {
  import opened Wrappers
  import opened Bytes
  import opened Sorting
  import opened Text
  import Utf8

  // ------------------------------------------------------------------ //
  // Encoding
  // ------------------------------------------------------------------ //

  predicate Unreserved(c: char) {
    'A' <= c <= 'Z' || 'a' <= c <= 'z' || '0' <= c <= '9' || c == '-' || c == '_' || c == '.' || c == '~'
  }

  function HexDigit(n: nat): char
    requires n < 16
  {
    if n < 10 then '0' + n as char else 'A' + (n - 10) as char
  }

  function PercentByte(b: Byte): string {
    ['%', HexDigit(b / 16), HexDigit(b % 16)]
  }

  function PercentBytes(bytes: seq<Byte>): string {
    if |bytes| == 0 then "" else PercentBytes(bytes[..|bytes| - 1]) + PercentByte(bytes[|bytes| - 1])
  }

  function EncodeOne(c: char, encodeSlash: bool): string {
    if Unreserved(c) || (c == '/' && !encodeSlash) then [c] else PercentBytes(Utf8.EncodeChar(c))
  }

  function Encoded(value: string, encodeSlash: bool): string {
    if |value| == 0 then "" else Encoded(value[..|value| - 1], encodeSlash) + EncodeOne(value[|value| - 1], encodeSlash)
  }

  method UriEncode(value: string, encodeSlash: bool := true) returns (out: string)
    ensures out == Encoded(value, encodeSlash)
  {
    hide Unreserved, PercentByte;
    out := "";
    for i := 0 to |value|
      invariant out == Encoded(value[..i], encodeSlash)
    {
      var c := value[i];
      assert value[..i + 1][..i] == value[..i];
      if Unreserved(c) {
        out := out + [c];
      } else if c == '/' && !encodeSlash {
        out := out + "/";
      } else {
        var bytes := Utf8.EncodeChar(c);
        ghost var before := out;
        assert before + "" == before;
        for k := 0 to |bytes|
          invariant out == before + PercentBytes(bytes[..k])
        {
          assert bytes[..k + 1][..k] == bytes[..k];
          out := out + PercentByte(bytes[k]);
        }
        assert bytes[..|bytes|] == bytes;
      }
    }
    assert value[..|value|] == value;
  }

  // ------------------------------------------------------------------ //
  // Decoding
  // ------------------------------------------------------------------ //

  function HexValue(c: char): Option<nat> {
    if '0' <= c <= '9' then Some((c as int - '0' as int) as nat)
    else if 'A' <= c <= 'F' then Some((c as int - 'A' as int) as nat + 10)
    else None
  }

  /** The bytes a percent-encoded text stands for; `None` for a broken escape. */
  function DecodedBytes(s: string): Option<seq<Byte>>
    decreases |s|
  {
    if |s| == 0 then Some([])
    else if s[0] == '%' then
      if |s| < 3 || HexValue(s[1]) == None || HexValue(s[2]) == None then None
      else match DecodedBytes(s[3..])
        case None => None
        case Some(rest) => Some([HexByte(s[1], s[2])] + rest)
    else match DecodedBytes(s[1..])
      case None => None
      case Some(rest) => Some(Utf8.EncodeChar(s[0]) + rest)
  }

  function HexByte(hi: char, lo: char): Byte
    requires HexValue(hi).Some? && HexValue(lo).Some?
  {
    HexValue(hi).value * 16 + HexValue(lo).value
  }

  function PercentDecode(s: string): Option<string> {
    match DecodedBytes(s)
    case None => None
    case Some(bytes) => Utf8.Decode(bytes)
  }

  function Prepend(bytes: seq<Byte>, rest: Option<seq<Byte>>): Option<seq<Byte>> {
    if rest == None then None else Some(bytes + rest.value)
  }

  lemma DecodePercentByte(b: Byte, rest: string)
    ensures DecodedBytes(PercentByte(b) + rest) == Prepend([b], DecodedBytes(rest))
  {
    var s := PercentByte(b) + rest;
    assert s[3..] == rest && s[0] == '%' && s[1] == HexDigit(b / 16) && s[2] == HexDigit(b % 16);
    assert HexValue(HexDigit(b / 16)) == Some(b / 16) && HexValue(HexDigit(b % 16)) == Some(b % 16);
    assert b / 16 * 16 + b % 16 == b;
  }

  lemma {:induction false} DecodePercentBytes(bytes: seq<Byte>, rest: string)
    ensures DecodedBytes(PercentBytes(bytes) + rest) == Prepend(bytes, DecodedBytes(rest))
    decreases |bytes|
  {
    hide DecodedBytes, PercentByte;
    if |bytes| == 0 {
      assert PercentBytes(bytes) + rest == rest;
      if DecodedBytes(rest).Some? { assert bytes + DecodedBytes(rest).value == DecodedBytes(rest).value; }
    } else {
      var n := |bytes| - 1;
      var tail := PercentByte(bytes[n]) + rest;
      assert PercentBytes(bytes) + rest == PercentBytes(bytes[..n]) + tail;
      DecodePercentBytes(bytes[..n], tail);
      DecodePercentByte(bytes[n], rest);
      assert bytes == bytes[..n] + [bytes[n]];
      if DecodedBytes(rest).Some? {
        assert bytes[..n] + ([bytes[n]] + DecodedBytes(rest).value) == bytes + DecodedBytes(rest).value;
      }
    }
  }

  lemma DecodeEncodedOne(c: char, encodeSlash: bool, rest: string)
    ensures DecodedBytes(EncodeOne(c, encodeSlash) + rest) == Prepend(Utf8.EncodeChar(c), DecodedBytes(rest))
  {
    if Unreserved(c) || (c == '/' && !encodeSlash) {
      assert ([c] + rest)[1..] == rest;
    } else {
      DecodePercentBytes(Utf8.EncodeChar(c), rest);
    }
  }

  lemma {:induction false} Utf8OfConcat(a: string, b: string)
    ensures Utf8.Encode(a + b) == Utf8.Encode(a) + Utf8.Encode(b)
    decreases |a|
  {
    hide Utf8.EncodeChar;
    if |a| == 0 {
      assert a + b == b;
    } else {
      assert (a + b)[1..] == a[1..] + b;
      Utf8OfConcat(a[1..], b);
    }
  }

  lemma {:induction false} DecodedBytesOfEncoded(value: string, encodeSlash: bool, rest: string)
    ensures DecodedBytes(Encoded(value, encodeSlash) + rest) == Prepend(Utf8.Encode(value), DecodedBytes(rest))
    decreases |value|
  {
    hide DecodedBytes, EncodeOne, Utf8.EncodeChar;
    if |value| == 0 {
      assert Encoded(value, encodeSlash) + rest == rest;
      if DecodedBytes(rest).Some? { assert [] + DecodedBytes(rest).value == DecodedBytes(rest).value; }
    } else {
      var n := |value| - 1;
      var c := value[n];
      var tail := EncodeOne(c, encodeSlash) + rest;
      assert Encoded(value, encodeSlash) + rest == Encoded(value[..n], encodeSlash) + tail;
      DecodedBytesOfEncoded(value[..n], encodeSlash, tail);
      DecodeEncodedOne(c, encodeSlash, rest);
      assert value == value[..n] + [c];
      Utf8OfConcat(value[..n], [c]);
      Utf8OfOne(c);
      if DecodedBytes(rest).Some? {
        var a, b, d := Utf8.Encode(value[..n]), Utf8.EncodeChar(c), DecodedBytes(rest).value;
        assert a + (b + d) == a + b + d;
      }
    }
  }

  lemma Utf8OfOne(c: char)
    ensures Utf8.Encode([c]) == Utf8.EncodeChar(c)
  {
    assert [c][1..] == "";
  }

  /** Percent-decoding gives back every string, with or without its slashes encoded. */
  lemma DecodeEncoded(value: string, encodeSlash: bool)
    ensures PercentDecode(Encoded(value, encodeSlash)) == Some(value)
  {
    DecodedBytesOfEncoded(value, encodeSlash, "");
    assert Encoded(value, encodeSlash) + "" == Encoded(value, encodeSlash);
    assert Utf8.Encode(value) + [] == Utf8.Encode(value);
    Utf8.DecodeEncode(value);
  }

  /** The output alphabet: unreserved characters, escapes, and the slash only when asked for. */
  predicate EncodedChar(c: char, encodeSlash: bool) {
    Unreserved(c) || c == '%' || (c == '/' && !encodeSlash)
  }

  lemma {:induction false} PercentAlphabet(bytes: seq<Byte>, encodeSlash: bool)
    ensures forall k :: 0 <= k < |PercentBytes(bytes)| ==> EncodedChar(PercentBytes(bytes)[k], encodeSlash)
    decreases |bytes|
  {
    if |bytes| == 0 {
    } else {
      PercentAlphabet(bytes[..|bytes| - 1], encodeSlash);
    }
  }

  lemma {:induction false} EncodedAlphabet(value: string, encodeSlash: bool)
    ensures forall k :: 0 <= k < |Encoded(value, encodeSlash)| ==>
              EncodedChar(Encoded(value, encodeSlash)[k], encodeSlash)
    decreases |value|
  {
    hide PercentBytes, Utf8.EncodeChar;
    if |value| == 0 {
    } else {
      EncodedAlphabet(value[..|value| - 1], encodeSlash);
      PercentAlphabet(Utf8.EncodeChar(value[|value| - 1]), encodeSlash);
    }
  }

  /** So no two strings encode alike, and an encoded string holds none of the separators. */
  lemma EncodedIsInert(value: string)
    ensures '&' !in Encoded(value, true) && '=' !in Encoded(value, true) && '/' !in Encoded(value, true)
  {
    EncodedAlphabet(value, true);
    hide Encoded;
  }

  /** The unreserved characters by their code points: letters, digits, hyphen, full stop, underscore, tilde. */
  ghost predicate UnreservedPoint(n: int) {
    65 <= n <= 90 || 97 <= n <= 122 || 48 <= n <= 57 || n in {45, 46, 95, 126}
  }

  lemma HexDigitTable(d: nat)
    requires d < 16
    ensures HexDigit(d) == "0123456789ABCDEF"[d]
  {
  }

  lemma PercentByteText(b: Byte)
    ensures PercentByte(b) == ['%', "0123456789ABCDEF"[b as int / 16], "0123456789ABCDEF"[b as int % 16]]
  {
    HexDigitTable(b as int / 16);
    HexDigitTable(b as int % 16);
  }

  /** A percent sign and two capital hexadecimal digits for each byte. */
  ghost function Escaped(bytes: seq<Byte>): string {
    if |bytes| == 0 then ""
    else ['%', "0123456789ABCDEF"[bytes[0] as int / 16], "0123456789ABCDEF"[bytes[0] as int % 16]] + Escaped(bytes[1..])
  }

  lemma {:induction false} PercentFirst(b: Byte, rest: seq<Byte>)
    ensures PercentBytes([b] + rest) == PercentByte(b) + PercentBytes(rest)
    decreases |rest|
  {
    hide PercentByte;
    var all := [b] + rest;
    if |rest| == 0 {
      assert all[..0] == [] && all[0] == b;
      assert PercentBytes(all) == "" + PercentByte(b);
    } else {
      var n := |rest| - 1;
      assert all[..|all| - 1] == [b] + rest[..n] && all[|all| - 1] == rest[n];
      PercentFirst(b, rest[..n]);
      Regroup(PercentByte(b), PercentBytes(rest[..n]), PercentByte(rest[n]));
    }
  }

  lemma {:induction false} PercentIsEscaped(bytes: seq<Byte>)
    ensures PercentBytes(bytes) == Escaped(bytes)
    decreases |bytes|
  {
    hide PercentByte;
    if |bytes| == 0 {
    } else {
      assert bytes == [bytes[0]] + bytes[1..];
      PercentFirst(bytes[0], bytes[1..]);
      PercentIsEscaped(bytes[1..]);
      PercentByteText(bytes[0]);
    }
  }

  /** The encoding, one character after another: as it stands, or its UTF-8 escaped. */
  lemma EncodedOneByOne(value: string, c: char, encodeSlash: bool)
    ensures Encoded("", encodeSlash) == ""
    ensures Encoded(value + [c], encodeSlash)
            == Encoded(value, encodeSlash)
               + (if UnreservedPoint(c as int) || (c as int == 47 && !encodeSlash) then [c]
                  else Escaped(Utf8.EncodeChar(c)))
  {
    assert (value + [c])[..|value|] == value;
    PercentIsEscaped(Utf8.EncodeChar(c));
    hide PercentBytes, Utf8.EncodeChar, Escaped;
    assert Unreserved(c) <==> UnreservedPoint(c as int);
  }

  /** A text is its own encoding exactly when it is all unreserved; any other character takes at least three. */
  lemma {:induction false} PlainIffUnreserved(value: string)
    ensures |Encoded(value, true)| >= |value|
    ensures |Encoded(value, true)| == |value| <==> forall k :: 0 <= k < |value| ==> UnreservedPoint(value[k] as int)
    ensures |Encoded(value, true)| == |value| ==> Encoded(value, true) == value
    decreases |value|
  {
    hide PercentBytes, Utf8.EncodeChar;
    if |value| == 0 {
    } else {
      var n := |value| - 1;
      assert Unreserved(value[n]) <==> UnreservedPoint(value[n] as int);
      hide Unreserved, UnreservedPoint;
      PlainIffUnreserved(value[..n]);
      EscapesAreLong(Utf8.EncodeChar(value[n]));
      assert value == value[..n] + [value[n]];
      assert forall k :: 0 <= k < n ==> value[..n][k] == value[k];
    }
  }

  lemma {:induction false} EscapesAreLong(bytes: seq<Byte>)
    ensures |PercentBytes(bytes)| == 3 * |bytes|
    decreases |bytes|
  {
    if |bytes| == 0 {
    } else {
      EscapesAreLong(bytes[..|bytes| - 1]);
    }
  }

  lemma EncodedInjective(a: string, b: string)
    requires Encoded(a, true) == Encoded(b, true)
    ensures a == b
  {
    hide Encoded, PercentDecode;
    DecodeEncoded(a, true);
    DecodeEncoded(b, true);
  }

  // ------------------------------------------------------------------ //
  // The canonical query
  // ------------------------------------------------------------------ //

  /** A map's entries in insertion order: every key once. */
  type Entries = seq<(string, string)>

  function EncodedPair(e: (string, string)): (string, string) {
    (Encoded(e.0, true), Encoded(e.1, true))
  }

  function EncodeEntries(params: Entries): (r: Entries)
    ensures |r| == |params| && forall k :: 0 <= k < |r| ==> r[k] == EncodedPair(params[k])
  {
    seq(|params|, k requires 0 <= k < |params| => EncodedPair(params[k]))
  }

  function Pairs(entries: Entries): (r: seq<string>)
    ensures |r| == |entries| && forall k :: 0 <= k < |r| ==> r[k] == entries[k].0 + ("=" + entries[k].1)
  {
    seq(|entries|, k requires 0 <= k < |entries| => entries[k].0 + ("=" + entries[k].1))
  }

  function CanonicalQuery(params: Entries): string {
    Join(Pairs(SortByKey(EncodeEntries(params))), '&')
  }

  lemma EncodedKeysDiffer(params: Entries)
    requires DistinctKeys(params)
    ensures DistinctKeys(EncodeEntries(params))
  {
    hide Encoded;
    forall i, j | 0 <= i < j < |params| ensures EncodeEntries(params)[i].0 != EncodeEntries(params)[j].0 {
      if Encoded(params[i].0, true) == Encoded(params[j].0, true) { EncodedInjective(params[i].0, params[j].0); }
    }
  }

  lemma EncodedMembers(params: Entries, others: Entries)
    requires forall e :: e in params ==> e in others
    ensures forall e :: e in EncodeEntries(params) ==> e in EncodeEntries(others)
  {
    hide Encoded;
    forall e | e in EncodeEntries(params) ensures e in EncodeEntries(others) {
      var k :| 0 <= k < |params| && EncodeEntries(params)[k] == e;
      assert params[k] in params;
      var j :| 0 <= j < |others| && others[j] == params[k];
      assert EncodeEntries(others)[j] == e;
    }
  }

  /** The order in which parameters were set does not matter. */
  lemma QueryIgnoresInsertionOrder(a: Entries, b: Entries)
    requires DistinctKeys(a) && DistinctKeys(b) && |a| == |b| && forall e :: e in a <==> e in b
    ensures CanonicalQuery(a) == CanonicalQuery(b)
  {
    hide Encoded, SortByKey;
    EncodedKeysDiffer(a);
    EncodedKeysDiffer(b);
    EncodedMembers(a, b);
    EncodedMembers(b, a);
    SortIgnoresOrder(EncodeEntries(a), EncodeEntries(b));
  }

  /** One `key=value`, decoded. */
  function ReadPair(pair: string): Option<(string, string)> {
    var parts := SplitOn(pair, '=');
    if |parts| != 2 then None
    else match (PercentDecode(parts[0]), PercentDecode(parts[1]))
      case (Some(key), Some(value)) => Some((key, value))
      case _ => None
  }

  function ReadPairs(pairs: seq<string>): Option<Entries> {
    if |pairs| == 0 then Some([])
    else match (ReadPair(pairs[0]), ReadPairs(pairs[1..]))
      case (Some(entry), Some(rest)) => Some([entry] + rest)
      case _ => None
  }

  /** A query string read back: the empty one has no parameters. */
  function ReadQuery(query: string): Option<Entries> {
    if query == "" then Some([]) else ReadPairs(SplitOn(query, '&'))
  }

  lemma ReadEncodedPair(key: string, value: string)
    ensures ReadPair(Encoded(key, true) + ("=" + Encoded(value, true))) == Some((key, value))
    ensures '&' !in Encoded(key, true) + ("=" + Encoded(value, true))
  {
    hide Encoded, PercentDecode;
    EncodedIsInert(key);
    EncodedIsInert(value);
    SplitOfFirst(Encoded(key, true), Encoded(value, true), '=');
    SplitOfWhole(Encoded(value, true), '=');
    DecodeEncoded(key, true);
    DecodeEncoded(value, true);
  }

  ghost predicate EncodedFrom(e: (string, string), params: Entries) {
    exists k :: 0 <= k < |params| && e == EncodedPair(params[k])
  }

  /** Reading back a list of encoded entries gives the entries they encode, in order. */
  lemma {:induction false} ReadEncodedPairs(encoded: Entries, params: Entries) returns (read: Entries)
    requires forall k :: 0 <= k < |encoded| ==> EncodedFrom(encoded[k], params)
    ensures ReadPairs(Pairs(encoded)) == Some(read) && |read| == |encoded|
    ensures forall k :: 0 <= k < |read| ==> read[k] in params && encoded[k] == EncodedPair(read[k])
    ensures forall k :: 0 <= k < |encoded| ==> '&' !in Pairs(encoded)[k]
    decreases |encoded|
  {
    hide Encoded, ReadPair;
    if |encoded| == 0 {
      read := [];
    } else {
      assert EncodedFrom(encoded[0], params);
      var k :| 0 <= k < |params| && encoded[0] == EncodedPair(params[k]);
      ReadEncodedPair(params[k].0, params[k].1);
      var rest := ReadEncodedPairs(encoded[1..], params);
      assert Pairs(encoded)[1..] == Pairs(encoded[1..]);
      assert forall j :: 1 <= j < |encoded| ==> Pairs(encoded)[j] == Pairs(encoded[1..])[j - 1];
      read := [params[k]] + rest;
    }
  }

  /** The canonical query reads back as exactly the parameters, each once, in the order of their encoded keys. */
  lemma QueryReadsBack(params: Entries) returns (read: Entries)
    requires DistinctKeys(params)
    ensures ReadQuery(CanonicalQuery(params)) == Some(read)
    ensures |read| == |params| && forall e :: e in read <==> e in params
    ensures forall i, j :: 0 <= i < j < |read| ==> Before(Encoded(read[i].0, true), Encoded(read[j].0, true))
  {
    hide Encoded, SortByKey, ReadPairs;
    var encoded := EncodeEntries(params);
    var sorted := SortByKey(encoded);
    EncodedKeysDiffer(params);
    SortByKeySorts(encoded);
    forall k | 0 <= k < |sorted| ensures EncodedFrom(sorted[k], params) {
      assert sorted[k] in sorted;
      SortMember(sorted[k], encoded);
      var j :| 0 <= j < |encoded| && encoded[j] == sorted[k];
    }
    read := ReadEncodedPairs(sorted, params);
    ReadCoversAll(params, sorted, read);
    QuerySplits(sorted);
    if |params| == 0 { NoPairs(); }
  }

  lemma NoPairs()
    ensures ReadPairs([]) == Some([])
  {
  }

  lemma QuerySplits(sorted: Entries)
    requires forall k :: 0 <= k < |sorted| ==> '&' !in Pairs(sorted)[k]
    ensures |sorted| > 0 ==> Join(Pairs(sorted), '&') != "" && SplitOn(Join(Pairs(sorted), '&'), '&') == Pairs(sorted)
    ensures |sorted| == 0 ==> Join(Pairs(sorted), '&') == ""
  {
    if |sorted| > 0 {
      SplitOfJoin(Pairs(sorted), '&');
      assert '=' in Pairs(sorted)[0];
    }
  }

  lemma ReadCoversAll(params: Entries, sorted: Entries, read: Entries)
    requires |read| == |sorted| && forall k :: 0 <= k < |read| ==>
               read[k] in params && sorted[k] == EncodedPair(read[k])
    requires sorted == SortByKey(EncodeEntries(params))
    ensures forall e :: e in read <==> e in params
  {
    hide Encoded, SortByKey;
    forall e ensures e in read <==> e in params {
      if e in params {
        var j :| 0 <= j < |params| && params[j] == e;
        assert EncodeEntries(params)[j] == EncodedPair(e);
        SortMember(EncodedPair(e), EncodeEntries(params));
        var k :| 0 <= k < |sorted| && sorted[k] == EncodedPair(e);
        EncodedInjective(e.0, read[k].0);
        EncodedInjective(e.1, read[k].1);
        assert read[k] == e;
      }
      if e in read {
        var k :| 0 <= k < |read| && read[k] == e;
      }
    }
  }

  // ------------------------------------------------------------------ //
  // Paths
  // ------------------------------------------------------------------ //

  function EncodeAll(segments: seq<string>): (r: seq<string>)
    ensures |r| == |segments| && forall k :: 0 <= k < |r| ==> r[k] == Encoded(segments[k], true)
  {
    seq(|segments|, k requires 0 <= k < |segments| => Encoded(segments[k], true))
  }

  /** `path.split('/').map(uriEncode).join('/')`, after a slash. */
  function EncodedPath(path: string): string {
    "/" + Join(EncodeAll(SplitOn(path, '/')), '/')
  }

  lemma {:induction false} EncodedFirst(c: char, rest: string, encodeSlash: bool)
    ensures Encoded([c] + rest, encodeSlash) == EncodeOne(c, encodeSlash) + Encoded(rest, encodeSlash)
    decreases |rest|
  {
    hide EncodeOne;
    var s := [c] + rest;
    if |rest| == 0 {
      assert s[..0] == "" && s[0] == c;
      assert Encoded(s, encodeSlash) == "" + EncodeOne(c, encodeSlash);
    } else {
      var n := |rest| - 1;
      assert s[..|s| - 1] == [c] + rest[..n] && s[|s| - 1] == rest[n];
      EncodedFirst(c, rest[..n], encodeSlash);
      var a, b, d := EncodeOne(c, encodeSlash), Encoded(rest[..n], encodeSlash), EncodeOne(rest[n], encodeSlash);
      assert a + b + d == a + (b + d);
    }
  }

  lemma SlashStep(parts: seq<string>)
    requires |parts| > 0
    ensures Join(EncodeAll([""] + parts), '/') == "/" + Join(EncodeAll(parts), '/')
  {
    NothingEncodes();
    hide Encoded;
    assert EncodeAll([""] + parts)[1..] == EncodeAll(parts);
    assert "" + ("/" + Join(EncodeAll(parts), '/')) == "/" + Join(EncodeAll(parts), '/');
  }

  lemma LetterStep(c: char, parts: seq<string>)
    requires |parts| > 0
    ensures Join(EncodeAll([[c] + parts[0]] + parts[1..]), '/') == EncodeOne(c, true) + Join(EncodeAll(parts), '/')
  {
    hide Encoded, EncodeOne, Join;
    EncodedFirst(c, parts[0], true);
    JoinOntoFirst(EncodeOne(c, true), EncodeAll(parts));
    assert EncodeAll([[c] + parts[0]] + parts[1..])
      == [EncodeOne(c, true) + EncodeAll(parts)[0]] + EncodeAll(parts)[1..];
  }

  /** Encoding segment by segment is encoding the whole with its slashes left alone. */
  lemma {:induction false} SegmentsAreThePath(path: string)
    ensures Join(EncodeAll(SplitOn(path, '/')), '/') == Encoded(path, false)
    decreases |path|
  {
    hide Encoded, EncodeOne, Join;
    if |path| == 0 {
      NothingEncodes();
      assert EncodeAll([""]) == [""];
      JoinOne("");
    } else {
      var c, rest := path[0], path[1..];
      var parts := SplitOn(rest, '/');
      SegmentsAreThePath(rest);
      assert path == [c] + rest;
      EncodedFirst(c, rest, false);
      SlashIsKept();
      if c == '/' { SlashStep(parts); } else { OnlySlashDiffers(c); LetterStep(c, parts); }
    }
  }

  lemma JoinOne(part: string)
    ensures Join([part], '/') == part
  {
  }

  lemma NothingEncodes()
    ensures Encoded("", true) == "" && Encoded("", false) == ""
  {
  }

  lemma SlashIsKept()
    ensures EncodeOne('/', false) == "/"
  {
  }

  lemma OnlySlashDiffers(c: char)
    requires c != '/'
    ensures EncodeOne(c, true) == EncodeOne(c, false)
  {
  }

  lemma JoinOntoFirst(front: string, parts: seq<string>)
    requires |parts| > 0
    ensures Join([front + parts[0]] + parts[1..], '/') == front + Join(parts, '/')
  {
    var longer := [front + parts[0]] + parts[1..];
    assert longer[1..] == parts[1..];
    JoinUnfolds(parts);
    JoinUnfolds(longer);
    hide Join;
    if |parts| > 1 { Regroup(front, parts[0], "/" + Join(parts[1..], '/')); }
  }

  lemma JoinUnfolds(parts: seq<string>)
    requires |parts| > 0
    ensures Join(parts, '/') == if |parts| == 1 then parts[0] else parts[0] + ("/" + Join(parts[1..], '/'))
  {
  }

  /** So the signed path decodes to the object's own path. */
  lemma PathReadsBack(path: string)
    ensures EncodedPath(path) == "/" + Encoded(path, false)
    ensures PercentDecode(EncodedPath(path)) == Some("/" + path)
  {
    SegmentsAreThePath(path);
    EncodedFirst('/', path, false);
    SlashIsKept();
    assert EncodedPath(path) == Encoded(['/'] + path, false);
    DecodeEncoded(['/'] + path, false);
  }
}
