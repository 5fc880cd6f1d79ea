/**
 * The `uuid` type as the database reads and prints it: many spellings in, one out. Ids that are hashed
 * or compared as the text a request gave keep their spelling; columns do not.
 */
module Uuids {
  import opened Wrappers
  import opened Text

  predicate IsHex(c: char) {
    '0' <= c <= '9' || 'a' <= c <= 'f' || 'A' <= c <= 'F'
  }

  /** The digits of n more pairs, a hyphen allowed after every second one. */
  function HexPairs(s: string, n: nat): (digits: Option<string>)
    ensures digits.Some? ==> |digits.value| == 2 * n
  {
    if n == 0 then (if s == "" then Some("") else None)
    else if |s| < 2 || !IsHex(s[0]) || !IsHex(s[1]) then None
    else
      var hyphen := n % 2 == 1 && n > 1 && |s| > 2 && s[2] == '-';
      match HexPairs(s[if hyphen then 3 else 2..], n - 1)
      case None => None
      case Some(rest) => Some([LowerChar(s[0]), LowerChar(s[1])] + rest)
  }

  /** What the column accepts: either case, hyphens optional, braces allowed; the value is its 32 digits. */
  function ParseUuid(s: string): (digits: Option<string>)
    ensures digits.Some? ==> |digits.value| == 32
  {
    if |s| >= 2 && s[0] == '{' && s[|s| - 1] == '}' then HexPairs(s[1..|s| - 1], 16) else HexPairs(s, 16)
  }

  /** Printed, the groups are 8, 4, 4, 4 and 12 digits: n is the number of pairs from here on. */
  predicate HyphenAfter(n: nat) {
    n == 13 || n == 11 || n == 9 || n == 7
  }

  function PrintPairs(digits: string, n: nat): string
    requires |digits| == 2 * n
  {
    if n == 0 then ""
    else [digits[0], digits[1]] + ((if HyphenAfter(n) then "-" else "") + PrintPairs(digits[2..], n - 1))
  }

  /** What comes back of a text written to a `uuid` column. */
  function Stored(s: string): Option<string> {
    match ParseUuid(s)
    case None => None
    case Some(digits) => Some(PrintPairs(digits, 16))
  }

  predicate LowerHex(s: string) {
    forall k :: 0 <= k < |s| ==> '0' <= s[k] <= '9' || 'a' <= s[k] <= 'f'
  }

  lemma {:induction false} DigitsAreLowerHex(s: string, n: nat)
    requires HexPairs(s, n).Some?
    ensures LowerHex(HexPairs(s, n).value)
    decreases n
  {
    if n == 0 {
    } else {
      DigitsAreLowerHex(s[if n % 2 == 1 && n > 1 && |s| > 2 && s[2] == '-' then 3 else 2..], n - 1);
    }
  }

  lemma {:induction false} ParsePrinted(digits: string, n: nat)
    requires |digits| == 2 * n && LowerHex(digits)
    ensures HexPairs(PrintPairs(digits, n), n) == Some(digits)
    ensures n > 0 ==> |PrintPairs(digits, n)| >= 2 && PrintPairs(digits, n)[0] == digits[0]
    decreases n
  {
    if n == 0 {
    } else {
      var rest := PrintPairs(digits[2..], n - 1);
      var s := PrintPairs(digits, n);
      ParsePrinted(digits[2..], n - 1);
      assert s == [digits[0], digits[1]] + ((if HyphenAfter(n) then "-" else "") + rest);
      assert s[if HyphenAfter(n) then 3 else 2..] == rest;
      assert digits == [digits[0], digits[1]] + digits[2..];
      if !HyphenAfter(n) && n > 1 { assert s[2] == digits[2..][0]; }
    }
  }

  /** What has come back once comes back the same. */
  lemma StoredIsStable(s: string)
    requires Stored(s).Some?
    ensures Stored(Stored(s).value) == Stored(s)
  {
    var digits := ParseUuid(s).value;
    DigitsAreLowerHex(if |s| >= 2 && s[0] == '{' && s[|s| - 1] == '}' then s[1..|s| - 1] else s, 16);
    ParsePrinted(digits, 16);
    assert PrintPairs(digits, 16)[0] != '{';
    hide HexPairs, PrintPairs;
  }

  /** The shape the routes ask of an id: hyphens where they are printed, hexadecimal digits of either case elsewhere. */
  predicate Shaped(s: string, n: nat) {
    if n == 0 then s == ""
    else
      && |s| >= 2 && IsHex(s[0]) && IsHex(s[1])
      && (if HyphenAfter(n) then |s| > 2 && s[2] == '-' && Shaped(s[3..], n - 1) else Shaped(s[2..], n - 1))
  }

  lemma {:induction false} ShapedIsLowered(s: string, n: nat)
    requires Shaped(s, n)
    ensures HexPairs(s, n).Some? && PrintPairs(HexPairs(s, n).value, n) == Lower(s)
    decreases n
  {
    if n == 0 {
    } else {
      var rest := s[if HyphenAfter(n) then 3 else 2..];
      ShapedIsLowered(rest, n - 1);
      if n > 1 && !HyphenAfter(n) { assert rest[0] == s[2] && IsHex(s[2]); }
      var digits := HexPairs(s, n).value;
      assert digits == [LowerChar(s[0]), LowerChar(s[1])] + HexPairs(rest, n - 1).value;
      assert digits[2..] == HexPairs(rest, n - 1).value;
      assert s == [s[0], s[1]] + ((if HyphenAfter(n) then "-" else "") + rest);
      LowerOfParts(s, rest, HyphenAfter(n));
    }
  }

  lemma LowerOfParts(s: string, rest: string, hyphen: bool)
    requires |s| >= 2 && s == [s[0], s[1]] + ((if hyphen then "-" else "") + rest)
    ensures Lower(s) == [LowerChar(s[0]), LowerChar(s[1])] + ((if hyphen then "-" else "") + Lower(rest))
  {
  }

  /** So an id of that shape comes back in lower case, and as it went in exactly when it had no capitals. */
  lemma StoredIsLowerCase(s: string)
    requires Shaped(s, 16)
    ensures Stored(s) == Some(Lower(s))
    ensures Stored(s) == Some(s) <==> forall k :: 0 <= k < |s| ==> !('A' <= s[k] <= 'Z')
  {
    ShapedIsLowered(s, 16);
    assert s[0] != '{';
    hide HexPairs, PrintPairs, Shaped;
    if forall k :: 0 <= k < |s| ==> !('A' <= s[k] <= 'Z') {
      assert Lower(s) == s;
    } else {
      var k :| 0 <= k < |s| && 'A' <= s[k] <= 'Z';
      assert Lower(s)[k] != s[k];
    }
  }
}
