/**
 * The JavaScript coercions the request handlers apply to form fields:
 * `field || null` on strings and `parseInt(field) || null` on numbers.
 * Fields arrive as optional strings; `None` is an absent field.
 */
module JsCoercion {
  import opened Wrappers

  /** `field || null`: an absent field and the empty string are both falsy. */
  function Truthy(field: Option<string>): (r: Option<string>)
    ensures r.Some? <==> field.Some? && field.value != ""
    ensures r.Some? ==> r == field
  {
    if field.Some? && field.value != "" then field else None
  }

  /** The characters `parseInt` skips before the number: JavaScript's
      WhiteSpace and LineTerminator code points. */
  predicate IsWhitespace(c: char)
  {
    var n := c as int;
    n == 0x09 || n == 0x0A || n == 0x0B || n == 0x0C || n == 0x0D || n == 0x20 ||
    n == 0xA0 || n == 0x1680 || (0x2000 <= n <= 0x200A) || n == 0x2028 ||
    n == 0x2029 || n == 0x202F || n == 0x205F || n == 0x3000 || n == 0xFEFF
  }

  /** The value of `c` as a digit in any radix up to 36, or 36 when `c` is no digit. */
  function DigitValue(c: char): (d: nat)
    ensures d <= 36
  {
    if '0' <= c <= '9' then c as int - '0' as int
    else if 'a' <= c <= 'z' then c as int - 'a' as int + 10
    else if 'A' <= c <= 'Z' then c as int - 'A' as int + 10
    else 36
  }

  predicate IsDigit(c: char, radix: nat)
  {
    DigitValue(c) < radix
  }

  /** How many whitespace characters `s` starts with. */
  function LeadingWhitespace(s: string): (k: nat)
    ensures k <= |s|
    ensures forall i :: 0 <= i < k ==> IsWhitespace(s[i])
    ensures k == |s| || !IsWhitespace(s[k])
  {
    if |s| > 0 && IsWhitespace(s[0]) then 1 + LeadingWhitespace(s[1..]) else 0
  }

  /** The longest prefix of `s` made of digits of `radix`. */
  function DigitPrefix(s: string, radix: nat): (r: string)
    ensures |r| <= |s| && r == s[..|r|]
    ensures forall i :: 0 <= i < |r| ==> IsDigit(r[i], radix)
    ensures |r| == |s| || !IsDigit(s[|r|], radix)
  {
    if |s| > 0 && IsDigit(s[0], radix) then [s[0]] + DigitPrefix(s[1..], radix) else []
  }

  /** The number that the digits `d` denote in `radix`, most significant first. */
  function Value(d: string, radix: nat): (n: nat)
    requires forall i :: 0 <= i < |d| ==> IsDigit(d[i], radix)
  {
    if |d| == 0 then 0 else Value(d[..|d| - 1], radix) * radix + DigitValue(d[|d| - 1])
  }

  /**
   * The magnitude `parseInt` reads after the sign: a `0x` or `0X` prefix
   * selects radix 16, and the longest run of digits that follows is the
   * number; no digit at all is NaN (`None`).
   */
  function ParseMagnitude(u: string): (r: Option<nat>)
  {
    var hex := |u| >= 2 && u[0] == '0' && (u[1] == 'x' || u[1] == 'X');
    var radix := if hex then 16 else 10;
    var digits := DigitPrefix(if hex then u[2..] else u, radix);
    if |digits| == 0 then None else Some(Value(digits, radix))
  }

  /**
   * `parseInt(s)` with no radix argument; `None` is NaN. Leading whitespace
   * is skipped and one '-' or '+' is read before the magnitude.
   */
  function ParseInt(s: string): (r: Option<int>)
  {
    var t := s[LeadingWhitespace(s)..];
    if |t| > 0 && t[0] == '-' then
      match ParseMagnitude(t[1..])
      case None => None
      case Some(m) => Some(-(m as int))
    else if |t| > 0 && t[0] == '+' then
      match ParseMagnitude(t[1..])
      case None => None
      case Some(m) => Some(m)
    else
      match ParseMagnitude(t)
      case None => None
      case Some(m) => Some(m)
  }

  /**
   * `parseInt(field) || null`. An absent field reads as the string
   * "undefined", which is NaN; NaN and 0 (also -0) are falsy, so both
   * become `None`.
   */
  function ParseIntOrNull(field: Option<string>): (r: Option<int>)
    ensures r.Some? ==> r.value != 0
    ensures r.Some? <==> field.Some? && ParseInt(field.value).Some? && ParseInt(field.value).value != 0
    ensures r.Some? ==> r == ParseInt(field.value)
  {
    match field
    case None => None
    case Some(s) =>
      match ParseInt(s)
      case None => None
      case Some(n) => if n == 0 then None else Some(n)
  }

  /** The decimal rendering of a natural number, as a form would send it. */
  function DecimalText(n: nat): (s: string)
    ensures |s| >= 1
    ensures forall i :: 0 <= i < |s| ==> IsDigit(s[i], 10)
    ensures n >= 1 ==> s[0] != '0'
    ensures n == 0 ==> s == "0"
  {
    var last := [('0' as int + n % 10) as char];
    if n < 10 then last else DecimalText(n / 10) + last
  }

  /** The decimal rendering of an integer, with a leading '-' when negative. */
  function IntText(n: int): string
  {
    if n < 0 then "-" + DecimalText(-n) else DecimalText(n)
  }

  lemma {:induction false} DecimalTextValue(n: nat)
    ensures Value(DecimalText(n), 10) == n
  {
    var d := DecimalText(n);
    if n >= 10 {
      DecimalTextValue(n / 10);
      assert d[..|d| - 1] == DecimalText(n / 10);
    }
  }

  /** A run of digits followed by a non-digit (or by nothing) is the digit prefix. */
  lemma {:induction false} DigitPrefixOfDigits(d: string, rest: string, radix: nat)
    requires forall i :: 0 <= i < |d| ==> IsDigit(d[i], radix)
    requires rest == [] || !IsDigit(rest[0], radix)
    ensures DigitPrefix(d + rest, radix) == d
  {
    if |d| > 0 {
      assert (d + rest)[1..] == d[1..] + rest;
      DigitPrefixOfDigits(d[1..], rest, radix);
    }
  }

  /**
   * `parseInt` reads back the decimal text of any integer, and stops at the
   * first character that is not a decimal digit ("30 minutes" is 30). The
   * one exception is "0" followed by 'x' or 'X', which reads as a hex prefix.
   */
  lemma ParseIntReadsLeadingInteger(n: int, rest: string)
    requires rest == [] || !IsDigit(rest[0], 10)
    requires n == 0 ==> rest == [] || (rest[0] != 'x' && rest[0] != 'X')
    ensures ParseInt(IntText(n) + rest) == Some(n)
  {
    var m := if n < 0 then -n else n;
    var d := DecimalText(m);
    var u := d + rest;
    assert !(|u| >= 2 && u[0] == '0' && (u[1] == 'x' || u[1] == 'X'));
    DigitPrefixOfDigits(d, rest, 10);
    DecimalTextValue(m);
    if n < 0 {
      assert IntText(n) + rest == ['-'] + u;
      ParseIntOfNegative(u, m);
    } else {
      assert IntText(n) + rest == u;
      ParseIntOfUnsigned(u, m);
    }
  }

  /** `parseInt` of text that starts with a decimal digit and no `0x` prefix. */
  lemma ParseIntOfUnsigned(u: string, m: nat)
    requires |u| > 0 && IsDigit(u[0], 10)
    requires !(|u| >= 2 && u[0] == '0' && (u[1] == 'x' || u[1] == 'X'))
    requires Value(DigitPrefix(u, 10), 10) == m
    ensures ParseInt(u) == Some(m)
  {
    assert u[0] != '-' && u[0] != '+' && !IsWhitespace(u[0]);
    assert u[LeadingWhitespace(u)..] == u;
    assert ParseMagnitude(u) == Some(m);
  }

  /** `parseInt` of '-' followed by such text. */
  lemma ParseIntOfNegative(u: string, m: nat)
    requires |u| > 0 && IsDigit(u[0], 10)
    requires !(|u| >= 2 && u[0] == '0' && (u[1] == 'x' || u[1] == 'X'))
    requires Value(DigitPrefix(u, 10), 10) == m
    ensures ParseInt(['-'] + u) == Some(-(m as int))
  {
    assert ParseMagnitude(u) == Some(m);
    var s := ['-'] + u;
    assert s[LeadingWhitespace(s)..] == s && s[1..] == u;
  }

  /**
   * What the handlers see of a numeric field: any nonzero integer comes back
   * as itself, and "0" comes back as `None`, exactly like an absent field.
   */
  lemma ParseIntOrNullOfText(n: int, rest: string)
    requires rest == [] || !IsDigit(rest[0], 10)
    requires n == 0 ==> rest == [] || (rest[0] != 'x' && rest[0] != 'X')
    ensures ParseIntOrNull(Some(IntText(n) + rest)) == if n == 0 then None else Some(n)
  {
    ParseIntReadsLeadingInteger(n, rest);
  }

  /** A field whose first character can start no number is NaN. */
  lemma ParseIntRejectsNonNumeric(s: string)
    requires s == [] || (!IsWhitespace(s[0]) && s[0] != '-' && s[0] != '+' && !IsDigit(s[0], 10))
    ensures ParseInt(s) == None
  {
    assert LeadingWhitespace(s) == 0;
    assert s[0..] == s;
    assert DigitPrefix(s, 10) == [];
    assert ParseMagnitude(s) == None;
  }
}
