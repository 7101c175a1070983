/** Decimal numerals and separator-delimited fields: the textual layer that the
    token and password-digest stand-ins are built on. */
module Text {
  import opened Wrappers

  predicate IsDigit(c: char) { '0' <= c <= '9' }

  predicate AllDigits(s: string) { forall i :: 0 <= i < |s| ==> IsDigit(s[i]) }

  /** True when `s` begins with `prefix` (Java's String.startsWith). */
  predicate StartsWith(s: string, prefix: string) {
    |prefix| <= |s| && s[..|prefix|] == prefix
  }

  /** Java's `Character.isWhitespace`: the space, line and paragraph
      separators other than the non-breaking ones, and the control characters
      U+0009 to U+000D and U+001C to U+001F. */
  predicate IsJavaWhitespace(c: char) {
    || ('\U{0009}' <= c <= '\U{000D}')
    || ('\U{001C}' <= c <= '\U{0020}')
    || c == '\U{1680}'
    || ('\U{2000}' <= c <= '\U{200A}' && c != '\U{2007}')
    || c == '\U{2028}' || c == '\U{2029}' || c == '\U{205F}' || c == '\U{3000}'
  }

  /** A string with at least one character that is not whitespace. */
  predicate HasText(s: string) {
    exists i :: 0 <= i < |s| && !IsJavaWhitespace(s[i])
  }

  function DigitChar(d: nat): (c: char)
    requires d < 10
    ensures IsDigit(c)
  {
    (48 + d) as char
  }

  function DigitValue(c: char): (d: nat)
    requires IsDigit(c)
    ensures d < 10
  {
    c as int - 48
  }

  /** The shortest decimal numeral of `n`. */
  function NatToString(n: nat): (s: string)
    ensures |s| > 0 && AllDigits(s)
    decreases n
  {
    if n < 10 then [DigitChar(n)] else NatToString(n / 10) + [DigitChar(n % 10)]
  }

  /** The value of a decimal numeral (leading zeros allowed). */
  function StringToNat(s: string): nat
    requires AllDigits(s)
    decreases |s|
  {
    if s == [] then 0 else StringToNat(s[..|s| - 1]) * 10 + DigitValue(s[|s| - 1])
  }

  lemma {:induction false} StringToNatOfNatToString(n: nat)
    ensures StringToNat(NatToString(n)) == n
    decreases n
  {
    if n >= 10 {
      var s := NatToString(n);
      assert s[..|s| - 1] == NatToString(n / 10);
      StringToNatOfNatToString(n / 10);
    }
  }

  /** The position of the first occurrence of `c` in `s`, if any. */
  function IndexOf(s: string, c: char): (r: Option<nat>)
    ensures r.Some? ==> r.value < |s| && s[r.value] == c
    ensures r.Some? ==> forall i :: 0 <= i < r.value ==> s[i] != c
    ensures r.None? ==> forall i :: 0 <= i < |s| ==> s[i] != c
    decreases |s|
  {
    if s == [] then None
    else if s[0] == c then Some(0)
    else match IndexOf(s[1..], c)
      case None => None
      case Some(k) => Some(k + 1)
  }

  /** A numeral for `n`, then the separator, then `rest`. */
  function Field(n: nat, sep: char, rest: string): string {
    NatToString(n) + [sep] + rest
  }

  /** Reads a non-empty numeral up to the first `sep` and returns its value with
      what follows the separator; None when `s` has no such leading field. */
  function ParseField(s: string, sep: char): Option<(nat, string)> {
    match IndexOf(s, sep)
    case None => None
    case Some(k) =>
      if k > 0 && AllDigits(s[..k]) then Some((StringToNat(s[..k]), s[k + 1..])) else None
  }

  /** A string that starts with a field starts with a digit. */
  lemma ParseFieldLeadingDigit(s: string, sep: char)
    requires ParseField(s, sep).Some?
    ensures |s| > 0 && IsDigit(s[0])
  {
    var k := IndexOf(s, sep).value;
    assert s[..k][0] == s[0];
  }

  lemma ParseFieldOfField(n: nat, sep: char, rest: string)
    requires !IsDigit(sep)
    ensures ParseField(Field(n, sep, rest), sep) == Some((n, rest))
  {
    var d := NatToString(n);
    var s := Field(n, sep, rest);
    assert s[|d|] == sep;
    assert forall i :: 0 <= i < |d| ==> s[i] == d[i];
    assert IndexOf(s, sep) == Some(|d|);
    assert s[..|d|] == d;
    assert s[|d| + 1..] == rest;
    StringToNatOfNatToString(n);
  }

  /** Distinct values give distinct fields. */
  lemma FieldInjective(n1: nat, r1: string, n2: nat, r2: string, sep: char)
    requires !IsDigit(sep)
    requires Field(n1, sep, r1) == Field(n2, sep, r2)
    ensures n1 == n2 && r1 == r2
  {
    ParseFieldOfField(n1, sep, r1);
    ParseFieldOfField(n2, sep, r2);
  }
}
