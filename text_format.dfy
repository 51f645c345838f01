/** The two JavaScript built-ins the page leans on, written out:
    `String.prototype.trim`, applied to both form inputs before they are
    checked, and the integer-to-text conversion that happens when the
    counter is assigned to an element's `textContent`. */
module TextFormat {

  /** The code points `trim` strips: ECMAScript's WhiteSpace (TAB, VT, FF,
      SPACE, NO-BREAK SPACE, ZERO WIDTH NO-BREAK SPACE and the other
      space separators of category Zs) and its LineTerminators (LF, CR,
      LINE SEPARATOR, PARAGRAPH SEPARATOR). */
  predicate IsWhitespace(c: char) {
    || c == '\t' || c == '\U{000B}' || c == '\U{000C}' || c == ' '
    || c == '\U{00A0}' || c == '\U{FEFF}' || c == '\U{1680}'
    || ('\U{2000}' <= c <= '\U{200A}')
    || c == '\U{202F}' || c == '\U{205F}' || c == '\U{3000}'
    || c == '\n' || c == '\r' || c == '\U{2028}' || c == '\U{2029}'
  }

  /** The same code points listed one by one, as ECMAScript's tables of
      WhiteSpace and LineTerminator code points give them. */
  const WhitespaceTable: set<char> := {
    '\t', '\U{000B}', '\U{000C}', ' ', '\U{00A0}', '\U{FEFF}',
    '\U{1680}', '\U{2000}', '\U{2001}', '\U{2002}', '\U{2003}', '\U{2004}',
    '\U{2005}', '\U{2006}', '\U{2007}', '\U{2008}', '\U{2009}', '\U{200A}',
    '\U{202F}', '\U{205F}', '\U{3000}',
    '\n', '\r', '\U{2028}', '\U{2029}'
  }

  /** IsWhitespace holds of exactly the 25 code points of the table; among
      the ASCII characters these are TAB, LF, VT, FF, CR and SPACE. */
  lemma IsWhitespaceMatchesTable(c: char)
    ensures IsWhitespace(c) <==> c in WhitespaceTable
    ensures c < '\U{0080}' ==> (IsWhitespace(c) <==> c in "\t\n\U{000B}\U{000C}\r ")
  {
  }

  predicate AllWhitespace(s: string) {
    forall k :: 0 <= k < |s| ==> IsWhitespace(s[k])
  }

  /** How many whitespace characters `s` starts with: all of the first
      `n` are whitespace and the one after them, if any, is not. */
  function LeadingWhitespace(s: string): (n: nat)
    ensures n <= |s|
    ensures forall k :: 0 <= k < n ==> IsWhitespace(s[k])
    ensures n < |s| ==> !IsWhitespace(s[n])
    decreases |s|
  {
    if s != [] && IsWhitespace(s[0]) then 1 + LeadingWhitespace(s[1..]) else 0
  }

  /** How many whitespace characters `s` ends with: all of the last `n`
      are whitespace and the one before them, if any, is not. */
  function TrailingWhitespace(s: string): (n: nat)
    ensures n <= |s|
    ensures forall k :: |s| - n <= k < |s| ==> IsWhitespace(s[k])
    ensures n < |s| ==> !IsWhitespace(s[|s| - 1 - n])
    decreases |s|
  {
    if s != [] && IsWhitespace(s[|s| - 1]) then 1 + TrailingWhitespace(s[..|s| - 1]) else 0
  }

  /** `String.prototype.trim`: `s` without its leading and trailing
      whitespace. The result neither starts nor ends with whitespace;
      TrimSplit shows that only whitespace was cut off and TrimIsUnique
      that these two facts determine the result. */
  function Trim(s: string): (r: string)
    ensures |r| <= |s|
    ensures r == [] || (!IsWhitespace(r[0]) && !IsWhitespace(r[|r| - 1]))
  {
    var i := LeadingWhitespace(s);
    if i == |s| then [] else s[i..|s| - TrailingWhitespace(s)]
  }

  /** `s` is its trimmed value with whitespace on either side. */
  lemma TrimSplit(s: string) returns (lead: string, trail: string)
    ensures s == lead + Trim(s) + trail
    ensures AllWhitespace(lead) && AllWhitespace(trail)
  {
    var i := LeadingWhitespace(s);
    if i == |s| {
      lead, trail := s, [];
    } else {
      var j := |s| - TrailingWhitespace(s);
      lead, trail := s[..i], s[j..];
      SplitAt(s, i, j);
    }
  }

  /** Any split of `s` into whitespace, a core that neither starts nor ends
      with whitespace, and whitespace, has `Trim(s)` as its core. */
  lemma TrimIsUnique(s: string, a: string, m: string, b: string)
    requires s == a + m + b
    requires AllWhitespace(a) && AllWhitespace(b)
    requires m == [] || (!IsWhitespace(m[0]) && !IsWhitespace(m[|m| - 1]))
    ensures Trim(s) == m
  {
    var n := LeadingWhitespace(s);
    if m != [] {
      assert s[|a|] == m[0];
      assert n == |a|;
      var t := TrailingWhitespace(s);
      assert s[|s| - 1 - |b|] == m[|m| - 1];
      assert t == |b|;
      assert s[|a|..|s| - |b|] == m;
    }
  }

  /** Whitespace padding on either side does not change the trimmed value. */
  lemma TrimIgnoresPadding(a: string, m: string, b: string)
    requires AllWhitespace(a) && AllWhitespace(b)
    ensures Trim(a + m + b) == Trim(m)
  {
    var r := Trim(m);
    var lead, trail := TrimSplit(m);
    Regroup(a, lead, r, trail, b);
    AllWhitespaceConcat(a, lead);
    AllWhitespaceConcat(trail, b);
    TrimIsUnique(a + m + b, a + lead, r, trail + b);
  }

  lemma SplitAt<T>(s: seq<T>, i: nat, j: nat)
    requires i <= j <= |s|
    ensures s == s[..i] + s[i..j] + s[j..]
  {
    assert s == s[..i] + s[i..];
    assert s[i..] == s[i..j] + s[j..];
  }

  lemma Regroup<T>(a: seq<T>, x: seq<T>, y: seq<T>, z: seq<T>, b: seq<T>)
    ensures a + (x + y + z) + b == (a + x) + y + (z + b)
  {
  }

  lemma AllWhitespaceConcat(x: string, y: string)
    requires AllWhitespace(x) && AllWhitespace(y)
    ensures AllWhitespace(x + y)
  {
    forall k | 0 <= k < |x + y| ensures IsWhitespace((x + y)[k]) {
      if k < |x| { assert (x + y)[k] == x[k]; } else { assert (x + y)[k] == y[k - |x|]; }
    }
  }

  /** Trimming twice is trimming once. */
  lemma TrimIdempotent(s: string)
    ensures Trim(Trim(s)) == Trim(s)
  {
    var r := Trim(s);
    assert r == [] + r + [];
    TrimIsUnique(r, [], r, []);
  }

  predicate IsDigit(c: char) {
    '0' <= c <= '9'
  }

  function DigitChar(d: nat): (c: char)
    requires d < 10
  {
    ('0' as int + d) as char
  }

  function DigitValue(c: char): (d: nat)
    requires IsDigit(c)
  {
    c as int - '0' as int
  }

  predicate AllDigits(s: string) {
    forall k :: 0 <= k < |s| ==> IsDigit(s[k])
  }

  /** Decimal rendering of a non-negative integer: a non-empty run of
      digits with no leading zero, the single digit "0" standing for 0. */
  function NatToDecimal(n: nat): (r: string)
    ensures r != [] && AllDigits(r)
    ensures r[0] == '0' <==> n == 0
    ensures n == 0 ==> r == "0"
  {
    if n < 10 then [DigitChar(n)] else NatToDecimal(n / 10) + [DigitChar(n % 10)]
  }

  /** The text JavaScript produces for an integer-valued number: a minus
      sign for negative values, then the decimal digits of the magnitude. */
  function IntToDecimal(n: int): (r: string)
    ensures r != [] && (r[0] == '-' <==> n < 0)
    ensures IsNumeral(r)
    ensures r[0] == '0' ==> r == "0"
    ensures r[0] == '-' ==> r[1] != '0'
  {
    if n < 0 then "-" + NatToDecimal(-n) else NatToDecimal(n)
  }

  /** An optional minus sign followed by at least one digit. */
  predicate IsNumeral(s: string) {
    if s != [] && s[0] == '-' then s[1..] != [] && AllDigits(s[1..])
    else s != [] && AllDigits(s)
  }

  function DigitsValue(s: string): (n: nat)
    requires AllDigits(s)
    decreases |s|
  {
    if s == [] then 0 else DigitsValue(s[..|s| - 1]) * 10 + DigitValue(s[|s| - 1])
  }

  /** Reads a numeral back as an integer (the partner of IntToDecimal). */
  function NumeralValue(s: string): int
    requires IsNumeral(s)
  {
    if s[0] == '-' then -(DigitsValue(s[1..]) as int) else DigitsValue(s)
  }

  lemma {:induction false} NatToDecimalRoundTrip(n: nat)
    ensures DigitsValue(NatToDecimal(n)) == n
  {
    if n >= 10 {
      var front := NatToDecimal(n / 10);
      var s := front + [DigitChar(n % 10)];
      assert s[..|s| - 1] == front;
      NatToDecimalRoundTrip(n / 10);
    }
  }

  /** Reading back the rendered counter gives the counter. */
  lemma IntToDecimalRoundTrip(n: int)
    ensures NumeralValue(IntToDecimal(n)) == n
  {
    if n < 0 {
      assert IntToDecimal(n)[1..] == NatToDecimal(-n);
      NatToDecimalRoundTrip(-n);
    } else {
      NatToDecimalRoundTrip(n);
    }
  }

  /** Distinct counter values are displayed as distinct texts. */
  lemma IntToDecimalInjective(m: int, n: int)
    requires IntToDecimal(m) == IntToDecimal(n)
    ensures m == n
  {
    IntToDecimalRoundTrip(m);
    IntToDecimalRoundTrip(n);
  }
}
