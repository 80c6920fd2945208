/** The ECMAScript string operations the core relies on: `String.prototype.trim` and `Number(string)`. */
module JsText {

  /** ECMAScript WhiteSpace and LineTerminator code points, the set `trim` strips. */
  predicate IsWhitespace(c: char)
  {
    c == '\U{9}' || c == '\U{A}' || c == '\U{B}' || c == '\U{C}' || c == '\U{D}' ||
    c == '\U{20}' || c == '\U{A0}' || c == '\U{1680}' || ('\U{2000}' <= c <= '\U{200A}') ||
    c == '\U{2028}' || c == '\U{2029}' || c == '\U{202F}' || c == '\U{205F}' || c == '\U{3000}' ||
    c == '\U{FEFF}'
  }

  predicate AllWhitespace(s: string)
  {
    forall i :: 0 <= i < |s| ==> IsWhitespace(s[i])
  }

  /** Number of leading whitespace characters. */
  function LeadingSpace(s: string): (n: nat)
    ensures n <= |s|
    ensures forall i :: 0 <= i < n ==> IsWhitespace(s[i])
    ensures n < |s| ==> !IsWhitespace(s[n])
  {
    if |s| == 0 || !IsWhitespace(s[0]) then 0
    else
      var k := LeadingSpace(s[1..]);
      assert forall i :: 1 <= i < |s| ==> s[i] == s[1..][i - 1];
      k + 1
  }

  /** Number of trailing whitespace characters. */
  function TrailingSpace(s: string): (n: nat)
    ensures n <= |s|
    ensures forall i :: |s| - n <= i < |s| ==> IsWhitespace(s[i])
    ensures n < |s| ==> !IsWhitespace(s[|s| - 1 - n])
  {
    if |s| == 0 || !IsWhitespace(s[|s| - 1]) then 0
    else TrailingSpace(s[..|s| - 1]) + 1
  }

  /** `s.trim()`: `s` without its leading and trailing whitespace. */
  function Trim(s: string): (r: string)
    ensures |r| <= |s|
    ensures r != [] ==> !IsWhitespace(r[0]) && !IsWhitespace(r[|r| - 1])
    ensures AllWhitespace(s) ==> r == []
  {
    var a := LeadingSpace(s);
    var rest := s[a..];
    assert forall i :: 0 <= i < |rest| ==> rest[i] == s[a + i];
    rest[..|rest| - TrailingSpace(rest)]
  }

  /** `trim` returns the middle slice of `s` with no whitespace at either end, and what it cuts off
      on either side is whitespace only. */
  lemma TrimIsCore(s: string)
    ensures exists a, b :: 0 <= a <= b <= |s| && Trim(s) == s[a..b] && AllWhitespace(s[..a]) && AllWhitespace(s[b..])
    ensures Trim(s) != [] ==> !IsWhitespace(Trim(s)[0]) && !IsWhitespace(Trim(s)[|Trim(s)| - 1])
  {
    var a := LeadingSpace(s);
    var rest := s[a..];
    var b := a + |rest| - TrailingSpace(rest);
    assert Trim(s) == s[a..b];
    assert s[b..] == rest[|rest| - TrailingSpace(rest)..];
    assert AllWhitespace(s[..a]);
    assert AllWhitespace(s[b..]);
  }

  /** The source's blank test `!s.trim()`: the trimmed string is empty exactly when every character is whitespace. */
  lemma TrimEmptyIff(s: string)
    ensures Trim(s) == [] <==> AllWhitespace(s)
  {
    var a := LeadingSpace(s);
    var rest := s[a..];
    if a < |s| {
      assert rest[0] == s[a];
      assert TrailingSpace(rest) < |rest|;
    } else {
      assert rest == [];
    }
  }

  /** The value of a JavaScript number conversion, restricted to what the core needs. */
  datatype Numeric = Num(value: int) | NotANumber

  predicate IsDigit(c: char) { '0' <= c <= '9' }

  function DigitValue(c: char): (d: nat)
    requires IsDigit(c)
    ensures d < 10
  {
    (c as int) - ('0' as int)
  }

  /** The value of a string of decimal digits, most significant first. */
  function DigitsValue(s: string): (n: nat)
    requires forall i :: 0 <= i < |s| ==> IsDigit(s[i])
  {
    if |s| == 0 then 0 else 10 * DigitsValue(s[..|s| - 1]) + DigitValue(s[|s| - 1])
  }

  predicate AllDigits(s: string)
  {
    |s| > 0 && forall i :: 0 <= i < |s| ==> IsDigit(s[i])
  }

  /** `Number(s)` for integer decimal literals: surrounding whitespace is ignored, a blank string is 0,
      an optional sign is followed by decimal digits; anything else is NaN. */
  function ToNumber(s: string): (r: Numeric)
    ensures AllWhitespace(s) ==> r == Num(0)
    ensures r.Num? && !AllWhitespace(s) ==>
      var t := Trim(s); |t| > 0 && (IsDigit(t[0]) || t[0] == '+' || t[0] == '-')
  {
    TrimEmptyIff(s);
    var t := Trim(s);
    if t == [] then Num(0)
    else if AllDigits(t) then Num(DigitsValue(t))
    else if (t[0] == '+' || t[0] == '-') && AllDigits(t[1..]) then
      var d: int := DigitsValue(t[1..]);
      Num(if t[0] == '-' then -d else d)
    else NotANumber
  }

  /** The decimal rendering of a natural number, without sign or leading zeros. */
  function Decimal(n: nat): (s: string)
    ensures AllDigits(s)
  {
    var last := [('0' as int + n % 10) as char];
    if n < 10 then last else Decimal(n / 10) + last
  }

  lemma {:induction false} DecimalValue(n: nat)
    ensures DigitsValue(Decimal(n)) == n
  {
    var s := Decimal(n);
    if n >= 10 {
      DecimalValue(n / 10);
      assert s[..|s| - 1] == Decimal(n / 10);
    }
  }

  /** Reading back the decimal rendering of `n` gives `n`: `Number(String(n)) === n` for integers. */
  lemma ToNumberDecimal(n: nat)
    ensures ToNumber(Decimal(n)) == Num(n)
  {
    var s := Decimal(n);
    assert !IsWhitespace(s[0]);
    assert LeadingSpace(s) == 0;
    assert !IsWhitespace(s[|s| - 1]);
    assert TrailingSpace(s) == 0;
    assert Trim(s) == s;
    DecimalValue(n);
  }
}
