/**
 * The JavaScript string operations the recipe forms rely on: `String.prototype.trim`
 * (blank-input checks), the global `parseInt` with no radix (timer inputs) and the
 * conversion of an integer to text inside a template literal (storage keys).
 */
module JsString {
  import opened Wrappers

  /** WhiteSpace or LineTerminator code point (sections 12.2 and 12.3 of ECMA-262):
      what `trim` strips and what `parseInt` skips before the numeral. */
  predicate IsSpace(c: char) {
    c == '\t' || c == '\n' || c == '\U{000B}' || c == '\U{000C}' || c == '\r' || c == ' '
    || c == '\U{00A0}' || c == '\U{1680}' || ('\U{2000}' <= c <= '\U{200A}')
    || c == '\U{2028}' || c == '\U{2029}' || c == '\U{202F}' || c == '\U{205F}'
    || c == '\U{3000}' || c == '\U{FEFF}'
  }

  predicate AllSpace(s: string) {
    forall k :: 0 <= k < |s| ==> IsSpace(s[k])
  }

  /** `s.trimStart()`: the suffix left after dropping leading white space. */
  function TrimStart(s: string): (r: string)
    ensures |r| <= |s| && r == s[|s| - |r|..]
    ensures r == [] || !IsSpace(r[0])
    ensures AllSpace(s[..|s| - |r|])
  {
    if s != [] && IsSpace(s[0]) then
      var r := TrimStart(s[1..]);
      assert s[..|s| - |r|] == [s[0]] + s[1..][..|s| - 1 - |r|];
      r
    else s
  }

  /** `s.trimEnd()`: the prefix left after dropping trailing white space. */
  function TrimEnd(s: string): (r: string)
    ensures |r| <= |s| && r == s[..|r|]
    ensures r == [] || !IsSpace(r[|r| - 1])
    ensures AllSpace(s[|r|..])
  {
    if s != [] && IsSpace(s[|s| - 1]) then
      var r := TrimEnd(s[..|s| - 1]);
      assert s[|r|..] == s[..|s| - 1][|r|..] + [s[|s| - 1]];
      r
    else s
  }

  /** `s.trim()`: the infix of `s` between its leading and trailing white space. */
  function Trim(s: string): (r: string)
    ensures r == [] || (!IsSpace(r[0]) && !IsSpace(r[|r| - 1]))
  {
    TrimEnd(TrimStart(s))
  }

  /** Trimming leaves nothing exactly when the text is all white space. */
  lemma TrimEmptyIffAllSpace(s: string)
    ensures Trim(s) == [] <==> AllSpace(s)
  {
    var t := TrimStart(s);
    TrimSplit(s, t, TrimEnd(t));
  }

  /** `r` is `s` with the white space before position `lo` and after `r` cut off. */
  predicate CutAt(s: string, lo: int, r: string) {
    0 <= lo && lo + |r| <= |s| && r == s[lo..lo + |r|] &&
    AllSpace(s[..lo]) && AllSpace(s[lo + |r|..])
  }

  /** What `trim` returns: the text from the first visible character to the last,
      everything cut off before and after it being white space. */
  lemma TrimIsInfix(s: string)
    ensures CutAt(s, |s| - |TrimStart(s)|, Trim(s))
  {
    var t := TrimStart(s);
    TrimSplit(s, t, TrimEnd(t));
  }

  /** How `Trim` cuts `s`: spaces, then the result, then spaces. */
  lemma TrimSplit(s: string, t: string, r: string)
    requires |t| <= |s| && t == s[|s| - |t|..] && AllSpace(s[..|s| - |t|])
    requires t == [] || !IsSpace(t[0])
    requires |r| <= |t| && r == t[..|r|] && AllSpace(t[|r|..])
    requires r == [] || !IsSpace(r[|r| - 1])
    ensures r == [] || (!IsSpace(r[0]) && !IsSpace(r[|r| - 1]))
    ensures CutAt(s, |s| - |t|, r)
    ensures r == [] <==> AllSpace(s)
  {
    var lo := |s| - |t|;
    assert s[lo + |r|..] == t[|r|..];
    assert t[0..] == t;
    assert s[..|s|] == s;
  }

  /** `s.trim() === ""`: the test every form uses to reject an empty input. */
  predicate IsBlank(s: string) {
    Trim(s) == ""
  }

  lemma {:induction false} TrimStartOfUnpadded(s: string)
    requires s == [] || !IsSpace(s[0])
    ensures TrimStart(s) == s
  {
  }

  lemma {:induction false} TrimEndOfUnpadded(s: string)
    requires s == [] || !IsSpace(s[|s| - 1])
    ensures TrimEnd(s) == s
  {
  }

  /** A string with no white space at either end is its own trim; in particular
      trimming twice is trimming once. */
  lemma {:induction false} TrimIdempotent(s: string)
    ensures Trim(Trim(s)) == Trim(s)
  {
    var t := Trim(s);
    TrimStartOfUnpadded(t);
    TrimEndOfUnpadded(t);
  }

  // ---- parseInt (section 19.2.5 of ECMA-262) with the radix argument left undefined

  /** Value of a character as a digit in radixes up to 36; 36 for a non-digit. */
  function DigitValue(c: char): (d: nat)
    ensures d <= 36
  {
    if '0' <= c <= '9' then (c as int - '0' as int)
    else if 'a' <= c <= 'z' then (c as int - 'a' as int) + 10
    else if 'A' <= c <= 'Z' then (c as int - 'A' as int) + 10
    else 36
  }

  predicate IsDigit(c: char, radix: nat) {
    DigitValue(c) < radix
  }

  /** The longest prefix of `s` made of radix-`radix` digits. */
  function DigitPrefix(s: string, radix: nat): (z: string)
    ensures |z| <= |s| && z == s[..|z|]
    ensures forall k :: 0 <= k < |z| ==> IsDigit(z[k], radix)
    ensures |z| < |s| ==> !IsDigit(s[|z|], radix)
  {
    if s != [] && IsDigit(s[0], radix) then [s[0]] + DigitPrefix(s[1..], radix) else []
  }

  /** Mathematical value of a numeral, most significant digit first. */
  function DigitsValue(z: string, radix: nat): nat {
    if z == [] then 0
    else DigitsValue(z[..|z| - 1], radix) * radix + DigitValue(z[|z| - 1])
  }

  /** The numeral at the start of `b` in the given radix, if there is one. */
  function LeadingNumeral(b: string, radix: nat): (r: Option<nat>)
    ensures r.None? <==> b == [] || !IsDigit(b[0], radix)
  {
    var z := DigitPrefix(b, radix);
    if z == [] then None else Some(DigitsValue(z, radix))
  }

  /** An unsigned numeral: a `0x` or `0X` prefix selects radix 16, otherwise radix 10. */
  function Magnitude(u: string): Option<nat> {
    if |u| >= 2 && u[0] == '0' && (u[1] == 'x' || u[1] == 'X') then LeadingNumeral(u[2..], 16)
    else LeadingNumeral(u, 10)
  }

  /** The numeral after an optional sign. */
  function Unsigned(t: string): string {
    if t != [] && (t[0] == '-' || t[0] == '+') then t[1..] else t
  }

  /** A signed numeral: its magnitude, negated after a `-`. */
  function SignedNumeral(t: string): (r: Option<int>)
    ensures r.None? <==> Magnitude(Unsigned(t)).None?
    ensures r.Some? && t != [] && t[0] == '-' ==> r.value <= 0
    ensures r.Some? && !(t != [] && t[0] == '-') ==> r.value >= 0
  {
    match Magnitude(Unsigned(t))
    case None => None
    case Some(n) => if t != [] && t[0] == '-' then Some(-(n as int)) else Some(n as int)
  }

  /** `parseInt(s)`: `None` stands for NaN. Leading white space is skipped, one sign
      is read, a `0x`/`0X` prefix selects radix 16, and the longest digit prefix is
      converted; whatever follows it is ignored. */
  function ParseInt(s: string): (r: Option<int>)
    ensures r.None? <==> Magnitude(Unsigned(TrimStart(s))).None?
  {
    SignedNumeral(TrimStart(s))
  }

  /** A blank input is not a number. */
  lemma ParseIntOfBlank(s: string)
    ensures IsBlank(s) ==> ParseInt(s) == None
  {
  }

  // ---- integer to decimal text (`${n}` for an integer within the exact range)

  function DigitChar(d: nat): (c: char)
    requires d < 10
    ensures IsDigit(c, 10) && DigitValue(c) == d
  {
    ('0' as int + d) as char
  }

  /** Decimal numeral of `n` without leading zeros. */
  function DecimalString(n: nat): (r: string)
    ensures |r| >= 1
    ensures forall k :: 0 <= k < |r| ==> IsDigit(r[k], 10)
    ensures r[0] == '0' ==> n == 0
  {
    if n < 10 then [DigitChar(n)] else DecimalString(n / 10) + [DigitChar(n % 10)]
  }

  /** `${i}` for an integer `i`. */
  function IntToString(i: int): (r: string)
    ensures |r| >= 1 && (r[0] == '-' <==> i < 0)
  {
    if i < 0 then "-" + DecimalString(-i) else DecimalString(i)
  }

  lemma {:induction false} DecimalValue(n: nat)
    ensures DigitsValue(DecimalString(n), 10) == n
  {
    if n >= 10 {
      var a := DecimalString(n / 10);
      var z := a + [DigitChar(n % 10)];
      assert z[..|z| - 1] == a;
      DecimalValue(n / 10);
    }
  }

  lemma {:induction false} DigitPrefixOfDigits(z: string, radix: nat)
    requires forall k :: 0 <= k < |z| ==> IsDigit(z[k], radix)
    ensures DigitPrefix(z, radix) == z
  {
    if z != [] {
      DigitPrefixOfDigits(z[1..], radix);
    }
  }

  lemma DigitIsNotSpace(c: char)
    requires IsDigit(c, 10)
    ensures !IsSpace(c) && c != '-' && c != '+' && c != 'x' && c != 'X'
  {
  }

  /** A decimal numeral is never read as a hexadecimal one. */
  lemma MagnitudeOfDecimal(d: string)
    requires |d| >= 1 && forall k :: 0 <= k < |d| ==> IsDigit(d[k], 10)
    ensures Magnitude(d) == Some(DigitsValue(d, 10))
  {
    if |d| >= 2 { DigitIsNotSpace(d[1]); }
    DigitPrefixOfDigits(d, 10);
  }

  /** Reading back the text of an integer gives the integer: a timer typed into a
      number input is stored as the number the input shows. */
  lemma ParseIntOfIntToString(i: int)
    ensures ParseInt(IntToString(i)) == Some(i)
  {
    var n: nat := if i < 0 then -i else i;
    var d := DecimalString(n);
    DecimalValue(n);
    ParseIntOfDigits(d, n);
  }

  /** A numeral of decimal digits reads as its value, with or without a minus sign
      in front. */
  lemma ParseIntOfDigits(d: string, n: nat)
    requires |d| >= 1 && forall k :: 0 <= k < |d| ==> IsDigit(d[k], 10)
    requires DigitsValue(d, 10) == n
    ensures ParseInt(d) == Some(n as int)
    ensures ParseInt("-" + d) == Some(-(n as int))
  {
    DigitIsNotSpace(d[0]);
    MagnitudeOfDecimal(d);
    UnsignedRead(d, n);
    NegativeRead(d, n);
  }

  /** Text starting with a character that is neither white space nor a sign reads
      as its magnitude. */
  lemma UnsignedRead(d: string, n: nat)
    requires d != [] && !IsSpace(d[0]) && d[0] != '-' && d[0] != '+'
    requires Magnitude(d) == Some(n)
    ensures ParseInt(d) == Some(n as int)
  {
    TrimStartOfUnpadded(d);
    assert Unsigned(d) == d;
  }

  /** A minus sign right before a numeral negates its magnitude. */
  lemma NegativeRead(d: string, n: nat)
    requires Magnitude(d) == Some(n)
    ensures ParseInt("-" + d) == Some(-(n as int))
  {
    var t := "-" + d;
    assert t[0] == '-';
    TrimStartOfUnpadded(t);
    assert t[1..] == d;
    assert Unsigned(t) == d;
  }

  /** Distinct integers have distinct texts. */
  lemma IntToStringInjective(a: int, b: int)
    ensures IntToString(a) == IntToString(b) ==> a == b
  {
    ParseIntOfIntToString(a);
    ParseIntOfIntToString(b);
  }
}
