/**
 * String operations of JavaScript that the wizard relies on:
 * `String.prototype.trim` and the rendering of an integer in a template
 * literal (`${n}`).
 */
module JsText {

  /** The single characters `trim` removes besides the range U+2000..U+200A. */
  const WhitespaceChars: set<char> := {
    ' ', '\t', '\n', '\r', '\U{000B}', '\U{000C}', '\U{00A0}', '\U{1680}',
    '\U{2028}', '\U{2029}', '\U{202F}', '\U{205F}', '\U{3000}', '\U{FEFF}'}

  /** The characters `trim` removes: ECMAScript WhiteSpace and LineTerminator. */
  predicate IsJsWhitespace(c: char) {
    c in WhitespaceChars || ('\U{2000}' <= c <= '\U{200A}')
  }

  /** Every character of `s` is whitespace (vacuously so for ""). */
  predicate AllWhitespace(s: string) {
    forall i :: 0 <= i < |s| ==> IsJsWhitespace(s[i])
  }

  /** `s` with its leading whitespace removed. */
  function TrimStart(s: string): (r: string)
    ensures |r| <= |s| && r == s[|s| - |r|..]
    ensures forall i :: 0 <= i < |s| - |r| ==> IsJsWhitespace(s[i])
    ensures r != [] ==> !IsJsWhitespace(r[0])
  {
    if s != [] && IsJsWhitespace(s[0]) then TrimStart(s[1..]) else s
  }

  /** `s` with its trailing whitespace removed. */
  function TrimEnd(s: string): (r: string)
    ensures |r| <= |s| && r == s[..|r|]
    ensures forall i :: |r| <= i < |s| ==> IsJsWhitespace(s[i])
    ensures r != [] ==> !IsJsWhitespace(r[|r| - 1])
  {
    if s != [] && IsJsWhitespace(s[|s| - 1]) then TrimEnd(s[..|s| - 1]) else s
  }

  /** `r` occurs in `s` at offset `k`. */
  predicate OccursAt(r: string, s: string, k: int) {
    0 <= k <= |s| - |r| && r == s[k..k + |r|]
  }

  /** `r` is `s` with whitespace cut off at both ends: what is cut away before and after `r` is all whitespace. */
  predicate TrimmedAt(r: string, s: string, k: int) {
    OccursAt(r, s, k) && AllWhitespace(s[..k]) && AllWhitespace(s[k + |r|..])
  }

  /**
   * `s.trim()`: the piece of `s` left after removing whitespace at both ends; it
   * starts and ends with non-whitespace.
   */
  function Trim(s: string): (r: string)
    ensures exists k :: TrimmedAt(r, s, k)
    ensures r != [] ==> !IsJsWhitespace(r[0]) && !IsJsWhitespace(r[|r| - 1])
  {
    var t := TrimStart(s);
    TrimCutsWhitespace(s);
    TrimEnd(t)
  }

  /** Cutting with `TrimStart` and then `TrimEnd` leaves a piece with only whitespace around it. */
  lemma TrimCutsWhitespace(s: string)
    ensures TrimmedAt(TrimEnd(TrimStart(s)), s, |s| - |TrimStart(s)|)
  {
    var t := TrimStart(s);
    LeadingCutIsWhitespace(s);
    TrailingCutIsWhitespace(t);
    CutsCompose(s, t, TrimEnd(t));
  }

  /** A whitespace cut from the front of `s`, then one from the back of what is left, leaves `r` trimmed at `|s| - |t|`. */
  lemma CutsCompose(s: string, t: string, r: string)
    requires |t| <= |s| && t == s[|s| - |t|..] && AllWhitespace(s[..|s| - |t|])
    requires |r| <= |t| && r == t[..|r|] && AllWhitespace(t[|r|..])
    ensures TrimmedAt(r, s, |s| - |t|)
  {
    var k := |s| - |t|;
    assert s[k + |r|..] == t[|r|..];
    assert s[k..k + |r|] == t[..|r|];
  }

  /** What `TrimStart` cuts away is whitespace. */
  lemma LeadingCutIsWhitespace(s: string)
    ensures AllWhitespace(s[..|s| - |TrimStart(s)|])
  {
    var n := |s| - |TrimStart(s)|;
    assert forall i :: 0 <= i < n ==> s[..n][i] == s[i];
  }

  /** What `TrimEnd` cuts away is whitespace. */
  lemma TrailingCutIsWhitespace(t: string)
    ensures AllWhitespace(t[|TrimEnd(t)|..])
  {
    var n := |TrimEnd(t)|;
    assert forall i :: 0 <= i < |t| - n ==> t[n..][i] == t[n + i];
  }

  /** `s.trim().length > 0` exactly when `s` holds a non-whitespace character. */
  lemma TrimNonEmptyIff(s: string)
    ensures |Trim(s)| > 0 <==> !AllWhitespace(s)
  {
    var t := TrimStart(s);
    var r := TrimEnd(t);
    if r != [] {
      assert s[|s| - |t|] == t[0] == r[0];
    }
  }

  /** The decimal digit character of `d`. */
  function DigitChar(d: int): (c: char)
    requires 0 <= d < 10
    ensures '0' <= c <= '9'
  {
    ['0', '1', '2', '3', '4', '5', '6', '7', '8', '9'][d]
  }

  predicate IsDigit(c: char) {
    '0' <= c <= '9'
  }

  predicate AllDigits(s: string) {
    forall i :: 0 <= i < |s| ==> IsDigit(s[i])
  }

  /** The decimal rendering of a natural number, without leading zeros. */
  function NatToDecimal(n: nat): (r: string)
    ensures |r| >= 1 && AllDigits(r)
    ensures r[0] == '0' ==> n == 0
  {
    if n < 10 then [DigitChar(n)] else NatToDecimal(n / 10) + [DigitChar(n % 10)]
  }

  /** The number denoted by a string of decimal digits. */
  function DecimalValue(s: string): nat
    requires AllDigits(s)
  {
    if s == [] then 0 else 10 * DecimalValue(s[..|s| - 1]) + (s[|s| - 1] as int - '0' as int)
  }

  /** Reading back the decimal rendering gives the number again. */
  lemma {:induction false} DecimalRoundTrip(n: nat)
    ensures DecimalValue(NatToDecimal(n)) == n
  {
    var r := NatToDecimal(n);
    if n >= 10 {
      DecimalRoundTrip(n / 10);
      assert r[..|r| - 1] == NatToDecimal(n / 10);
    }
  }

  /** Distinct natural numbers render differently. */
  lemma NatToDecimalInjective(m: nat, n: nat)
    ensures NatToDecimal(m) == NatToDecimal(n) ==> m == n
  {
    DecimalRoundTrip(m);
    DecimalRoundTrip(n);
  }

  /** `${n}` for an integer `n`. */
  function IntToDecimal(n: int): (r: string)
    ensures n >= 0 ==> r == NatToDecimal(n)
    ensures n < 0 ==> r == "-" + NatToDecimal(-n)
  {
    if n < 0 then "-" + NatToDecimal(-n) else NatToDecimal(n)
  }

  /** Distinct integers render differently: the sign and the digits both read back. */
  lemma IntToDecimalInjective(m: int, n: int)
    ensures IntToDecimal(m) == IntToDecimal(n) ==> m == n
  {
    if IntToDecimal(m) == IntToDecimal(n) {
      var a, b := NatToDecimal(if m < 0 then -m else m), NatToDecimal(if n < 0 then -n else n);
      if m < 0 && n < 0 {
        assert a == IntToDecimal(m)[1..] == b;
      }
      NatToDecimalInjective(if m < 0 then -m else m, if n < 0 then -n else n);
    }
  }
}
