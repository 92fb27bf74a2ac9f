/** Reading numbers from the front of a text field, as Ruby's String#to_i and
    String#to_f do: leading whitespace, an optional sign, then the longest numeral
    prefix; anything after it is ignored, and text with no numeral reads as zero. */
module Numerals {

  predicate IsDigit(c: char)
  {
    '0' <= c <= '9'
  }

  /** The characters String#to_i and String#to_f skip before the number. */
  predicate IsSpace(c: char)
  {
    c == ' ' || c == '\t' || c == '\n' || c == '\U{B}' || c == '\U{C}' || c == '\r'
  }

  predicate AllDigits(s: string)
  {
    forall i :: 0 <= i < |s| ==> IsDigit(s[i])
  }

  function DigitValue(c: char): (d: nat)
    requires IsDigit(c)
    ensures d < 10
  {
    c as int - '0' as int
  }

  function DigitChar(d: nat): (c: char)
    requires d < 10
    ensures IsDigit(c) && DigitValue(c) == d
  {
    ('0' as int + d) as char
  }

  function Pow10(n: nat): (p: nat)
    ensures p >= 1
  {
    if n == 0 then 1 else 10 * Pow10(n - 1)
  }

  /** The value of a string of decimal digits, most significant first. */
  function DigitsValue(ds: string): nat
    requires AllDigits(ds)
  {
    if |ds| == 0 then 0 else 10 * DigitsValue(ds[..|ds| - 1]) + DigitValue(ds[|ds| - 1])
  }

  /** The length of the run of digits at the front of s. */
  function DigitRun(s: string): (n: nat)
    ensures n <= |s| && AllDigits(s[..n])
    ensures n < |s| ==> !IsDigit(s[n])
  {
    if |s| > 0 && IsDigit(s[0]) then
      var n := 1 + DigitRun(s[1..]);
      assert forall i :: 1 <= i < n ==> s[..n][i] == s[1..][..n - 1][i - 1];
      n
    else 0
  }

  /** s without its leading whitespace. */
  function SkipSpace(s: string): (t: string)
    ensures |t| <= |s| && t == s[|s| - |t|..]
    ensures forall i :: 0 <= i < |s| - |t| ==> IsSpace(s[i])
    ensures t == [] || !IsSpace(t[0])
  {
    if |s| > 0 && IsSpace(s[0]) then SkipSpace(s[1..]) else s
  }

  /** The value of the leading digit run of t (zero when there is none). */
  function LeadingInteger(t: string): nat
  {
    var n := DigitRun(t);
    DigitsValue(t[..n])
  }

  /** The value of a leading "digits", "digits.digits" or ".digits" numeral of t
      (zero when there is none). A point not followed by a digit ends the numeral. */
  function LeadingDecimal(t: string): real
  {
    var n := DigitRun(t);
    var whole := DigitsValue(t[..n]) as real;
    if n < |t| && t[n] == '.' && DigitRun(t[n + 1..]) > 0 then
      var f := t[n + 1..][..DigitRun(t[n + 1..])];
      whole + DigitsValue(f) as real / Pow10(|f|) as real
    else whole
  }

  /** String#to_i, in decimal. */
  function ToI(s: string): int
  {
    var t := SkipSpace(s);
    if |t| > 0 && t[0] == '-' then -(LeadingInteger(t[1..]) as int)
    else if |t| > 0 && t[0] == '+' then LeadingInteger(t[1..])
    else LeadingInteger(t)
  }

  /** String#to_f, on exact reals. */
  function ToF(s: string): real
  {
    var t := SkipSpace(s);
    if |t| > 0 && t[0] == '-' then -LeadingDecimal(t[1..])
    else if |t| > 0 && t[0] == '+' then LeadingDecimal(t[1..])
    else LeadingDecimal(t)
  }

  /** The decimal numeral of n, without leading zeros. */
  function Show(n: nat): (s: string)
    ensures |s| > 0 && AllDigits(s)
  {
    if n < 10 then [DigitChar(n)] else Show(n / 10) + [DigitChar(n % 10)]
  }

  /** Show and DigitsValue are inverse. */
  lemma {:induction false} ShowValue(n: nat)
    ensures DigitsValue(Show(n)) == n
  {
    if n >= 10 {
      var s := Show(n);
      assert s[..|s| - 1] == Show(n / 10);
      ShowValue(n / 10);
    }
  }

  /** A digit run followed by a non-digit (or by nothing) is exactly the leading run. */
  lemma {:induction false} DigitRunOf(ds: string, rest: string)
    requires AllDigits(ds)
    requires rest == [] || !IsDigit(rest[0])
    ensures DigitRun(ds + rest) == |ds|
    ensures (ds + rest)[..|ds|] == ds
  {
    if |ds| > 0 {
      assert (ds + rest)[1..] == ds[1..] + rest;
      DigitRunOf(ds[1..], rest);
    }
  }

  /** Reading back a numeral written by Show, with or without a minus sign, gives the number. */
  lemma ToIShow(n: nat)
    ensures ToI(Show(n)) == n
    ensures ToI("-" + Show(n)) == -(n as int)
  {
    var s := Show(n);
    LeadingShow(n);
    assert !IsSpace(s[0]);
    assert SkipSpace(s) == s;
    var t := "-" + s;
    assert t[1..] == s;
    assert SkipSpace(t) == t;
  }

  /** The whole of a Show numeral is its leading digit run. */
  lemma LeadingShow(n: nat)
    ensures LeadingInteger(Show(n)) == n
    ensures DigitRun(Show(n)) == |Show(n)|
  {
    var s := Show(n);
    DigitRunOf(s, []);
    assert s + [] == s;
    assert s[..|s|] == s;
    ShowValue(n);
  }

  /** A price written as "whole.fraction" reads as whole plus fraction hundredths, thousandths, ... */
  lemma ToFDecimal(whole: nat, frac: string)
    requires AllDigits(frac) && |frac| > 0
    ensures ToF(Show(whole) + "." + frac) == whole as real + DigitsValue(frac) as real / Pow10(|frac|) as real
  {
    var s := Show(whole) + "." + frac;
    LeadingShow(whole);
    assert !IsSpace(s[0]) && s[0] != '-' && s[0] != '+';
    assert SkipSpace(s) == s;
    DecimalValue(Show(whole), frac);
    ShowValue(whole);
  }

  /** "digits.digits" is read as a whole numeral: integer part plus fraction. */
  lemma DecimalValue(w: string, frac: string)
    requires AllDigits(w) && AllDigits(frac) && |frac| > 0
    ensures LeadingDecimal(w + "." + frac) == DigitsValue(w) as real + DigitsValue(frac) as real / Pow10(|frac|) as real
  {
    var s := w + "." + frac;
    assert s == w + ("." + frac);
    DigitRunOf(w, "." + frac);
    assert s[|w|] == '.';
    assert s[|w| + 1..] == frac + [];
    DigitRunOf(frac, []);
    assert frac[..|frac|] == frac;
  }

  /** A run of zero digits has value zero. */
  lemma {:induction false} ZerosValue(zeros: string)
    requires forall i :: 0 <= i < |zeros| ==> zeros[i] == '0'
    ensures AllDigits(zeros) && DigitsValue(zeros) == 0
  {
    if |zeros| > 0 {
      ZerosValue(zeros[..|zeros| - 1]);
    }
  }

  /** A whole amount written with zero decimals, "W.00" for instance, reads as W. */
  lemma ToFZeroCents(whole: nat, zeros: string)
    requires |zeros| > 0 && forall i :: 0 <= i < |zeros| ==> zeros[i] == '0'
    ensures ToF(Show(whole) + "." + zeros) == whole as real
  {
    ZerosValue(zeros);
    ToFDecimal(whole, zeros);
  }

  /** A whole number written by Show reads as itself. */
  lemma ToFWhole(n: nat)
    ensures ToF(Show(n)) == n as real
  {
    var s := Show(n);
    DigitRunOf(s, []);
    assert s + [] == s;
    ShowValue(n);
    assert !IsSpace(s[0]) && s[0] != '-' && s[0] != '+';
    assert SkipSpace(s) == s;
  }

  /** Text that does not start (after whitespace) with a sign, a digit or a point reads as zero. */
  lemma NoNumeralIsZero(s: string)
    requires var t := SkipSpace(s); t == [] || (!IsDigit(t[0]) && t[0] !in "+-.")
    ensures ToI(s) == 0 && ToF(s) == 0.0
  {
  }
}
