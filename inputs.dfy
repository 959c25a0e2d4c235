/**
 * How the dialog's inputs turn what the user typed or picked into draft
 * values: `parseInt(text) || null` for the whole-number fields and
 * `value || null` for the optional customer select.
 */
module Inputs {
  import opened Wrappers
  import opened Json

  predicate IsDigit(c: char) { '0' <= c <= '9' }

  /** The ASCII white space `parseInt` skips before the number. */
  predicate IsSpace(c: char)
  {
    c == ' ' || c == '\t' || c == '\n' || c == '\r' || c == '\U{000B}' || c == '\U{000C}'
  }

  function DigitValue(c: char): nat
    requires IsDigit(c)
  {
    c as int - '0' as int
  }

  function DigitChar(d: nat): (c: char)
    requires d < 10
    ensures IsDigit(c) && DigitValue(c) == d
  {
    ('0' as int + d) as char
  }

  predicate AllDigits(s: string)
  {
    forall i :: 0 <= i < |s| ==> IsDigit(s[i])
  }

  /** The value of a string of decimal digits. */
  function DecimalValue(d: string): nat
    requires AllDigits(d)
  {
    if d == [] then 0 else DecimalValue(d[..|d| - 1]) * 10 + DigitValue(d[|d| - 1])
  }

  /** The length of the run of digits at the start of `s`. */
  function DigitRun(s: string): (n: nat)
    ensures n <= |s| && AllDigits(s[..n])
    ensures n < |s| ==> !IsDigit(s[n])
  {
    if s == [] || !IsDigit(s[0]) then 0
    else
      var n := 1 + DigitRun(s[1..]);
      assert forall i :: 1 <= i < n ==> s[..n][i] == s[1..][..n - 1][i - 1];
      n
  }

  function TrimStart(s: string): (t: string)
    ensures t == [] || !IsSpace(t[0])
    ensures |t| <= |s| && t == s[|s| - |t|..]
    ensures forall i :: 0 <= i < |s| - |t| ==> IsSpace(s[i])
  {
    if s != [] && IsSpace(s[0]) then
      var t := TrimStart(s[1..]);
      assert forall i :: 1 <= i < |s| - |t| ==> s[i] == s[1..][i - 1];
      assert s[1..][|s| - 1 - |t|..] == s[|s| - |t|..];
      t
    else s
  }

  /** The leading run of digits of `u` as a number, or None when `u` does not start with a digit. */
  function Unsigned(u: string): Option<nat>
  {
    var n := DigitRun(u);
    if n == 0 then None else Some(DecimalValue(u[..n]))
  }

  /**
   * `parseInt(text)` in base ten: leading white space, an optional sign, then
   * the longest run of digits; None stands for NaN (no digits at all).
   */
  function ParseInt(text: string): (r: Option<int>)
    ensures var t := TrimStart(text);
      r.Some? <==> (t != [] && IsDigit(t[0])) || (|t| > 1 && (t[0] == '-' || t[0] == '+') && IsDigit(t[1]))
    ensures r.Some? && r.value < 0 ==> TrimStart(text)[0] == '-'
  {
    var t := TrimStart(text);
    if t != [] && (t[0] == '-' || t[0] == '+') then
      match Unsigned(t[1..])
      case None => None
      case Some(m) =>
        var magnitude: int := m;
        Some(if t[0] == '-' then -magnitude else magnitude)
    else
      match Unsigned(t)
      case None => None
      case Some(m) => Some(m as int)
  }

  /** `parseInt(text) || null`: 0 and NaN are falsy, so both become null. */
  function IntInput(text: string): (v: Value)
    ensures v == Null <==> ParseInt(text) == None || ParseInt(text) == Some(0)
    ensures v != Null ==> v.Int? && ParseInt(text) == Some(v.i) && v.i != 0
  {
    match ParseInt(text)
    case None => Null
    case Some(n) => OrNull(Int(n))
  }

  /** `e.target.value || null` for the customer select, whose empty choice is "". */
  function SelectInput(choice: Value): (v: Value)
    ensures choice == Str("") ==> v == Null
    ensures choice.Int? && choice.i != 0 ==> v == choice
  {
    OrNull(choice)
  }

  /** The decimal text of a natural number, as a number input holds it. */
  function Decimal(n: nat): (d: string)
    ensures d != [] && AllDigits(d)
  {
    if n < 10 then [DigitChar(n)] else Decimal(n / 10) + [DigitChar(n % 10)]
  }

  /** The text of an integer: a minus sign for negatives, then its decimal digits. */
  function Show(n: int): string
  {
    if n < 0 then "-" + Decimal(-n) else Decimal(n)
  }

  lemma {:induction false} DecimalValueOfDecimal(n: nat)
    ensures DecimalValue(Decimal(n)) == n
  {
    if n >= 10 {
      var d := Decimal(n);
      assert d[..|d| - 1] == Decimal(n / 10);
      DecimalValueOfDecimal(n / 10);
    }
  }

  lemma {:induction false} DigitRunOfDigits(d: string, rest: string)
    requires AllDigits(d)
    requires rest == [] || !IsDigit(rest[0])
    ensures DigitRun(d + rest) == |d|
  {
    if d != [] {
      assert (d + rest)[1..] == d[1..] + rest;
      DigitRunOfDigits(d[1..], rest);
    }
  }

  /** A run of digits followed by a non-digit reads as the value of the digits. */
  lemma UnsignedDigits(d: string, rest: string)
    requires d != [] && AllDigits(d)
    requires rest == [] || !IsDigit(rest[0])
    ensures Unsigned(d + rest) == Some(DecimalValue(d))
  {
    DigitRunOfDigits(d, rest);
    assert (d + rest)[..|d|] == d;
  }

  /** `parseInt` of a run of digits followed by a non-digit is the value of the digits. */
  lemma ParseIntDigits(d: string, rest: string)
    requires d != [] && AllDigits(d)
    requires rest == [] || !IsDigit(rest[0])
    ensures ParseInt(d + rest) == Some(DecimalValue(d))
  {
    assert TrimStart(d + rest) == d + rest by {
      assert (d + rest)[0] == d[0];
    }
    UnsignedDigits(d, rest);
  }

  /** The same after a minus sign: the value is negated. */
  lemma ParseIntNegatedDigits(d: string, rest: string)
    requires d != [] && AllDigits(d)
    requires rest == [] || !IsDigit(rest[0])
    ensures ParseInt("-" + (d + rest)) == Some(0 - DecimalValue(d) as int)
  {
    var t := "-" + (d + rest);
    assert t != [] && t[0] == '-';
    assert TrimStart(t) == t;
    assert Unsigned(t[1..]) == Some(DecimalValue(d)) by {
      assert t[1..] == d + rest;
      UnsignedDigits(d, rest);
    }
  }

  /**
   * `parseInt` reads back the integer a number input shows, whatever follows
   * it that is not a digit (a fraction, an exponent).
   */
  lemma ParseIntShow(n: int, rest: string)
    requires rest == [] || !IsDigit(rest[0])
    ensures ParseInt(Show(n) + rest) == Some(n)
  {
    if n < 0 {
      var d := Decimal(-n);
      calc {
        ParseInt(Show(n) + rest);
        { assert Show(n) + rest == "-" + (d + rest); }
        ParseInt("-" + (d + rest));
        { ParseIntNegatedDigits(d, rest); }
        Some(0 - DecimalValue(d) as int);
        { DecimalValueOfDecimal(-n); }
        Some(n);
      }
    } else {
      var d := Decimal(n);
      calc {
        ParseInt(Show(n) + rest);
        { ParseIntDigits(d, rest); }
        Some(DecimalValue(d) as int);
        { DecimalValueOfDecimal(n); }
        Some(n);
      }
    }
  }

  /** A whole number typed into a number field is stored as itself, except 0, which is stored as null. */
  lemma IntInputShow(n: int, rest: string)
    requires rest == [] || !IsDigit(rest[0])
    ensures IntInput(Show(n) + rest) == if n == 0 then Null else Int(n)
  {
    ParseIntShow(n, rest);
  }

  /** Clearing a number field, or leaving only white space in it, stores null. */
  lemma IntInputBlank(text: string)
    requires forall i :: 0 <= i < |text| ==> IsSpace(text[i])
    ensures IntInput(text) == Null
  {
  }
}
