/**
 * JavaScript values the graph code relies on: indexing a list past its end
 * (which yields undefined), and the built-in parseInt applied to a CSV field.
 */
module JsValues {

  datatype Option<+T> = None | Some(value: T)

  /** `s[i]` in JavaScript: the element, or undefined past the end. */
  function At<T>(s: seq<T>, i: nat): Option<T> {
    if i < |s| then Some(s[i]) else None
  }

  /** A number as parseInt returns it: an integer or NaN. */
  datatype Parsed = NaN | Int(n: int)

  predicate IsDigit(c: char) {
    '0' <= c <= '9'
  }

  /** Length of the longest prefix of `s` made of decimal digits. */
  function DigitRun(s: string): (k: nat)
    ensures k <= |s|
    ensures forall i :: 0 <= i < k ==> IsDigit(s[i])
    ensures k < |s| ==> !IsDigit(s[k])
  {
    if s == [] || !IsDigit(s[0]) then 0 else 1 + DigitRun(s[1..])
  }

  /** The value of a string of decimal digits, most significant digit first. */
  function DigitsValue(s: string): nat
    requires forall i :: 0 <= i < |s| ==> IsDigit(s[i])
  {
    if s == [] then 0
    else
      assert IsDigit(s[|s| - 1]);
      10 * DigitsValue(s[..|s| - 1]) + (s[|s| - 1] as int - '0' as int)
  }

  /**
   * parseInt(s) with the default radix: an optional sign, then the longest run
   * of decimal digits; NaN when that run is empty.
   */
  function ParseInt(s: string): Parsed {
    var negative := |s| > 0 && s[0] == '-';
    var body := if |s| > 0 && (s[0] == '-' || s[0] == '+') then s[1..] else s;
    var k := DigitRun(body);
    if k == 0 then NaN
    else
      var v: int := DigitsValue(body[..k]);
      Int(if negative then -v else v)
  }

  /** The decimal digits of `n`, most significant first. */
  function Decimal(n: nat): (s: string)
    ensures |s| > 0
    ensures forall i :: 0 <= i < |s| ==> IsDigit(s[i])
  {
    if n < 10 then [('0' as int + n) as char]
    else Decimal(n / 10) + [('0' as int + n % 10) as char]
  }

  lemma {:induction false} DecimalValue(n: nat)
    ensures DigitsValue(Decimal(n)) == n
  {
    if n >= 10 {
      var s := Decimal(n);
      assert s[..|s| - 1] == Decimal(n / 10);
      DecimalValue(n / 10);
    }
  }

  /** parseInt reads back every integer written in decimal, with or without a minus sign. */
  lemma ParseIntDecimal(n: nat)
    ensures ParseInt(Decimal(n)) == Int(n)
    ensures ParseInt("-" + Decimal(n)) == Int(-(n as int))
  {
    var s := Decimal(n);
    assert DigitRun(s) == |s|;
    assert s[..|s|] == s;
    DecimalValue(n);
    assert ("-" + s)[1..] == s;
  }

  /** parseInt stops at the first character that is not a digit. */
  lemma ParseIntStopsAtNonDigit(n: nat, rest: string)
    requires rest == [] || !IsDigit(rest[0])
    ensures ParseInt(Decimal(n) + rest) == Int(n)
  {
    var s := Decimal(n);
    var t := s + rest;
    DigitRunPrefix(s, rest);
    assert t[..|s|] == s;
    DecimalValue(n);
  }

  lemma {:induction false} DigitRunPrefix(s: string, rest: string)
    requires forall i :: 0 <= i < |s| ==> IsDigit(s[i])
    requires rest == [] || !IsDigit(rest[0])
    ensures DigitRun(s + rest) == |s|
  {
    if s != [] {
      assert (s + rest)[1..] == s[1..] + rest;
      DigitRunPrefix(s[1..], rest);
    }
  }
}
