/**
 * The few JavaScript values and built-ins the coverage core relies on:
 * `undefined`-able values, the numbers `Number(text)` produces, `Array.prototype.find`,
 * `String.prototype.endsWith` and template-literal interpolation of a possibly
 * undefined string.
 */
module Js {

  /** A value that may be `undefined`. */
  datatype Option<+T> = None | Some(value: T) {
    /** `x || fallback` for a value whose defined form is never falsy. */
    function GetOr(fallback: T): T {
      match this
      case Some(v) => v
      case None => fallback
    }
  }

  /**
   * A JavaScript number as `Number(text)` yields it for report attributes:
   * either `NaN` or a non-negative integer.
   */
  datatype Num = NaN | Int(value: nat)

  /** `a === b` on numbers: `NaN` equals nothing, not even itself. */
  predicate StrictEquals(a: Num, b: Num) {
    a.Int? && b.Int? && a.value == b.value
  }

  /** `b === a + 1`; `NaN + 1` is `NaN`, so a `NaN` on either side makes it false. */
  predicate Follows(a: Num, b: Num) {
    a.Int? && b.Int? && b.value == a.value + 1
  }

  /** `x || 0` on a number: `NaN` and `0` are falsy, so both give `0`. */
  function OrZero(x: Num): (r: nat)
    ensures x.Int? ==> r == x.value
    ensures x.NaN? ==> r == 0
  {
    match x
    case Int(v) => v
    case NaN => 0
  }

  predicate IsDigit(c: char) {
    '0' <= c <= '9'
  }

  predicate IsDigits(s: string) {
    forall i :: 0 <= i < |s| ==> IsDigit(s[i])
  }

  function DigitValue(c: char): (d: nat)
    requires IsDigit(c)
    ensures d < 10
  {
    c as int - '0' as int
  }

  function DigitChar(d: nat): (c: char)
    requires d < 10
    ensures IsDigit(c) && DigitValue(c) == d
  {
    ('0' as int + d) as char
  }

  /** The value of a string of decimal digits, most significant first; `""` is `0`. */
  function DecimalValue(s: string): nat
    requires IsDigits(s)
    decreases |s|
  {
    if s == [] then 0 else DecimalValue(s[..|s| - 1]) * 10 + DigitValue(s[|s| - 1])
  }

  /** The decimal digits of `n`, most significant first, without leading zeros. */
  function Decimal(n: nat): (s: string)
    decreases n
  {
    if n < 10 then [DigitChar(n)] else Decimal(n / 10) + [DigitChar(n % 10)]
  }

  /**
   * `Number(x)` for an attribute value `x`, which is a string or `undefined`:
   * `undefined` gives `NaN`, the empty string gives `0`, a digit string its value,
   * and every other text `NaN`.
   */
  function ToNumber(x: Option<string>): (r: Num)
    ensures r.Int? <==> x.Some? && IsDigits(x.value)
    ensures x == Some("") ==> r == Int(0)
  {
    match x
    case None => NaN
    case Some(s) => if IsDigits(s) then Int(DecimalValue(s)) else NaN
  }

  /** The decimal digits of `n` are never empty and read back as `n`. */
  lemma {:induction false} DecimalRoundTrip(n: nat)
    ensures Decimal(n) != [] && IsDigits(Decimal(n))
    ensures DecimalValue(Decimal(n)) == n
    decreases n
  {
    var s := Decimal(n);
    if n < 10 {
      assert s == [DigitChar(n)];
      assert s[..0] == [];
    } else {
      DecimalRoundTrip(n / 10);
      var p := Decimal(n / 10);
      assert s == p + [DigitChar(n % 10)];
      assert s[..|s| - 1] == p;
      assert IsDigits(s) by {
        forall i | 0 <= i < |s| ensures IsDigit(s[i]) {
          if i < |p| { assert s[i] == p[i]; }
        }
      }
    }
  }

  /** `Number` of the decimal digits of any count `n` is `n`. */
  lemma NumberOfDecimal(n: nat)
    ensures ToNumber(Some(Decimal(n))) == Int(n)
  {
    DecimalRoundTrip(n);
  }

  /** `s.endsWith(suffix)` */
  predicate EndsWith(s: string, suffix: string) {
    |suffix| <= |s| && s[|s| - |suffix|..] == suffix
  }

  /** The text a template literal `${x}` produces for a string or `undefined`. */
  function Interpolate(x: Option<string>): string {
    match x
    case Some(s) => s
    case None => "undefined"
  }

  /** `xs.find(p)`: the first element that satisfies `p`, or `undefined`. */
  function Find<T>(xs: seq<T>, p: T -> bool): (r: Option<T>)
    ensures r.None? <==> forall i :: 0 <= i < |xs| ==> !p(xs[i])
    ensures r.Some? ==> exists i :: 0 <= i < |xs| && xs[i] == r.value && p(xs[i]) &&
                                    forall j :: 0 <= j < i ==> !p(xs[j])
    decreases |xs|
  {
    if xs == [] then None
    else if p(xs[0]) then Some(xs[0])
    else
      var r := Find(xs[1..], p);
      assert forall j :: 1 <= j < |xs| ==> xs[1..][j - 1] == xs[j];
      r
  }
}
