/**
 * The few JavaScript values and behaviours the logger relies on: the values a caller
 * may pass to a log function, how a template literal renders them, and whether a
 * call returns normally or throws.
 */
module JsValues {

  /** `Number.MAX_SAFE_INTEGER`, 2^53 - 1. */
  const MaxSafeInteger: int := 0x1F_FFFF_FFFF_FFFF

  /**
   * The integers a JavaScript number represents exactly. Their magnitude is far below
   * 10^21, so `String` writes them out in plain decimal, never in exponent form.
   */
  type SafeInteger = n: int | -MaxSafeInteger <= n <= MaxSafeInteger

  /** A JavaScript value as far as the logger can observe it. Plain objects are opaque. */
  datatype Value =
    | Undefined
    | Null
    | Bool(b: bool)
    | Num(n: SafeInteger)
    | Str(s: string)
    | Arr(elems: seq<Value>)
    | Obj(id: nat)

  /** How a JavaScript call ends: it returns, or an exception escapes to the caller. */
  datatype Completion = Returned | Threw

  /** The i-th argument of a call; a missing argument reads as `undefined`. */
  function Arg(args: seq<Value>, i: nat): (v: Value)
    ensures i < |args| ==> v == args[i]
    ensures i >= |args| ==> v == Undefined
  {
    if i < |args| then args[i] else Undefined
  }

  function DigitChar(d: nat): char
    requires d < 10
  {
    ('0' as int + d) as char
  }

  function DigitValue(c: char): nat
    requires '0' <= c <= '9'
  {
    c as int - '0' as int
  }

  /** Every character is a decimal digit. */
  predicate IsDigits(s: string) {
    forall k :: 0 <= k < |s| ==> '0' <= s[k] <= '9'
  }

  /** The number a string of decimal digits denotes, most significant digit first. */
  function DecimalValue(s: string): nat
    requires IsDigits(s)
  {
    if |s| == 0 then 0 else 10 * DecimalValue(s[..|s| - 1]) + DigitValue(s[|s| - 1])
  }

  /**
   * Decimal digits of a natural number, most significant first: they read back as the
   * number, and there is no leading zero.
   */
  function NatToDecimal(n: nat): (r: string)
    ensures |r| >= 1 && IsDigits(r)
    ensures DecimalValue(r) == n
    ensures |r| > 1 ==> r[0] != '0'
    decreases n
  {
    if n < 10 then [DigitChar(n)]
    else
      var high := NatToDecimal(n / 10);
      assert (high + [DigitChar(n % 10)])[..|high|] == high;
      high + [DigitChar(n % 10)]
  }

  /**
   * `String(v)`, which a template literal `${v}` applies to its operand. A string renders
   * as itself; a number as its decimal digits, after a minus sign when negative.
   */
  function Render(v: Value): (r: string)
    ensures v.Str? ==> r == v.s
    ensures v.Num? && v.n >= 0 ==> |r| >= 1 && IsDigits(r) && DecimalValue(r) == v.n && (|r| > 1 ==> r[0] != '0')
    ensures v.Num? && v.n < 0 ==> |r| >= 2 && r[0] == '-' && IsDigits(r[1..]) && DecimalValue(r[1..]) == -v.n
    decreases v, 1
  {
    match v
    case Undefined => "undefined"
    case Null => "null"
    case Bool(b) => if b then "true" else "false"
    case Num(n) => if n < 0 then "-" + NatToDecimal(-n) else NatToDecimal(n)
    case Str(s) => s
    case Arr(es) => Join(es)
    case Obj(_) => "[object Object]"
  }

  /** `Array.prototype.join(",")`: `null` and `undefined` elements render as empty. */
  function Join(es: seq<Value>): string
    decreases es, 0
  {
    if |es| == 0 then ""
    else
      var head := if es[0].Undefined? || es[0].Null? then "" else Render(es[0]);
      if |es| == 1 then head else head + "," + Join(es[1..])
  }
}
