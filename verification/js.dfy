/**
 The small part of JavaScript's semantics that the route handlers depend on:
 reads and slices of a `Uint8Array`, rendering an integer as text, the
 truthiness and string conversion of JSON request fields, and the `\s`
 character class of regular expressions.
 */
module Js {

  /** `None` plays the role of JavaScript's `undefined`. */
  datatype Option<+T> = None | Some(value: T)

  type byte = bv8

  /** A number below 256 stored in a byte reads back unchanged. */
  lemma ByteRoundTrip(n: nat)
    requires n < 256
    ensures (n as byte) as int == n
  {
    var w := n as bv16;
    assert w < 256 && w as int == n;
    assert (w as byte) as int == n;
  }

  function Min(a: int, b: int): int { if a <= b then a else b }

  /** `data[i]` on a `Uint8Array`: a read outside the buffer yields `undefined`. */
  function At(data: seq<byte>, i: int): Option<byte>
  {
    if 0 <= i < |data| then Some(data[i]) else None
  }

  /** `data.slice(start, end)` for non-negative bounds. */
  function Slice(data: seq<byte>, start: nat, end: nat): seq<byte>
  {
    var s := Min(start, |data|);
    var e := Min(end, |data|);
    if s <= e then data[s..e] else []
  }

  /** Both bounds of a slice are clamped to the buffer length, and an end
      before the start gives an empty array. */
  lemma SliceClamps(data: seq<byte>, start: nat, end: nat)
    ensures start <= end <= |data| ==> Slice(data, start, end) == data[start..end]
    ensures start <= |data| <= end ==> Slice(data, start, end) == data[start..]
    ensures |data| <= start ==> Slice(data, start, end) == []
    ensures end <= start ==> Slice(data, start, end) == []
  {
  }

  // ---------------------------------------------------------------------
  // Decimal rendering of numbers (`${n}` and `n.toString()` for integers)

  predicate IsAsciiDigit(c: char) { '0' <= c <= '9' }

  function DigitChar(d: nat): (c: char)
    requires d < 10
    ensures IsAsciiDigit(c)
    ensures c as int - '0' as int == d
  {
    ('0' as int + d) as char
  }

  /** The shortest decimal numeral of `n`. */
  function NatToDecimal(n: nat): (s: string)
    ensures |s| >= 1
    ensures forall i | 0 <= i < |s| :: IsAsciiDigit(s[i])
    ensures |s| > 1 ==> s[0] != '0'
    decreases n
  {
    if n < 10 then [DigitChar(n)] else NatToDecimal(n / 10) + [DigitChar(n % 10)]
  }

  function IntToDecimal(n: int): (s: string)
    ensures |s| >= 1
    ensures n >= 0 ==> s == NatToDecimal(n)
    ensures n < 0 ==> s[0] == '-' && s[1..] == NatToDecimal(-n)
  {
    if n < 0 then "-" + NatToDecimal(-n) else NatToDecimal(n)
  }

  function DigitValue(c: char): (d: nat)
    requires IsAsciiDigit(c)
    ensures d < 10
  {
    c as int - '0' as int
  }

  /** The value a numeral of ASCII digits denotes. */
  function DecimalValue(s: string): nat
    requires forall i | 0 <= i < |s| :: IsAsciiDigit(s[i])
  {
    if s == [] then 0 else DecimalValue(s[..|s| - 1]) * 10 + DigitValue(s[|s| - 1])
  }

  /** Rendering a number and reading the numeral back gives the number again. */
  lemma {:induction false} DecimalRoundTrip(n: nat)
    ensures DecimalValue(NatToDecimal(n)) == n
  {
    if n >= 10 {
      var s := NatToDecimal(n);
      assert s[..|s| - 1] == NatToDecimal(n / 10);
      DecimalRoundTrip(n / 10);
    }
  }

  /** Different numbers render differently. */
  lemma DecimalInjective(m: nat, n: nat)
    requires NatToDecimal(m) == NatToDecimal(n)
    ensures m == n
  {
    DecimalRoundTrip(m);
    DecimalRoundTrip(n);
  }

  // ---------------------------------------------------------------------
  // JSON request bodies

  /** The integers a JavaScript number holds exactly: magnitude at most
      2^53 - 1. `String(n)` prints these as their plain decimal numeral;
      larger numbers are rounded, and from 10^21 on printed with an exponent. */
  type SafeInteger = n: int | -0x1F_FFFF_FFFF_FFFF <= n <= 0x1F_FFFF_FFFF_FFFF

  /** A field value of a parsed JSON body. Numbers are safe integers. */
  datatype Json = JNull | JBool(b: bool) | JNum(n: SafeInteger) | JStr(s: string)

  /** The outcome of `await request.json()`: a parse failure (which throws),
      `null` (destructuring it throws), or an object. A JSON body that is
      neither `null` nor an object has no named properties and is represented
      by an object with no fields. */
  datatype Body = Unparseable | NullBody | Object(fields: map<string, Json>)

  /** The value of `const { key } = body` once the body is an object. */
  function Lookup(fields: map<string, Json>, key: string): Option<Json>
  {
    if key in fields then Some(fields[key]) else None
  }

  /** JavaScript truthiness; `None` is `undefined`. A truthy value is defined
      and not `null`, and a string is truthy exactly when it is not empty. */
  predicate Truthy(v: Option<Json>)
    ensures Truthy(v) ==> v.Some? && !v.value.JNull?
    ensures v.Some? && v.value.JStr? ==> (Truthy(v) <==> ToJsString(v.value) != "")
  {
    match v
    case None => false
    case Some(JNull) => false
    case Some(JBool(b)) => b
    case Some(JNum(n)) => n != 0
    case Some(JStr(s)) => s != ""
  }

  /** `String(v)`, which is also what `v.toString()` gives for these values. */
  function ToJsString(v: Json): string
  {
    match v
    case JNull => "null"
    case JBool(b) => if b then "true" else "false"
    case JNum(n) => IntToDecimal(n)
    case JStr(s) => s
  }

  // ---------------------------------------------------------------------
  // The `\s` class of JavaScript regular expressions

  /** White space and line terminators as ECMAScript defines them for `\s`. */
  predicate IsJsWhitespace(c: char)
    ensures IsJsWhitespace(c) ==> !IsAsciiDigit(c)
    ensures c == ' ' || c == '\t' || c == '\n' || c == '\r' ==> IsJsWhitespace(c)
  {
    var n := c as int;
    n == 0x09 || n == 0x0A || n == 0x0B || n == 0x0C || n == 0x0D || n == 0x20
    || n == 0xA0 || n == 0x1680 || (0x2000 <= n <= 0x200A)
    || n == 0x2028 || n == 0x2029 || n == 0x202F || n == 0x205F
    || n == 0x3000 || n == 0xFEFF
  }
}
