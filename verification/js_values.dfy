/**
 * The fragment of JavaScript value semantics the validator relies on:
 * the values a YAML safe load can produce, truthiness (`!x`), property
 * reads (`x.id`, `x[key]`) and string conversion (template literals and
 * object keys).
 */
module JsValues {

  import opened Results

  /**
   * The integers a JavaScript number holds exactly: magnitude at most 2^53.
   * Every one of them prints in plain decimal (exponent notation starts at 10^21).
   */
  type ExactInt = n: int | -0x20_0000_0000_0000 <= n <= 0x20_0000_0000_0000

  /** A JavaScript value as produced by a YAML safe load. Numbers are exact integers. */
  datatype Value =
    | Undefined
    | Null
    | Bool(b: bool)
    | Num(n: ExactInt)
    | Str(s: string)
    | List(items: seq<Value>)
    | Obj(fields: map<string, Value>)

  /** JavaScript truthiness: what survives `if (x)`. */
  predicate Truthy(v: Value)
    ensures !Truthy(v) <==> v in {Undefined, Null, Bool(false), Num(0), Str("")}
  {
    match v
    case Undefined => false
    case Null => false
    case Bool(b) => b
    case Num(n) => n != 0
    case Str(s) => |s| > 0
    case List(_) => true
    case Obj(_) => true
  }

  /**
   * `v[key]` for the keys the validator reads (`for`, `id`, `name`): an own
   * field of a mapping, `undefined` otherwise. No value a YAML safe load builds
   * inherits a property with one of those names.
   */
  function Property(v: Value, key: string): Value
  {
    match v
    case Obj(fields) => if key in fields then fields[key] else Undefined
    case _ => Undefined
  }

  predicate IsDigit(c: char)
  {
    '0' <= c <= '9'
  }

  predicate AllDigits(s: string)
  {
    forall k :: 0 <= k < |s| ==> IsDigit(s[k])
  }

  function DigitChar(d: nat): (c: char)
    requires d < 10
    ensures IsDigit(c)
    ensures DigitValue(c) == d
  {
    (d + '0' as int) as char
  }

  function DigitValue(c: char): nat
    requires IsDigit(c)
  {
    c as int - '0' as int
  }

  /** Decimal rendering of a natural number, as `String(n)` prints it. */
  function NatToString(n: nat): (r: string)
    ensures |r| >= 1
    ensures AllDigits(r)
    ensures |r| > 1 ==> r[0] != '0'
    decreases n
  {
    if n < 10 then [DigitChar(n)] else NatToString(n / 10) + [DigitChar(n % 10)]
  }

  /** Reads a string of decimal digits back as a number. */
  function ParseNat(s: string): nat
    requires AllDigits(s)
    decreases |s|
  {
    if |s| == 0 then 0 else 10 * ParseNat(s[..|s| - 1]) + DigitValue(s[|s| - 1])
  }

  /** Decimal rendering reads back as the number it came from. */
  lemma {:induction false} NatToStringRoundTrip(n: nat)
    ensures ParseNat(NatToString(n)) == n
    decreases n
  {
    var s := NatToString(n);
    if n >= 10 {
      NatToStringRoundTrip(n / 10);
      assert s[..|s| - 1] == NatToString(n / 10);
    }
  }

  /** Decimal rendering of an integer, with a leading `-` when negative. */
  function IntToString(n: int): string
  {
    if n < 0 then "-" + NatToString(-n) else NatToString(n)
  }

  /** Reads back what `IntToString` prints; `None` for anything else. */
  function ParseInt(s: string): Option<int>
  {
    if |s| > 0 && s[0] == '-' && AllDigits(s[1..]) then
      var magnitude: int := ParseNat(s[1..]);
      Some(-magnitude)
    else if AllDigits(s) then Some(ParseNat(s))
    else None
  }

  lemma IntToStringRoundTrip(n: int)
    ensures ParseInt(IntToString(n)) == Some(n)
  {
    var s := IntToString(n);
    if n < 0 {
      var digits := NatToString(-n);
      assert s == "-" + digits;
      assert s[1..] == digits;
      NatToStringRoundTrip(-n);
    } else {
      var digits := NatToString(n);
      assert s == digits;
      assert IsDigit(s[0]);
      NatToStringRoundTrip(n);
    }
  }

  /** Different integers print differently. */
  lemma IntToStringInjective(a: int, b: int)
    ensures IntToString(a) == IntToString(b) ==> a == b
  {
    IntToStringRoundTrip(a);
    IntToStringRoundTrip(b);
  }

  /** `Array.prototype.join(sep)`. */
  function Join(parts: seq<string>, sep: string): string
    decreases |parts|
  {
    if |parts| == 0 then ""
    else if |parts| == 1 then parts[0]
    else parts[0] + sep + Join(parts[1..], sep)
  }

  /**
   * `String(v)`, which is also how a value becomes an object key and how a
   * template literal prints it. Array elements that are `null` or
   * `undefined` print as the empty string.
   */
  function ToJsString(v: Value): string
    decreases v
  {
    match v
    case Undefined => "undefined"
    case Null => "null"
    case Bool(b) => if b then "true" else "false"
    case Num(n) => IntToString(n)
    case Str(s) => s
    case List(items) =>
      Join(seq(|items|, k requires 0 <= k < |items| =>
        if items[k].Undefined? || items[k].Null? then "" else ToJsString(items[k])), ",")
    case Obj(_) => "[object Object]"
  }

  /** Two numeric ids print, and so group, the same only when equal. */
  lemma NumberKeysDistinct(a: ExactInt, b: ExactInt)
    ensures ToJsString(Num(a)) == ToJsString(Num(b)) <==> a == b
  {
    IntToStringInjective(a, b);
  }

  /** A numeric id and its decimal string print the same, so they group together. */
  lemma NumberAndStringKeysCollide(n: ExactInt)
    ensures ToJsString(Num(n)) == ToJsString(Str(IntToString(n)))
  {
  }

  /**
   * Whether `String(v)` returns at all. A mapping with its own `toString`
   * field hides the callable one it would inherit, and the inherited
   * `valueOf` returns the object itself, so the conversion throws a
   * TypeError; an array converts its elements, so it throws when one of
   * them does. Every other value converts.
   */
  predicate Printable(v: Value)
    decreases v
  {
    match v
    case Obj(fields) => "toString" !in fields
    case List(items) => forall k :: 0 <= k < |items| ==> Printable(items[k])
    case _ => true
  }

  /** V8's message for that TypeError. */
  const CANNOT_CONVERT: string := "Cannot convert object to primitive value"

  predicate StartsWith(s: string, prefix: string)
  {
    |prefix| <= |s| && s[..|prefix|] == prefix
  }
}
