/**
 * JSON values as the settings files, presets and themes hold them after parsing,
 * with the two pieces of JavaScript semantics the scripts rely on: truthiness
 * (`if (!x)`) and the `String(x)` conversion.
 */
module JsonValue {

  /** A parsed JSON value. Numbers are integers here (see README, "Left out"). */
  datatype Json =
    | JNull
    | JBool(b: bool)
    | JNumber(n: int)
    | JString(s: string)
    | JArray(items: seq<Json>)
    | JObject(members: map<string, Json>)

  /** JavaScript's ToBoolean on a JSON value: null, false, 0 and "" are falsy, everything else (including [] and {}) is truthy. */
  predicate Truthy(v: Json)
  {
    match v
    case JNull => false
    case JBool(b) => b
    case JNumber(n) => n != 0
    case JString(s) => s != ""
    case JArray(_) => true
    case JObject(_) => true
  }

  /** Decimal digits of a natural number, most significant first. */
  function Digits(n: nat): string
    decreases n
  {
    if n < 10 then ["0123456789"[n]] else Digits(n / 10) + ["0123456789"[n % 10]]
  }

  /** Comma-separated concatenation, as `Array.prototype.join(",")`. */
  function JoinCommas(parts: seq<string>): string
    decreases |parts|
  {
    if |parts| == 0 then ""
    else if |parts| == 1 then parts[0]
    else JoinCommas(parts[..|parts| - 1]) + "," + parts[|parts| - 1]
  }

  /**
   * JavaScript's `String(v)` on a JSON value. An array becomes its elements
   * joined by commas, a null element contributing the empty string; an object
   * becomes "[object Object]".
   */
  function JsString(v: Json): string
    decreases v
  {
    match v
    case JNull => "null"
    case JBool(b) => if b then "true" else "false"
    case JNumber(n) => if n < 0 then "-" + Digits(-n) else Digits(n)
    case JString(s) => s
    case JArray(items) =>
      JoinCommas(seq(|items|, i requires 0 <= i < |items| => if items[i].JNull? then "" else JsString(items[i])))
    case JObject(_) => "[object Object]"
  }
}
