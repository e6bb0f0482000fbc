/**
 * The JavaScript values the cookie helpers receive and store, with the two
 * conversions they rely on: `JSON.stringify` and `String(value)` (what a
 * template literal prints). Numbers are integers here.
 */
module JsValues {
  import opened Wrappers
  import opened Strings

  datatype Value =
    | Undefined
    | Null
    | Bool(b: bool)
    | Num(n: int)
    | Str(s: string)
    | Arr(items: seq<Value>)
    | Obj(members: seq<Member>)

  /** An own enumerable property of an object, in insertion order. */
  datatype Member = Member(key: string, value: Value)

  /** JavaScript truthiness. */
  predicate Truthy(v: Value)
  {
    match v
    case Undefined => false
    case Null => false
    case Bool(b) => b
    case Num(n) => n != 0
    case Str(s) => s != ""
    case Arr(_) => true
    case Obj(_) => true
  }

  function HexDigitLower(d: nat): (c: char)
    requires d < 16
  {
    "0123456789abcdef"[d]
  }

  /** One character of a JSON string literal, escaped as JSON.stringify escapes it. */
  function QuoteChar(c: char): string
  {
    if c == '"' then "\\\""
    else if c == '\\' then "\\\\"
    else if c == '\U{8}' then "\\b"
    else if c == '\U{C}' then "\\f"
    else if c == '\n' then "\\n"
    else if c == '\r' then "\\r"
    else if c == '\t' then "\\t"
    else if (c as int) < 0x20 then "\\u00" + [HexDigitLower(c as int / 16), HexDigitLower(c as int % 16)]
    else [c]
  }

  function QuoteChars(s: string): string
  {
    if s == [] then "" else QuoteChar(s[0]) + QuoteChars(s[1..])
  }

  /** `JSON.stringify` of a string. */
  function Quote(s: string): (q: string)
    ensures |q| >= 2 && q[0] == '"'
  {
    "\"" + QuoteChars(s) + "\""
  }

  /** `JSON.stringify(v)`; `None` is the `undefined` it returns for `undefined`. */
  function JsonText(v: Value): (r: Option<string>)
    ensures r.None? <==> v.Undefined?
    ensures r.Some? ==> |r.value| > 0
    decreases v
  {
    match v
    case Undefined => None
    case Null => Some("null")
    case Bool(b) => Some(if b then "true" else "false")
    case Num(n) => Some(IntToString(n))
    case Str(s) => Some(Quote(s))
    case Arr(items) => Some("[" + Join(JsonItems(items), ",") + "]")
    case Obj(members) => Some("{" + Join(JsonMembers(members), ",") + "}")
  }

  /** Array elements; an element with no JSON text is written `null`. */
  function JsonItems(items: seq<Value>): seq<string>
    decreases items
  {
    if items == [] then []
    else [match JsonText(items[0]) case Some(t) => t case None => "null"] + JsonItems(items[1..])
  }

  /** Object members; a member with no JSON text is left out. */
  function JsonMembers(members: seq<Member>): seq<string>
    decreases members
  {
    if members == [] then []
    else
      (match JsonText(members[0].value)
       case Some(t) => [Quote(members[0].key) + ":" + t]
       case None => [])
      + JsonMembers(members[1..])
  }

  /** `String(v)`, as `${v}` prints it. */
  function ToJsString(v: Value): (r: string)
    ensures v.Str? ==> r == v.s
    ensures v.Bool? || v.Null? || v.Undefined? ==> r in {"true", "false", "null", "undefined"}
    ensures v.Num? ==> |r| > 0 && (r[0] == '-' || '0' <= r[0] <= '9')
    decreases v
  {
    match v
    case Undefined => "undefined"
    case Null => "null"
    case Bool(b) => if b then "true" else "false"
    case Num(n) => IntToString(n)
    case Str(s) => s
    case Arr(items) => Join(ElementStrings(items), ",")
    case Obj(_) => "[object Object]"
  }

  /** `Array.prototype.join` writes `null` and `undefined` elements as "". */
  function ElementStrings(items: seq<Value>): seq<string>
    decreases items
  {
    if items == [] then []
    else [if items[0].Undefined? || items[0].Null? then "" else ToJsString(items[0])] + ElementStrings(items[1..])
  }

  /** The first character of JSON text tells its kind: only arrays and
      objects start with `[` or `{`. */
  lemma JsonTextStart(v: Value)
    requires JsonText(v).Some?
    ensures |JsonText(v).value| > 0
    ensures JsonText(v).value[0] == '[' <==> v.Arr?
    ensures JsonText(v).value[0] == '{' <==> v.Obj?
  {
    match v
    case Null =>
    case Bool(b) =>
    case Num(n) =>
    case Str(s) =>
    case Arr(items) =>
    case Obj(members) =>
  }
}
