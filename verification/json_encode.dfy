/** PHP's `json_encode` with default flags: compact output, `/` escaped as
    `\/`, control characters and every non-ASCII character written as
    lowercase `\uXXXX` (UTF-16 surrogate pairs above U+FFFF), a list as
    `[...]`, a keyed array as `{...}`, and an empty array as `[]`. */
module JsonEncode {
  import opened Base
  import opened Bytes
  import opened JsonValue

  /** Four lowercase hexadecimal digits of a UTF-16 code unit. */
  function Hex4(n: nat): (s: string)
    requires n < 0x10000
    ensures |s| == 4
  {
    [HexChar(n / 0x1000), HexChar(n / 0x100 % 16), HexChar(n / 0x10 % 16), HexChar(n % 16)]
  }

  function UnicodeEscape(n: nat): (s: string)
    requires n < 0x10000
    ensures |s| == 6
  {
    "\\u" + Hex4(n)
  }

  /** How one character of a string is written. */
  function EscapeChar(c: char): (r: string)
    ensures |r| > 0
  {
    var n := c as int;
    if n == 0x22 then "\\\""
    else if n == 0x5C then "\\\\"
    else if n == 0x2F then "\\/"
    else if n == 0x08 then "\\b"
    else if n == 0x0C then "\\f"
    else if n == 0x0A then "\\n"
    else if n == 0x0D then "\\r"
    else if n == 0x09 then "\\t"
    else if n < 0x20 then UnicodeEscape(n)
    else if n < 0x80 then [c]
    else if n < 0x10000 then UnicodeEscape(n)
    else
      var m := n - 0x10000;
      UnicodeEscape(0xD800 + m / 0x400) + UnicodeEscape(0xDC00 + m % 0x400)
  }

  function Escape(s: string): string
  {
    if |s| == 0 then "" else EscapeChar(s[0]) + Escape(s[1..])
  }

  function Quote(s: string): string
  {
    "\"" + Escape(s) + "\""
  }

  /** The text of a value, ignoring the nesting limit. */
  function Text(v: Json): string
    decreases v
  {
    match v
    case JNull => "null"
    case JBool(b) => if b then "true" else "false"
    case JNumber(lit) => lit
    case JString(s) => Quote(s)
    case JArray(items) => "[" + ItemsText(items) + "]"
    case JObject(ms) => if |ms| == 0 then "[]" else "{" + MembersText(ms) + "}"
  }

  function ItemsText(items: seq<Json>): string
    decreases items
  {
    if |items| == 0 then ""
    else if |items| == 1 then Text(items[0])
    else Text(items[0]) + "," + ItemsText(items[1..])
  }

  function MemberText(m: Member): string
    decreases m
  {
    Quote(m.key) + ":" + Text(m.value)
  }

  function MembersText(ms: seq<Member>): string
    decreases ms
  {
    if |ms| == 0 then ""
    else if |ms| == 1 then MemberText(ms[0])
    else MemberText(ms[0]) + "," + MembersText(ms[1..])
  }

  /** `json_encode($v)`: None stands for PHP's `false`, returned when the
      nesting exceeds the default depth of 512. */
  function Encode(v: Json): (r: Option<string>)
    ensures r.Some? <==> Depth(v) <= MaxDepth
  {
    if Depth(v) > MaxDepth then None else Some(Text(v))
  }
}
