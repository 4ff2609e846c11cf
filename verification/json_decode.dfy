/** PHP's `json_decode($text, true)`: a recursive-descent reading of the
    RFC 8259 grammar that reports the first problem met, left to right, with
    the error number `json_last_error()` would give. Objects become keyed
    arrays (a repeated key keeps its first position and takes the last value,
    `{}` becomes the empty array), and nesting deeper than 512 is refused. */
module JsonParser {
  import opened Base
  import opened Bytes
  import opened JsonValue

  /** The failures `json_decode` reports, each with its `JSON_ERROR_*` number. */
  datatype DecodeError = DepthError | CtrlCharError | SyntaxError | Utf16Error {
    function Number(): (n: nat)
      ensures n > 0
    {
      match this
      case DepthError => 1
      case CtrlCharError => 3
      case SyntaxError => 4
      case Utf16Error => 10
    }
  }

  datatype Parsed<T> = Parsed(value: T, rest: string)

  type Parse<T> = Result<Parsed<T>, DecodeError>

  predicate IsWhitespace(c: char) {
    c == ' ' || c == '\t' || c == '\n' || c == '\r'
  }

  function SkipWs(s: string): (t: string)
    ensures |t| <= |s|
    ensures |t| > 0 ==> !IsWhitespace(t[0])
    ensures |s| > 0 && !IsWhitespace(s[0]) ==> t == s
  {
    if |s| > 0 && IsWhitespace(s[0]) then SkipWs(s[1..]) else s
  }

  /** The error for a character no token can start with: the scanner flags a
      NUL byte as a control character and anything else as a syntax error. */
  function Unexpected(t: string): DecodeError
  {
    if |t| > 0 && t[0] == '\0' then CtrlCharError else SyntaxError
  }

  /** Value of the four hexadecimal digits at `s[i..i+4]`. */
  function Hex4Value(s: string, i: nat): (r: Option<nat>)
    requires i + 4 <= |s|
    ensures r.Some? ==> r.value < 0x10000
  {
    match (HexValue(s[i]), HexValue(s[i + 1]), HexValue(s[i + 2]), HexValue(s[i + 3]))
    case (Some(a), Some(b), Some(c), Some(d)) => Some(a * 0x1000 + b * 0x100 + c * 0x10 + d)
    case _ => None
  }

  predicate IsHighSurrogate(u: nat) {
    0xD800 <= u < 0xDC00
  }

  predicate IsLowSurrogate(u: nat) {
    0xDC00 <= u < 0xE000
  }

  /** One backslash escape at the start of `s`: the character it stands for
      and how many characters it spans. */
  function ParseEscape(s: string): (r: Result<(char, nat), DecodeError>)
    requires |s| > 0 && s[0] == '\\'
    ensures r.Ok? ==> 2 <= r.value.1 <= |s|
  {
    if |s| < 2 then Err(SyntaxError)
    else if s[1] == '"' then Ok(('"', 2))
    else if s[1] == '\\' then Ok(('\\', 2))
    else if s[1] == '/' then Ok(('/', 2))
    else if s[1] == 'b' then Ok((0x08 as char, 2))
    else if s[1] == 'f' then Ok((0x0C as char, 2))
    else if s[1] == 'n' then Ok(('\n', 2))
    else if s[1] == 'r' then Ok(('\r', 2))
    else if s[1] == 't' then Ok(('\t', 2))
    else if s[1] != 'u' || |s| < 6 || Hex4Value(s, 2).None? then Err(SyntaxError)
    else
      var hi := Hex4Value(s, 2).value;
      if IsHighSurrogate(hi) then
        if 12 <= |s| && s[6] == '\\' && s[7] == 'u' && Hex4Value(s, 8).Some?
           && IsLowSurrogate(Hex4Value(s, 8).value)
        then
          var lo := Hex4Value(s, 8).value;
          Ok(((0x10000 + (hi - 0xD800) * 0x400 + (lo - 0xDC00)) as char, 12))
        else Err(Utf16Error)
      else if IsLowSurrogate(hi) then Err(Utf16Error)
      else Ok((hi as char, 6))
  }

  /** One character of a string body that does not start with the closing quote. */
  function ParseChar(s: string): (r: Result<(char, nat), DecodeError>)
    requires |s| > 0 && s[0] != '"'
    ensures r.Ok? ==> 0 < r.value.1 <= |s|
  {
    if s[0] == '\\' then ParseEscape(s)
    else if s[0] < ' ' then Err(CtrlCharError)
    else Ok((s[0], 1))
  }

  /** The rest of a string after its opening quote, up to and including the
      closing quote. An unterminated string is a control-character error, as
      the scanner meets the terminating NUL first. */
  function ParseStringBody(s: string): (r: Parse<string>)
    ensures r.Ok? ==> |r.value.rest| < |s|
    decreases |s|
  {
    if |s| == 0 then Err(CtrlCharError)
    else if s[0] == '"' then Ok(Parsed("", s[1..]))
    else
      var cn :- ParseChar(s);
      var tail :- ParseStringBody(s[cn.1..]);
      Ok(Parsed([cn.0] + tail.value, tail.rest))
  }

  /** One value after optional whitespace; `depth` counts the enclosing arrays. */
  function ParseValue(s: string, depth: nat): (r: Parse<Json>)
    ensures r.Ok? ==> |r.value.rest| < |s|
    decreases |s|, 0
  {
    var t := SkipWs(s);
    if |t| == 0 then Err(SyntaxError)
    else if t[0] == '{' then
      if depth + 1 > MaxDepth then Err(DepthError) else ParseObject(t[1..], depth + 1)
    else if t[0] == '[' then
      if depth + 1 > MaxDepth then Err(DepthError) else ParseArray(t[1..], depth + 1)
    else if t[0] == '"' then
      var p :- ParseStringBody(t[1..]);
      Ok(Parsed(JString(p.value), p.rest))
    else if t[0] == '-' || IsDigit(t[0]) then
      match NumberEnd(t)
      case None => Err(SyntaxError)
      case Some(n) => NumberEndPrefix(t, n); Ok(Parsed(JNumber(t[..n]), t[n..]))
    else if 4 <= |t| && t[..4] == "true" then Ok(Parsed(JBool(true), t[4..]))
    else if 5 <= |t| && t[..5] == "false" then Ok(Parsed(JBool(false), t[5..]))
    else if 4 <= |t| && t[..4] == "null" then Ok(Parsed(JNull, t[4..]))
    else Err(Unexpected(t))
  }

  /** A list after its opening bracket. */
  function ParseArray(s: string, depth: nat): (r: Parse<Json>)
    ensures r.Ok? ==> |r.value.rest| < |s|
    decreases |s|, 2
  {
    var t := SkipWs(s);
    if |t| > 0 && t[0] == ']' then Ok(Parsed(JArray([]), t[1..]))
    else ParseItems(s, depth, [])
  }

  /** The elements of a list from its next element on; `acc` holds those read so far. */
  function ParseItems(s: string, depth: nat, acc: seq<Json>): (r: Parse<Json>)
    ensures r.Ok? ==> |r.value.rest| < |s|
    decreases |s|, 1
  {
    var v :- ParseValue(s, depth);
    var t := SkipWs(v.rest);
    if |t| == 0 then Err(SyntaxError)
    else if t[0] == ',' then ParseItems(t[1..], depth, acc + [v.value])
    else if t[0] == ']' then Ok(Parsed(JArray(acc + [v.value]), t[1..]))
    else Err(Unexpected(t))
  }

  /** An object after its opening brace; `{}` is PHP's empty array. */
  function ParseObject(s: string, depth: nat): (r: Parse<Json>)
    ensures r.Ok? ==> |r.value.rest| < |s|
    decreases |s|, 2
  {
    var t := SkipWs(s);
    if |t| > 0 && t[0] == '}' then Ok(Parsed(JArray([]), t[1..]))
    else ParseMembers(s, depth, [])
  }

  /** The members of an object from its next member on, stored as PHP stores
      them into `acc`. */
  function ParseMembers(s: string, depth: nat, acc: seq<Member>): (r: Parse<Json>)
    ensures r.Ok? ==> |r.value.rest| < |s|
    decreases |s|, 1
  {
    var t := SkipWs(s);
    if |t| == 0 || t[0] != '"' then Err(Unexpected(t))
    else
      var key :- ParseStringBody(t[1..]);
      var u := SkipWs(key.rest);
      if |u| == 0 || u[0] != ':' then Err(Unexpected(u))
      else
        var v :- ParseValue(u[1..], depth);
        var w := SkipWs(v.rest);
        var fields := Put(acc, key.value, v.value);
        if |w| == 0 then Err(SyntaxError)
        else if w[0] == ',' then ParseMembers(w[1..], depth, fields)
        else if w[0] == '}' then Ok(Parsed(JObject(fields), w[1..]))
        else Err(Unexpected(w))
  }

  /** `json_decode($s, true)`, with `json_last_error()` folded into the error. */
  function Decode(s: string): Result<Json, DecodeError>
  {
    var v :- ParseValue(s, 0);
    var t := SkipWs(v.rest);
    if |t| > 0 then Err(Unexpected(t)) else Ok(v.value)
  }
}
