/** The parts of PHP's loose typing that the client's decisions depend on:
    string truthiness, reads under `??`, and how a decoded JSON value turns
    into a `string` argument or return value. Which conversion applies
    depends on whether the calling file declares `strict_types`. */
module Php {
  import opened Base
  import opened JsonValue
  import opened JsonEncode
  import opened JsonParser
  import opened JsonRoundTrip

  /** PHP truthiness of a string, as `?:` and `!empty` test it: only `''`
      and `'0'` are false. */
  predicate Truthy(s: string) {
    s != "" && s != "0"
  }

  /** `$v[$k1][$k2]...` read under `isset` or `??`: a missing key, a step into
      something that is not a keyed array, and a null value all read as unset. */
  function Lookup(v: Json, path: seq<string>): (r: Option<Json>)
    ensures r.Some? ==> !r.value.JNull?
    ensures |path| == 0 ==> (r.Some? <==> !v.JNull?)
    decreases |path|
  {
    if v.JNull? then None
    else if |path| == 0 then Some(v)
    else
      match Get(v, path[0])
      case None => None
      case Some(child) => Lookup(child, path[1..])
  }

  /** `$v[$k1]...[$kn] ?? $default`. */
  function Coalesce(v: Json, path: seq<string>, default: Json): (r: Json)
    ensures Lookup(v, path).Some? ==> r == Lookup(v, path).value
    ensures Lookup(v, path).None? ==> r == default
  {
    Lookup(v, path).GetOr(default)
  }

  /** The text PHP prints for a decoded JSON number. Integer literals print as
      themselves (`-0` decodes to the integer 0); fractional and exponent
      literals are kept as written rather than reformatted as PHP floats. */
  function NumberString(lit: NumberText): (s: string)
    ensures |s| > 0 && forall i :: 0 <= i < |s| ==> IsNumberChar(s[i])
  {
    NumberLiteralChars(lit);
    if lit == "-0" then "0" else lit
  }

  /** A decoded value passed to, or returned as, a `string` in a file without
      `strict_types`: strings pass, numbers print, booleans become `'1'` or
      `''`; null and arrays raise a `TypeError` (None). */
  function CoerceString(v: Json): (r: Option<string>)
    ensures v.JString? ==> r == Some(v.str)
    ensures r.None? <==> (v.JNull? || v.JArray? || v.JObject?)
  {
    match v
    case JString(s) => Some(s)
    case JBool(b) => Some(if b then "1" else "")
    case JNumber(lit) => Some(NumberString(lit))
    case _ => None
  }

  /** The same under `strict_types=1`: only a string is accepted. */
  function StrictString(v: Json): (r: Option<string>)
    ensures r.Some? <==> v.JString?
    ensures r.Some? ==> r.value == v.str
  {
    if v.JString? then Some(v.str) else None
  }

  /** PHP 8 loose equality `$v == $s` against a string `s` that is not
      numeric: strings compare as text, a boolean against the string's
      truthiness, null against `''`, a number through its printed text, and
      an array never equals a string. */
  predicate LooseEqualsText(v: Json, s: string) {
    match v
    case JString(t) => t == s
    case JBool(b) => b == Truthy(s)
    case JNull => s == ""
    case JNumber(lit) => NumberString(lit) == s
    case _ => false
  }

  /** A string holding a character no number uses never loosely equals a
      number, so only strings and `true` can equal it. */
  lemma LooseEqualsWordText(v: Json, s: string, k: nat)
    requires Truthy(s) && k < |s| && !IsNumberChar(s[k])
    ensures LooseEqualsText(v, s) <==> (v == JString(s) || v == JBool(true))
  {
  }

  /** A one-key read is the member under that key, unless it is null. */
  lemma LookupOne(v: Json, key: string)
    ensures Lookup(v, [key]) == if Get(v, key).Some? && !Get(v, key).value.JNull? then Get(v, key) else None
  {
    assert [key][1..] == [];
  }

  /** A two-key read goes through the member under the first key. */
  lemma LookupTwo(v: Json, k1: string, k2: string)
    requires !v.JNull?
    ensures Lookup(v, [k1, k2]) == if Get(v, k1).Some? then Lookup(Get(v, k1).value, [k2]) else None
  {
    assert [k1, k2][1..] == [k2];
  }

  /** `json_encode($v) ?: ''`: the encoding, or the empty string when
      encoding fails or gives a falsy text. */
  function EncodeOrEmpty(v: Json): string
  {
    match Encode(v)
    case Some(t) => if Truthy(t) then t else ""
    case None => ""
  }

  /** A well-formed array is written, decoded back, and never replaced by
      the `''` fallback. */
  lemma EncodeOrEmptyReads(v: Json)
    requires IsArray(v) && WellFormed(v) && Depth(v) <= MaxDepth
    ensures EncodeOrEmpty(v) == Text(v)
    ensures Decode(EncodeOrEmpty(v)) == Ok(v)
    ensures IsAscii(EncodeOrEmpty(v))
  {
    DecodeEncode(v);
    assert Text(v)[0] == '{' || Text(v)[0] == '[';
    TextAscii(v);
  }

  /** The whitespace `is_numeric` skips around a number: space, tab,
      newline, carriage return, vertical tab, form feed. */
  predicate IsNumericSpace(c: char) {
    c == ' ' || c == '\t' || c == '\n' || c == '\r' || c as int == 0x0B || c as int == 0x0C
  }

  /** First index at or after `i` that is not such whitespace. */
  function SpacesEnd(s: string, i: nat): (j: nat)
    requires i <= |s|
    ensures i <= j <= |s|
    ensures forall k :: i <= k < j ==> IsNumericSpace(s[k])
    ensures j < |s| ==> !IsNumericSpace(s[j])
    decreases |s| - i
  {
    if i < |s| && IsNumericSpace(s[i]) then SpacesEnd(s, i + 1) else i
  }

  /** End of a decimal number starting at `i`: an optional sign, digits
      with an optional fraction (or a fraction alone), and an exponent when
      one with digits follows. None when there are no mantissa digits. */
  function DecimalEnd(s: string, i: nat): (r: Option<nat>)
    requires i <= |s|
    ensures r.Some? ==> i < r.value <= |s|
  {
    var a := if i < |s| && (s[i] == '+' || s[i] == '-') then i + 1 else i;
    var d := DigitsEnd(s, a);
    var m := if d < |s| && s[d] == '.' then DigitsEnd(s, d + 1) else d;
    if d == a && m <= d + 1 then None
    else if m < |s| && (s[m] == 'e' || s[m] == 'E') then
      var e := if m + 1 < |s| && (s[m + 1] == '+' || s[m + 1] == '-') then m + 2 else m + 1;
      var x := DigitsEnd(s, e);
      Some(if x == e then m else x)
    else Some(m)
  }

  /** `is_numeric` on a string (PHP 8): whitespace, a decimal number,
      whitespace, and nothing else. Hexadecimal and binary forms are not
      numeric. */
  predicate IsNumericText(s: string) {
    var i := SpacesEnd(s, 0);
    match DecimalEnd(s, i)
    case Some(j) => SpacesEnd(s, j) == |s|
    case None => false
  }

  /** `is_numeric` on a decoded value: numbers always, strings by their text,
      nothing else. */
  predicate IsNumeric(v: Json) {
    v.JNumber? || (v.JString? && IsNumericText(v.str))
  }

  /** The number `DecimalEnd` finds holds a digit. */
  lemma DecimalDigit(s: string, i: nat)
    requires i <= |s| && DecimalEnd(s, i).Some?
    ensures exists k :: i <= k < DecimalEnd(s, i).value && IsDigit(s[k])
  {
    var a := if i < |s| && (s[i] == '+' || s[i] == '-') then i + 1 else i;
    var d := DigitsEnd(s, a);
    var m := if d < |s| && s[d] == '.' then DigitsEnd(s, d + 1) else d;
    assert m <= DecimalEnd(s, i).value;
    if d > a {
      assert IsDigit(s[a]);
    } else {
      assert IsDigit(s[d + 1]);
    }
  }

  /** The number `DecimalEnd` finds is made of number characters. */
  lemma DecimalChars(s: string, i: nat)
    requires i <= |s| && DecimalEnd(s, i).Some?
    ensures forall k :: i <= k < DecimalEnd(s, i).value ==> IsNumberChar(s[k])
  {
    var a := if i < |s| && (s[i] == '+' || s[i] == '-') then i + 1 else i;
    var d := DigitsEnd(s, a);
    var m := if d < |s| && s[d] == '.' then DigitsEnd(s, d + 1) else d;
    var e := if m + 1 < |s| && (s[m + 1] == '+' || s[m + 1] == '-') then m + 2 else m + 1;
    var x := if m < |s| && (s[m] == 'e' || s[m] == 'E') && e <= |s| then DigitsEnd(s, e) else m;
    forall k | i <= k < DecimalEnd(s, i).value ensures IsNumberChar(s[k]) {
      if k < a {
      } else if k < d {
      } else if k < m {
        if k > d {
          assert IsDigit(s[k]);
        }
      } else if k < e {
      } else {
        assert k < x;
        assert IsDigit(s[k]);
      }
    }
  }

  /** A numeric string holds a digit, and every character is whitespace, a
      digit, a sign, a dot or an exponent mark. */
  lemma NumericTextChars(s: string)
    requires IsNumericText(s)
    ensures exists k :: 0 <= k < |s| && IsDigit(s[k])
    ensures forall k :: 0 <= k < |s| ==> IsNumericSpace(s[k]) || IsNumberChar(s[k])
  {
    var i := SpacesEnd(s, 0);
    DecimalDigit(s, i);
    DecimalChars(s, i);
    var j := DecimalEnd(s, i).value;
    assert forall k :: j <= k < |s| ==> IsNumericSpace(s[k]);
  }

  /** A run of digits is numeric, and stays so with whitespace around it. */
  lemma DigitsNumeric(pre: string, digits: string, post: string)
    requires |digits| > 0 && forall k :: 0 <= k < |digits| ==> IsDigit(digits[k])
    requires forall k :: 0 <= k < |pre| ==> IsNumericSpace(pre[k])
    requires forall k :: 0 <= k < |post| ==> IsNumericSpace(post[k])
    ensures IsNumericText(pre + digits + post)
  {
    var s := pre + digits + post;
    var n := |pre| + |digits|;
    SpacesEndOver(s, 0, |pre|);
    DigitsEndOver(s, |pre|, n);
    SpacesEndOver(s, n, |s|);
  }

  lemma {:induction false} SpacesEndOver(s: string, i: nat, j: nat)
    requires i <= j <= |s|
    requires forall k :: i <= k < j ==> IsNumericSpace(s[k])
    requires j == |s| || !IsNumericSpace(s[j])
    ensures SpacesEnd(s, i) == j
    decreases j - i
  {
    if i < j {
      SpacesEndOver(s, i + 1, j);
    }
  }

  lemma {:induction false} DigitsEndOver(s: string, i: nat, j: nat)
    requires i <= j <= |s|
    requires forall k :: i <= k < j ==> IsDigit(s[k])
    requires j == |s| || !IsDigit(s[j])
    ensures DigitsEnd(s, i) == j
    decreases j - i
  {
    if i < j {
      DigitsEndOver(s, i + 1, j);
    }
  }

  /** A value returned as a `float` from a file without `strict_types`:
      numbers and booleans convert, so does a numeric string; null, arrays
      and other strings raise a `TypeError`. */
  predicate CoercesToFloat(v: Json) {
    v.JNumber? || v.JBool? || (v.JString? && IsNumericText(v.str))
  }
}
