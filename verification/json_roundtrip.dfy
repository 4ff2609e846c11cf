/** What `json_decode` recovers from `json_encode`'s output: every
    well-formed value within the nesting limit comes back unchanged, and the
    encoded text is pure ASCII (so its byte length is its character count). */
module JsonRoundTrip {
  import opened Base
  import opened Bytes
  import opened JsonValue
  import opened JsonEncode
  import opened JsonParser

  /** Text that may follow a value inside the encoder's output. */
  predicate Delimited(t: string) {
    |t| == 0 || t[0] == ',' || t[0] == ']' || t[0] == '}'
  }

  lemma Hex4Reads(n: nat, s: string, i: nat)
    requires n < 0x10000
    requires i + 4 <= |s| && s[i..i + 4] == Hex4(n)
    ensures Hex4Value(s, i) == Some(n)
  {
    var a, b, c, d := n / 0x1000, n / 0x100 % 16, n / 0x10 % 16, n % 16;
    assert s[i] == HexChar(a) && s[i + 1] == HexChar(b) by {
      assert s[i] == s[i..i + 4][0] && s[i + 1] == s[i..i + 4][1];
    }
    assert s[i + 2] == HexChar(c) && s[i + 3] == HexChar(d) by {
      assert s[i + 2] == s[i..i + 4][2] && s[i + 3] == s[i..i + 4][3];
    }
    HexValueOfHexChar(a);
    HexValueOfHexChar(b);
    HexValueOfHexChar(c);
    HexValueOfHexChar(d);
    assert n / 0x10 / 16 == n / 0x100;
    assert n / 0x100 / 16 == n / 0x1000;
    assert a * 0x1000 + b * 0x100 + c * 0x10 + d == n;
  }

  /** `\uXXXX` for a code unit that is not a surrogate reads back as that character. */
  lemma UnicodeEscapeReads(c: char, rest: string)
    requires c as int < 0x10000
    ensures ParseEscape(UnicodeEscape(c as int) + rest) == Ok((c, 6))
  {
    var n := c as int;
    var s := UnicodeEscape(n) + rest;
    assert s[..2] == "\\u";
    assert s[2..6] == Hex4(n);
    Hex4Reads(n, s, 2);
  }

  /** The decoder's reading of a surrogate pair recombines it into one code point. */
  lemma PairSplit(n: nat)
    requires 0x10000 <= n < 0x110000
    ensures 0xD800 <= 0xD800 + (n - 0x10000) / 0x400 < 0xDC00
    ensures 0xDC00 <= 0xDC00 + (n - 0x10000) % 0x400 < 0xE000
    ensures 0x10000 + (n - 0x10000) / 0x400 * 0x400 + (n - 0x10000) % 0x400 == n
  {
  }

  lemma PairEscapeReads(s: string, hi: nat, lo: nat)
    requires 12 <= |s| && s[0] == '\\' && s[1] == 'u' && s[6] == '\\' && s[7] == 'u'
    requires Hex4Value(s, 2) == Some(hi) && Hex4Value(s, 8) == Some(lo)
    requires IsHighSurrogate(hi) && IsLowSurrogate(lo)
    ensures ParseEscape(s) == Ok(((0x10000 + (hi - 0xD800) * 0x400 + (lo - 0xDC00)) as char, 12))
  {
  }

  /** Two `\uXXXX` escapes of a high and a low surrogate read back as the
      character they combine to. */
  lemma PairReads(c: char, hi: nat, lo: nat, rest: string)
    requires IsHighSurrogate(hi) && IsLowSurrogate(lo)
    requires c as int == 0x10000 + (hi - 0xD800) * 0x400 + (lo - 0xDC00)
    ensures ParseEscape(UnicodeEscape(hi) + UnicodeEscape(lo) + rest) == Ok((c, 12))
  {
    var a, b := UnicodeEscape(hi), UnicodeEscape(lo);
    var s := a + b + rest;
    assert s[2..6] == a[2..] == Hex4(hi);
    assert s[8..12] == b[2..] == Hex4(lo);
    Hex4Reads(hi, s, 2);
    Hex4Reads(lo, s, 8);
    assert s[0] == a[0] && s[1] == a[1] && s[6] == b[0] && s[7] == b[1];
    PairEscapeReads(s, hi, lo);
  }

  /** A surrogate pair reads back as the supplementary character it encodes. */
  lemma SurrogatePairReads(c: char, rest: string)
    requires c as int >= 0x10000
    ensures ParseEscape(EscapeChar(c) + rest) == Ok((c, 12))
  {
    var n := c as int;
    var hi, lo := 0xD800 + (n - 0x10000) / 0x400, 0xDC00 + (n - 0x10000) % 0x400;
    assert IsHighSurrogate(hi) && IsLowSurrogate(lo) && n == 0x10000 + (hi - 0xD800) * 0x400 + (lo - 0xDC00) by {
      PairSplit(n);
    }
    assert EscapeChar(c) == UnicodeEscape(hi) + UnicodeEscape(lo) by {
      EscapeSupplementary(c);
    }
    PairReads(c, hi, lo, rest);
  }

  lemma EscapeSupplementary(c: char)
    requires c as int >= 0x10000
    ensures EscapeChar(c) == UnicodeEscape(0xD800 + (c as int - 0x10000) / 0x400)
                           + UnicodeEscape(0xDC00 + (c as int - 0x10000) % 0x400)
  {
  }

  /** Each escaped character reads back as itself and spans its whole escape. */
  lemma EscapeCharReads(c: char, rest: string)
    ensures EscapeChar(c)[0] != '"'
    ensures ParseChar(EscapeChar(c) + rest) == Ok((c, |EscapeChar(c)|))
  {
    var n := c as int;
    var e := EscapeChar(c);
    var s := e + rest;
    assert s[0] == e[0];
    if n == 0x22 || n == 0x5C || n == 0x2F || n == 0x08 || n == 0x0C || n == 0x0A || n == 0x0D || n == 0x09 {
      assert s[1] == e[1];
    } else if n < 0x20 || (0x80 <= n < 0x10000) {
      UnicodeEscapeReads(c, rest);
    } else if n >= 0x10000 {
      SurrogatePairReads(c, rest);
    }
  }

  /** A quoted string's body reads back as the string, leaving what follows the quote. */
  lemma {:induction false} StringReads(str: string, t: string)
    ensures ParseStringBody(Escape(str) + "\"" + t) == Ok(Parsed(str, t))
    decreases |str|
  {
    var s := Escape(str) + "\"" + t;
    if |str| == 0 {
      assert s == "\"" + t;
    } else {
      var c := str[0];
      var rest := Escape(str[1..]) + "\"" + t;
      assert s == EscapeChar(c) + rest;
      EscapeCharReads(c, rest);
      assert s[|EscapeChar(c)|..] == rest;
      StringReads(str[1..], t);
      assert [c] + str[1..] == str;
    }
  }

  lemma NumberLiteralStart(lit: string)
    requires IsNumberLiteral(lit)
    ensures |lit| > 0 && (lit[0] == '-' || IsDigit(lit[0]))
  {
  }

  /** Encoded text never starts with whitespace or a closing bracket. */
  lemma TextStart(v: Json)
    ensures |Text(v)| > 0
    ensures !IsWhitespace(Text(v)[0]) && Text(v)[0] != ']' && Text(v)[0] != '}'
  {
    if v.JNumber? {
      NumberLiteralStart(v.literal);
    }
  }

  lemma ValueAtArray(s: string, depth: nat)
    requires |s| > 0 && s[0] == '[' && depth < MaxDepth
    ensures ParseValue(s, depth) == ParseArray(s[1..], depth + 1)
  {
    assert SkipWs(s) == s;
  }

  lemma ValueAtObject(s: string, depth: nat)
    requires |s| > 0 && s[0] == '{' && depth < MaxDepth
    ensures ParseValue(s, depth) == ParseObject(s[1..], depth + 1)
  {
    assert SkipWs(s) == s;
  }

  lemma ValueAtString(s: string, depth: nat, str: string, t: string)
    requires |s| > 0 && s[0] == '"' && ParseStringBody(s[1..]) == Ok(Parsed(str, t))
    ensures ParseValue(s, depth) == Ok(Parsed(JString(str), t))
  {
    assert SkipWs(s) == s;
  }

  lemma ValueAtNumber(lit: NumberText, t: string, depth: nat)
    requires |t| == 0 || !IsNumberChar(t[0])
    ensures ParseValue(lit + t, depth) == Ok(Parsed(JNumber(lit), t))
  {
    var s := lit + t;
    assert SkipWs(s) == s && (s[0] == '-' || IsDigit(s[0])) && s[0] != '{' && s[0] != '[' && s[0] != '"' by {
      NumberLiteralStart(lit);
      assert s[0] == lit[0];
    }
    assert NumberEnd(s) == Some(|lit|) by {
      NumberEndAppend(lit, t);
    }
    assert s[..|lit|] == lit && s[|lit|..] == t;
  }

  lemma ValueAtWord(w: string, v: Json, t: string, depth: nat)
    requires (w, v) == ("null", JNull) || (w, v) == ("true", JBool(true)) || (w, v) == ("false", JBool(false))
    ensures ParseValue(w + t, depth) == Ok(Parsed(v, t))
  {
    var s := w + t;
    assert s[0] == w[0];
    assert SkipWs(s) == s;
    assert s[..|w|] == w && s[|w|..] == t;
  }

  /** After a first element that is not `]`, a list is read element by element. */
  lemma ArrayAtItem(s: string, depth: nat)
    requires |s| > 0 && !IsWhitespace(s[0]) && s[0] != ']'
    ensures ParseArray(s, depth) == ParseItems(s, depth, [])
  {
    assert SkipWs(s) == s;
  }

  lemma ObjectAtMember(s: string, depth: nat)
    requires |s| > 0 && s[0] == '"'
    ensures ParseObject(s, depth) == ParseMembers(s, depth, [])
  {
    assert SkipWs(s) == s;
  }

  /** One step of the list loop, once an element has been read. */
  lemma ItemsStep(s: string, depth: nat, acc: seq<Json>, v: Json, rest: string)
    requires ParseValue(s, depth) == Ok(Parsed(v, rest))
    requires |rest| > 0 && (rest[0] == ',' || rest[0] == ']')
    ensures ParseItems(s, depth, acc) ==
      if rest[0] == ',' then ParseItems(rest[1..], depth, acc + [v])
      else Ok(Parsed(JArray(acc + [v]), rest[1..]))
  {
    assert SkipWs(rest) == rest;
  }

  /** One step of the object loop, once a key and its value have been read. */
  lemma MembersStep(s: string, depth: nat, acc: seq<Member>, key: string, afterKey: string, v: Json, rest: string)
    requires |s| > 0 && s[0] == '"'
    requires ParseStringBody(s[1..]) == Ok(Parsed(key, afterKey))
    requires |afterKey| > 0 && afterKey[0] == ':'
    requires ParseValue(afterKey[1..], depth) == Ok(Parsed(v, rest))
    requires |rest| > 0 && (rest[0] == ',' || rest[0] == '}')
    ensures ParseMembers(s, depth, acc) ==
      if rest[0] == ',' then ParseMembers(rest[1..], depth, Put(acc, key, v))
      else Ok(Parsed(JObject(Put(acc, key, v)), rest[1..]))
  {
    assert SkipWs(s) == s;
    assert SkipWs(afterKey) == afterKey;
    assert SkipWs(rest) == rest;
  }

  /** How the encoder's text of a list splits after its first element. */
  lemma ItemsTextSplit(items: seq<Json>, t: string)
    requires |items| > 0
    ensures ItemsText(items) + "]" + t ==
      Text(items[0]) + (if |items| == 1 then "]" + t else "," + (ItemsText(items[1..]) + "]" + t))
  {
    var a := Text(items[0]);
    if |items| == 1 {
      Concat3(a, "]", t);
    } else {
      var b := ItemsText(items[1..]);
      Concat3(a + ",", b, "]");
      Concat3(a + ",", b + "]", t);
      Concat3(a, ",", b + "]" + t);
    }
  }

  /** How the encoder's text of an object's members splits after the first member. */
  lemma MembersTextSplit(ms: seq<Member>, t: string)
    requires |ms| > 0
    ensures MembersText(ms) + "}" + t ==
      MemberText(ms[0]) + (if |ms| == 1 then "}" + t else "," + (MembersText(ms[1..]) + "}" + t))
  {
    var a := MemberText(ms[0]);
    if |ms| == 1 {
      Concat3(a, "}", t);
    } else {
      var b := MembersText(ms[1..]);
      Concat3(a + ",", b, "}");
      Concat3(a + ",", b + "}", t);
      Concat3(a, ",", b + "}" + t);
    }
  }

  /** A member's text is a quoted key, a colon and the value's text. */
  lemma MemberTextSplit(m: Member, rest: string)
    ensures MemberText(m) + rest == "\"" + (Escape(m.key) + "\"" + (":" + (Text(m.value) + rest)))
  {
    var e, v := Escape(m.key), Text(m.value);
    var q := Quote(m.key);
    var afterKey := ":" + (v + rest);
    Concat3(q + ":", v, rest);
    Concat3(q, ":", v + rest);
    Concat3("\"" + e, "\"", afterKey);
    Concat3("\"", e, "\"" + afterKey);
    Concat3(e, "\"", afterKey);
  }

  lemma BracketedSplit(open: char, inner: string, close: char, t: string)
    ensures [open] + inner + [close] + t == [open] + (inner + [close] + t)
  {
    Concat3([open], inner, [close]);
    Concat3([open], inner + [close], t);
  }

  /** The encoder's text of `v`, followed by a delimiter, parses as `v`. */
  lemma {:induction false} ValueReads(v: Json, t: string, depth: nat)
    requires WellFormed(v) && depth + Depth(v) <= MaxDepth && Delimited(t)
    ensures ParseValue(Text(v) + t, depth) == Ok(Parsed(v, t))
    decreases v, 4
  {
    match v
    case JNull =>
      ValueAtWord("null", v, t, depth);
    case JBool(b) =>
      if b {
        ValueAtWord("true", v, t, depth);
      } else {
        ValueAtWord("false", v, t, depth);
      }
    case JNumber(lit) =>
      ValueAtNumber(lit, t, depth);
    case JString(str) =>
      var s := Text(v) + t;
      BracketedSplit('"', Escape(str), '"', t);
      ConsParts('"', Escape(str) + "\"" + t, s);
      StringReads(str, t);
      ValueAtString(s, depth, str, t);
    case JArray(items) =>
      ArrayReads(items, t, depth);
    case JObject(ms) =>
      ObjectReads(ms, t, depth);
  }

  lemma {:induction false} ArrayReads(items: seq<Json>, t: string, depth: nat)
    requires ItemsWellFormed(items) && depth + 1 + ItemsDepth(items) <= MaxDepth && Delimited(t)
    ensures ParseValue(Text(JArray(items)) + t, depth) == Ok(Parsed(JArray(items), t))
    decreases items, 3
  {
    var s := Text(JArray(items)) + t;
    assert |s| > 0 && s[0] == '[' && s[1..] == ItemsText(items) + "]" + t by {
      BracketedSplit('[', ItemsText(items), ']', t);
      ConsParts('[', ItemsText(items) + "]" + t, s);
    }
    assert ParseValue(s, depth) == ParseArray(s[1..], depth + 1) by {
      ValueAtArray(s, depth);
    }
    ArrayBodyReads(items, t, depth + 1);
  }

  lemma {:induction false} ArrayBodyReads(items: seq<Json>, t: string, depth: nat)
    requires ItemsWellFormed(items) && depth + ItemsDepth(items) <= MaxDepth && Delimited(t)
    ensures ParseArray(ItemsText(items) + "]" + t, depth) == Ok(Parsed(JArray(items), t))
    decreases items, 2
  {
    var inner := ItemsText(items) + "]" + t;
    if |items| == 0 {
      assert inner == "]" + t;
      ConsParts(']', t, inner);
      assert SkipWs(inner) == inner;
    } else {
      ItemsTextSplit(items, t);
      TextStart(items[0]);
      assert inner[0] == Text(items[0])[0];
      ArrayAtItem(inner, depth);
      ItemsReads(items, t, depth, []);
      EmptyPrefix(items);
    }
  }

  lemma MembersTextStart(ms: seq<Member>, t: string)
    requires |ms| > 0
    ensures |MembersText(ms) + "}" + t| > 0 && (MembersText(ms) + "}" + t)[0] == '"'
  {
    var rest := if |ms| == 1 then "}" + t else "," + (MembersText(ms[1..]) + "}" + t);
    MembersTextSplit(ms, t);
    MemberTextSplit(ms[0], rest);
  }

  lemma {:induction false} ObjectReads(ms: seq<Member>, t: string, depth: nat)
    requires |ms| > 0 && DistinctKeys(ms) && MembersWellFormed(ms)
    requires depth + 1 + MembersDepth(ms) <= MaxDepth && Delimited(t)
    ensures ParseValue(Text(JObject(ms)) + t, depth) == Ok(Parsed(JObject(ms), t))
    decreases ms, 3
  {
    var s := Text(JObject(ms)) + t;
    assert |s| > 0 && s[0] == '{' && s[1..] == MembersText(ms) + "}" + t by {
      BracketedSplit('{', MembersText(ms), '}', t);
      ConsParts('{', MembersText(ms) + "}" + t, s);
    }
    assert ParseValue(s, depth) == ParseObject(s[1..], depth + 1) by {
      ValueAtObject(s, depth);
    }
    ObjectBodyReads(ms, t, depth + 1);
  }

  lemma {:induction false} ObjectBodyReads(ms: seq<Member>, t: string, depth: nat)
    requires |ms| > 0 && DistinctKeys(ms) && MembersWellFormed(ms)
    requires depth + MembersDepth(ms) <= MaxDepth && Delimited(t)
    ensures ParseObject(MembersText(ms) + "}" + t, depth) == Ok(Parsed(JObject(ms), t))
    decreases ms, 2
  {
    MembersTextStart(ms, t);
    ObjectAtMember(MembersText(ms) + "}" + t, depth);
    EmptyPrefix(ms);
    MembersReads(ms, t, depth, []);
  }

  lemma ItemsTail(items: seq<Json>)
    requires |items| > 0 && ItemsWellFormed(items)
    ensures WellFormed(items[0]) && Depth(items[0]) <= ItemsDepth(items)
    ensures ItemsWellFormed(items[1..]) && ItemsDepth(items[1..]) <= ItemsDepth(items)
  {
  }

  lemma MembersTail(ms: seq<Member>)
    requires |ms| > 0 && MembersWellFormed(ms)
    ensures WellFormed(ms[0].value) && Depth(ms[0].value) <= MembersDepth(ms)
    ensures MembersWellFormed(ms[1..]) && MembersDepth(ms[1..]) <= MembersDepth(ms)
  {
  }

  lemma {:induction false} ItemsReads(items: seq<Json>, t: string, depth: nat, acc: seq<Json>)
    requires |items| > 0 && ItemsWellFormed(items) && depth + ItemsDepth(items) <= MaxDepth
    requires Delimited(t)
    ensures ParseItems(ItemsText(items) + "]" + t, depth, acc) == Ok(Parsed(JArray(acc + items), t))
    decreases items, 0
  {
    var first := items[0];
    var s := ItemsText(items) + "]" + t;
    var tail := ItemsText(items[1..]) + "]" + t;
    var rest := if |items| == 1 then "]" + t else "," + tail;
    ItemsTail(items);
    ItemsTextSplit(items, t);
    ValueReads(first, rest, depth);
    ItemsStep(s, depth, acc, first, rest);
    if |items| == 1 {
      ConsParts(']', t, rest);
      assert acc + [first] == acc + items;
    } else {
      ConsParts(',', tail, rest);
      ItemsReads(items[1..], t, depth, acc + [first]);
      ShiftHead(acc, items);
    }
  }

  /** A key absent from the members read so far is appended. */
  lemma FreshKeyAppends(acc: seq<Member>, ms: seq<Member>)
    requires |ms| > 0 && DistinctKeys(acc + ms)
    ensures Put(acc, ms[0].key, ms[0].value) == acc + [ms[0]]
    ensures DistinctKeys((acc + [ms[0]]) + ms[1..])
  {
    var m := ms[0];
    assert m.key !in Keys(acc) by {
      forall i | 0 <= i < |acc| ensures Keys(acc)[i] != m.key {
        assert (acc + ms)[i] == acc[i] && (acc + ms)[|acc|] == m;
      }
    }
    ShiftHead(acc, ms);
  }

  /** One member's text, once its value is known to read back, is one step of the object loop. */
  lemma MemberReads(m: Member, rest: string, depth: nat, acc: seq<Member>)
    requires ParseValue(Text(m.value) + rest, depth) == Ok(Parsed(m.value, rest))
    requires |rest| > 0 && (rest[0] == ',' || rest[0] == '}')
    ensures ParseMembers(MemberText(m) + rest, depth, acc) ==
      if rest[0] == ',' then ParseMembers(rest[1..], depth, Put(acc, m.key, m.value))
      else Ok(Parsed(JObject(Put(acc, m.key, m.value)), rest[1..]))
  {
    var afterKey := ":" + (Text(m.value) + rest);
    var s := MemberText(m) + rest;
    MemberTextSplit(m, rest);
    ConsParts('"', Escape(m.key) + "\"" + afterKey, s);
    StringReads(m.key, afterKey);
    ConsParts(':', Text(m.value) + rest, afterKey);
    MembersStep(s, depth, acc, m.key, afterKey, m.value, rest);
  }

  /** The last member of an object, then its closing brace. */
  lemma {:induction false} LastMemberReads(ms: seq<Member>, t: string, depth: nat, acc: seq<Member>)
    requires |ms| == 1 && MembersWellFormed(ms) && depth + MembersDepth(ms) <= MaxDepth
    requires DistinctKeys(acc + ms) && Delimited(t)
    ensures ParseMembers(MembersText(ms) + "}" + t, depth, acc) == Ok(Parsed(JObject(acc + ms), t))
    decreases ms, 0
  {
    var m := ms[0];
    var rest := "}" + t;
    MembersTail(ms);
    MembersTextSplit(ms, t);
    ValueReads(m.value, rest, depth);
    MemberReads(m, rest, depth, acc);
    FreshKeyAppends(acc, ms);
    ConsParts('}', t, rest);
    assert acc + [m] == acc + ms;
  }

  lemma {:induction false} MembersReads(ms: seq<Member>, t: string, depth: nat, acc: seq<Member>)
    requires |ms| > 0 && MembersWellFormed(ms) && depth + MembersDepth(ms) <= MaxDepth
    requires DistinctKeys(acc + ms) && Delimited(t)
    ensures ParseMembers(MembersText(ms) + "}" + t, depth, acc) == Ok(Parsed(JObject(acc + ms), t))
    decreases ms, 1
  {
    if |ms| == 1 {
      LastMemberReads(ms, t, depth, acc);
    } else {
      var m := ms[0];
      var tail := MembersText(ms[1..]) + "}" + t;
      var rest := "," + tail;
      MembersTail(ms);
      MembersTextSplit(ms, t);
      ValueReads(m.value, rest, depth);
      MemberReads(m, rest, depth, acc);
      FreshKeyAppends(acc, ms);
      ConsParts(',', tail, rest);
      MembersReads(ms[1..], t, depth, acc + [m]);
      ShiftHead(acc, ms);
    }
  }

  /** Round trip: a well-formed value within the nesting limit encodes, and
      decoding its text gives the value back. */
  lemma DecodeEncode(v: Json)
    requires WellFormed(v) && Depth(v) <= MaxDepth
    ensures Encode(v) == Some(Text(v))
    ensures Decode(Text(v)) == Ok(v)
  {
    ValueReads(v, "", 0);
    assert Text(v) + "" == Text(v);
  }

  lemma AsciiAppend(a: string, b: string)
    requires IsAscii(a) && IsAscii(b)
    ensures IsAscii(a + b)
  {
    forall i | 0 <= i < |a + b| ensures (a + b)[i] < 128 as char {
      if i < |a| {
        assert (a + b)[i] == a[i];
      } else {
        assert (a + b)[i] == b[i - |a|];
      }
    }
  }

  lemma HexCharAscii(k: nat)
    requires k < 16
    ensures HexChar(k) < 128 as char
  {
    assert HexChar(k) in HexDigits;
  }

  lemma UnicodeEscapeAscii(n: nat)
    requires n < 0x10000
    ensures IsAscii(UnicodeEscape(n))
  {
    HexCharAscii(n / 0x1000);
    HexCharAscii(n / 0x100 % 16);
    HexCharAscii(n / 0x10 % 16);
    HexCharAscii(n % 16);
  }

  lemma PairEscapeAscii(c: char)
    requires c as int >= 0x10000
    ensures IsAscii(EscapeChar(c))
  {
    var m := c as int - 0x10000;
    var hi, lo := 0xD800 + m / 0x400, 0xDC00 + m % 0x400;
    UnicodeEscapeAscii(hi);
    UnicodeEscapeAscii(lo);
    AsciiAppend(UnicodeEscape(hi), UnicodeEscape(lo));
    assert EscapeChar(c) == UnicodeEscape(hi) + UnicodeEscape(lo);
  }

  lemma EscapeCharAscii(c: char)
    ensures IsAscii(EscapeChar(c))
  {
    var n := c as int;
    if n >= 0x10000 {
      PairEscapeAscii(c);
    } else if n < 0x20 || 0x80 <= n {
      if n != 0x08 && n != 0x0C && n != 0x0A && n != 0x0D && n != 0x09 {
        UnicodeEscapeAscii(n);
        assert EscapeChar(c) == UnicodeEscape(n);
      }
    }
  }

  lemma {:induction false} EscapeAscii(s: string)
    ensures IsAscii(Escape(s))
    decreases |s|
  {
    if |s| > 0 {
      EscapeCharAscii(s[0]);
      EscapeAscii(s[1..]);
      AsciiAppend(EscapeChar(s[0]), Escape(s[1..]));
    }
  }

  lemma QuoteAscii(s: string)
    ensures IsAscii(Quote(s))
  {
    EscapeAscii(s);
    AsciiAppend("\"", Escape(s));
    AsciiAppend("\"" + Escape(s), "\"");
  }

  /** The encoder writes only ASCII characters. */
  lemma {:induction false} TextAscii(v: Json)
    ensures IsAscii(Text(v))
    decreases v
  {
    match v
    case JNumber(lit) =>
      assert forall i :: 0 <= i < |lit| ==> IsNumberChar(lit[i]) by {
        NumberLiteralChars(lit);
      }
    case JString(s) =>
      QuoteAscii(s);
    case JArray(items) =>
      ItemsTextAscii(items);
      AsciiAppend("[", ItemsText(items));
      AsciiAppend("[" + ItemsText(items), "]");
    case JObject(ms) =>
      if |ms| > 0 {
        MembersTextAscii(ms);
        AsciiAppend("{", MembersText(ms));
        AsciiAppend("{" + MembersText(ms), "}");
      }
    case _ =>
  }

  lemma {:induction false} ItemsTextAscii(items: seq<Json>)
    ensures IsAscii(ItemsText(items))
    decreases items
  {
    if |items| == 1 {
      TextAscii(items[0]);
    } else if |items| > 1 {
      TextAscii(items[0]);
      ItemsTextAscii(items[1..]);
      AsciiAppend(Text(items[0]), ",");
      AsciiAppend(Text(items[0]) + ",", ItemsText(items[1..]));
    }
  }

  lemma MemberTextAscii(m: Member)
    ensures IsAscii(MemberText(m))
  {
    QuoteAscii(m.key);
    TextAscii(m.value);
    AsciiAppend(Quote(m.key), ":");
    AsciiAppend(Quote(m.key) + ":", Text(m.value));
  }

  lemma {:induction false} MembersTextAscii(ms: seq<Member>)
    ensures IsAscii(MembersText(ms))
    decreases ms
  {
    if |ms| == 1 {
      MemberTextAscii(ms[0]);
    } else if |ms| > 1 {
      MemberTextAscii(ms[0]);
      MembersTextAscii(ms[1..]);
      AsciiAppend(MemberText(ms[0]), ",");
      AsciiAppend(MemberText(ms[0]) + ",", MembersText(ms[1..]));
    }
  }

}
