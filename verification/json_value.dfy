/** JSON values as PHP sees them after `json_decode($text, true)`: objects
    become ordered key/value arrays, lists stay lists, and numbers are kept as
    their literal text (no floating-point arithmetic is modelled). */
module JsonValue {
  import opened Base

  /** Nesting limit shared by PHP's `json_encode` and `json_decode` defaults. */
  const MaxDepth: nat := 512

  /** First index at or after `i` that is not a decimal digit. */
  function DigitsEnd(s: string, i: nat): (j: nat)
    requires i <= |s|
    ensures i <= j <= |s|
    ensures forall k :: i <= k < j ==> IsDigit(s[k])
    ensures j < |s| ==> !IsDigit(s[j])
    decreases |s| - i
  {
    if i < |s| && IsDigit(s[i]) then DigitsEnd(s, i + 1) else i
  }

  /** End of an optional `.digits` part starting at `b`; None when the dot has no digits. */
  function FractionEnd(s: string, b: nat): (r: Option<nat>)
    requires b <= |s|
    ensures r.Some? ==> b <= r.value <= |s|
  {
    if b < |s| && s[b] == '.' then
      var d := DigitsEnd(s, b + 1);
      if d == b + 1 then None else Some(d)
    else Some(b)
  }

  /** End of an optional `e[+-]digits` part starting at `c`; None when it has no digits. */
  function ExponentEnd(s: string, c: nat): (r: Option<nat>)
    requires c <= |s|
    ensures r.Some? ==> c <= r.value <= |s|
  {
    if c < |s| && (s[c] == 'e' || s[c] == 'E') then
      var e := if c + 1 < |s| && (s[c + 1] == '+' || s[c + 1] == '-') then c + 2 else c + 1;
      var d := DigitsEnd(s, e);
      if d == e then None else Some(d)
    else Some(c)
  }

  /** Length of the number token at the start of `s` under the grammar of
      section 6 of RFC 8259: `-? (0 | [1-9][0-9]*) (.[0-9]+)? ([eE][+-]?[0-9]+)?`. */
  function NumberEnd(s: string): (r: Option<nat>)
    ensures r.Some? ==> 0 < r.value <= |s|
  {
    var a := if 0 < |s| && s[0] == '-' then 1 else 0;
    if a == |s| || !IsDigit(s[a]) then None
    else
      var b := if s[a] == '0' then a + 1 else DigitsEnd(s, a);
      var c := FractionEnd(s, b);
      if c.None? then None else ExponentEnd(s, c.value)
  }

  predicate IsNumberLiteral(s: string) {
    NumberEnd(s) == Some(|s|)
  }

  /** Characters that could continue a number token. */
  predicate IsNumberChar(c: char) {
    IsDigit(c) || c == '.' || c == 'e' || c == 'E' || c == '+' || c == '-'
  }

  /** `s` and `u` have the same characters below index `n`. */
  predicate AgreeBelow(s: string, u: string, n: nat) {
    n <= |s| && n <= |u| && forall k :: 0 <= k < n ==> s[k] == u[k]
  }

  lemma {:induction false} DigitsEndAgree(s: string, u: string, i: nat, n: nat)
    requires AgreeBelow(s, u, n) && i <= n
    requires DigitsEnd(s, i) <= n
    requires DigitsEnd(s, i) < n || n == |u| || !IsDigit(u[n])
    ensures DigitsEnd(u, i) == DigitsEnd(s, i)
    decreases n - i
  {
    var j := DigitsEnd(s, i);
    if i < j {
      assert IsDigit(u[i]);
      DigitsEndAgree(s, u, i + 1, n);
    } else if i < n {
      assert u[i] == s[i];
    }
  }

  lemma FractionEndAgree(s: string, u: string, b: nat, n: nat)
    requires AgreeBelow(s, u, n) && b <= n
    requires FractionEnd(s, b).Some? && FractionEnd(s, b).value <= n
    requires n == |u| || !IsNumberChar(u[n])
    ensures FractionEnd(u, b) == FractionEnd(s, b)
  {
    if b < |s| && s[b] == '.' {
      assert u[b] == '.';
      DigitsEndAgree(s, u, b + 1, n);
    } else if b < n {
      assert u[b] == s[b];
    }
  }

  lemma ExponentEndAgree(s: string, u: string, k: nat, n: nat)
    requires AgreeBelow(s, u, n) && k <= n
    requires ExponentEnd(s, k) == Some(n)
    requires n == |u| || !IsNumberChar(u[n])
    ensures ExponentEnd(u, k) == Some(n)
  {
    if k < |s| && (s[k] == 'e' || s[k] == 'E') {
      assert u[k] == s[k];
      var e := if k + 1 < |s| && (s[k + 1] == '+' || s[k + 1] == '-') then k + 2 else k + 1;
      if k + 1 < n {
        assert u[k + 1] == s[k + 1];
      }
      assert e == (if k + 1 < |u| && (u[k + 1] == '+' || u[k + 1] == '-') then k + 2 else k + 1);
      DigitsEndAgree(s, u, e, n);
    }
  }

  /** The number scanner reads nothing past the end of its token, plus one
      character that cannot continue it. */
  lemma NumberEndAgree(s: string, u: string, n: nat)
    requires NumberEnd(s) == Some(n)
    requires AgreeBelow(s, u, n)
    requires n == |u| || !IsNumberChar(u[n])
    ensures NumberEnd(u) == Some(n)
  {
    assert s[0] == u[0];
    var a := if 0 < |s| && s[0] == '-' then 1 else 0;
    var b := if s[a] == '0' then a + 1 else DigitsEnd(s, a);
    var c := FractionEnd(s, b);
    assert u[a] == s[a];
    if s[a] != '0' {
      DigitsEndAgree(s, u, a, n);
    }
    FractionEndAgree(s, u, b, n);
    ExponentEndAgree(s, u, c.value, n);
  }

  /** The token found at the start of a string is itself a number literal. */
  lemma NumberEndPrefix(t: string, n: nat)
    requires NumberEnd(t) == Some(n)
    ensures IsNumberLiteral(t[..n])
  {
    NumberEndAgree(t, t[..n], n);
  }

  /** A literal followed by a character that cannot continue it scans as itself. */
  lemma NumberEndAppend(lit: string, t: string)
    requires IsNumberLiteral(lit)
    requires |t| == 0 || !IsNumberChar(t[0])
    ensures NumberEnd(lit + t) == Some(|lit|)
  {
    NumberEndAgree(lit, lit + t, |lit|);
  }

  /** Every character of a number literal is a digit, sign, dot or exponent mark. */
  lemma NumberLiteralChars(lit: string)
    requires IsNumberLiteral(lit)
    ensures |lit| > 0 && forall i :: 0 <= i < |lit| ==> IsNumberChar(lit[i])
  {
    var a := if 0 < |lit| && lit[0] == '-' then 1 else 0;
    var b := if lit[a] == '0' then a + 1 else DigitsEnd(lit, a);
    var c := FractionEnd(lit, b).value;
    forall i | 0 <= i < |lit| ensures IsNumberChar(lit[i]) {
      if i >= c && c < |lit| {
        var e := if c + 1 < |lit| && (lit[c + 1] == '+' || lit[c + 1] == '-') then c + 2 else c + 1;
        assert ExponentEnd(lit, c) == Some(DigitsEnd(lit, e));
      }
    }
  }

  /** The text of a JSON number; its value is not interpreted. */
  type NumberText = s: string | IsNumberLiteral(s) witness "0"

  datatype Json =
    | JNull
    | JBool(b: bool)
    | JNumber(literal: NumberText)
    | JString(str: string)
    | JArray(items: seq<Json>)
    | JObject(members: seq<Member>)

  datatype Member = Member(key: string, value: Json)

  /** PHP's `is_array` on a decoded value: lists and objects alike. */
  predicate IsArray(v: Json) {
    v.JArray? || v.JObject?
  }

  function Keys(ms: seq<Member>): (ks: seq<string>)
    ensures |ks| == |ms|
    ensures forall i :: 0 <= i < |ms| ==> ks[i] == ms[i].key
  {
    if |ms| == 0 then [] else [ms[0].key] + Keys(ms[1..])
  }

  /** The value stored under `key` (first match), if any. */
  function Find(ms: seq<Member>, key: string): (r: Option<Json>)
    ensures r.Some? <==> key in Keys(ms)
    ensures r.Some? ==> exists i :: 0 <= i < |ms| && ms[i] == Member(key, r.value)
  {
    if |ms| == 0 then None
    else if ms[0].key == key then Some(ms[0].value)
    else Find(ms[1..], key)
  }

  /** Looking past a first member whose key differs. */
  lemma FindCons(m: Member, rest: seq<Member>, key: string)
    ensures Find([m] + rest, key) == if m.key == key then Some(m.value) else Find(rest, key)
  {
    assert ([m] + rest)[1..] == rest;
  }

  /** A member whose key no earlier member has is the one found for it. */
  lemma {:induction false} FindAt(ms: seq<Member>, i: nat)
    requires i < |ms|
    requires forall j :: 0 <= j < i ==> ms[j].key != ms[i].key
    ensures Find(ms, ms[i].key) == Some(ms[i].value)
    decreases i
  {
    if i > 0 {
      FindAt(ms[1..], i - 1);
    }
  }

  /** `array_key_exists($key, $v)` followed by `$v[$key]`, for the string keys this
      client reads (none of them is numeric, so a list never has them). */
  function Get(v: Json, key: string): (r: Option<Json>)
    ensures r.Some? ==> v.JObject?
  {
    if v.JObject? then Find(v.members, key) else None
  }

  /** `$a[$key] = $value` on a PHP array: an existing key keeps its position and
      takes the new value; a new key is appended. */
  function Put(ms: seq<Member>, key: string, value: Json): (r: seq<Member>)
    ensures key in Keys(r)
    ensures key !in Keys(ms) ==> r == ms + [Member(key, value)]
    ensures key in Keys(ms) ==> |r| == |ms|
  {
    if |ms| == 0 then [Member(key, value)]
    else if ms[0].key == key then [Member(key, value)] + ms[1..]
    else [ms[0]] + Put(ms[1..], key, value)
  }

  predicate DistinctKeys(ms: seq<Member>) {
    forall i, j :: 0 <= i < j < |ms| ==> ms[i].key != ms[j].key
  }

  /** Nesting depth: scalars 0, a list or object one more than its deepest child. */
  function Depth(v: Json): nat
    decreases v
  {
    match v
    case JArray(items) => 1 + ItemsDepth(items)
    case JObject(ms) => 1 + MembersDepth(ms)
    case _ => 0
  }

  function ItemsDepth(items: seq<Json>): (d: nat)
    ensures forall i :: 0 <= i < |items| ==> Depth(items[i]) <= d
    decreases items
  {
    if |items| == 0 then 0
    else
      var a, b := Depth(items[0]), ItemsDepth(items[1..]);
      if a < b then b else a
  }

  function MembersDepth(ms: seq<Member>): (d: nat)
    ensures forall i :: 0 <= i < |ms| ==> Depth(ms[i].value) <= d
    decreases ms
  {
    if |ms| == 0 then 0
    else
      var a, b := Depth(ms[0].value), MembersDepth(ms[1..]);
      if a < b then b else a
  }

  lemma MembersDepthCons(m: Member, rest: seq<Member>)
    ensures MembersDepth([m] + rest)
         == if Depth(m.value) < MembersDepth(rest) then MembersDepth(rest) else Depth(m.value)
  {
    assert ([m] + rest)[1..] == rest;
  }

  /** Values that survive an encode/decode round trip: objects are non-empty
      (PHP turns an empty one into an empty list) and have distinct keys. */
  predicate WellFormed(v: Json)
    decreases v
  {
    match v
    case JArray(items) => ItemsWellFormed(items)
    case JObject(ms) => |ms| > 0 && DistinctKeys(ms) && MembersWellFormed(ms)
    case _ => true
  }

  predicate ItemsWellFormed(items: seq<Json>)
    decreases items
  {
    |items| == 0 || (WellFormed(items[0]) && ItemsWellFormed(items[1..]))
  }

  predicate MembersWellFormed(ms: seq<Member>)
    decreases ms
  {
    |ms| == 0 || (WellFormed(ms[0].value) && MembersWellFormed(ms[1..]))
  }

  lemma MembersWellFormedCons(m: Member, rest: seq<Member>)
    ensures MembersWellFormed([m] + rest) <==> WellFormed(m.value) && MembersWellFormed(rest)
  {
    assert ([m] + rest)[1..] == rest;
  }

  /** Members whose values are well formed and no deeper than `d`. */
  lemma {:induction false} MembersBounded(ms: seq<Member>, d: nat)
    requires forall i :: 0 <= i < |ms| ==> WellFormed(ms[i].value) && Depth(ms[i].value) <= d
    ensures MembersWellFormed(ms) && MembersDepth(ms) <= d
    decreases |ms|
  {
    if |ms| > 0 {
      MembersBounded(ms[1..], d);
    }
  }

  /** In an object with distinct keys every member is found under its key. */
  lemma FindDistinct(ms: seq<Member>, i: nat)
    requires DistinctKeys(ms) && i < |ms|
    ensures Find(ms, ms[i].key) == Some(ms[i].value)
  {
    FindAt(ms, i);
  }
}
