/** Byte strings: PHP strings reach the hash primitives as UTF-8 bytes, and
    digests come back as lowercase hexadecimal text. */
module Bytes {
  import opened Base

  newtype byte = x: int | 0 <= x < 256

  type Bytes = seq<byte>

  const HexDigits: string := "0123456789abcdef"

  /** Lowercase hexadecimal digit for `n`. */
  function HexChar(n: nat): char
    requires n < 16
  {
    HexDigits[n]
  }

  /** Value of a hexadecimal digit of either case. */
  function HexValue(c: char): (r: Option<nat>)
    ensures r.Some? ==> r.value < 16
  {
    if '0' <= c <= '9' then Some((c as int) - ('0' as int))
    else if 'a' <= c <= 'f' then Some((c as int) - ('a' as int) + 10)
    else if 'A' <= c <= 'F' then Some((c as int) - ('A' as int) + 10)
    else None
  }

  lemma HexValueOfHexChar(n: nat)
    requires n < 16
    ensures HexValue(HexChar(n)) == Some(n)
  {
  }

  /** Lowercase hexadecimal encoding, two digits per byte, as `hash` returns it. */
  function Hex(b: Bytes): (s: string)
    ensures |s| == 2 * |b|
    ensures forall i :: 0 <= i < |s| ==> s[i] in HexDigits
  {
    if |b| == 0 then ""
    else [HexChar(b[0] as nat / 16), HexChar(b[0] as nat % 16)] + Hex(b[1..])
  }

  /** Reads hexadecimal text back into bytes. */
  function Unhex(s: string): Option<Bytes>
    decreases |s|
  {
    if |s| < 2 then (if |s| == 0 then Some([]) else None)
    else
      var h, l, rest := HexValue(s[0]), HexValue(s[1]), Unhex(s[2..]);
      if h.Some? && l.Some? && rest.Some? then Some([(h.value * 16 + l.value) as byte] + rest.value)
      else None
  }

  /** A byte is its high digit times sixteen plus its low digit. */
  lemma DigitPair(x: byte)
    ensures (x as nat / 16 * 16 + x as nat % 16) as byte == x
  {
  }

  /** The digest text loses nothing: it decodes to the digest bytes. */
  lemma {:induction false} UnhexHex(b: Bytes)
    ensures Unhex(Hex(b)) == Some(b)
  {
    if |b| > 0 {
      var s := Hex(b);
      var h, l := b[0] as nat / 16, b[0] as nat % 16;
      HexValueOfHexChar(h);
      HexValueOfHexChar(l);
      assert s[0] == HexChar(h) && s[1] == HexChar(l);
      assert s[2..] == Hex(b[1..]);
      UnhexHex(b[1..]);
      DigitPair(b[0]);
      UnhexStep(s, b[0], b[1..]);
      assert [b[0]] + b[1..] == b;
    }
  }

  /** One step of `Unhex`: two digits of a byte, then the rest. */
  lemma UnhexStep(s: string, x: byte, rest: Bytes)
    requires |s| >= 2 && HexValue(s[0]) == Some(x as nat / 16) && HexValue(s[1]) == Some(x as nat % 16)
    requires Unhex(s[2..]) == Some(rest)
    requires (x as nat / 16 * 16 + x as nat % 16) as byte == x
    ensures Unhex(s) == Some([x] + rest)
  {
  }


  /** UTF-8 encoding of one scalar value (RFC 3629, section 3). */
  function Utf8Char(c: char): (r: Bytes)
    ensures 1 <= |r| <= 4
    ensures (|r| == 1) <==> (c as int < 0x80)
  {
    var n := c as int;
    if n < 0x80 then [n as byte]
    else if n < 0x800 then [(0xC0 + n / 0x40) as byte, (0x80 + n % 0x40) as byte]
    else if n < 0x10000 then
      [(0xE0 + n / 0x1000) as byte, (0x80 + (n / 0x40) % 0x40) as byte, (0x80 + n % 0x40) as byte]
    else
      [(0xF0 + n / 0x40000) as byte, (0x80 + (n / 0x1000) % 0x40) as byte,
       (0x80 + (n / 0x40) % 0x40) as byte, (0x80 + n % 0x40) as byte]
  }

  /** The bytes of a string: what `strlen` counts and what the hash functions read. */
  function Utf8(s: string): (r: Bytes)
    ensures |r| >= |s|
  {
    if |s| == 0 then [] else Utf8Char(s[0]) + Utf8(s[1..])
  }

  /** For ASCII text the byte length is the character count. */
  lemma {:induction false} Utf8AsciiLength(s: string)
    requires IsAscii(s)
    ensures |Utf8(s)| == |s|
  {
    if |s| > 0 {
      assert s[0] < 128 as char;
      assert IsAscii(s[1..]) by {
        forall i | 0 <= i < |s[1..]| ensures s[1..][i] < 128 as char {
          assert s[1..][i] == s[i + 1];
        }
      }
      Utf8AsciiLength(s[1..]);
    }
  }

  /** Utf8 distributes over concatenation. */
  lemma {:induction false} Utf8Append(a: string, b: string)
    ensures Utf8(a + b) == Utf8(a) + Utf8(b)
    decreases |a|
  {
    if |a| > 0 {
      assert (a + b)[0] == a[0] && (a + b)[1..] == a[1..] + b;
      Utf8Append(a[1..], b);
    } else {
      assert a + b == b;
    }
  }
}
