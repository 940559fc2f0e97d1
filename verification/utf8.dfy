/** Bytes as Node's `Buffer` sees them: `Buffer.from(string)` is the UTF-8 encoding
    of the string, and `digest('hex')` renders bytes as lower-case hexadecimal. */
module Utf8 {
  import opened Wrappers

  newtype byte = x: int | 0 <= x < 256

  /** The UTF-8 encoding of one Unicode scalar value (section 3 of RFC 3629). */
  function EncodeChar(c: char): (r: seq<byte>)
    ensures 1 <= |r| <= 4
    ensures |r| == 1 <==> c as int < 0x80
  {
    var n := c as int;
    if n < 0x80 then [n as byte]
    else if n < 0x800 then [(0xC0 + n / 64) as byte, (0x80 + n % 64) as byte]
    else if n < 0x10000 then
      [(0xE0 + n / 4096) as byte, (0x80 + (n / 64) % 64) as byte, (0x80 + n % 64) as byte]
    else
      [(0xF0 + n / 262144) as byte, (0x80 + (n / 4096) % 64) as byte,
       (0x80 + (n / 64) % 64) as byte, (0x80 + n % 64) as byte]
  }

  /** `Buffer.from(s)`: the UTF-8 encoding of a whole string. */
  function Encode(s: string): (r: seq<byte>)
    ensures |r| >= |s|
    decreases |s|
  {
    if |s| == 0 then [] else EncodeChar(s[0]) + Encode(s[1..])
  }

  predicate IsAscii(s: string) {
    forall i :: 0 <= i < |s| ==> s[i] as int < 0x80
  }

  /** How many bytes a UTF-8 sequence starting with `lead` occupies. */
  function LengthFromLead(lead: byte): nat {
    if lead < 0x80 then 1 else if lead < 0xE0 then 2 else if lead < 0xF0 then 3 else 4
  }

  /** The code point a well-formed one-character encoding stands for. */
  function CodePoint(b: seq<byte>): int
    requires 1 <= |b| <= 4
  {
    if |b| == 1 then b[0] as int
    else if |b| == 2 then (b[0] as int - 0xC0) * 64 + (b[1] as int - 0x80)
    else if |b| == 3 then (b[0] as int - 0xE0) * 4096 + (b[1] as int - 0x80) * 64 + (b[2] as int - 0x80)
    else (b[0] as int - 0xF0) * 262144 + (b[1] as int - 0x80) * 4096 + (b[2] as int - 0x80) * 64 + (b[3] as int - 0x80)
  }

  /** The lead byte of a character's encoding tells its length, and the bytes tell
      the character back. */
  lemma EncodeCharDecodes(c: char)
    ensures LengthFromLead(EncodeChar(c)[0]) == |EncodeChar(c)|
    ensures CodePoint(EncodeChar(c)) == c as int
  {
    var n := c as int;
    if n >= 0x10000 {
      assert n == (n / 262144) * 262144 + ((n / 4096) % 64) * 4096 + ((n / 64) % 64) * 64 + n % 64;
    } else if n >= 0x800 {
      assert n == (n / 4096) * 4096 + ((n / 64) % 64) * 64 + n % 64;
    }
  }

  lemma {:induction false} EncodeAppend(s: string, t: string)
    ensures Encode(s + t) == Encode(s) + Encode(t)
    decreases |s|
  {
    if |s| > 0 {
      EncodeAppend(s[1..], t);
      assert (s + t)[0] == s[0] && (s + t)[1..] == s[1..] + t;
      calc {
        Encode(s + t);
        EncodeChar(s[0]) + Encode(s[1..] + t);
        EncodeChar(s[0]) + (Encode(s[1..]) + Encode(t));
        (EncodeChar(s[0]) + Encode(s[1..])) + Encode(t);
      }
    } else {
      assert s + t == t;
    }
  }

  /** Distinct strings have distinct UTF-8 encodings, so comparing buffers
      compares strings. */
  lemma {:induction false} EncodeInjective(s: string, t: string)
    requires Encode(s) == Encode(t)
    ensures s == t
    decreases |s|
  {
    if |s| > 0 {
      assert |t| > 0;
      var a, b := EncodeChar(s[0]), EncodeChar(t[0]);
      EncodeCharDecodes(s[0]);
      EncodeCharDecodes(t[0]);
      assert Encode(s) == a + Encode(s[1..]) && Encode(t) == b + Encode(t[1..]);
      assert a[0] == Encode(s)[0] == b[0];
      assert a == Encode(s)[..|a|] == b;
      assert Encode(s[1..]) == Encode(s)[|a|..] == Encode(t[1..]);
      EncodeInjective(s[1..], t[1..]);
      assert s == [s[0]] + s[1..] && t == [t[0]] + t[1..];
    }
  }

  /** A string's encoding is exactly as long as the string iff every character is ASCII;
      otherwise it is longer. */
  lemma {:induction false} EncodeLength(s: string)
    ensures |Encode(s)| == |s| <==> IsAscii(s)
    decreases |s|
  {
    if |s| > 0 {
      EncodeLength(s[1..]);
      assert IsAscii(s) <==> s[0] as int < 0x80 && IsAscii(s[1..]) by {
        if s[0] as int < 0x80 && IsAscii(s[1..]) {
          forall i | 0 <= i < |s| ensures s[i] as int < 0x80 {
            if i > 0 { assert s[i] == s[1..][i - 1]; }
          }
        }
      }
    }
  }

  /** The lower-case hexadecimal digit for a value below 16. */
  function HexDigit(v: int): (c: char)
    requires 0 <= v < 16
    ensures c as int < 0x80
  {
    if v < 10 then ('0' as int + v) as char else ('a' as int + v - 10) as char
  }

  predicate IsLowerHex(c: char) {
    '0' <= c <= '9' || 'a' <= c <= 'f'
  }

  /** `digest('hex')`: two lower-case hexadecimal digits per byte, high nibble first. */
  function Hex(d: seq<byte>): (r: string)
    ensures |r| == 2 * |d|
    ensures forall i :: 0 <= i < |r| ==> IsLowerHex(r[i])
    ensures IsAscii(r)
    decreases |d|
  {
    if |d| == 0 then []
    else [HexDigit(d[0] as int / 16), HexDigit(d[0] as int % 16)] + Hex(d[1..])
  }

  function HexValue(c: char): (v: int)
    requires IsLowerHex(c)
    ensures 0 <= v < 16
  {
    if c <= '9' then c as int - '0' as int else c as int - 'a' as int + 10
  }

  /** Reads lower-case hexadecimal back into bytes; `None` on odd length or a
      character outside `0-9a-f`. */
  function HexDecode(s: string): Option<seq<byte>>
    decreases |s|
  {
    if |s| == 0 then Some([])
    else if |s| == 1 || !IsLowerHex(s[0]) || !IsLowerHex(s[1]) then None
    else
      match HexDecode(s[2..])
      case None => None
      case Some(rest) => Some([(HexValue(s[0]) * 16 + HexValue(s[1])) as byte] + rest)
  }

  lemma {:induction false} HexRoundTrip(d: seq<byte>)
    ensures HexDecode(Hex(d)) == Some(d)
    decreases |d|
  {
    if |d| > 0 {
      HexRoundTrip(d[1..]);
      var h := Hex(d);
      var hi, lo := d[0] as int / 16, d[0] as int % 16;
      assert h[0] == HexDigit(hi) && h[1] == HexDigit(lo) && h[2..] == Hex(d[1..]);
      assert HexValue(h[0]) * 16 + HexValue(h[1]) == d[0] as int;
      assert d == [d[0]] + d[1..];
    }
  }

  /** An all-ASCII string encodes to one byte per character, each its code. */
  lemma {:induction false} EncodeAscii(s: string)
    requires IsAscii(s)
    ensures |Encode(s)| == |s|
    ensures forall i :: 0 <= i < |s| ==> Encode(s)[i] as int == s[i] as int
    decreases |s|
  {
    if |s| > 0 {
      assert IsAscii(s[1..]) by {
        forall i | 0 <= i < |s| - 1 ensures s[1..][i] as int < 0x80 {
          assert s[1..][i] == s[i + 1];
        }
      }
      EncodeAscii(s[1..]);
      forall i | 0 <= i < |s| ensures Encode(s)[i] as int == s[i] as int {
        if i > 0 { assert Encode(s)[i] == Encode(s[1..])[i - 1]; }
      }
    }
  }
}
