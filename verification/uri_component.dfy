/** `encodeURIComponent`: every character outside the unreserved set is
    written as the percent-escaped bytes of its UTF-8 encoding. Strings
    here are sequences of Unicode scalar values, so the lone-surrogate
    error of the ECMAScript function cannot arise. */
module UriComponent {
  import opened Text

  /** A-Z a-z 0-9 - _ . ! ~ * ' ( ) */
  predicate IsUnreserved(c: char) {
    || ('A' <= c <= 'Z') || ('a' <= c <= 'z') || ('0' <= c <= '9')
    || c == '-' || c == '_' || c == '.' || c == '!' || c == '~' || c == '*'
    || c == '\'' || c == '(' || c == ')'
  }

  /** The UTF-8 bytes of a character. */
  function Utf8(c: char): (bytes: seq<nat>)
    ensures 1 <= |bytes| <= 4
    ensures forall i :: 0 <= i < |bytes| ==> bytes[i] < 256
  {
    var n := c as int;
    if n < 0x80 then [n]
    else if n < 0x800 then [0xC0 + n / 0x40, 0x80 + n % 0x40]
    else if n < 0x1_0000 then [0xE0 + n / 0x1000, 0x80 + (n / 0x40) % 0x40, 0x80 + n % 0x40]
    else [0xF0 + n / 0x4_0000, 0x80 + (n / 0x1000) % 0x40, 0x80 + (n / 0x40) % 0x40, 0x80 + n % 0x40]
  }

  /** `%` and two upper-case hexadecimal digits. */
  function PercentByte(b: nat): string
    requires b < 256
  {
    ['%', HexDigit(b / 16), HexDigit(b % 16)]
  }

  function PercentBytes(bytes: seq<nat>): (r: string)
    requires forall i :: 0 <= i < |bytes| ==> bytes[i] < 256
    ensures |r| == 3 * |bytes|
    ensures forall i :: 0 <= i < |r| ==> r[i] == '%' || IsHexDigit(r[i])
  {
    if |bytes| == 0 then [] else PercentByte(bytes[0]) + PercentBytes(bytes[1..])
  }

  function EscapeChar(c: char): string
  {
    if IsUnreserved(c) then [c] else PercentBytes(Utf8(c))
  }

  /** Characters that can appear in an encoded component. */
  predicate IsEncodedChar(c: char) {
    IsUnreserved(c) || c == '%' || IsHexDigit(c)
  }

  /** `encodeURIComponent`. */
  function Encode(s: string): (r: string)
    ensures forall i :: 0 <= i < |r| ==> IsEncodedChar(r[i])
    ensures |s| <= |r| <= 12 * |s|
    decreases |s|
  {
    if |s| == 0 then []
    else
      var head := EscapeChar(s[0]);
      var r := head + Encode(s[1..]);
      assert forall i :: 0 <= i < |head| ==> IsEncodedChar(head[i]);
      r
  }

  /** An encoded component holds none of the query-string delimiters. */
  lemma EncodedHasNoDelimiters(s: string)
    ensures '&' !in Encode(s) && '=' !in Encode(s) && '#' !in Encode(s) && '?' !in Encode(s)
  {
    var r := Encode(s);
    forall i | 0 <= i < |r| ensures r[i] != '&' && r[i] != '=' && r[i] != '#' && r[i] != '?' {
      assert IsEncodedChar(r[i]);
    }
  }

  /** Unreserved text is its own encoding. */
  lemma {:induction false} EncodeUnreserved(s: string)
    requires forall i :: 0 <= i < |s| ==> IsUnreserved(s[i])
    ensures Encode(s) == s
    decreases |s|
  {
    if |s| > 0 {
      EncodeUnreserved(s[1..]);
      assert [s[0]] + s[1..] == s;
    }
  }
}
