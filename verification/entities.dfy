/** `filterEntities` of the health-check runners: the text is HTML-encoded,
    every `&#xAD;` reference (the soft hyphen) is replaced by the empty
    string, and the result is decoded again. The `he` library is not part
    of this model. Its encoder is modelled as writing a hexadecimal
    reference with upper-case digits for every character above U+007E and
    for the six characters & < > " ' `, and leaving every other character
    as it is; the real encoder also escapes most C0 control characters.
    Its decoder is modelled on the references this encoder emits, and the
    model assumes that decoding undoes encoding. The real decoder follows
    the HTML rules for numeric references and turns `&#x0;` into U+FFFD
    and most of `&#x80;` to `&#x9F;` into Windows-1252 characters, so for
    those characters, wherever the real encoder writes them as references,
    the assumption does not hold. */
module Entities {
  import opened Wrappers
  import opened Text

  const SoftHyphen: char := '\U{00AD}'

  /** The one entity the filter rewrites, and what it becomes. */
  const SoftHyphenReference: string := "&#xAD;"
  const SoftHyphenReplacement: string := ""

  /** Characters the encoder leaves as they are. */
  predicate IsPlain(c: char) {
    c as int <= 0x7E && c != '&' && c != '<' && c != '>' && c != '"' && c != '\'' && c != '`'
  }

  /** Upper-case hexadecimal of `n`, without leading zeros. */
  function Hex(n: nat): (h: string)
    ensures |h| >= 1
    ensures forall i :: 0 <= i < |h| ==> IsHexDigit(h[i]) && h[i] != ';' && h[i] != '&'
    decreases n
  {
    if n < 16 then [HexDigit(n)] else Hex(n / 16) + [HexDigit(n % 16)]
  }

  /** The value of a string of hexadecimal digits. */
  function ParseHex(s: string): nat
    requires forall i :: 0 <= i < |s| ==> IsHexDigit(s[i])
    decreases |s|
  {
    if |s| == 0 then 0 else ParseHex(s[..|s| - 1]) * 16 + HexValue(s[|s| - 1])
  }

  /** Parsing the hexadecimal form of a number gives the number back. */
  lemma {:induction false} ParseHexOfHex(n: nat)
    ensures ParseHex(Hex(n)) == n
    decreases n
  {
    var h := Hex(n);
    if n < 16 {
      HexValueOfDigit(n);
    } else {
      ParseHexOfHex(n / 16);
      assert h[..|h| - 1] == Hex(n / 16);
      HexValueOfDigit(n % 16);
    }
  }

  /** What every hexadecimal reference starts with. */
  const ReferenceOpen: string := "&#x"

  /** The reference `&#x<hex>;` for a character. */
  function Reference(c: char): string
  {
    ReferenceOpen + (Hex(c as int) + [';'])
  }

  function EncodeChar(c: char): string
  {
    if IsPlain(c) then [c] else Reference(c)
  }

  /** `he.encode`: each character in turn, plain or as a reference. */
  function Encode(s: string): string
    decreases |s|
  {
    if |s| == 0 then [] else EncodeChar(s[0]) + Encode(s[1..])
  }

  /** The length of the run of hexadecimal digits at the start of `s`. */
  function HexRun(s: string): (k: nat)
    ensures k <= |s|
    ensures forall i :: 0 <= i < k ==> IsHexDigit(s[i])
    ensures k == |s| || !IsHexDigit(s[k])
    decreases |s|
  {
    if |s| > 0 && IsHexDigit(s[0]) then 1 + HexRun(s[1..]) else 0
  }

  /** The character for a code point; invalid code points become U+FFFD. */
  function CodePoint(n: nat): char
  {
    if n < 0xD800 || 0xE000 <= n < 0x11_0000 then n as char else '\U{FFFD}'
  }

  /** A hexadecimal reference at the start of `s`: the character it stands
      for and the number of characters it spans. */
  function ReferenceAt(s: string): (r: Option<(char, nat)>)
    ensures r.Some? ==> 0 < r.value.1 <= |s|
  {
    if |s| >= 3 && s[..3] == ReferenceOpen then
      match ReferenceBody(s[3..])
      case Some((c, n)) => Some((c, 3 + n))
      case None => None
    else None
  }

  /** The digits and `;` that follow `&#x`: the character and the length. */
  function ReferenceBody(b: string): (r: Option<(char, nat)>)
    ensures r.Some? ==> 0 < r.value.1 <= |b|
  {
    var k := HexRun(b);
    if k > 0 && k < |b| && b[k] == ';' then Some((CodePoint(ParseHex(b[..k])), k + 1)) else None
  }

  /** `he.decode` on text made of plain characters and hexadecimal references. */
  function Decode(s: string): string
    decreases |s|
  {
    if |s| == 0 then []
    else match ReferenceAt(s)
      case Some((c, n)) => [c] + Decode(s[n..])
      case None => [s[0]] + Decode(s[1..])
  }

  predicate StartsWith(s: string, prefix: string) {
    |s| >= |prefix| && s[..|prefix|] == prefix
  }

  /** `s.replace(new RegExp(pattern, 'g'), () => replacement)` for a pattern
      without regular-expression operators: a left-to-right scan that
      rewrites each non-overlapping occurrence. */
  function ReplaceAll(s: string, pattern: string, replacement: string): string
    requires |pattern| > 0
    decreases |s|
  {
    if StartsWith(s, pattern) then
      replacement + ReplaceAll(s[|pattern|..], pattern, replacement)
    else if |s| == 0 then []
    else [s[0]] + ReplaceAll(s[1..], pattern, replacement)
  }

  /** `filterEntities`. */
  function FilterEntities(html: string): string
  {
    Decode(ReplaceAll(Encode(html), SoftHyphenReference, SoftHyphenReplacement))
  }

  /** The text without its soft hyphens, everything else in order. */
  function RemoveSoftHyphens(s: string): (r: string)
    ensures SoftHyphen !in r
    ensures |r| <= |s|
    decreases |s|
  {
    if |s| == 0 then []
    else if s[0] == SoftHyphen then RemoveSoftHyphens(s[1..])
    else [s[0]] + RemoveSoftHyphens(s[1..])
  }

  /** Decoding a character's encoding, followed by anything, yields that
      character and then decodes the rest. */
  lemma DecodeEncodedChar(c: char, t: string)
    ensures Decode(EncodeChar(c) + t) == [c] + Decode(t)
  {
    if IsPlain(c) {
      DecodePlain(c, t);
    } else {
      DecodeReference(c, t);
    }
  }

  lemma DecodePlain(c: char, t: string)
    requires c != '&'
    ensures Decode([c] + t) == [c] + Decode(t)
  {
    var s := [c] + t;
    assert s[0] == c;
    if |s| >= 3 {
      assert s[..3][0] == c;
    }
    assert ReferenceAt(s).None?;
    assert s[1..] == t;
  }

  lemma DecodeReference(c: char, t: string)
    ensures Decode(Reference(c) + t) == [c] + Decode(t)
  {
    var h := Hex(c as int);
    var rest := h + ([';'] + t);
    assert Reference(c) + t == ReferenceOpen + rest;
    ReferenceBodyDigits(h, t);
    ParseHexOfHex(c as int);
    ReferenceAtOpen(rest);
    assert (ReferenceOpen + rest)[3 + |h| + 1..] == t;
  }

  /** Past `&#x`, the reference is read from its body. */
  lemma ReferenceAtOpen(rest: string)
    ensures ReferenceAt(ReferenceOpen + rest)
         == match ReferenceBody(rest)
            case Some((c, n)) => Some((c, 3 + n))
            case None => None
  {
    var s := ReferenceOpen + rest;
    assert s[..3] == ReferenceOpen;
    assert s[3..] == rest;
  }

  /** Digits then `;` make a reference body. */
  lemma ReferenceBodyDigits(h: string, t: string)
    requires |h| > 0 && forall i :: 0 <= i < |h| ==> IsHexDigit(h[i])
    ensures ReferenceBody(h + ([';'] + t)) == Some((CodePoint(ParseHex(h)), |h| + 1))
  {
    var b := h + ([';'] + t);
    HexRunPrefix(h, [';'] + t);
    assert b[|h|] == ';';
    assert b[..|h|] == h;
  }

  /** The hexadecimal run of a digit string followed by a non-digit. */
  lemma {:induction false} HexRunPrefix(h: string, t: string)
    requires forall i :: 0 <= i < |h| ==> IsHexDigit(h[i])
    requires |t| > 0 && !IsHexDigit(t[0])
    ensures HexRun(h + t) == |h|
    decreases |h|
  {
    if |h| > 0 {
      assert (h + t)[1..] == h[1..] + t;
      HexRunPrefix(h[1..], t);
    }
  }

  /** Decoding inverts encoding. */
  lemma {:induction false} DecodeEncode(s: string)
    ensures Decode(Encode(s)) == s
    decreases |s|
  {
    if |s| > 0 {
      DecodeEncode(s[1..]);
      DecodeEncodedChar(s[0], Encode(s[1..]));
    }
  }

  /** The scan passes over a prefix that cannot start an occurrence. */
  lemma {:induction false} ReplaceAllSkips(p: string, t: string)
    requires '&' !in p
    ensures ReplaceAll(p + t, SoftHyphenReference, SoftHyphenReplacement)
         == p + ReplaceAll(t, SoftHyphenReference, SoftHyphenReplacement)
    decreases |p|
  {
    if |p| > 0 {
      var s := p + t;
      assert s[0] != '&';
      assert s[1..] == p[1..] + t;
      assert '&' !in p[1..] by {
        forall i | 0 <= i < |p[1..]| ensures p[1..][i] != '&' { assert p[1..][i] == p[i + 1]; }
      }
      ReplaceAllSkips(p[1..], t);
    } else {
      assert p + t == t;
    }
  }

  /** Rewriting the encoding of one character followed by an encoded tail. */
  lemma ReplaceEncodedChar(c: char, t: string)
    ensures ReplaceAll(EncodeChar(c) + t, SoftHyphenReference, SoftHyphenReplacement)
         == (if c == SoftHyphen then [] else EncodeChar(c))
            + ReplaceAll(t, SoftHyphenReference, SoftHyphenReplacement)
  {
    if IsPlain(c) {
      ReplaceAllSkips([c], t);
    } else if c == SoftHyphen {
      ReplaceSoftHyphen(t);
    } else {
      ReplaceOtherReference(c, t);
    }
  }

  /** The soft hyphen's reference is the one the filter removes. */
  lemma ReplaceSoftHyphen(t: string)
    ensures ReplaceAll(EncodeChar(SoftHyphen) + t, SoftHyphenReference, SoftHyphenReplacement)
         == ReplaceAll(t, SoftHyphenReference, SoftHyphenReplacement)
  {
    assert Hex(0xAD) == "AD" by {
      assert Hex(0xA) == "A";
    }
    assert EncodeChar(SoftHyphen) == SoftHyphenReference;
    var s := SoftHyphenReference + t;
    assert s[..|SoftHyphenReference|] == SoftHyphenReference;
    assert s[|SoftHyphenReference|..] == t;
  }

  /** Any other reference is left in place. */
  lemma ReplaceOtherReference(c: char, t: string)
    requires !IsPlain(c) && c != SoftHyphen
    ensures ReplaceAll(EncodeChar(c) + t, SoftHyphenReference, SoftHyphenReplacement)
         == EncodeChar(c) + ReplaceAll(t, SoftHyphenReference, SoftHyphenReplacement)
  {
    var h := Hex(c as int);
    var body := ['#', 'x'] + (h + [';']);
    assert EncodeChar(c) == ['&'] + body;
    HexOnlyForSoftHyphen(c as int);
    NotSoftHyphenReference(h, t);
    ReferenceBodyHasNoAmpersand(h);
    ReplaceKeepsReference(body, t);
  }

  /** An ampersand that does not start an occurrence, then text without
      ampersands, is kept as it is. */
  lemma ReplaceKeepsReference(body: string, t: string)
    requires '&' !in body
    requires !StartsWith(['&'] + body + t, SoftHyphenReference)
    ensures ReplaceAll(['&'] + body + t, SoftHyphenReference, SoftHyphenReplacement)
         == ['&'] + body + ReplaceAll(t, SoftHyphenReference, SoftHyphenReplacement)
  {
    var s := ['&'] + body + t;
    ReplaceAllStep(s);
    assert s[1..] == body + t;
    ReplaceAllSkips(body, t);
  }

  lemma ReferenceBodyHasNoAmpersand(h: string)
    requires forall i :: 0 <= i < |h| ==> h[i] != '&'
    ensures '&' !in ['#', 'x'] + (h + [';'])
  {
    var b := ['#', 'x'] + (h + [';']);
    forall i | 0 <= i < |b| ensures b[i] != '&' {
      if 2 <= i < 2 + |h| { assert b[i] == h[i - 2]; }
    }
  }

  /** Where no occurrence starts, the scan keeps one character and moves on. */
  lemma ReplaceAllStep(s: string)
    requires |s| > 0
    requires !StartsWith(s, SoftHyphenReference)
    ensures ReplaceAll(s, SoftHyphenReference, SoftHyphenReplacement)
         == [s[0]] + ReplaceAll(s[1..], SoftHyphenReference, SoftHyphenReplacement)
  {
  }

  /** A reference with other digits does not begin with the soft hyphen's. */
  lemma NotSoftHyphenReference(h: string, t: string)
    requires forall i :: 0 <= i < |h| ==> IsHexDigit(h[i]) && h[i] != ';'
    requires h != "AD"
    ensures !StartsWith(['&'] + (['#', 'x'] + (h + [';'])) + t, SoftHyphenReference)
  {
    var s := ['&'] + (['#', 'x'] + (h + [';'])) + t;
    if |h| == 0 {
      assert s[3] == ';';
    } else if |h| == 1 {
      assert s[4] == ';';
    } else if |h| == 2 {
      assert s[3..5] == h;
    } else {
      assert s[5] == h[2];
    }
  }

  /** Only the soft hyphen encodes to the digits `AD`. */
  lemma HexOnlyForSoftHyphen(n: nat)
    requires n != 0xAD
    ensures Hex(n) != "AD"
  {
    if Hex(n) == "AD" {
      HexInjective(n);
    }
  }

  /** Only the soft hyphen encodes to the digits `AD`. */
  lemma HexInjective(n: nat)
    requires Hex(n) == "AD"
    ensures n == 0xAD
  {
    ParseHexOfHex(n);
    assert ParseHex("AD") == 0xAD by {
      assert "AD"[..1] == "A";
    }
  }

  /** Removing the soft-hyphen references from an encoding is encoding the
      text without its soft hyphens. */
  lemma {:induction false} ReplaceEncode(s: string)
    ensures ReplaceAll(Encode(s), SoftHyphenReference, SoftHyphenReplacement)
         == Encode(RemoveSoftHyphens(s))
    decreases |s|
  {
    if |s| > 0 {
      ReplaceEncode(s[1..]);
      ReplaceEncodedChar(s[0], Encode(s[1..]));
    }
  }

  /** `filterEntities` removes exactly the soft hyphens and leaves every
      other character, in order. */
  lemma FilterEntitiesRemovesSoftHyphens(html: string)
    ensures FilterEntities(html) == RemoveSoftHyphens(html)
  {
    ReplaceEncode(html);
    DecodeEncode(RemoveSoftHyphens(html));
  }

  /** Text without soft hyphens passes through the filter unchanged. */
  lemma {:induction false} FilterEntitiesIdentity(html: string)
    requires SoftHyphen !in html
    ensures FilterEntities(html) == html
  {
    FilterEntitiesRemovesSoftHyphens(html);
    RemoveSoftHyphensIdentity(html);
  }

  lemma {:induction false} RemoveSoftHyphensIdentity(s: string)
    requires SoftHyphen !in s
    ensures RemoveSoftHyphens(s) == s
    decreases |s|
  {
    if |s| > 0 {
      assert SoftHyphen !in s[1..] by {
        forall i | 0 <= i < |s[1..]| ensures s[1..][i] != SoftHyphen { assert s[1..][i] == s[i + 1]; }
      }
      RemoveSoftHyphensIdentity(s[1..]);
      assert [s[0]] + s[1..] == s;
    }
  }
}
