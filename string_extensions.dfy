/**
 * `StringExtensions`: the last and the leading dotted parts of a name, and
 * the escaping of code units that XML 1.0 does not allow.
 */
module StringExtensions {
  import opened Text

  /** `SubstringAfterDot`: what follows the last dot, or the whole name when
      it has none; empty for an empty name. */
  function SubstringAfterDot(name: Str): Str
  {
    if name == [] then []
    else
      var idx := LastIndexOf(name, Dot);
      if idx != -1 then name[idx + 1..] else name
  }

  /** The part after the last dot is a dot-free suffix of the name, and a
      name without a dot is its own last part. */
  lemma SubstringAfterDotFacts(name: Str)
    ensures var r := SubstringAfterDot(name);
            Dot !in r && |r| <= |name| && r == name[|name| - |r|..] && (Dot !in name ==> r == name)
  {
  }

  /** `SubstringBeforeDot`: what precedes the last dot, or empty when the
      name has none. */
  function SubstringBeforeDot(name: Str): Str
  {
    if name == [] then []
    else
      var idx := LastIndexOf(name, Dot);
      if idx != -1 then name[..idx] else []
  }

  /** The part before the last dot is a prefix of the name, strictly shorter
      than a non-empty name, and empty for a name without a dot. */
  lemma SubstringBeforeDotFacts(name: Str)
    ensures var r := SubstringBeforeDot(name);
            |r| <= |name| && r == name[..|r|] && (name != [] ==> |r| < |name|) && (Dot !in name ==> r == [])
  {
  }

  /** The two halves put back together give the name: a dotted name is its
      part before the last dot, the dot and its last part. */
  lemma DotSplit(name: Str)
    ensures Dot in name ==> SubstringBeforeDot(name) + [Dot] + SubstringAfterDot(name) == name
    ensures Dot !in name ==> SubstringBeforeDot(name) == [] && SubstringAfterDot(name) == name
  {
    if Dot in name {
      var idx := LastIndexOf(name, Dot);
      assert name == name[..idx] + [Dot] + name[idx + 1..];
    }
  }

  /** Conversely, joining a prefix and a dot-free last part with a dot splits
      back into exactly those two parts. */
  lemma DotJoinSplits(prefix: Str, last: Str)
    requires Dot !in last
    ensures SubstringBeforeDot(prefix + [Dot] + last) == prefix
    ensures SubstringAfterDot(prefix + [Dot] + last) == last
  {
    var name := prefix + [Dot] + last;
    var idx := LastIndexOf(name, Dot);
    assert name[|prefix|] == Dot;
    assert forall j :: |prefix| < j < |name| ==> name[j] == last[j - |prefix| - 1];
    assert idx == |prefix|;
    assert name[..idx] == prefix;
    assert name[idx + 1..] == last;
  }

  /** A code unit XML 1.0 allows (section 2.2 of the XML 1.0 standard, the
      `Char` production, restricted to one UTF-16 code unit). */
  predicate IsXmlChar(c: Unit)
  {
    c == Tab || c == LF || c == CR || (0x20 <= c <= 0xD7FF) || (0xE000 <= c <= 0xFFFD)
  }

  predicate AllXmlChars(s: Str)
  {
    forall i :: 0 <= i < |s| ==> IsXmlChar(s[i])
  }

  const SmallU: Unit := 0x75

  /** A lower-case hexadecimal digit, as `{0:x4}` writes it. */
  function HexDigit(d: int): (r: Unit)
    requires 0 <= d < 16
    ensures IsXmlChar(r) && r != Backslash
  {
    if d < 10 then (0x30 + d) as Unit else (0x61 + d - 10) as Unit
  }

  predicate IsHexDigit(c: Unit)
  {
    (0x30 <= c <= 0x39) || (0x61 <= c <= 0x66)
  }

  function HexValue(c: Unit): (r: int)
    requires IsHexDigit(c)
    ensures 0 <= r < 16
  {
    if c <= 0x39 then c as int - 0x30 else c as int - 0x61 + 10
  }

  lemma HexDigitValue(d: int)
    requires 0 <= d < 16
    ensures IsHexDigit(HexDigit(d)) && HexValue(HexDigit(d)) == d
  {
  }

  function Pow16(n: nat): (r: nat)
    ensures r >= 1
  {
    if n == 0 then 1 else 16 * Pow16(n - 1)
  }

  /** The last `n` hexadecimal digits of `x`, most significant first. */
  function HexDigits(x: nat, n: nat): (r: Str)
    ensures |r| == n
    ensures forall i :: 0 <= i < n ==> IsHexDigit(r[i]) && IsXmlChar(r[i]) && r[i] != Backslash
  {
    if n == 0 then [] else HexDigits(x / 16, n - 1) + [HexDigit(x % 16)]
  }

  /** The number a string of hexadecimal digits stands for. */
  function HexNumber(s: Str): (r: nat)
    requires forall i :: 0 <= i < |s| ==> IsHexDigit(s[i])
    ensures r < Pow16(|s|)
  {
    if s == [] then 0 else HexNumber(s[..|s| - 1]) * 16 + HexValue(s[|s| - 1])
  }

  /** Digits written for a number below 16^n read back as that number. */
  lemma {:induction false} HexNumberDigits(x: nat, n: nat)
    requires x < Pow16(n)
    ensures HexNumber(HexDigits(x, n)) == x
  {
    if n > 0 {
      var d := HexDigits(x, n);
      assert d[..n - 1] == HexDigits(x / 16, n - 1);
      HexNumberDigits(x / 16, n - 1);
      HexDigitValue(x % 16);
    }
  }

  /** `ReplaceInvalidCharacterWithUniCodeEscapeSequence`: `\u` and the code
      unit as four lower-case hexadecimal digits. */
  function EscapeSequence(c: Unit): (r: Str)
    ensures |r| == 6 && r[0] == Backslash && r[1] == SmallU
    ensures forall i :: 2 <= i < 6 ==> IsHexDigit(r[i])
    ensures HexNumber(r[2..]) == c as int
    ensures AllXmlChars(r)
  {
    var digits := HexDigits(c as int, 4);
    assert Pow16(4) == 65536;
    HexNumberDigits(c as int, 4);
    assert ([Backslash, SmallU] + digits)[2..] == digits;
    [Backslash, SmallU] + digits
  }

  /** What the regular expression replaces one code unit with. */
  function Replacement(c: Unit): (r: Str)
    ensures AllXmlChars(r)
    ensures IsXmlChar(c) ==> r == [c]
  {
    if IsXmlChar(c) then [c] else EscapeSequence(c)
  }

  /** `ReplaceInvalidXmlChar`: every code unit outside the XML character set
      (surrogate halves included, one at a time) is replaced by its escape
      sequence; the result consists of XML characters only, and a string
      that already does comes back unchanged. */
  function ReplaceInvalidXmlChar(s: Str): (r: Str)
    ensures AllXmlChars(r)
    ensures AllXmlChars(s) ==> r == s
    ensures |r| >= |s|
  {
    if s == [] then [] else Replacement(s[0]) + ReplaceInvalidXmlChar(s[1..])
  }

  /** Replacing twice is replacing once. */
  lemma ReplaceIdempotent(s: Str)
    ensures ReplaceInvalidXmlChar(ReplaceInvalidXmlChar(s)) == ReplaceInvalidXmlChar(s)
  {
  }

  /** The replacement works code unit by code unit. */
  lemma {:induction false} ReplaceConcat(a: Str, b: Str)
    ensures ReplaceInvalidXmlChar(a + b) == ReplaceInvalidXmlChar(a) + ReplaceInvalidXmlChar(b)
  {
    if a != [] {
      assert a + b == [a[0]] + (a[1..] + b);
      assert a == [a[0]] + a[1..];
      ReplaceConcat(a[1..], b);
      ReplaceCons(a[0], a[1..] + b);
      ReplaceCons(a[0], a[1..]);
    } else {
      assert a + b == b;
    }
  }

  lemma ReplaceCons(c: Unit, t: Str)
    ensures ReplaceInvalidXmlChar([c] + t) == Replacement(c) + ReplaceInvalidXmlChar(t)
  {
    assert ([c] + t)[0] == c && ([c] + t)[1..] == t;
  }

  /** Reads `\uXXXX` escape sequences back into the code units they stand for. */
  function Unescape(r: Str): Str
  {
    if |r| >= 6 && r[0] == Backslash && r[1] == SmallU
       && forall i :: 2 <= i < 6 ==> IsHexDigit(r[i]) then
      assert |r[2..6]| == 4 && Pow16(4) == 0x1_0000;
      [HexNumber(r[2..6]) as Unit] + Unescape(r[6..])
    else if r == [] then []
    else [r[0]] + Unescape(r[1..])
  }

  lemma UnescapeEscape(c: Unit, rest: Str)
    ensures Unescape(EscapeSequence(c) + rest) == [c] + Unescape(rest)
  {
    var e := EscapeSequence(c) + rest;
    assert e[2..6] == HexDigits(c as int, 4);
    assert e[6..] == rest;
    HexNumberDigits(c as int, 4);
  }

  /** Without the backslash condition the read-back fails: the six XML
      characters `\u0041` pass through unchanged and read back as "A". */
  lemma EscapeLikeInputNotRecovered()
    ensures var s: Str := [Backslash, SmallU, 0x30, 0x30, 0x34, 0x31];
      ReplaceInvalidXmlChar(s) == s && Unescape(s) == [0x41]
  {
    var s: Str := [Backslash, SmallU, 0x30, 0x30, 0x34, 0x31];
    assert AllXmlChars(s);
    var d1: Str := [0x30];
    var d2: Str := [0x30, 0x30];
    var d3: Str := [0x30, 0x30, 0x34];
    var d4: Str := [0x30, 0x30, 0x34, 0x31];
    assert d1[..0] == [] && HexNumber(d1) == 0;
    assert d2[..1] == d1 && HexNumber(d2) == 0;
    assert d3[..2] == d2 && HexNumber(d3) == 4;
    assert d4[..3] == d3 && HexNumber(d4) == 0x41;
    assert s[2..6] == d4;
    assert s[6..] == [];
  }

  /** The escaping loses nothing: on a string with no backslash of its own,
      reading the escape sequences back gives the original string. */
  lemma {:induction false} UnescapeReplace(s: Str)
    requires Backslash !in s
    ensures Unescape(ReplaceInvalidXmlChar(s)) == s
  {
    if s != [] {
      var rest := ReplaceInvalidXmlChar(s[1..]);
      UnescapeReplace(s[1..]);
      if IsXmlChar(s[0]) {
        assert ReplaceInvalidXmlChar(s) == [s[0]] + rest;
        assert ([s[0]] + rest)[1..] == rest;
      } else {
        UnescapeEscape(s[0], rest);
      }
      assert s == [s[0]] + s[1..];
    }
  }

  /** `"a.b.c"` splits into `"a.b"` and `"c"`; `"abc"` has no part before a dot. */
  lemma DotExamples()
    ensures SubstringAfterDot([0x61, 0x2E, 0x62, 0x2E, 0x63]) == [0x63]
    ensures SubstringBeforeDot([0x61, 0x2E, 0x62, 0x2E, 0x63]) == [0x61, 0x2E, 0x62]
    ensures SubstringAfterDot([0x61, 0x62, 0x63]) == [0x61, 0x62, 0x63]
    ensures SubstringBeforeDot([0x63]) == []
    ensures SubstringAfterDot([]) == [] && SubstringBeforeDot([]) == []
  {
    DotJoinSplits([0x61, 0x2E, 0x62], [0x63]);
    assert [0x61, 0x2E, 0x62] + [Dot] + [0x63] == [0x61, 0x2E, 0x62, 0x2E, 0x63];
  }

  lemma HexDigitsBelow16(x: nat)
    requires x < 16
    ensures HexDigits(x, 4) == [0x30, 0x30, 0x30, HexDigit(x)]
  {
    assert HexDigits(0, 3) == [0x30, 0x30, 0x30];
    assert x / 16 == 0 && x % 16 == x;
    assert HexDigits(x, 4) == HexDigits(0, 3) + [HexDigit(x)];
  }

  lemma ReplaceOne(c: Unit)
    ensures ReplaceInvalidXmlChar([c]) == Replacement(c)
  {
    assert [c][1..] == [];
  }

  /** Between XML text, a NUL and a vertical tab are replaced by their
      escape sequences and the rest is kept (`"aa\0\vbb"` becomes
      `aa\u0000\u000bbb`; the sequences are spelled out in `EscapeExamples`). */
  lemma ReplaceExample(a: Str, b: Str)
    requires AllXmlChars(a) && AllXmlChars(b)
    ensures ReplaceInvalidXmlChar(a + [0x00, 0x0B] + b) == a + EscapeSequence(0x00) + EscapeSequence(0x0B) + b
  {
    ReplaceAround(a, 0x00, 0x0B, b);
    ReplaceOne(0x00);
    ReplaceOne(0x0B);
  }

  lemma ReplaceAround(a: Str, c: Unit, d: Unit, b: Str)
    ensures ReplaceInvalidXmlChar(a + [c, d] + b)
         == ReplaceInvalidXmlChar(a) + ReplaceInvalidXmlChar([c]) + ReplaceInvalidXmlChar([d]) + ReplaceInvalidXmlChar(b)
  {
    assert a + [c, d] + b == ((a + [c]) + [d]) + b;
    ReplaceConcat((a + [c]) + [d], b);
    ReplaceConcat(a + [c], [d]);
    ReplaceConcat(a, [c]);
  }

  /** `\u0000` and `\u000b`. */
  lemma EscapeExamples()
    ensures EscapeSequence(0x00) == [0x5C, 0x75, 0x30, 0x30, 0x30, 0x30]
    ensures EscapeSequence(0x0B) == [0x5C, 0x75, 0x30, 0x30, 0x30, 0x62]
  {
    HexDigitsBelow16(0x00);
    HexDigitsBelow16(0x0B);
  }
}
