/**
 * .NET strings as sequences of UTF-16 code units, with the handful of
 * `System.String` primitives the logger relies on: `IndexOf`, `LastIndexOf`,
 * `Trim`, `IsNullOrWhiteSpace` and `Split` on line breaks.
 */
module Text {

  /** One UTF-16 code unit (a .NET `char`); surrogate halves are ordinary values. */
  newtype Unit = x: int | 0 <= x < 0x1_0000

  /** A .NET string. `null` is not modelled. */
  type Str = seq<Unit>

  const Tab: Unit := 0x09
  const LF: Unit := 0x0A
  const CR: Unit := 0x0D
  const Space: Unit := 0x20
  const Quote: Unit := 0x22
  const OpenParen: Unit := 0x28
  const CloseParen: Unit := 0x29
  const Dot: Unit := 0x2E
  const Backslash: Unit := 0x5C

  /** `char.IsWhiteSpace`: the Unicode space separators, line and paragraph
      separators, and the control characters U+0009-U+000D and U+0085. */
  predicate IsWhiteSpace(c: Unit)
  {
    (0x09 <= c <= 0x0D) || c == 0x20 || c == 0x85 || c == 0xA0 || c == 0x1680
    || (0x2000 <= c <= 0x200A) || c == 0x2028 || c == 0x2029 || c == 0x202F
    || c == 0x205F || c == 0x3000
  }

  /** `string.IsNullOrWhiteSpace` on a non-null string. */
  predicate IsBlank(s: Str)
  {
    forall i :: 0 <= i < |s| ==> IsWhiteSpace(s[i])
  }

  /** `s.IndexOf(c)`: the first position of `c`, or -1. */
  function IndexOf(s: Str, c: Unit): (r: int)
    ensures -1 <= r < |s|
    ensures r == -1 ==> forall j :: 0 <= j < |s| ==> s[j] != c
    ensures r >= 0 ==> s[r] == c && forall j :: 0 <= j < r ==> s[j] != c
  {
    if s == [] then -1
    else if s[0] == c then 0
    else
      var k := IndexOf(s[1..], c);
      if k == -1 then -1 else k + 1
  }

  /** `s.LastIndexOf(c)`: the last position of `c`, or -1. */
  function LastIndexOf(s: Str, c: Unit): (r: int)
    ensures -1 <= r < |s|
    ensures r == -1 ==> forall j :: 0 <= j < |s| ==> s[j] != c
    ensures r >= 0 ==> s[r] == c && forall j :: r < j < |s| ==> s[j] != c
  {
    if s == [] then -1
    else if s[|s| - 1] == c then |s| - 1
    else LastIndexOf(s[..|s| - 1], c)
  }

  /** The first `c` of `a + [c] + b`, when `a` has none, is the one between them. */
  lemma IndexOfJoin(a: Str, c: Unit, b: Str)
    requires c !in a
    ensures IndexOf(a + [c] + b, c) == |a|
  {
    var s := a + [c] + b;
    assert s[|a|] == c;
    assert forall j :: 0 <= j < |a| ==> s[j] == a[j];
  }

  /** The last `c` of `a + [c] + b`, when `b` has none, is the one between them. */
  lemma LastIndexOfJoin(a: Str, c: Unit, b: Str)
    requires c !in b
    ensures LastIndexOf(a + [c] + b, c) == |a|
  {
    var s := a + [c] + b;
    var r := LastIndexOf(s, c);
    assert s[|a|] == c;
  }

  /** `s.TrimStart()`: the suffix left after dropping leading white space. */
  function TrimStart(s: Str): Str
  {
    if s != [] && IsWhiteSpace(s[0]) then TrimStart(s[1..]) else s
  }

  /** `TrimStart` drops white space only, and all of it. */
  lemma {:induction false} TrimStartFacts(s: Str)
    ensures var r := TrimStart(s);
      |r| <= |s| && r == s[|s| - |r|..]
      && (forall j :: 0 <= j < |s| - |r| ==> IsWhiteSpace(s[j]))
      && (r == [] || !IsWhiteSpace(r[0]))
  {
    if s != [] && IsWhiteSpace(s[0]) {
      TrimStartFacts(s[1..]);
      var r := TrimStart(s[1..]);
      assert s[1..][|s| - 1 - |r|..] == s[|s| - |r|..];
      forall j | 0 <= j < |s| - |r| ensures IsWhiteSpace(s[j]) {
        if j > 0 {
          assert s[j] == s[1..][j - 1];
        }
      }
    }
  }

  /** `s.TrimEnd()`: the prefix left after dropping trailing white space. */
  function TrimEnd(s: Str): Str
  {
    if s != [] && IsWhiteSpace(s[|s| - 1]) then TrimEnd(s[..|s| - 1]) else s
  }

  /** `TrimEnd` drops white space only, and all of it. */
  lemma {:induction false} TrimEndFacts(s: Str)
    ensures var r := TrimEnd(s);
      |r| <= |s| && r == s[..|r|]
      && (forall j :: |r| <= j < |s| ==> IsWhiteSpace(s[j]))
      && (r == [] || !IsWhiteSpace(r[|r| - 1]))
  {
    if s != [] && IsWhiteSpace(s[|s| - 1]) {
      TrimEndFacts(s[..|s| - 1]);
      var r := TrimEnd(s[..|s| - 1]);
      assert s[..|s| - 1][..|r|] == s[..|r|];
      forall j | |r| <= j < |s| ensures IsWhiteSpace(s[j]) {
        if j < |s| - 1 {
          assert s[j] == s[..|s| - 1][j];
        }
      }
    }
  }

  /** `s.Trim()`: a contiguous slice of `s` that neither starts nor ends with
      white space; what is cut off on either side is white space only. */
  function Trim(s: Str): Str
  {
    TrimEnd(TrimStart(s))
  }

  /** What `Trim` promises: empty exactly for a blank string, otherwise
      starting and ending with a code unit that is not white space, and a
      string without white space is its own trim. */
  lemma TrimFacts(s: Str)
    ensures IsBlank(s) <==> Trim(s) == []
    ensures var r := Trim(s); r == [] || (!IsWhiteSpace(r[0]) && !IsWhiteSpace(r[|r| - 1]))
    ensures (forall j :: 0 <= j < |s| ==> !IsWhiteSpace(s[j])) ==> Trim(s) == s
  {
    var t := TrimStart(s);
    TrimStartFacts(s);
    TrimEndFacts(t);
  }

  /** Trimming keeps a slice of the string, so it brings in no line break. */
  lemma TrimNoLineBreak(s: Str)
    requires NoLineBreak(s)
    ensures NoLineBreak(Trim(s))
  {
    var t := TrimStart(s);
    TrimStartFacts(s);
    TrimEndFacts(t);
    NoLineBreakSlice(s, |s| - |t|, |s|);
    NoLineBreakSlice(t, 0, |TrimEnd(t)|);
  }

  lemma NoLineBreakSlice(s: Str, i: nat, j: nat)
    requires NoLineBreak(s) && i <= j <= |s|
    ensures NoLineBreak(s[i..j])
  {
    assert forall k :: 0 <= k < j - i ==> s[i..j][k] == s[i + k];
  }

  /** Trimming keeps a contiguous slice; `a` is where it starts. */
  lemma TrimSlice(s: Str) returns (a: nat)
    ensures a + |Trim(s)| <= |s| && Trim(s) == s[a..a + |Trim(s)|]
  {
    var t := TrimStart(s);
    TrimStartFacts(s);
    TrimEndFacts(t);
    a := |s| - |t|;
    var r := TrimEnd(t);
    assert r == t[..|r|] && t == s[a..];
  }

  /** Every code unit of the trimmed string is one of the string's. */
  lemma TrimSubset(s: Str, c: Unit)
    requires c !in s
    ensures c !in Trim(s)
  {
    var a := TrimSlice(s);
    var r := Trim(s);
    assert forall k :: 0 <= k < |r| ==> r[k] == s[a + k];
  }

  /** When `s[i]` is the first code unit that is not white space, the trim
      starts there. */
  lemma TrimFrom(s: Str, i: nat)
    requires i < |s| && !IsWhiteSpace(s[i])
    requires forall k :: 0 <= k < i ==> IsWhiteSpace(s[k])
    ensures Trim(s) != [] && i + |Trim(s)| <= |s| && Trim(s) == s[i..i + |Trim(s)|]
  {
    var t := TrimStart(s);
    TrimStartFacts(s);
    assert |s| - |t| == i;
    assert t == s[i..];
    var r := TrimEnd(t);
    TrimEndFacts(t);
    assert r == t[..|r|];
  }

  /** When `s[j]` is the last code unit that is not white space, the trim
      ends there. */
  lemma TrimTo(s: Str, j: nat)
    requires j < |s| && !IsWhiteSpace(s[j])
    requires forall k :: j < k < |s| ==> IsWhiteSpace(s[k])
    ensures Trim(s) != [] && |Trim(s)| <= j + 1 && Trim(s) == s[j + 1 - |Trim(s)|..j + 1]
  {
    var t := TrimStart(s);
    TrimStartFacts(s);
    var a := |s| - |t|;
    assert a <= j;
    assert t == s[a..];
    var r := TrimEnd(t);
    TrimEndFacts(t);
    assert t[j - a] == s[j];
    assert |r| == j - a + 1;
    assert r == t[..|r|];
    assert s[a..][..j - a + 1] == s[a..j + 1];
  }

  /** A string that neither starts nor ends with white space is its own trim. */
  lemma TrimUnchanged(s: Str)
    requires s == [] || (!IsWhiteSpace(s[0]) && !IsWhiteSpace(s[|s| - 1]))
    ensures Trim(s) == s
  {
  }

  /** A carriage return or a line feed: the separators of `Split(new[] { "\r", "\n" })`. */
  predicate IsLineBreak(c: Unit)
  {
    c == CR || c == LF
  }

  predicate NoLineBreak(s: Str)
  {
    forall i :: 0 <= i < |s| ==> !IsLineBreak(s[i])
  }

  /** `s.Split(new[] { "\r", "\n" }, StringSplitOptions.None)`: the pieces
      between line breaks, empty pieces included. */
  function SplitLines(s: Str): (r: seq<Str>)
    ensures |r| >= 1
    ensures forall i :: 0 <= i < |r| ==> NoLineBreak(r[i])
  {
    var k := FirstLineBreak(s);
    if k == -1 then [s] else [s[..k]] + SplitLines(s[k + 1..])
  }

  /** The position of the first line break in `s`, or -1. */
  function FirstLineBreak(s: Str): (r: int)
    ensures -1 <= r < |s|
    ensures r == -1 ==> NoLineBreak(s)
    ensures r >= 0 ==> IsLineBreak(s[r]) && NoLineBreak(s[..r])
  {
    if s == [] then -1
    else if IsLineBreak(s[0]) then 0
    else
      var k := FirstLineBreak(s[1..]);
      if k == -1 then -1 else k + 1
  }

  /** `string.Join(sep, parts)`. */
  function Join(sep: Str, parts: seq<Str>): Str
  {
    if parts == [] then []
    else if |parts| == 1 then parts[0]
    else parts[0] + sep + Join(sep, parts[1..])
  }

  /** The pieces between line breaks come back, in order, from a text whose
      only line breaks are those it was joined with. */
  lemma {:induction false} SplitJoinedLines(parts: seq<Str>)
    requires |parts| >= 1
    requires forall i :: 0 <= i < |parts| ==> NoLineBreak(parts[i])
    ensures SplitLines(Join([LF], parts)) == parts
  {
    if |parts| == 1 {
      assert FirstLineBreak(parts[0]) == -1;
    } else {
      var rest := Join([LF], parts[1..]);
      var s := parts[0] + [LF] + rest;
      assert Join([LF], parts) == s;
      FirstLineBreakAfter(parts[0], rest);
      assert s[..|parts[0]|] == parts[0];
      assert s[|parts[0]| + 1..] == rest;
      assert SplitLines(s) == [parts[0]] + SplitLines(rest);
      SplitJoinedLines(parts[1..]);
      assert parts == [parts[0]] + parts[1..];
    }
  }

  lemma {:induction false} FirstLineBreakAfter(a: Str, b: Str)
    requires NoLineBreak(a)
    ensures FirstLineBreak(a + [LF] + b) == |a|
  {
    if a != [] {
      assert (a + [LF] + b)[1..] == a[1..] + [LF] + b;
      FirstLineBreakAfter(a[1..], b);
    }
  }

  /** Reversal, as `List<char>.Reverse()` and `Enumerable.Reverse` do it. */
  function Reverse(s: Str): (r: Str)
    ensures |r| == |s|
  {
    if s == [] then [] else [s[|s| - 1]] + Reverse(s[..|s| - 1])
  }

  lemma {:induction false} ReverseAt(s: Str, i: nat)
    requires i < |s|
    ensures Reverse(s)[i] == s[|s| - 1 - i]
  {
    if i > 0 {
      ReverseAt(s[..|s| - 1], i - 1);
    }
  }

  /** `r` is the reversal of `s` when it holds the same units back to front. */
  lemma ReverseOf(s: Str, r: Str)
    requires |r| == |s| && forall i :: 0 <= i < |s| ==> r[i] == s[|s| - 1 - i]
    ensures Reverse(s) == r
  {
    forall i | 0 <= i < |s|
      ensures Reverse(s)[i] == r[i]
    {
      ReverseAt(s, i);
    }
  }

  lemma ReverseSnoc(s: Str, c: Unit)
    ensures Reverse(s + [c]) == [c] + Reverse(s)
  {
    assert (s + [c])[..|s|] == s;
  }

  lemma {:induction false} ReverseReverse(s: Str)
    ensures Reverse(Reverse(s)) == s
  {
    if s != [] {
      var init := s[..|s| - 1];
      var last := s[|s| - 1];
      ReverseReverse(init);
      calc {
        Reverse(Reverse(s));
        Reverse([last] + Reverse(init));
        { ReverseCons(last, Reverse(init)); }
        Reverse(Reverse(init)) + [last];
        init + [last];
        s;
      }
    }
  }

  lemma {:induction false} ReverseCons(c: Unit, s: Str)
    ensures Reverse([c] + s) == Reverse(s) + [c]
  {
    if s != [] {
      var init := s[..|s| - 1];
      assert ([c] + s)[..|s|] == [c] + init;
      ReverseCons(c, init);
    }
  }

  lemma {:induction false} ReverseConcat(a: Str, b: Str)
    ensures Reverse(a + b) == Reverse(b) + Reverse(a)
  {
    if b == [] {
      assert a + b == a;
    } else {
      var init := b[..|b| - 1];
      assert (a + b)[..|a + b| - 1] == a + init;
      ReverseConcat(a, init);
    }
  }

  /** Ordinal lexicographic comparison of code units, `string.CompareOrdinal(a, b) <= 0`. */
  predicate OrdinalLessEq(a: Str, b: Str)
  {
    a == [] || (b != [] && (a[0] < b[0] || (a[0] == b[0] && OrdinalLessEq(a[1..], b[1..]))))
  }

  /** `string.CompareOrdinal(a, b) < 0`. */
  predicate OrdinalLess(a: Str, b: Str)
  {
    OrdinalLessEq(a, b) && a != b
  }

  lemma {:induction false} OrdinalTotal(a: Str, b: Str)
    ensures OrdinalLessEq(a, b) || OrdinalLessEq(b, a)
  {
    if a != [] && b != [] && a[0] == b[0] {
      OrdinalTotal(a[1..], b[1..]);
    }
  }

  lemma {:induction false} OrdinalTransitive(a: Str, b: Str, c: Str)
    requires OrdinalLessEq(a, b) && OrdinalLessEq(b, c)
    ensures OrdinalLessEq(a, c)
  {
    if a != [] && b != [] && c != [] && a[0] == b[0] == c[0] {
      OrdinalTransitive(a[1..], b[1..], c[1..]);
    }
  }
}
