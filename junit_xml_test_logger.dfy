/**
 * `JUnitXmlTestLogger`: the legacy splitting of a fully qualified test name
 * into type, method and argument text (`TryParseName`), and the recording
 * of the results whose name splits (`TestResultHandler`). The logger's own
 * copies of `GroupTestSuites` and `AggregateTestSuites` are the same code as
 * the serializer's and are modelled once, in module `JunitXmlSerializer`.
 */
module JUnitXmlTestLogger {
  import opened Text

  datatype Option<T> = None | Some(value: T)

  /** The out-parameters of a `TryParseName` that returns true. A false return,
      with every out-parameter null, is `None`. */
  datatype Metadata = Metadata(typeName: Str, methodName: Str, arguments: Str)

  /** `TryParseName`: the arguments start at the first `(` and must end with
      `)`; the rest is split at its last dot into a type name and a method
      name, both of which must be there. */
  function TryParseName(testCaseName: Str): Option<Metadata>
  {
    var methodArgumentsStart := IndexOf(testCaseName, OpenParen);
    if methodArgumentsStart == -1 then SplitAtLastDot(Trim(testCaseName), [])
    else
      var arguments := Trim(testCaseName[methodArgumentsStart..]);
      ArgumentsStartAtParen(testCaseName);
      if arguments[|arguments| - 1] != CloseParen then None
      else SplitAtLastDot(Trim(testCaseName[..methodArgumentsStart]), arguments)
  }

  /** The second half of `TryParseName`: the trimmed type-and-method text is
      split at its last dot, which must be neither its first nor its last
      code unit. */
  function SplitAtLastDot(typeAndMethodName: Str, arguments: Str): Option<Metadata>
  {
    var typeNameLength := LastIndexOf(typeAndMethodName, Dot);
    var methodNameStart := typeNameLength + 1;
    if typeNameLength <= 0 || methodNameStart == |typeAndMethodName| then None
    else
      Some(Metadata(Trim(typeAndMethodName[..typeNameLength]),
                    Trim(typeAndMethodName[methodNameStart..]), arguments))
  }

  /** Neither empty nor starting or ending with white space. */
  predicate IsTrimmed(s: Str)
  {
    s != [] && !IsWhiteSpace(s[0]) && !IsWhiteSpace(s[|s| - 1])
  }

  /** Argument text as `TryParseName` accepts it: none at all, or a trimmed
      text from an opening to a closing parenthesis. */
  predicate IsArguments(a: Str)
  {
    a == [] || (a[0] == OpenParen && a[|a| - 1] == CloseParen)
  }

  /** The argument text of a name with a `(` is never empty: it starts with
      that `(`, which is not white space. */
  lemma ArgumentsStartAtParen(testCaseName: Str)
    requires OpenParen in testCaseName
    ensures var start := IndexOf(testCaseName, OpenParen);
            var a := Trim(testCaseName[start..]);
            a != [] && a[0] == OpenParen
  {
    var start := IndexOf(testCaseName, OpenParen);
    TrimFrom(testCaseName[start..], 0);
  }

  /** What a successful split at the last dot gives: a trimmed, non-empty
      type name and method name, each without any code unit the text lacks,
      and no dot in the method name. */
  lemma SplitAtLastDotFacts(tm: Str, arguments: Str, c: Unit)
    requires IsTrimmed(tm) && SplitAtLastDot(tm, arguments).Some?
    ensures var m := SplitAtLastDot(tm, arguments).value;
            IsTrimmed(m.typeName) && IsTrimmed(m.methodName) && Dot !in m.methodName
            && m.arguments == arguments
            && (c !in tm ==> c !in m.typeName && c !in m.methodName)
  {
    var dot := LastIndexOf(tm, Dot);
    TypePartFacts(tm, dot, c);
    MethodPartFacts(tm, dot, c);
  }

  lemma TypePartFacts(tm: Str, dot: nat, c: Unit)
    requires IsTrimmed(tm) && 0 < dot < |tm|
    ensures IsTrimmed(Trim(tm[..dot]))
    ensures c !in tm ==> c !in Trim(tm[..dot])
  {
    var part := tm[..dot];
    if c !in tm {
      assert c !in part;
      TrimSubset(part, c);
    }
    TrimFrom(part, 0);
    TrimFacts(part);
  }

  lemma MethodPartFacts(tm: Str, dot: nat, c: Unit)
    requires IsTrimmed(tm) && dot + 1 < |tm|
    requires forall j :: dot < j < |tm| ==> tm[j] != Dot
    ensures IsTrimmed(Trim(tm[dot + 1..])) && Dot !in Trim(tm[dot + 1..])
    ensures c !in tm ==> c !in Trim(tm[dot + 1..])
  {
    var part := tm[dot + 1..];
    assert Dot !in part;
    TrimSubset(part, Dot);
    if c !in tm {
      assert c !in part;
      TrimSubset(part, c);
    }
    TrimTo(part, |part| - 1);
    TrimFacts(part);
  }

  /** What a successful split gives: a trimmed, non-empty type name and
      method name, no `(` in either, no dot in the method name, and argument
      text exactly when the name has a `(`, from `(` to `)`. */
  lemma ParsedNameFacts(testCaseName: Str)
    requires TryParseName(testCaseName).Some?
    ensures var m := TryParseName(testCaseName).value;
            IsTrimmed(m.typeName) && IsTrimmed(m.methodName)
            && Dot !in m.methodName
            && OpenParen !in m.typeName && OpenParen !in m.methodName
            && IsArguments(m.arguments)
            && (m.arguments != [] <==> OpenParen in testCaseName)
  {
    var start := IndexOf(testCaseName, OpenParen);
    var before := if start == -1 then testCaseName else testCaseName[..start];
    var arguments := if start == -1 then [] else Trim(testCaseName[start..]);
    assert OpenParen !in before;
    var tm := Trim(before);
    assert TryParseName(testCaseName) == SplitAtLastDot(tm, arguments);
    TrimSubset(before, OpenParen);
    TrimFacts(before);
    if start != -1 {
      ArgumentsStartAtParen(testCaseName);
    }
    SplitAtLastDotFacts(tm, arguments, OpenParen);
  }

  /** Joining a type name and a method name with a dot gives text that splits
      back into them. */
  lemma SplitJoined(typeName: Str, methodName: Str, arguments: Str)
    requires IsTrimmed(typeName) && IsTrimmed(methodName) && Dot !in methodName
    ensures SplitAtLastDot(typeName + [Dot] + methodName, arguments)
         == Some(Metadata(typeName, methodName, arguments))
  {
    var tm := typeName + [Dot] + methodName;
    LastIndexOfJoin(typeName, Dot, methodName);
    assert tm[..|typeName|] == typeName && tm[|typeName| + 1..] == methodName;
    TrimUnchanged(typeName);
    TrimUnchanged(methodName);
  }

  /** The inverse direction: a type name, a dot, a method name and argument
      text, each as a successful split gives them, split back into exactly
      those parts. The type name may itself hold dots (a namespace). */
  lemma ParseComposed(typeName: Str, methodName: Str, arguments: Str)
    requires IsTrimmed(typeName) && IsTrimmed(methodName) && Dot !in methodName
    requires OpenParen !in typeName && OpenParen !in methodName
    requires IsArguments(arguments)
    ensures TryParseName(typeName + [Dot] + methodName + arguments)
         == Some(Metadata(typeName, methodName, arguments))
  {
    var tm := typeName + [Dot] + methodName;
    NotInJoin(typeName, methodName, OpenParen);
    assert tm[0] == typeName[0] && tm[|tm| - 1] == methodName[|methodName| - 1];
    ComposedPrefix(tm, arguments);
    SplitJoined(typeName, methodName, arguments);
  }

  /** A trimmed text without `(` followed by argument text is split at the
      last dot of that text, with those arguments. */
  lemma ComposedPrefix(prefix: Str, arguments: Str)
    requires IsTrimmed(prefix) && OpenParen !in prefix && IsArguments(arguments)
    ensures TryParseName(prefix + arguments) == SplitAtLastDot(prefix, arguments)
  {
    TrimUnchanged(prefix);
    if arguments == [] {
      assert prefix + arguments == prefix;
    } else {
      ArgumentsAfter(prefix, arguments);
      TrimUnchanged(arguments);
    }
  }

  /** Splitting is stable: the parts of a successful split, put back
      together, split into the same parts. */
  lemma ReparseParts(testCaseName: Str)
    requires TryParseName(testCaseName).Some?
    ensures var m := TryParseName(testCaseName).value;
            TryParseName(m.typeName + [Dot] + m.methodName + m.arguments) == Some(m)
  {
    ParsedNameFacts(testCaseName);
    var m := TryParseName(testCaseName).value;
    ParseComposed(m.typeName, m.methodName, m.arguments);
  }

  /** A name with a `(` whose last code unit other than white space is not
      `)` does not split. */
  lemma UnclosedArgumentsFail(testCaseName: Str, last: nat)
    requires OpenParen in testCaseName
    requires last < |testCaseName| && !IsWhiteSpace(testCaseName[last])
    requires testCaseName[last] != CloseParen
    requires forall k :: last < k < |testCaseName| ==> IsWhiteSpace(testCaseName[k])
    ensures TryParseName(testCaseName) == None
  {
    var start := IndexOf(testCaseName, OpenParen);
    assert start <= last;
    var suffix := testCaseName[start..];
    TrimTo(suffix, last - start);
  }

  /** In `prefix + rest`, with `rest` starting at the first `(`, the
      arguments start right after `prefix`. */
  lemma ArgumentsAfter(prefix: Str, rest: Str)
    requires OpenParen !in prefix && rest != [] && rest[0] == OpenParen
    ensures var name := prefix + rest;
            IndexOf(name, OpenParen) == |prefix| && name[..|prefix|] == prefix && name[|prefix|..] == rest
  {
    IndexOfJoin(prefix, OpenParen, rest[1..]);
    assert prefix + rest == prefix + [OpenParen] + rest[1..];
  }

  /** A name whose part before the first `(` is `prefix` either fails on its
      arguments or is split at the last dot of the trimmed `prefix`. */
  lemma SplitsPrefix(prefix: Str, rest: Str)
    requires OpenParen !in prefix
    requires rest == [] || rest[0] == OpenParen
    ensures TryParseName(prefix + rest) == None
         || TryParseName(prefix + rest) == SplitAtLastDot(Trim(prefix), Trim(rest))
  {
    if rest == [] {
      assert prefix + rest == prefix;
    } else {
      ArgumentsAfter(prefix, rest);
    }
  }

  /** A name whose part before the first `(` has no dot has no type name. */
  lemma NoDotFails(prefix: Str, rest: Str)
    requires OpenParen !in prefix && Dot !in prefix
    requires rest == [] || rest[0] == OpenParen
    ensures TryParseName(prefix + rest) == None
  {
    SplitsPrefix(prefix, rest);
    TrimSubset(prefix, Dot);
  }

  /** A name whose part before the first `(` has only one dot, with nothing
      but white space ahead of it, has an empty type name. */
  lemma LeadingDotFails(blank: Str, methodName: Str, rest: Str)
    requires IsBlank(blank) && Dot !in methodName && OpenParen !in methodName
    requires rest == [] || rest[0] == OpenParen
    ensures TryParseName(blank + [Dot] + methodName + rest) == None
  {
    var prefix := blank + [Dot] + methodName;
    assert blank + [Dot] + methodName + rest == prefix + rest;
    assert OpenParen !in blank;
    NotInJoin(blank, methodName, OpenParen);
    SplitsPrefix(prefix, rest);
    var tm := LeadingDotTrim(blank, methodName);
    LastIndexOfJoin([], Dot, tm[1..]);
    assert [] + [Dot] + tm[1..] == tm;
  }

  /** Trimming white space and a dot ahead of a dot-free text leaves that dot
      first and no other dot. */
  lemma LeadingDotTrim(blank: Str, methodName: Str) returns (tm: Str)
    requires IsBlank(blank) && Dot !in methodName
    ensures tm == Trim(blank + [Dot] + methodName)
    ensures tm != [] && tm[0] == Dot && Dot !in tm[1..]
  {
    var rest := [Dot] + methodName;
    var prefix := blank + rest;
    assert blank + [Dot] + methodName == prefix;
    assert forall k :: 0 <= k < |blank| ==> prefix[k] == blank[k];
    TrimFrom(prefix, |blank|);
    tm := Trim(prefix);
    assert tm == rest[..|tm|] by {
      SliceAfterPrefix(blank, rest, |tm|);
    }
    assert tm[1..] == methodName[..|tm| - 1];
    TakeSubset(methodName, |tm| - 1, Dot);
  }

  lemma SliceAfterPrefix(a: Str, b: Str, j: nat)
    requires j <= |b|
    ensures (a + b)[|a|..|a| + j] == b[..j]
  {
  }

  lemma TakeSubset(s: Str, j: nat, c: Unit)
    requires j <= |s| && c !in s
    ensures c !in s[..j]
  {
  }

  /** A unit in neither half, and not a dot, is not in the dotted join. */
  lemma NotInJoin(a: Str, b: Str, c: Unit)
    requires c !in a && c !in b && c != Dot
    ensures c !in a + [Dot] + b
  {
    var s := a + [Dot] + b;
    assert forall k :: 0 <= k < |a| ==> s[k] == a[k];
    assert forall k :: |a| < k < |s| ==> s[k] == b[k - |a| - 1];
  }

  /** A name whose part before the first `(` ends with a dot and white space
      at most has an empty method name. */
  lemma TrailingDotFails(typeName: Str, blank: Str, rest: Str)
    requires IsBlank(blank) && OpenParen !in typeName
    requires rest == [] || rest[0] == OpenParen
    ensures TryParseName(typeName + [Dot] + blank + rest) == None
  {
    var prefix := typeName + [Dot] + blank;
    assert typeName + [Dot] + blank + rest == prefix + rest;
    assert forall k :: |typeName| < k < |prefix| ==> prefix[k] == blank[k - |typeName| - 1];
    assert forall k :: 0 <= k < |typeName| ==> prefix[k] == typeName[k];
    SplitsPrefix(prefix, rest);
    TrimTo(prefix, |typeName|);
    var tm := Trim(prefix);
    assert tm[|tm| - 1] == Dot;
  }

  /** A result as the logger sees it: its test case's fully qualified name,
      and everything else about it, which the logger only carries along. */
  datatype TestResult = TestResult(fullyQualifiedName: Str, payload: int)

  /** A recorded result with the type and method names split from its name. */
  datatype TestResultInfo = TestResultInfo(result: TestResult, typeName: Str, methodName: Str)

  /** An entry as `TestResultHandler` records it: the result's name splits,
      and the entry carries that split's type and method names. */
  predicate Recorded(info: TestResultInfo)
  {
    var parsed := TryParseName(info.result.fullyQualifiedName);
    parsed.Some? && info.typeName == parsed.value.typeName && info.methodName == parsed.value.methodName
  }

  class Logger {
    var results: seq<TestResultInfo>

    /** Every recorded result carries the split of its own name. */
    predicate Valid()
      reads this
    {
      forall i :: 0 <= i < |results| ==> Recorded(results[i])
    }

    /** `InitializeImpl` starting an empty list. */
    constructor ()
      ensures results == [] && Valid()
    {
      results := [];
    }

    /** `TestResultHandler`: a result whose name splits is appended with its
        type and method names; any other result is dropped. */
    method TestResultHandler(result: TestResult)
      requires Valid()
      modifies this
      ensures Valid()
      ensures TryParseName(result.fullyQualifiedName).None? ==> results == old(results)
      ensures TryParseName(result.fullyQualifiedName).Some? ==>
                var m := TryParseName(result.fullyQualifiedName).value;
                results == old(results) + [TestResultInfo(result, m.typeName, m.methodName)]
    {
      var parsed := TryParseName(result.fullyQualifiedName);
      if parsed.Some? {
        var info := TestResultInfo(result, parsed.value.typeName, parsed.value.methodName);
        assert Recorded(info);
        results := results + [info];
        assert results[|results| - 1] == info;
      }
    }

    /** `TestRunCompleteHandler` taking the recorded results and starting a
        new, empty list. */
    method TakeResults() returns (resultList: seq<TestResultInfo>)
      requires Valid()
      modifies this
      ensures resultList == old(results) && results == []
      ensures Valid()
      ensures forall i :: 0 <= i < |resultList| ==> Recorded(resultList[i])
    {
      resultList := results;
      results := [];
    }
  }

  /** A lower-case ASCII letter, as used in the example names below. */
  predicate IsLetter(c: Unit)
  {
    0x61 <= c <= 0x7A
  }

  /** `a.b` names method `b` of type `a`, with no arguments. */
  lemma PlainNameExample(a: Unit, b: Unit)
    requires IsLetter(a) && IsLetter(b)
    ensures TryParseName([a, Dot, b]) == Some(Metadata([a], [b], []))
  {
    ParseComposed([a], [b], []);
    assert [a] + [Dot] + [b] + [] == [a, Dot, b];
  }

  /** `a.b(x)` keeps `(x)` as the argument text. */
  lemma ArgumentsExample(a: Unit, b: Unit, x: Unit)
    requires IsLetter(a) && IsLetter(b) && IsLetter(x)
    ensures TryParseName([a, Dot, b, OpenParen, x, CloseParen])
         == Some(Metadata([a], [b], [OpenParen, x, CloseParen]))
  {
    var args := [OpenParen, x, CloseParen];
    assert [a] + [Dot] + [b] + args == [a, Dot, b, OpenParen, x, CloseParen];
    ParseComposed([a], [b], args);
  }

  /** `a.b(x` has unclosed arguments and is rejected. */
  lemma UnclosedExample(a: Unit, b: Unit, x: Unit)
    requires IsLetter(a) && IsLetter(b) && IsLetter(x)
    ensures TryParseName([a, Dot, b, OpenParen, x]) == None
  {
    var name: Str := [a, Dot, b, OpenParen, x];
    assert name[3] == OpenParen;
    UnclosedArgumentsFail(name, 4);
  }

  /** `ab` has no dot and is rejected. */
  lemma NoDotExample(a: Unit, b: Unit)
    requires IsLetter(a) && IsLetter(b)
    ensures TryParseName([a, b]) == None
  {
    var name: Str := [a, b];
    assert name + [] == name;
    NoDotFails(name, []);
  }
}
