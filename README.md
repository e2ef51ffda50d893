# junit.testlogger core, modelled in Dafny

This project models the core of the JUnit XML test logger for the .NET
test platform, and proves properties of the model. The logger receives test
results, names each one after its test case, rolls the suites up into a
hierarchy by the dotted prefixes of their names, and writes JUnit XML.

The model covers:

- **`TestCaseNameParser.Parse`** (`test_case_name_parser.dfy`). This method
  scans a fully qualified test name right to left and splits it into
  namespace, type and method. Argument lists and string literals inside
  them are respected. If the name cannot be split, the method falls back to
  `UnknownNamespace`/`UnknownType`. It is modelled as the source's loop over
  the reversed name. The loop is proved to compute a specification function
  `ParseName`: one step per character (`Feed`), folded right to left (`Run`),
  then the `catch`/`finally` policy (`Finish`). Lemmas about `ParseName`
  state what a success, a namespace fallback and a full fallback mean.
  Rows of the parser's unit tests are proved in
  `test_case_name_parser_examples.dfy`.
- **`StringExtensions`** (`string_extensions.dfy`): `SubstringAfterDot`,
  `SubstringBeforeDot` and `ReplaceInvalidXmlChar`, including the `\uXXXX`
  escape its match evaluator writes.
- **`JunitXmlSerializer`** (`junit_xml_serializer.dfy`):
  - `AggregateTestSuites` as the source's accumulating loop.
  - `GroupTestSuites`: the `while` loop with its `GroupBy`/`OrderBy`/
    `Where`/`Select` pass. The key selector's side effect on `roots` is
    modelled.
  - `Indent`.

  Examples from the unit tests of both roll-up copies are in
  `roll_up_examples.dfy`.
- **`JUnitXmlTestLogger`** (`junit_xml_test_logger.dfy`):
  - `TryParseName`, as a pure function returning an `Option`. `None`
    stands for the `false` return.
  - The logger's result list, as a class `Logger`:
    - `TestResultHandler` records only results whose names split.
    - `TakeResults` is the swap at the start of `TestRunCompleteHandler`.
    - The class invariant says that every recorded entry carries the split
      of its own name.

Strings are sequences of UTF-16 code units (`Text.Unit`, 0..0xFFFF), as in
.NET. White space is the .NET `char.IsWhiteSpace` set. `Text` holds the
string helpers the core uses: `IndexOf`, `LastIndexOf`, `Trim`, the
`\r`/`\n` split, `Join`, and ordinal order.

Two behaviours of the parser's code that a reader might not expect, both
modelled as written:

- The parser keeps no parenthesis depth. One `(` read in the `Parenthesis`
  state leaves the argument block.
- There is no check after the loop that the scan ended outside a block. A
  name such as `x).m` therefore yields type `x)` (`ExampleNoNamespace3`).

The namespace-only fallback can also come from a blank namespace after a
type, e.g. ` .a.b` (`FinishBlankNamespace`).

## Model

| member | source | states |
|---|---|---|
| TestCaseNameParser.Feed | src/JUnit.Xml.TestLogger/TestCaseNameParser.cs:68-172 | one pass of the loop body: the namespace step accumulates everything; the default state rejects `(`, `"`, `\`, a `)` after other text and a dot after nothing, opens a block at a leading `)` and flushes the segment at a dot; the argument block rejects `)` and `\`, leaves at `(` and enters a literal at `"`; a literal ends at a `"` with no `\` just before it in the name |
| TestCaseNameParser.Run | src/JUnit.Xml.TestLogger/TestCaseNameParser.cs:66-173 | the loop from the last character to the first, left at once by an exception |
| TestCaseNameParser.Finish | src/JUnit.Xml.TestLogger/TestCaseNameParser.cs:175-210 | the assignments after the loop, the `catch` that clears type and namespace, and the two fallbacks of `finally` on blank names |
| TestCaseNameParser.ParseName | src/JUnit.Xml.TestLogger/TestCaseNameParser.cs:51-213 | the whole parse: `Finish` of `Run` over the name from the start state |
| TestCaseNameParser.Parse | src/JUnit.Xml.TestLogger/TestCaseNameParser.cs:51-213 | the loop, the post-loop assignments, `catch` and `finally` return exactly the parsed name and console diagnostic of the specification `ParseName` |
| TestCaseNameParserProofs.ParseSucceeds | src/JUnit.Xml.TestLogger/TestCaseNameParser.cs:177-181 | when no console line is written, namespace + "." + type + "." + method is the input; the namespace is not blank; type and method are non-empty, each a plain name optionally followed by one argument block |
| TestCaseNameParserProofs.ParseWellFormed | src/JUnit.Xml.TestLogger/TestCaseNameParser.cs:66-186 | round trip: a non-blank namespace, a type and a method (plain names, each optionally with parenthesised argument text made of code units other than parentheses, quotes and backslashes, and of string literals whose contents may hold dots, parentheses, backslashes and escaped quotes) joined by dots parse back into exactly those parts, with no console line |
| TestCaseNameParserProofs.ParseTwoParts | src/JUnit.Xml.TestLogger/TestCaseNameParser.cs:182-209 | round trip without a namespace: a type and a method segment of the same grammar joined by one dot parse back into that type and method under "UnknownNamespace" with the namespace-only console line, or into the full fallback when the type is blank |
| TestCaseNameParserProofs.ScanPieces | src/JUnit.Xml.TestLogger/TestCaseNameParser.cs:128-172 | scanning argument text made of such pieces inside a block accumulates it unchanged and ends still in the block |
| TestCaseNameParserProofs.ScanLiteral | src/JUnit.Xml.TestLogger/TestCaseNameParser.cs:146-172 | a string literal is entered at its closing quote, read through, escaped quotes included, and left at its opening quote, with the whole literal accumulated |
| TestCaseNameParserProofs.ScanString | src/JUnit.Xml.TestLogger/TestCaseNameParser.cs:152-172 | inside a literal with every quote escaped, every code unit is accumulated and the scan stays in the literal |
| TestCaseNameParserProofs.ParseNamespaceFallback | src/JUnit.Xml.TestLogger/TestCaseNameParser.cs:205-209 | the namespace-only fallback sets the namespace to "UnknownNamespace"; the type is not blank; type + "." + method ends the input, preceded by nothing or by a blank namespace and its dot |
| TestCaseNameParserProofs.ParseFullFallback | src/JUnit.Xml.TestLogger/TestCaseNameParser.cs:198-204 | the full fallback returns "UnknownNamespace", "UnknownType" and the whole input as the method |
| TestCaseNameParserProofs.NoDotFallsBack | src/JUnit.Xml.TestLogger/TestCaseNameParser.cs:90-121 | a name without any dot always ends in the full fallback |
| TestCaseNameParserProofs.NoStructuralDotFallsBack | src/JUnit.Xml.TestLogger/TestCaseNameParser.cs:175-204 | a name whose scan never passes a dot outside an argument block or literal, such as `x(a.b)`, ends in the full fallback |
| TestCaseNameParserProofs.FinishFailed | src/JUnit.Xml.TestLogger/TestCaseNameParser.cs:188-204 | an exception clears type and namespace, so it always ends in the full fallback |
| TestCaseNameParserProofs.FinishMethodOnly | src/JUnit.Xml.TestLogger/TestCaseNameParser.cs:175-204 | a scan that never passed a dot outside a block ends in the full fallback |
| TestCaseNameParserProofs.FinishTypeOnly | src/JUnit.Xml.TestLogger/TestCaseNameParser.cs:182-186 | a scan that ended while finding the type takes the accumulated text as the type and falls back on the namespace only |
| TestCaseNameParserProofs.FinishBlankNamespace | src/JUnit.Xml.TestLogger/TestCaseNameParser.cs:177-181 | a blank namespace after a type falls back on the namespace only, keeping type and method |
| TestCaseNameParserProofs.RunTracks | src/JUnit.Xml.TestLogger/TestCaseNameParser.cs:66-173 | the loop invariant: the consumed suffix of the name is the accumulated segment, then the segments already flushed, joined by dots |
| TestCaseNameParserProofs.FeedTracksDefault | src/JUnit.Xml.TestLogger/TestCaseNameParser.cs:74-127 | in the default state a step throws exactly on a `(`, `"` or `\`, a `)` after other text, or a dot after nothing; any other step keeps the invariant |
| TestCaseNameParserProofs.FeedTracksInBlock | src/JUnit.Xml.TestLogger/TestCaseNameParser.cs:128-172 | inside an argument block or a string literal a step throws exactly on a `)` or `\` in the block state (never in a literal), and every step keeps the segment ending in the `)` that opened the block |
| TestCaseNameParserProofs.FeedInString | src/JUnit.Xml.TestLogger/TestCaseNameParser.cs:152-172 | inside a literal, every code unit is accumulated and nothing else changes; the literal ends, back in the block state, exactly at a quote with no backslash before it in the name |
| TestCaseNameParserProofs.FailedRunStops | src/JUnit.Xml.TestLogger/TestCaseNameParser.cs:62-193 | after an exception the loop runs no further: the scan state is the one that threw |
| TestCaseNameParserProofs.RejectedFallsBack | src/JUnit.Xml.TestLogger/TestCaseNameParser.cs:76-133 | a code unit that a reachable scan rejects (in the default state a `(`, `"`, `\`, a `)` after other text or a dot after nothing; in a block a `)` or `\`) ends the parse in the full fallback with the whole name as the method |
| TestCaseNameParserProofs.FeedTracksNamespace | src/JUnit.Xml.TestLogger/TestCaseNameParser.cs:69-73 | once the type is found, every remaining character goes into the namespace verbatim |
| TestCaseNameParserExamples.ExampleSplit1 | test/JUnit.Xml.TestLogger.UnitTests/TestCaseNameParserTests.cs:15 | "z.a.b" parses into "z", "a", "b" with no console line |
| TestCaseNameParserExamples.ExampleSplit2 | test/JUnit.Xml.TestLogger.UnitTests/TestCaseNameParserTests.cs:18 | `z.y.x.a.b("arg",2)` parses into "z.y.x", "a", `b("arg",2)` with no console line |
| TestCaseNameParserExamples.ExampleSplit3 | test/JUnit.Xml.TestLogger.UnitTests/TestCaseNameParserTests.cs:21 | `z.y.x.a("arg.())(",2).b` keeps the dot and parentheses of the string literal inside the type |
| TestCaseNameParserExamples.ExampleSplit4 | test/JUnit.Xml.TestLogger.UnitTests/TestCaseNameParserTests.cs:24 | an escaped quote inside a string literal does not end the literal |
| TestCaseNameParserExamples.ExampleNoNamespace1 | test/JUnit.Xml.TestLogger.UnitTests/TestCaseNameParserTests.cs:47 | "a.b" gives type "a", method "b" and the namespace-only fallback |
| TestCaseNameParserExamples.ExampleNoNamespace2 | test/JUnit.Xml.TestLogger.UnitTests/TestCaseNameParserTests.cs:55 | "a.b(0.5f)" keeps the dot of the argument inside the method, with the namespace-only fallback |
| TestCaseNameParserExamples.ExampleNoNamespace3 | src/JUnit.Xml.TestLogger/TestCaseNameParser.cs:80-89 | "x).m": a `)` at the start of a segment opens a block that the end of the name leaves unclosed; the type is "x)" |
| TestCaseNameParserExamples.ExampleUnsplit1 | test/JUnit.Xml.TestLogger.UnitTests/TestCaseNameParserTests.cs:80 | "x.()x()" takes the full fallback |
| TestCaseNameParserExamples.ExampleUnsplit2 | test/JUnit.Xml.TestLogger.UnitTests/TestCaseNameParserTests.cs:81 | "x" takes the full fallback |
| TestCaseNameParserExamples.ExampleUnsplit3 | test/JUnit.Xml.TestLogger.UnitTests/TestCaseNameParserTests.cs:83 | "z.y.x(" takes the full fallback |
| TestCaseNameParserExamples.ExampleUnsplit4 | test/JUnit.Xml.TestLogger.UnitTests/TestCaseNameParserTests.cs:87 | `z.y.x\` takes the full fallback |
| TestCaseNameParserExamples.ExampleUnsplit5 | test/JUnit.Xml.TestLogger.UnitTests/TestCaseNameParserTests.cs:91 | "z.y.x." takes the full fallback |
| TestCaseNameParserExamples.ExampleUnsplit6 | test/JUnit.Xml.TestLogger.UnitTests/TestCaseNameParserTests.cs:93 | `z.y.x."")` takes the full fallback |
| StringExtensions.SubstringAfterDot | src/JUnit.Xml.TestLogger/StringExtensions.cs:27-41 | the text after the last dot, the whole name when there is none, and empty for the empty name |
| StringExtensions.SubstringBeforeDot | src/JUnit.Xml.TestLogger/StringExtensions.cs:43-57 | the text before the last dot, empty when there is none and for the empty name |
| StringExtensions.SubstringAfterDotFacts | src/JUnit.Xml.TestLogger/StringExtensions.cs:27-41 | the result is a dot-free suffix of the name, and a name without a dot is its own last part |
| StringExtensions.SubstringBeforeDotFacts | src/JUnit.Xml.TestLogger/StringExtensions.cs:43-57 | the result is a prefix of the name, strictly shorter than a non-empty name, and empty when the name has no dot |
| StringExtensions.DotSplit | src/JUnit.Xml.TestLogger/StringExtensions.cs:27-57 | before + "." + after gives back a dotted name; a dot-free name has an empty part before and is its own part after |
| StringExtensions.DotJoinSplits | src/JUnit.Xml.TestLogger/StringExtensions.cs:34-54 | conversely, a prefix joined by a dot to a dot-free last part splits back into that prefix and that part |
| StringExtensions.ReplaceInvalidXmlChar | src/JUnit.Xml.TestLogger/StringExtensions.cs:10-25 | the result holds only XML characters, is the input when the input already does, and is never shorter |
| StringExtensions.ReplaceIdempotent | src/JUnit.Xml.TestLogger/StringExtensions.cs:19-21 | replacing twice is replacing once |
| StringExtensions.ReplaceConcat | src/JUnit.Xml.TestLogger/StringExtensions.cs:21 | the replacement works code unit by code unit and distributes over concatenation |
| StringExtensions.UnescapeReplace | src/JUnit.Xml.TestLogger/StringExtensions.cs:59-63 | for an input with no backslash of its own, nothing is lost: reading the `\uXXXX` sequences back gives the input |
| StringExtensions.EscapeLikeInputNotRecovered | src/JUnit.Xml.TestLogger/StringExtensions.cs:19-21 | the backslash condition is needed: the six XML characters `\u0041` pass through unchanged and read back as "A" |
| StringExtensions.EscapeSequence | src/JUnit.Xml.TestLogger/StringExtensions.cs:59-63 | the escape is six XML characters, `\u` and four lower-case hexadecimal digits that read back as the code unit |
| StringExtensions.HexNumberDigits | src/JUnit.Xml.TestLogger/StringExtensions.cs:62 | the `{0:x4}` digits of a code unit read back as that code unit |
| StringExtensions.ReplaceExample | test/JUnit.Xml.TestLogger.UnitTests/StringExtensionsTests.cs:20-24 | a NUL and a vertical tab between XML text become `\u0000` and `\u000b`, and the text around them is kept |
| StringExtensions.EscapeExamples | test/JUnit.Xml.TestLogger.UnitTests/StringExtensionsTests.cs:23 | the escapes of NUL and vertical tab are `\u0000` and `\u000b` |
| StringExtensions.DotExamples | test/JUnit.Xml.TestLogger.UnitTests/StringExtensionsTests.cs:26-64 | "a.b.c" splits into "a.b" and "c"; "abc" is its own last part; "c" has no part before; the empty name gives empty parts |
| JunitXmlSerializer.Aggregate | src/JUnit.Xml.TestLogger/JunitXmlSerializer.cs:366-421 | the parent suite of a group: its counters are its members' sums, its result is Failed when some member failed, its children are the members' elements |
| JunitXmlSerializer.NextLevel | src/JUnit.Xml.TestLogger/JunitXmlSerializer.cs:111-124 | one pass of the loop: the working suites with a non-empty key, grouped by key, ordered by key, each group aggregated and named by its key's last part |
| JunitXmlSerializer.RollUp | src/JUnit.Xml.TestLogger/JunitXmlSerializer.cs:105-128 | the roots of one pass, followed by the roll-up of the next working list, until that list is empty |
| JunitXmlSerializer.AggregateTestSuites | src/JUnit.Xml.TestLogger/JunitXmlSerializer.cs:366-421 | each counter of the parent (total, passed, failed, inconclusive, skipped, error, time) is the sum over the members; the element has the given type, name and full name, the same counters, result Failed exactly when some member failed, and the members' elements as children in order |
| JunitXmlSerializer.AggregateCounts | src/JUnit.Xml.TestLogger/JunitXmlSerializer.cs:382-393 | each counter of an aggregate is its members' sum |
| JunitXmlSerializer.GroupTestSuites | src/JUnit.Xml.TestLogger/JunitXmlSerializer.cs:105-128 | the loop returns the specification `RollUp`; every root has no text before a dot; every counter's sum over the roots equals its sum over the input suites |
| JunitXmlSerializer.GroupByKey | src/JUnit.Xml.TestLogger/JunitXmlSerializer.cs:111-120 | the key selector's grouping is `GroupBy` by the text before the last dot, and the roots gain exactly the suites with an empty key, in order |
| JunitXmlSerializer.SelectAggregates | src/JUnit.Xml.TestLogger/JunitXmlSerializer.cs:123-124 | the next working list is the aggregate of each kept group, named by the last part of its key |
| JunitXmlSerializer.GroupByGroups | src/JUnit.Xml.TestLogger/JunitXmlSerializer.cs:111-120 | `GroupBy` against its reference: keys are distinct, a key has a group exactly when some suite has it, and a group's members are the suites with its key in input order |
| JunitXmlSerializer.SortPermutes | src/JUnit.Xml.TestLogger/JunitXmlSerializer.cs:121 | `OrderBy` is a permutation of the groups |
| JunitXmlSerializer.SortSorted | src/JUnit.Xml.TestLogger/JunitXmlSerializer.cs:121 | over distinct keys, `OrderBy` leaves the groups in strictly increasing key order |
| JunitXmlSerializer.NonRootGroupsFacts | src/JUnit.Xml.TestLogger/JunitXmlSerializer.cs:122 | `Where` keeps exactly the groups whose key is not empty |
| JunitXmlSerializer.NonRootGroupsSorted | src/JUnit.Xml.TestLogger/JunitXmlSerializer.cs:122 | `Where` preserves the key order |
| JunitXmlSerializer.NextLevelShrinks | src/JUnit.Xml.TestLogger/JunitXmlSerializer.cs:109-125 | the loop terminates: the longest full name of the working list strictly shrinks each pass |
| JunitXmlSerializer.NextLevelSorted | src/JUnit.Xml.TestLogger/JunitXmlSerializer.cs:121-124 | the parents of one pass come in strictly increasing order of full name |
| JunitXmlSerializer.NextLevelMembers | src/JUnit.Xml.TestLogger/JunitXmlSerializer.cs:111-123 | each parent has a non-empty full name and is the aggregate of exactly the working suites with that key, named by its last part |
| JunitXmlSerializer.NextLevelComplete | src/JUnit.Xml.TestLogger/JunitXmlSerializer.cs:111-123 | every non-empty key of the working list has its parent in the next working list |
| JunitXmlSerializer.RollUpRoots | src/JUnit.Xml.TestLogger/JunitXmlSerializer.cs:113-117 | every returned suite is a root, and every input suite that is already a root is returned |
| JunitXmlSerializer.RollUpConserves | src/JUnit.Xml.TestLogger/JunitXmlSerializer.cs:105-128 | for every counter, the sum over the returned roots equals the sum over the input suites |
| JunitXmlSerializer.NextLevelSum | src/JUnit.Xml.TestLogger/JunitXmlSerializer.cs:111-124 | one pass loses nothing: the next working list carries the sums of the suites that were not roots |
| JunitXmlSerializer.KeptLinesNormal | src/JUnit.Xml.TestLogger/JunitXmlSerializer.cs:440-441 | dropping blank pieces and trimming the rest leaves only non-empty lines without line breaks or white space at either end |
| JunitXmlSerializer.MessageLinesNormal | src/JUnit.Xml.TestLogger/JunitXmlSerializer.cs:438-441 | every line taken from the messages is such a normal line |
| JunitXmlSerializer.Indent | src/JUnit.Xml.TestLogger/JunitXmlSerializer.cs:427-442 | the message lines, each after four spaces, joined by the newline, or four spaces alone when there are none |
| JunitXmlSerializer.IndentLines | src/JUnit.Xml.TestLogger/JunitXmlSerializer.cs:427-442 | the indented text splits back into one line per message line, each four spaces followed by the line; with no lines it is four spaces alone |
| JunitXmlSerializer.MessageLinesOfNormal | src/JUnit.Xml.TestLogger/JunitXmlSerializer.cs:438-441 | messages that are already single normal lines are kept as they are, in order |
| RollUpExamples.RollUpOfRoots | src/JUnit.Xml.TestLogger/JunitXmlSerializer.cs:113-117 | suites without dots are all roots, returned as they are and in order |
| RollUpExamples.ExclusiveSuites | test/JUnit.Xml.TestLogger.UnitTests/JUnitXmlTestSerializerTests.cs:28-38 | "a.b" and "c.d" roll up into exactly two roots, "a" and then "c", each aggregating its one leaf |
| RollUpExamples.NestedSuites | test/JUnit.Xml.TestLogger.UnitTests/JUnitXmlTestSerializerTests.cs:41-54 | "a.b.c", "a.b.e", "c.d" roll up into roots "c" (total 5) and then "a" (total 10, holding "a.b" with both other leaves), with the counters and Failed results of the expected XML |
| RollUpExamples.NestedRollUp | test/JUnit.Xml.TestLogger.UnitTests/JUnitXmlTestLoggerTests.cs:42-55 | the logger's copy of the test: root "c" comes from the second pass, root "a" from the third |
| RollUpExamples.ExclusivePass | test/JUnit.Xml.TestLogger.UnitTests/JUnitXmlTestLoggerTests.cs:29-39 | the first pass over "a.b" and "c.d" yields parents "a" and "c", in that order, and no root |
| RollUpExamples.AggregatePair | src/JUnit.Xml.TestLogger/JUnitXmlTestLogger.cs:292-347 | the parent of two suites carries the sums of their counters |
| JUnitXmlTestLogger.TryParseName | src/JUnit.Xml.TestLogger/JUnitXmlTestLogger.cs:349-394 | the name is cut at its first `(` into the type-and-method part and the arguments; arguments must end in `)` once trimmed; the first part is split at its last dot |
| JUnitXmlTestLogger.SplitAtLastDot | src/JUnit.Xml.TestLogger/JUnitXmlTestLogger.cs:379-393 | the type is the trimmed text before the last dot, the method the trimmed text after it, and the split fails when there is no dot or the last dot is the first or the last code unit |
| JUnitXmlTestLogger.ParsedNameFacts | src/JUnit.Xml.TestLogger/JUnitXmlTestLogger.cs:379-393 | a successful split gives trimmed, non-empty type and method names, no `(` in either, no dot in the method, and argument text from `(` to `)` that is present exactly when the name holds a `(` |
| JUnitXmlTestLogger.ParseComposed | src/JUnit.Xml.TestLogger/JUnitXmlTestLogger.cs:349-394 | round trip: type + "." + method + arguments, under the conditions a split guarantees, splits back into exactly those three |
| JUnitXmlTestLogger.ReparseParts | src/JUnit.Xml.TestLogger/JUnitXmlTestLogger.cs:349-394 | splitting is stable: the parts of a successful split, put back together, split into the same parts |
| JUnitXmlTestLogger.ArgumentsStartAtParen | src/JUnit.Xml.TestLogger/JUnitXmlTestLogger.cs:358-368 | the argument text of a name with a `(` starts with that `(`, so the check of its last code unit is always in range |
| JUnitXmlTestLogger.UnclosedArgumentsFail | src/JUnit.Xml.TestLogger/JUnitXmlTestLogger.cs:370-376 | a name holding `(` whose last code unit other than white space is not `)` is rejected |
| JUnitXmlTestLogger.NoDotFails | src/JUnit.Xml.TestLogger/JUnitXmlTestLogger.cs:379-389 | a name with no dot before its first `(` is rejected |
| JUnitXmlTestLogger.LeadingDotFails | src/JUnit.Xml.TestLogger/JUnitXmlTestLogger.cs:382-389 | a name whose only dot before the first `(` has nothing but white space in front of it has no type and is rejected |
| JUnitXmlTestLogger.TrailingDotFails | src/JUnit.Xml.TestLogger/JUnitXmlTestLogger.cs:382-389 | a name whose part before the first `(` ends with a dot and white space has no method and is rejected |
| JUnitXmlTestLogger.SplitJoined | src/JUnit.Xml.TestLogger/JUnitXmlTestLogger.cs:379-393 | a trimmed type and a dot-free trimmed method joined by a dot split at that dot into exactly those two |
| JUnitXmlTestLogger.Logger.constructor | src/JUnit.Xml.TestLogger/JUnitXmlTestLogger.cs:405-408 | the result list starts empty, so the invariant holds |
| JUnitXmlTestLogger.Logger.TestResultHandler | src/JUnit.Xml.TestLogger/JUnitXmlTestLogger.cs:236-250 | a result whose name does not split leaves the list unchanged; one that splits is appended with its type and method names; every entry carries the split of its own name |
| JUnitXmlTestLogger.Logger.TakeResults | src/JUnit.Xml.TestLogger/JUnitXmlTestLogger.cs:259-264 | the handed-over list is the recorded one, every entry of it recorded by the rule above, and a fresh empty list replaces it |
| JUnitXmlTestLogger.PlainNameExample | src/JUnit.Xml.TestLogger/JUnitXmlTestLogger.cs:360-363 | "a.b" splits into type "a", method "b" and no arguments |
| JUnitXmlTestLogger.ArgumentsExample | src/JUnit.Xml.TestLogger/JUnitXmlTestLogger.cs:365-368 | "a.b(x)" keeps "(x)" as the argument text |
| JUnitXmlTestLogger.UnclosedExample | src/JUnit.Xml.TestLogger/JUnitXmlTestLogger.cs:370-376 | "a.b(x" is rejected: the arguments do not end with `)` |
| JUnitXmlTestLogger.NoDotExample | src/JUnit.Xml.TestLogger/JUnitXmlTestLogger.cs:382-389 | "ab" is rejected: there is no type name |

## Left out

- Console output of the parser: modelled as the `Diagnostic` value naming which message would be written. The message template's text is not modelled.
- XML document construction, file writing, directories, encodings, run settings, output-path tokens and the `Serialize` entry point are I/O or depend on XML libraries. They are not modelled.
- `Initialize`, `InitializeImpl` other than starting the list, the event wiring, and the other handlers (messages, run start) are not modelled. They are plumbing into the test platform.
- Locks around the result list: concurrency is not modelled. The logger's methods are taken as atomic.
- The `TestResultInfo` built by `TestResultHandler` is modelled as (result, type, method). The test platform's result object is reduced to its fully qualified name and an opaque payload. `TestResultInfo.cs`'s namespace and the other fields are not modelled.
- The `ParseTestCaseName` tests in `JUnitXmlTestLoggerTests.cs` call a method that is not part of this model.
- `OrderBy(g => g.Key)` uses the culture-sensitive default string comparer; the model orders keys ordinally by code unit. `LastIndexOf(".")` in `SubstringBeforeDot` is likewise taken as ordinal.
- null strings: the model has no null. The empty-string branch of `SubstringAfterDot`/`SubstringBeforeDot`/`ReplaceInvalidXmlChar` is modelled; the null branch is not.
- Counters are unbounded integers: 32-bit overflow of `int` sums is not modelled.
- Durations: `TimeSpan` is an integer tick count; `TotalSeconds` as a double in the `duration` attribute is not modelled (floating point).
- The elements of leaf suites are opaque values; only the `test-suite` element built by `AggregateTestSuites` has modelled attributes and children.
- The two copies of `GroupTestSuites`/`AggregateTestSuites` (in `JunitXmlSerializer.cs` and `JUnitXmlTestLogger.cs`) are textually identical and share one model.
- JunitXmlSerializer.IndentLines: the split-back property is stated for a line-feed `Environment.NewLine` only; `Indent` itself takes the newline as a parameter.
- StringExtensions.UnescapeReplace: the escaping is not injective, so the read-back is promised only for inputs without a backslash; an input that already holds a `\uXXXX` sequence passes through unchanged and reads back differently (`EscapeLikeInputNotRecovered`).
- The supplementary-plane range of the XML character set is not modelled: strings are UTF-16 code units, so each half of a surrogate pair is escaped on its own, as the regular expression does.
