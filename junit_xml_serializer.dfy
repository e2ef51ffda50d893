/**
 * `JunitXmlSerializer`: the roll-up of test suites into a hierarchy by the
 * dotted prefixes of their full names (`GroupTestSuites`), the aggregation
 * of one group of suites into their parent suite (`AggregateTestSuites`),
 * and the indentation of test messages (`Indent`).
 *
 * Each pass of the roll-up groups the current suites by the text before the
 * last dot of their full name. Suites with an empty prefix are roots and are
 * collected as they are met; every other group, in key order, becomes one
 * parent suite whose counters are the sums of its members'. The parents are
 * the working list of the next pass, until it is empty.
 */
module JunitXmlSerializer {
  import opened Text
  import opened StringExtensions

  /** The `result` attribute of a suite element: `ResultStatusPassed` or `ResultStatusFailed`. */
  datatype ResultStatus = Passed | Failed

  /** An `XElement` as the roll-up sees it: an element built elsewhere, kept
      whole and told apart only by an identity, or a `test-suite` element
      built by `AggregateTestSuites`, with the attributes it sets and its
      children in order. `duration` is in ticks. */
  datatype Element =
    | Opaque(id: int)
    | SuiteElement(suiteType: Str, name: Str, fullName: Str,
                   total: int, passed: int, failed: int, inconclusive: int, skipped: int,
                   result: ResultStatus, duration: int, children: seq<Element>)

  /** `TestSuite`; `time` is the `TimeSpan` counted in ticks. */
  datatype TestSuite = TestSuite(element: Element, name: Str, fullName: Str,
                                 total: int, passed: int, failed: int, inconclusive: int,
                                 skipped: int, error: int, time: int)

  /** The counters `AggregateTestSuites` sums. */
  datatype Counter = TotalCount | PassedCount | FailedCount | InconclusiveCount
                   | SkippedCount | ErrorCount | TimeCount

  function Count(s: TestSuite, c: Counter): int
  {
    match c
    case TotalCount => s.total
    case PassedCount => s.passed
    case FailedCount => s.failed
    case InconclusiveCount => s.inconclusive
    case SkippedCount => s.skipped
    case ErrorCount => s.error
    case TimeCount => s.time
  }

  /** One counter summed over a list of suites. */
  function Sum(ss: seq<TestSuite>, c: Counter): int
  {
    if ss == [] then 0 else Count(ss[0], c) + Sum(ss[1..], c)
  }

  lemma {:induction false} SumConcat(a: seq<TestSuite>, b: seq<TestSuite>, c: Counter)
    ensures Sum(a + b, c) == Sum(a, c) + Sum(b, c)
  {
    if a == [] {
      assert a + b == b;
    } else {
      assert (a + b)[1..] == a[1..] + b;
      SumConcat(a[1..], b, c);
    }
  }

  lemma SumSnoc(a: seq<TestSuite>, x: TestSuite)
    ensures forall c :: Sum(a + [x], c) == Sum(a, c) + Count(x, c)
  {
    forall c ensures Sum(a + [x], c) == Sum(a, c) + Count(x, c) {
      SumConcat(a, [x], c);
      assert Sum([x], c) == Count(x, c) + Sum([x][1..], c);
    }
  }

  /** The elements of a list of suites, in order. */
  function Elements(ss: seq<TestSuite>): seq<Element>
  {
    if ss == [] then [] else Elements(ss[..|ss| - 1]) + [ss[|ss| - 1].element]
  }

  lemma {:induction false} ElementsFacts(ss: seq<TestSuite>)
    ensures |Elements(ss)| == |ss|
    ensures forall i :: 0 <= i < |ss| ==> Elements(ss)[i] == ss[i].element
  {
    if ss != [] {
      var init := ss[..|ss| - 1];
      ElementsFacts(init);
      assert forall i :: 0 <= i < |init| ==> init[i] == ss[i];
    }
  }

  /** `"TestSuite"`, the type every aggregated suite is given. */
  const TestSuiteType: Str := [0x54, 0x65, 0x73, 0x74, 0x53, 0x75, 0x69, 0x74, 0x65]

  /** The parent suite of `suites`: every counter summed, the result
      `Failed` exactly when some member failed, and the members' elements
      as children in their order. The summed error count is kept on the
      suite but not written to the element. */
  function Aggregate(suites: seq<TestSuite>, suiteType: Str, name: Str, fullName: Str): TestSuite
  {
    var failed := Sum(suites, FailedCount);
    TestSuite(
      SuiteElement(suiteType, name, fullName,
                   Sum(suites, TotalCount), Sum(suites, PassedCount), failed,
                   Sum(suites, InconclusiveCount), Sum(suites, SkippedCount),
                   if failed > 0 then Failed else Passed, Sum(suites, TimeCount),
                   Elements(suites)),
      name, fullName,
      Sum(suites, TotalCount), Sum(suites, PassedCount), failed,
      Sum(suites, InconclusiveCount), Sum(suites, SkippedCount),
      Sum(suites, ErrorCount), Sum(suites, TimeCount))
  }

  lemma AggregateCounts(suites: seq<TestSuite>, suiteType: Str, name: Str, fullName: Str, c: Counter)
    ensures Count(Aggregate(suites, suiteType, name, fullName), c) == Sum(suites, c)
  {
  }

  /** `AggregateTestSuites`: one pass over the members accumulates the
      counters and the child elements. */
  method AggregateTestSuites(suites: seq<TestSuite>, suiteType: Str, name: Str, fullName: Str)
    returns (r: TestSuite)
    ensures r.name == name && r.fullName == fullName
    ensures forall c :: Count(r, c) == Sum(suites, c)
    ensures r.element.SuiteElement? && r.element.children == Elements(suites)
    ensures r.element.suiteType == suiteType && r.element.name == name && r.element.fullName == fullName
    ensures r.element.total == r.total && r.element.passed == r.passed && r.element.failed == r.failed
    ensures r.element.inconclusive == r.inconclusive && r.element.skipped == r.skipped
    ensures r.element.duration == r.time
    ensures r.element.result == Failed <==> r.failed > 0
    ensures r == Aggregate(suites, suiteType, name, fullName)
  {
    var total, passed, failed, skipped, inconclusive, error, time := 0, 0, 0, 0, 0, 0, 0;
    var children: seq<Element> := [];
    for j := 0 to |suites|
      invariant total == Sum(suites[..j], TotalCount)
      invariant passed == Sum(suites[..j], PassedCount)
      invariant failed == Sum(suites[..j], FailedCount)
      invariant skipped == Sum(suites[..j], SkippedCount)
      invariant inconclusive == Sum(suites[..j], InconclusiveCount)
      invariant error == Sum(suites[..j], ErrorCount)
      invariant time == Sum(suites[..j], TimeCount)
      invariant children == Elements(suites[..j])
    {
      var result := suites[j];
      total := total + result.total;
      passed := passed + result.passed;
      failed := failed + result.failed;
      skipped := skipped + result.skipped;
      inconclusive := inconclusive + result.inconclusive;
      error := error + result.error;
      time := time + result.time;
      children := children + [result.element];
      assert suites[..j + 1] == suites[..j] + [result];
      SumSnoc(suites[..j], result);
    }
    assert suites[..|suites|] == suites;
    var status := if failed > 0 then Failed else Passed;
    var element := SuiteElement(suiteType, name, fullName, total, passed, failed,
                                inconclusive, skipped, status, time, children);
    r := TestSuite(element, name, fullName, total, passed, failed, inconclusive, skipped, error, time);
  }

  // ---------------------------------------------------------------------
  // One pass: GroupBy, OrderBy, Where and Select.
  // ---------------------------------------------------------------------

  /** The grouping key of a suite: the text before the last dot of its full name. */
  function Key(s: TestSuite): Str
  {
    SubstringBeforeDot(s.fullName)
  }

  /** One `IGrouping` of `GroupBy`: a key and its members in the order they were met. */
  datatype Group = Group(key: Str, members: seq<TestSuite>)

  /** `GroupBy` meeting one more suite: it joins the group of its key, or
      opens a new group at the end. */
  function AddToGroup(gs: seq<Group>, k: Str, s: TestSuite): seq<Group>
  {
    if gs == [] then [Group(k, [s])]
    else if gs[0].key == k then [gs[0].(members := gs[0].members + [s])] + gs[1..]
    else [gs[0]] + AddToGroup(gs[1..], k, s)
  }

  /** `GroupBy(Key)`: groups in order of the first appearance of their keys. */
  function GroupBy(ss: seq<TestSuite>): seq<Group>
  {
    if ss == [] then []
    else AddToGroup(GroupBy(ss[..|ss| - 1]), Key(ss[|ss| - 1]), ss[|ss| - 1])
  }

  /** The suites of `ss` whose key is `k`, in their order in `ss`. */
  function WithKey(ss: seq<TestSuite>, k: Str): seq<TestSuite>
  {
    if ss == [] then []
    else WithKey(ss[..|ss| - 1], k) + (if Key(ss[|ss| - 1]) == k then [ss[|ss| - 1]] else [])
  }

  /** `WithKey` keeps exactly the suites with key `k`. */
  lemma {:induction false} WithKeyFacts(ss: seq<TestSuite>, k: Str)
    ensures forall i :: 0 <= i < |WithKey(ss, k)| ==> Key(WithKey(ss, k)[i]) == k && WithKey(ss, k)[i] in ss
    ensures forall j :: 0 <= j < |ss| && Key(ss[j]) == k ==> ss[j] in WithKey(ss, k)
  {
    if ss != [] {
      var init := ss[..|ss| - 1];
      WithKeyFacts(init, k);
      assert forall j :: 0 <= j < |init| ==> init[j] == ss[j];
    }
  }

  /** The suites the key selector adds to `roots`: those with an empty key. */
  function RootsOf(ss: seq<TestSuite>): seq<TestSuite>
  {
    WithKey(ss, [])
  }

  /** The suites with a non-empty key. */
  function NonRoots(ss: seq<TestSuite>): seq<TestSuite>
  {
    if ss == [] then []
    else NonRoots(ss[..|ss| - 1]) + (if Key(ss[|ss| - 1]) != [] then [ss[|ss| - 1]] else [])
  }

  /** Some group has key `k`. */
  predicate HasKey(gs: seq<Group>, k: Str)
  {
    gs != [] && (gs[0].key == k || HasKey(gs[1..], k))
  }

  /** No two groups share a key. */
  predicate DistinctKeys(gs: seq<Group>)
  {
    gs == [] || (!HasKey(gs[1..], gs[0].key) && DistinctKeys(gs[1..]))
  }

  lemma {:induction false} HasKeyAt(gs: seq<Group>, i: nat)
    requires i < |gs|
    ensures HasKey(gs, gs[i].key)
  {
    if i > 0 {
      HasKeyAt(gs[1..], i - 1);
    }
  }

  lemma {:induction false} HasKeyIndex(gs: seq<Group>, k: Str) returns (i: nat)
    requires HasKey(gs, k)
    ensures i < |gs| && gs[i].key == k
  {
    if gs[0].key == k {
      i := 0;
    } else {
      var j := HasKeyIndex(gs[1..], k);
      i := j + 1;
    }
  }

  /** The members of the group with key `k`, or none. */
  function MembersOf(gs: seq<Group>, k: Str): seq<TestSuite>
  {
    if gs == [] then []
    else if gs[0].key == k then gs[0].members
    else MembersOf(gs[1..], k)
  }

  lemma {:induction false} AddToGroupHasKey(gs: seq<Group>, k: Str, s: TestSuite, k': Str)
    ensures HasKey(AddToGroup(gs, k, s), k') == (HasKey(gs, k') || k' == k)
  {
    var r := AddToGroup(gs, k, s);
    if gs == [] {
      assert r[1..] == [];
    } else if gs[0].key == k {
      assert r[1..] == gs[1..];
    } else {
      AddToGroupHasKey(gs[1..], k, s, k');
      assert r[1..] == AddToGroup(gs[1..], k, s);
    }
  }

  lemma {:induction false} AddToGroupMembers(gs: seq<Group>, k: Str, s: TestSuite, k': Str)
    ensures MembersOf(AddToGroup(gs, k, s), k') == MembersOf(gs, k') + (if k' == k then [s] else [])
  {
    var r := AddToGroup(gs, k, s);
    if gs == [] {
      assert r[1..] == [];
    } else if gs[0].key == k {
      assert r[1..] == gs[1..];
    } else {
      AddToGroupMembers(gs[1..], k, s, k');
      assert r[1..] == AddToGroup(gs[1..], k, s);
    }
  }

  lemma {:induction false} AddToGroupDistinct(gs: seq<Group>, k: Str, s: TestSuite)
    requires DistinctKeys(gs)
    ensures DistinctKeys(AddToGroup(gs, k, s))
  {
    var r := AddToGroup(gs, k, s);
    if gs == [] {
      assert r[1..] == [];
    } else if gs[0].key == k {
      assert r[1..] == gs[1..];
    } else {
      AddToGroupDistinct(gs[1..], k, s);
      AddToGroupHasKey(gs[1..], k, s, gs[0].key);
      assert r[1..] == AddToGroup(gs[1..], k, s);
    }
  }

  lemma GroupBySnoc(ss: seq<TestSuite>, s: TestSuite)
    ensures GroupBy(ss + [s]) == AddToGroup(GroupBy(ss), Key(s), s)
  {
    assert (ss + [s])[..|ss|] == ss;
  }

  lemma WithKeySnoc(ss: seq<TestSuite>, s: TestSuite, k: Str)
    ensures WithKey(ss + [s], k) == WithKey(ss, k) + (if Key(s) == k then [s] else [])
  {
    assert (ss + [s])[..|ss|] == ss;
  }

  /** `GroupBy` against its reference: the keys are distinct, a key has a
      group exactly when some suite has that key, and a group's members are
      the suites with its key, in their order. */
  lemma {:induction false} GroupByGroups(ss: seq<TestSuite>)
    ensures DistinctKeys(GroupBy(ss))
    ensures forall k :: HasKey(GroupBy(ss), k) <==> WithKey(ss, k) != []
    ensures forall k :: MembersOf(GroupBy(ss), k) == WithKey(ss, k)
  {
    if ss != [] {
      var init := ss[..|ss| - 1];
      var last := ss[|ss| - 1];
      assert ss == init + [last];
      GroupByGroups(init);
      GroupBySnoc(init, last);
      AddToGroupDistinct(GroupBy(init), Key(last), last);
      forall k
        ensures HasKey(GroupBy(ss), k) <==> WithKey(ss, k) != []
        ensures MembersOf(GroupBy(ss), k) == WithKey(ss, k)
      {
        WithKeySnoc(init, last, k);
        AddToGroupHasKey(GroupBy(init), Key(last), last, k);
        AddToGroupMembers(GroupBy(init), Key(last), last, k);
      }
    }
  }

  /** In a list of groups with distinct keys, a group's members are those
      `MembersOf` finds for its key. */
  lemma {:induction false} MembersOfGroup(gs: seq<Group>, i: nat)
    requires DistinctKeys(gs) && i < |gs|
    ensures MembersOf(gs, gs[i].key) == gs[i].members
  {
    if i > 0 {
      HasKeyAt(gs[1..], i - 1);
      MembersOfGroup(gs[1..], i - 1);
    }
  }

  /** `OrderBy(g => g.Key)` inserting one group: before the first group whose
      key is not smaller, which keeps equal keys in their original order. */
  function InsertByKey(g: Group, gs: seq<Group>): seq<Group>
  {
    if gs == [] then [g]
    else if OrdinalLessEq(g.key, gs[0].key) then [g] + gs
    else [gs[0]] + InsertByKey(g, gs[1..])
  }

  /** `OrderBy(g => g.Key)`: a stable sort of the groups by key. */
  function SortByKey(gs: seq<Group>): seq<Group>
  {
    if gs == [] then [] else InsertByKey(gs[0], SortByKey(gs[1..]))
  }

  lemma {:induction false} InsertPermutes(g: Group, gs: seq<Group>)
    ensures multiset(InsertByKey(g, gs)) == multiset(gs) + multiset{g}
  {
    if gs != [] && !OrdinalLessEq(g.key, gs[0].key) {
      InsertPermutes(g, gs[1..]);
      assert gs == [gs[0]] + gs[1..];
    }
  }

  /** Sorting only reorders the groups. */
  lemma {:induction false} SortPermutes(gs: seq<Group>)
    ensures multiset(SortByKey(gs)) == multiset(gs)
  {
    if gs != [] {
      SortPermutes(gs[1..]);
      InsertPermutes(gs[0], SortByKey(gs[1..]));
      assert gs == [gs[0]] + gs[1..];
    }
  }

  predicate StrictlySorted(gs: seq<Group>)
  {
    forall i, j :: 0 <= i < j < |gs| ==> OrdinalLess(gs[i].key, gs[j].key)
  }

  lemma {:induction false} InsertSorted(g: Group, gs: seq<Group>)
    requires StrictlySorted(gs)
    requires forall h :: h in gs ==> h.key != g.key
    ensures StrictlySorted(InsertByKey(g, gs))
  {
    var r := InsertByKey(g, gs);
    if gs == [] {
    } else if OrdinalLessEq(g.key, gs[0].key) {
      forall j | 0 < j < |r| ensures OrdinalLess(g.key, r[j].key) {
        assert r[j] == gs[j - 1] && gs[j - 1] in gs;
        if j > 1 {
          OrdinalTransitive(g.key, gs[0].key, gs[j - 1].key);
        }
      }
    } else {
      OrdinalTotal(g.key, gs[0].key);
      assert gs[0] in gs;
      var tail := InsertByKey(g, gs[1..]);
      InsertSorted(g, gs[1..]);
      InsertPermutes(g, gs[1..]);
      assert r == [gs[0]] + tail;
      forall j | 0 < j < |r| ensures OrdinalLess(gs[0].key, r[j].key) {
        assert r[j] == tail[j - 1];
        assert tail[j - 1] in multiset(tail);
        if tail[j - 1] != g {
          assert tail[j - 1] in gs[1..];
          var m :| 0 <= m < |gs[1..]| && gs[1..][m] == tail[j - 1];
          assert gs[m + 1] == tail[j - 1];
        }
      }
    }
  }

  /** Sorting groups with distinct keys puts them in strictly increasing key order. */
  lemma {:induction false} SortSorted(gs: seq<Group>)
    requires DistinctKeys(gs)
    ensures StrictlySorted(SortByKey(gs))
  {
    if gs != [] {
      var rest := SortByKey(gs[1..]);
      SortSorted(gs[1..]);
      SortPermutes(gs[1..]);
      forall h | h in rest ensures h.key != gs[0].key {
        assert h in multiset(rest);
        var m :| 0 <= m < |gs[1..]| && gs[1..][m] == h;
        HasKeyAt(gs[1..], m);
      }
      InsertSorted(gs[0], rest);
    }
  }

  /** `Where(g => !string.IsNullOrEmpty(g.Key))`. */
  function NonRootGroups(gs: seq<Group>): seq<Group>
  {
    if gs == [] then []
    else (if gs[0].key != [] then [gs[0]] else []) + NonRootGroups(gs[1..])
  }

  /** `Where` keeps exactly the groups with a non-empty key. */
  lemma {:induction false} NonRootGroupsFacts(gs: seq<Group>)
    ensures forall i :: 0 <= i < |NonRootGroups(gs)| ==> NonRootGroups(gs)[i].key != [] && NonRootGroups(gs)[i] in gs
    ensures forall i :: 0 <= i < |gs| && gs[i].key != [] ==> gs[i] in NonRootGroups(gs)
  {
    if gs != [] {
      NonRootGroupsFacts(gs[1..]);
      assert forall i :: 0 < i < |gs| ==> gs[i] == gs[1..][i - 1];
    }
  }

  lemma {:induction false} NonRootGroupsSorted(gs: seq<Group>)
    requires StrictlySorted(gs)
    ensures StrictlySorted(NonRootGroups(gs))
  {
    if gs != [] {
      var tail := NonRootGroups(gs[1..]);
      NonRootGroupsSorted(gs[1..]);
      NonRootGroupsFacts(gs[1..]);
      if gs[0].key != [] {
        var r := NonRootGroups(gs);
        assert r == [gs[0]] + tail;
        forall j | 0 < j < |r| ensures OrdinalLess(gs[0].key, r[j].key) {
          assert r[j] == tail[j - 1] && tail[j - 1] in gs[1..];
          var m :| 0 <= m < |gs[1..]| && gs[1..][m] == tail[j - 1];
          assert gs[m + 1] == r[j];
        }
      }
    }
  }

  /** `Select(g => AggregateTestSuites(g, "TestSuite", g.Key.SubstringAfterDot(), g.Key))`. */
  function AggregateGroup(g: Group): TestSuite
  {
    Aggregate(g.members, TestSuiteType, SubstringAfterDot(g.key), g.key)
  }

  function Aggregates(gs: seq<Group>): seq<TestSuite>
  {
    if gs == [] then [] else Aggregates(gs[..|gs| - 1]) + [AggregateGroup(gs[|gs| - 1])]
  }

  lemma {:induction false} AggregatesLength(gs: seq<Group>)
    ensures |Aggregates(gs)| == |gs|
  {
    if gs != [] {
      AggregatesLength(gs[..|gs| - 1]);
    }
  }

  lemma {:induction false} AggregatesAt(gs: seq<Group>, i: nat)
    requires i < |gs|
    ensures |Aggregates(gs)| == |gs| && Aggregates(gs)[i] == AggregateGroup(gs[i])
  {
    var init := gs[..|gs| - 1];
    AggregatesLength(init);
    if i < |init| {
      AggregatesAt(init, i);
      assert init[i] == gs[i];
    }
  }

  /** The working list of the next pass. */
  function NextLevel(ss: seq<TestSuite>): seq<TestSuite>
  {
    Aggregates(NonRootGroups(SortByKey(GroupBy(ss))))
  }

  /** One more than the longest full name in the list; 0 for an empty list. */
  function Height(ss: seq<TestSuite>): nat
  {
    if ss == [] then 0
    else
      var h := Height(ss[1..]);
      if |ss[0].fullName| + 1 > h then |ss[0].fullName| + 1 else h
  }

  lemma {:induction false} HeightAbove(ss: seq<TestSuite>)
    ensures forall i :: 0 <= i < |ss| ==> |ss[i].fullName| < Height(ss)
  {
    if ss != [] {
      HeightAbove(ss[1..]);
      assert forall i :: 0 < i < |ss| ==> ss[i] == ss[1..][i - 1];
    }
  }

  lemma {:induction false} HeightAtMost(ss: seq<TestSuite>, m: nat)
    requires forall i :: 0 <= i < |ss| ==> |ss[i].fullName| < m
    ensures Height(ss) <= m
  {
    if ss != [] {
      HeightAtMost(ss[1..], m);
    }
  }

  /** A group of the grouping of `ss` with a non-empty key has a key
      strictly shorter than the full name of one of its members. */
  lemma GroupKeyShorter(ss: seq<TestSuite>, g: Group)
    requires g in GroupBy(ss) && g.key != []
    ensures |g.key| + 1 < Height(ss)
  {
    GroupByGroups(ss);
    var gs := GroupBy(ss);
    var i :| 0 <= i < |gs| && gs[i] == g;
    HasKeyAt(gs, i);
    var w := WithKey(ss, g.key);
    WithKeyFacts(ss, g.key);
    HeightAbove(ss);
    assert Key(w[0]) == g.key && w[0] in ss;
    var j :| 0 <= j < |ss| && ss[j] == w[0];
    SubstringBeforeDotFacts(ss[j].fullName);
    assert |ss[j].fullName| < Height(ss);
  }

  /** The roll-up terminates: every full name of the next working list is
      strictly shorter than the longest full name of the current one. */
  lemma NextLevelShrinks(ss: seq<TestSuite>)
    requires ss != []
    ensures Height(NextLevel(ss)) < Height(ss)
  {
    var next := NextLevel(ss);
    HeightAbove(ss);
    assert |ss[0].fullName| < Height(ss);
    var m := Height(ss) - 1;
    forall i | 0 <= i < |next| ensures |next[i].fullName| < m {
      var g := NextLevelAt(ss, i);
      assert GroupBy(ss)[g] in GroupBy(ss);
      GroupKeyShorter(ss, GroupBy(ss)[g]);
    }
    HeightAtMost(next, m);
  }

  /** `GroupTestSuites` as a specification: the roots met in this pass,
      followed by the roll-up of the next working list. */
  function RollUp(ss: seq<TestSuite>): seq<TestSuite>
    decreases Height(ss)
  {
    if ss == [] then []
    else
      NextLevelShrinks(ss);
      RootsOf(ss) + RollUp(NextLevel(ss))
  }

  lemma ConcatAssoc(a: seq<TestSuite>, b: seq<TestSuite>, c: seq<TestSuite>)
    ensures (a + b) + c == a + (b + c)
  {
  }

  lemma RollUpUnfold(ss: seq<TestSuite>)
    requires ss != []
    ensures RollUp(ss) == RootsOf(ss) + RollUp(NextLevel(ss))
  {
  }

  lemma AggregatesSnoc(gs: seq<Group>, g: Group)
    ensures Aggregates(gs + [g]) == Aggregates(gs) + [AggregateGroup(g)]
  {
    assert (gs + [g])[..|gs|] == gs;
  }

  /** Every suite the roll-up returns has no text before a dot, and every
      input suite that is already a root is returned as it is. */
  lemma {:induction false} RollUpRoots(ss: seq<TestSuite>)
    ensures forall i :: 0 <= i < |RollUp(ss)| ==> SubstringBeforeDot(RollUp(ss)[i].fullName) == []
    ensures forall j :: 0 <= j < |ss| && SubstringBeforeDot(ss[j].fullName) == [] ==> ss[j] in RollUp(ss)
    decreases Height(ss)
  {
    if ss != [] {
      NextLevelShrinks(ss);
      RollUpRoots(NextLevel(ss));
      WithKeyFacts(ss, []);
    }
  }

  /** `GroupBy` with the key selector of `GroupTestSuites`: each suite is
      grouped by the text before the last dot of its full name, and a suite
      for which that text is empty is appended to `roots` as it is met. */
  method GroupByKey(groups: seq<TestSuite>, roots: seq<TestSuite>)
    returns (grouping: seq<Group>, roots': seq<TestSuite>)
    ensures grouping == GroupBy(groups)
    ensures roots' == roots + RootsOf(groups)
  {
    grouping := [];
    roots' := roots;
    for j := 0 to |groups|
      invariant grouping == GroupBy(groups[..j])
      invariant roots' == roots + RootsOf(groups[..j])
    {
      assert groups[..j + 1] == groups[..j] + [groups[j]];
      GroupBySnoc(groups[..j], groups[j]);
      WithKeySnoc(groups[..j], groups[j], []);
      var name := SubstringBeforeDot(groups[j].fullName);
      if name == [] {
        ConcatAssoc(roots, RootsOf(groups[..j]), [groups[j]]);
        roots' := roots' + [groups[j]];
      }
      grouping := AddToGroup(grouping, name, groups[j]);
    }
    assert groups[..|groups|] == groups;
  }

  /** `Select(g => AggregateTestSuites(g, "TestSuite", g.Key.SubstringAfterDot(), g.Key)).ToList()`. */
  method SelectAggregates(kept: seq<Group>) returns (next: seq<TestSuite>)
    ensures next == Aggregates(kept)
  {
    next := [];
    for i := 0 to |kept|
      invariant next == Aggregates(kept[..i])
    {
      assert kept[..i + 1] == kept[..i] + [kept[i]];
      AggregatesSnoc(kept[..i], kept[i]);
      var parent := AggregateTestSuites(kept[i].members, TestSuiteType,
                                        SubstringAfterDot(kept[i].key), kept[i].key);
      next := next + [parent];
    }
    assert kept[..|kept|] == kept;
  }

  /** `GroupTestSuites`: passes over the working list until it is empty; the
      key selector appends the roots it meets to `roots` as a side effect. */
  method GroupTestSuites(suites: seq<TestSuite>) returns (roots: seq<TestSuite>)
    ensures roots == RollUp(suites)
    ensures forall i :: 0 <= i < |roots| ==> SubstringBeforeDot(roots[i].fullName) == []
    ensures forall c :: Sum(roots, c) == Sum(suites, c)
  {
    var groups := suites;
    roots := [];
    while groups != []
      invariant roots + RollUp(groups) == RollUp(suites)
      decreases Height(groups)
    {
      ghost var before := roots;
      var grouping;
      grouping, roots := GroupByKey(groups, roots);
      var kept := NonRootGroups(SortByKey(grouping));
      var next := SelectAggregates(kept);
      NextLevelShrinks(groups);
      RollUpUnfold(groups);
      ConcatAssoc(before, RootsOf(groups), RollUp(next));
      groups := next;
    }
    assert RollUp(groups) == [];
    assert roots == RollUp(suites);
    RollUpRoots(suites);
    forall c ensures Sum(roots, c) == Sum(suites, c) {
      RollUpConserves(suites, c);
    }
  }

  // ---------------------------------------------------------------------
  // Conservation of the counters.
  // ---------------------------------------------------------------------

  /** A counter summed over the members of the groups with a non-empty key. */
  function SumKept(gs: seq<Group>, c: Counter): int
  {
    if gs == [] then 0
    else (if gs[0].key != [] then Sum(gs[0].members, c) else 0) + SumKept(gs[1..], c)
  }

  lemma {:induction false} AddToGroupSum(gs: seq<Group>, k: Str, s: TestSuite, c: Counter)
    ensures SumKept(AddToGroup(gs, k, s), c) == SumKept(gs, c) + (if k != [] then Count(s, c) else 0)
  {
    if gs == [] {
      assert Sum([s], c) == Count(s, c) + Sum([], c);
    } else if gs[0].key == k {
      SumConcat(gs[0].members, [s], c);
      assert Sum([s], c) == Count(s, c) + Sum([], c);
      assert AddToGroup(gs, k, s)[1..] == gs[1..];
    } else {
      AddToGroupSum(gs[1..], k, s, c);
      assert AddToGroup(gs, k, s)[1..] == AddToGroup(gs[1..], k, s);
    }
  }

  lemma {:induction false} GroupBySum(ss: seq<TestSuite>, c: Counter)
    ensures SumKept(GroupBy(ss), c) == Sum(NonRoots(ss), c)
  {
    if ss != [] {
      var init := ss[..|ss| - 1];
      var last := ss[|ss| - 1];
      GroupBySum(init, c);
      AddToGroupSum(GroupBy(init), Key(last), last, c);
      SumConcat(NonRoots(init), if Key(last) != [] then [last] else [], c);
      assert Sum([last], c) == Count(last, c) + Sum([], c);
    }
  }

  lemma {:induction false} InsertSum(g: Group, gs: seq<Group>, c: Counter)
    ensures SumKept(InsertByKey(g, gs), c) == SumKept([g], c) + SumKept(gs, c)
  {
    if gs != [] && !OrdinalLessEq(g.key, gs[0].key) {
      InsertSum(g, gs[1..], c);
      assert InsertByKey(g, gs)[1..] == InsertByKey(g, gs[1..]);
    } else if gs != [] {
      assert InsertByKey(g, gs)[1..] == gs;
    }
  }

  lemma {:induction false} SortSum(gs: seq<Group>, c: Counter)
    ensures SumKept(SortByKey(gs), c) == SumKept(gs, c)
  {
    if gs != [] {
      SortSum(gs[1..], c);
      InsertSum(gs[0], SortByKey(gs[1..]), c);
    }
  }

  lemma {:induction false} SumKeptSnoc(gs: seq<Group>, g: Group, c: Counter)
    ensures SumKept(gs + [g], c) == SumKept(gs, c) + SumKept([g], c)
  {
    if gs == [] {
      assert gs + [g] == [g];
    } else {
      assert (gs + [g])[1..] == gs[1..] + [g];
      SumKeptSnoc(gs[1..], g, c);
    }
  }

  lemma {:induction false} AggregatesSum(gs: seq<Group>, c: Counter)
    requires forall i :: 0 <= i < |gs| ==> gs[i].key != []
    ensures Sum(Aggregates(gs), c) == SumKept(gs, c)
  {
    if gs != [] {
      var init := gs[..|gs| - 1];
      var last := gs[|gs| - 1];
      assert gs == init + [last];
      AggregatesSum(init, c);
      SumConcat(Aggregates(init), [AggregateGroup(last)], c);
      assert Sum([AggregateGroup(last)], c) == Count(AggregateGroup(last), c) + Sum([], c);
      AggregateCounts(last.members, TestSuiteType, SubstringAfterDot(last.key), last.key, c);
      SumKeptSnoc(init, last, c);
    }
  }

  lemma {:induction false} NonRootGroupsSum(gs: seq<Group>, c: Counter)
    ensures SumKept(NonRootGroups(gs), c) == SumKept(gs, c)
  {
    if gs != [] {
      NonRootGroupsSum(gs[1..], c);
      if gs[0].key != [] {
        assert NonRootGroups(gs) == [gs[0]] + NonRootGroups(gs[1..]);
        assert NonRootGroups(gs)[1..] == NonRootGroups(gs[1..]);
      } else {
        assert NonRootGroups(gs) == NonRootGroups(gs[1..]);
      }
    }
  }

  lemma {:induction false} RootsPartition(ss: seq<TestSuite>, c: Counter)
    ensures Sum(ss, c) == Sum(RootsOf(ss), c) + Sum(NonRoots(ss), c)
  {
    if ss != [] {
      var init := ss[..|ss| - 1];
      var last := ss[|ss| - 1];
      RootsPartition(init, c);
      assert ss == init + [last];
      SumConcat(init, [last], c);
      SumConcat(RootsOf(init), if Key(last) == [] then [last] else [], c);
      SumConcat(NonRoots(init), if Key(last) != [] then [last] else [], c);
      assert Sum([last], c) == Count(last, c) + Sum([], c);
    }
  }

  /** One pass loses nothing: the next working list carries the sums of
      the suites that were not roots. */
  lemma NextLevelSum(ss: seq<TestSuite>, c: Counter)
    ensures Sum(NextLevel(ss), c) == Sum(NonRoots(ss), c)
  {
    var sorted := SortByKey(GroupBy(ss));
    var kept := NonRootGroups(sorted);
    NonRootGroupsFacts(sorted);
    AggregatesSum(kept, c);
    NonRootGroupsSum(sorted, c);
    SortSum(GroupBy(ss), c);
    GroupBySum(ss, c);
  }

  /** Conservation: for every counter, the roots returned carry the sum of
      the input suites. */
  lemma {:induction false} RollUpConserves(ss: seq<TestSuite>, c: Counter)
    ensures Sum(RollUp(ss), c) == Sum(ss, c)
    decreases Height(ss)
  {
    if ss != [] {
      NextLevelShrinks(ss);
      RollUpConserves(NextLevel(ss), c);
      SumConcat(RootsOf(ss), RollUp(NextLevel(ss)), c);
      NextLevelSum(ss, c);
      RootsPartition(ss, c);
    }
  }

  // ---------------------------------------------------------------------
  // What one pass produces.
  // ---------------------------------------------------------------------

  /** Each parent of the next working list aggregates one group of the
      grouping of the current list, one whose key is not empty. */
  lemma NextLevelAt(ss: seq<TestSuite>, i: nat) returns (m: nat)
    requires i < |NextLevel(ss)|
    ensures m < |GroupBy(ss)| && GroupBy(ss)[m].key != []
    ensures NextLevel(ss)[i] == AggregateGroup(GroupBy(ss)[m])
  {
    var gs := GroupBy(ss);
    var sorted := SortByKey(gs);
    var kept := NonRootGroups(sorted);
    AggregatesLength(kept);
    AggregatesAt(kept, i);
    NonRootGroupsFacts(sorted);
    SortPermutes(gs);
    assert kept[i] in sorted && kept[i] in multiset(sorted);
    m :| m < |gs| && gs[m] == kept[i];
  }

  /** Within a pass the parents come in strictly increasing key order. */
  lemma NextLevelSorted(ss: seq<TestSuite>)
    ensures forall i, j :: 0 <= i < j < |NextLevel(ss)|
              ==> OrdinalLess(NextLevel(ss)[i].fullName, NextLevel(ss)[j].fullName)
  {
    var gs := GroupBy(ss);
    var sorted := SortByKey(gs);
    var kept := NonRootGroups(sorted);
    GroupByGroups(ss);
    SortSorted(gs);
    NonRootGroupsSorted(sorted);
    AggregatesLength(kept);
    forall i, j | 0 <= i < j < |NextLevel(ss)|
      ensures OrdinalLess(NextLevel(ss)[i].fullName, NextLevel(ss)[j].fullName)
    {
      AggregatesAt(kept, i);
      AggregatesAt(kept, j);
    }
  }

  /** A parent of the next working list is named by the last part of its
      key, and its members are the suites with that key, in their
      working-list order. */
  lemma NextLevelMembers(ss: seq<TestSuite>, i: nat)
    requires i < |NextLevel(ss)|
    ensures var k := NextLevel(ss)[i].fullName;
            k != [] && NextLevel(ss)[i] == Aggregate(WithKey(ss, k), TestSuiteType, SubstringAfterDot(k), k)
  {
    var m := NextLevelAt(ss, i);
    GroupByGroups(ss);
    MembersOfGroup(GroupBy(ss), m);
  }

  /** Every non-empty key of the current suites has its parent in the next
      working list. */
  lemma NextLevelComplete(ss: seq<TestSuite>, j: nat)
    requires j < |ss| && Key(ss[j]) != []
    ensures exists i :: 0 <= i < |NextLevel(ss)| && NextLevel(ss)[i].fullName == Key(ss[j])
  {
    var gs := GroupBy(ss);
    var sorted := SortByKey(gs);
    var kept := NonRootGroups(sorted);
    GroupByGroups(ss);
    WithKeyFacts(ss, Key(ss[j]));
    assert ss[j] in WithKey(ss, Key(ss[j]));
    var m := HasKeyIndex(gs, Key(ss[j]));
    SortPermutes(gs);
    assert gs[m] in multiset(gs);
    var p :| 0 <= p < |sorted| && sorted[p] == gs[m];
    NonRootGroupsFacts(sorted);
    var i :| 0 <= i < |kept| && kept[i] == gs[m];
    AggregatesAt(kept, i);
    assert NextLevel(ss)[i].fullName == Key(ss[j]);
  }

  // ---------------------------------------------------------------------
  // Indent.
  // ---------------------------------------------------------------------

  /** Four spaces. */
  const IndentText: Str := [Space, Space, Space, Space]

  /** The pieces of a message kept by `Indent`: the non-blank ones, trimmed. */
  function KeptLines(pieces: seq<Str>): seq<Str>
  {
    if pieces == [] then []
    else if IsBlank(pieces[0]) then KeptLines(pieces[1..])
    else [Trim(pieces[0])] + KeptLines(pieces[1..])
  }

  /** A line as `Indent` writes it: not empty, without line breaks, and
      neither starting nor ending with white space. */
  predicate IsNormalLine(l: Str)
  {
    l != [] && NoLineBreak(l) && !IsWhiteSpace(l[0]) && !IsWhiteSpace(l[|l| - 1])
  }

  /** A non-blank piece without line breaks, trimmed, is a line `Indent` writes. */
  lemma TrimmedLine(piece: Str)
    requires NoLineBreak(piece) && !IsBlank(piece)
    ensures IsNormalLine(Trim(piece))
  {
    TrimFacts(piece);
    TrimNoLineBreak(piece);
  }

  /** Every kept piece of a text without line breaks is a normal line. */
  lemma {:induction false} KeptLinesNormal(pieces: seq<Str>)
    requires forall i :: 0 <= i < |pieces| ==> NoLineBreak(pieces[i])
    ensures forall i :: 0 <= i < |KeptLines(pieces)| ==> IsNormalLine(KeptLines(pieces)[i])
  {
    if pieces != [] {
      var rest := KeptLines(pieces[1..]);
      KeptLinesNormal(pieces[1..]);
      if !IsBlank(pieces[0]) {
        var r := KeptLines(pieces);
        assert r == [Trim(pieces[0])] + rest;
        TrimmedLine(pieces[0]);
        forall i | 0 <= i < |r| ensures IsNormalLine(r[i]) {
          if i > 0 {
            assert r[i] == rest[i - 1];
          }
        }
      }
    }
  }

  /** The lines of all messages, in order. */
  function MessageLines(texts: seq<Str>): seq<Str>
  {
    if texts == [] then [] else KeptLines(SplitLines(texts[0])) + MessageLines(texts[1..])
  }

  /** Every line `Indent` writes is a normal line. */
  lemma {:induction false} MessageLinesNormal(texts: seq<Str>)
    ensures forall i :: 0 <= i < |MessageLines(texts)| ==> IsNormalLine(MessageLines(texts)[i])
  {
    if texts != [] {
      KeptLinesNormal(SplitLines(texts[0]));
      MessageLinesNormal(texts[1..]);
    }
  }

  /** `Indent`: the message lines joined by `newLine` and four spaces, after
      four spaces. `newLine` stands for `Environment.NewLine`. */
  function Indent(texts: seq<Str>, newLine: Str): Str
  {
    IndentText + Join(newLine + IndentText, MessageLines(texts))
  }

  function Indented(lines: seq<Str>): (r: seq<Str>)
    ensures |r| == |lines| && forall i :: 0 <= i < |lines| ==> r[i] == IndentText + lines[i]
  {
    if lines == [] then [] else [IndentText + lines[0]] + Indented(lines[1..])
  }

  lemma {:induction false} JoinIndented(lines: seq<Str>)
    requires lines != []
    ensures IndentText + Join([LF] + IndentText, lines) == Join([LF], Indented(lines))
  {
    if |lines| > 1 {
      JoinIndented(lines[1..]);
      assert Indented(lines)[1..] == Indented(lines[1..]);
      assert IndentText + Join([LF] + IndentText, lines)
          == (IndentText + lines[0]) + [LF] + (IndentText + Join([LF] + IndentText, lines[1..]));
    }
  }

  lemma IndentedNoLineBreak(lines: seq<Str>)
    requires forall i :: 0 <= i < |lines| ==> NoLineBreak(lines[i])
    ensures forall i :: 0 <= i < |lines| ==> NoLineBreak(Indented(lines)[i])
  {
    forall i | 0 <= i < |lines| ensures NoLineBreak(Indented(lines)[i]) {
      IndentedLine(lines[i]);
    }
  }

  lemma IndentedLine(line: Str)
    requires NoLineBreak(line)
    ensures NoLineBreak(IndentText + line)
  {
    var l := IndentText + line;
    assert forall k :: 0 <= k < |IndentText| ==> l[k] == Space;
    assert forall k :: |IndentText| <= k < |l| ==> l[k] == line[k - |IndentText|];
  }

  /** With a line-feed newline, the output of `Indent` splits back into one
      line per message line, each the line after four spaces; with no
      message lines it is the four spaces alone. */
  lemma IndentLines(texts: seq<Str>)
    ensures MessageLines(texts) == [] ==> Indent(texts, [LF]) == IndentText
    ensures MessageLines(texts) != [] ==>
              SplitLines(Indent(texts, [LF])) == Indented(MessageLines(texts))
  {
    var lines := MessageLines(texts);
    if lines != [] {
      MessageLinesNormal(texts);
      JoinIndented(lines);
      IndentedNoLineBreak(lines);
      SplitJoinedLines(Indented(lines));
    }
  }

  /** Messages that are already single normal lines are kept as they are. */
  lemma {:induction false} MessageLinesOfNormal(texts: seq<Str>)
    requires forall i :: 0 <= i < |texts| ==> IsNormalLine(texts[i])
    ensures MessageLines(texts) == texts
  {
    if texts != [] {
      var t := texts[0];
      assert FirstLineBreak(t) == -1;
      assert SplitLines(t) == [t];
      assert !IsBlank(t) by { assert !IsWhiteSpace(t[0]); }
      TrimUnchanged(t);
      assert KeptLines([t]) == [t] + KeptLines([]);
      MessageLinesOfNormal(texts[1..]);
    }
  }
}
