/**
 * The roll-up of `GroupTestSuites` on the suites of the unit tests of both
 * the serializer and the logger: leaves built like `CreateTestSuite(name)`
 * (total 5, every other counter 1, no time) under full names such as
 * "a.b", "c.d" or "a.b.c".
 */
module RollUpExamples {
  import opened Text
  import opened StringExtensions
  import opened JunitXmlSerializer

  /** A suite as the unit tests build it, with the given full name. */
  predicate TestLeaf(s: TestSuite, fullName: Str)
  {
    s.fullName == fullName && s.total == 5 && s.passed == 1 && s.failed == 1
    && s.inconclusive == 1 && s.skipped == 1 && s.error == 1 && s.time == 0
  }

  /** Suites whose full names have no dot are the last pass: they are all
      roots, kept as they are and in their order, and nothing is left. */
  lemma RollUpOfRoots(ss: seq<TestSuite>)
    requires forall i :: 0 <= i < |ss| ==> Key(ss[i]) == []
    ensures RollUp(ss) == ss
  {
    if ss != [] {
      AllRootsGroup(ss);
      SingleRootGroup(Group([], ss));
      RollUpUnfold(ss);
    }
  }

  /** A single group with the empty key sorts to itself and is dropped. */
  lemma SingleRootGroup(g: Group)
    requires g.key == []
    ensures NonRootGroups(SortByKey([g])) == []
  {
    assert [g][1..] == [];
    assert SortByKey([g]) == [g];
  }

  /** When every key is empty, the grouping is one group holding every suite and
      the key selector adds every suite to the roots. */
  lemma {:induction false} AllRootsGroup(ss: seq<TestSuite>)
    requires ss != []
    requires forall i :: 0 <= i < |ss| ==> Key(ss[i]) == []
    ensures GroupBy(ss) == [Group([], ss)]
    ensures RootsOf(ss) == ss
  {
    var init, last := ss[..|ss| - 1], ss[|ss| - 1];
    assert ss == init + [last];
    WithKeySnoc(init, last, []);
    GroupBySnoc(init, last);
    if init != [] {
      assert forall i :: 0 <= i < |init| ==> init[i] == ss[i];
      AllRootsGroup(init);
    }
  }

  /** Every suite has a non-empty key: the pass adds no root. */
  lemma {:induction false} NoRoots(ss: seq<TestSuite>)
    requires forall i :: 0 <= i < |ss| ==> Key(ss[i]) != []
    ensures RootsOf(ss) == []
  {
    if ss != [] {
      var init := ss[..|ss| - 1];
      assert forall i :: 0 <= i < |init| ==> init[i] == ss[i];
      NoRoots(init);
    }
  }

  // Single steps of a pass over two or three suites.

  lemma GroupByOne(s: TestSuite)
    ensures GroupBy([s]) == [Group(Key(s), [s])]
  {
    assert [s][..0] == [];
  }

  lemma GroupByApart(s1: TestSuite, s2: TestSuite)
    requires Key(s1) != Key(s2)
    ensures GroupBy([s1, s2]) == [Group(Key(s1), [s1]), Group(Key(s2), [s2])]
  {
    GroupByOne(s1);
    GroupBySnoc([s1], s2);
    assert [s1] + [s2] == [s1, s2];
    var g := Group(Key(s1), [s1]);
    assert AddToGroup([g], Key(s2), s2) == [g] + AddToGroup([], Key(s2), s2);
  }

  lemma GroupByTogether(s1: TestSuite, s2: TestSuite, s3: TestSuite)
    requires Key(s1) == Key(s2) != Key(s3)
    ensures GroupBy([s1, s2, s3]) == [Group(Key(s1), [s1, s2]), Group(Key(s3), [s3])]
  {
    GroupByOne(s1);
    GroupBySnoc([s1], s2);
    assert [s1] + [s2] == [s1, s2];
    var g := Group(Key(s1), [s1]);
    assert AddToGroup([g], Key(s2), s2) == [g.(members := [s1] + [s2])] + [g][1..];
    assert GroupBy([s1, s2]) == [Group(Key(s1), [s1, s2])];
    GroupBySnoc([s1, s2], s3);
    assert [s1, s2] + [s3] == [s1, s2, s3];
    var h := Group(Key(s1), [s1, s2]);
    assert AddToGroup([h], Key(s3), s3) == [h] + AddToGroup([], Key(s3), s3);
  }

  lemma SortTwo(g1: Group, g2: Group)
    ensures OrdinalLessEq(g1.key, g2.key) ==> SortByKey([g1, g2]) == [g1, g2]
    ensures !OrdinalLessEq(g1.key, g2.key) ==> SortByKey([g1, g2]) == [g2, g1]
  {
    assert [g1, g2][1..] == [g2];
    assert SortByKey([g2]) == InsertByKey(g2, SortByKey([g2][1..])) == [g2];
    assert InsertByKey(g1, [g2]) == if OrdinalLessEq(g1.key, g2.key) then [g1] + [g2]
                                    else [g2] + InsertByKey(g1, []);
  }

  lemma KeepTwo(g1: Group, g2: Group)
    requires g1.key != []
    ensures g2.key != [] ==> NonRootGroups([g1, g2]) == [g1, g2]
    ensures g2.key == [] ==> NonRootGroups([g2, g1]) == [g1]
  {
    assert [g1, g2][1..] == [g2] && [g2, g1][1..] == [g1];
    assert NonRootGroups([g2]) == (if g2.key != [] then [g2] else []) + NonRootGroups([]);
    assert NonRootGroups([g1]) == [g1] + NonRootGroups([]);
  }

  lemma AggregatesTwo(g1: Group, g2: Group)
    ensures Aggregates([g1, g2]) == [AggregateGroup(g1), AggregateGroup(g2)]
  {
    AggregatesSnoc([g1], g2);
    AggregatesSnoc([], g1);
    assert [] + [g1] == [g1] && [g1] + [g2] == [g1, g2];
  }

  // The code units of the names in the tests.
  const A: Unit := 0x61
  const B: Unit := 0x62
  const C: Unit := 0x63
  const D: Unit := 0x64
  const E: Unit := 0x65

  /** `Key` of a suite named `prefix` + "." + `last`. */
  lemma KeyOf(s: TestSuite, prefix: Str, last: Str)
    requires Dot !in last && s.fullName == prefix + [Dot] + last
    ensures Key(s) == prefix
  {
    DotJoinSplits(prefix, last);
  }

  /** The first pass over "a.b" and "c.d": two groups "a" and "c", in that order,
      and no root yet. */
  lemma ExclusivePass(s1: TestSuite, s2: TestSuite)
    requires s1.fullName == [A, Dot, B] && s2.fullName == [C, Dot, D]
    ensures RootsOf([s1, s2]) == []
    ensures NextLevel([s1, s2]) == [Aggregate([s1], TestSuiteType, [A], [A]),
                                    Aggregate([s2], TestSuiteType, [C], [C])]
  {
    KeyOf(s1, [A], [B]);
    KeyOf(s2, [C], [D]);
    NoRoots([s1, s2]);
    var g1, g2 := Group([A], [s1]), Group([C], [s2]);
    GroupByApart(s1, s2);
    SortTwo(g1, g2);
    KeepTwo(g1, g2);
    AggregatesTwo(g1, g2);
    DotSplit([A]);
    DotSplit([C]);
  }

  /** Exclusive suites "a.b" and "c.d" roll up into exactly two roots, "a"
      and then "c", each holding its one leaf. */
  lemma ExclusiveSuites(s1: TestSuite, s2: TestSuite)
    requires s1.fullName == [A, Dot, B] && s2.fullName == [C, Dot, D]
    ensures RollUp([s1, s2]) == [Aggregate([s1], TestSuiteType, [A], [A]),
                                 Aggregate([s2], TestSuiteType, [C], [C])]
    ensures |RollUp([s1, s2])| == 2
    ensures RollUp([s1, s2])[0].name == [A] && RollUp([s1, s2])[1].name == [C]
  {
    ExclusivePass(s1, s2);
    RollUpUnfold([s1, s2]);
    var next := NextLevel([s1, s2]);
    DotSplit([A]);
    DotSplit([C]);
    assert Key(next[0]) == [] && Key(next[1]) == [];
    RollUpOfRoots(next);
  }

  lemma NestedKeys(s1: TestSuite, s2: TestSuite, s3: TestSuite)
    requires s1.fullName == [A, Dot, B, Dot, C] && s2.fullName == [A, Dot, B, Dot, E]
    requires s3.fullName == [C, Dot, D]
    ensures Key(s1) == [A, Dot, B] && Key(s2) == [A, Dot, B] && Key(s3) == [C]
  {
    assert [A, Dot, B] + [Dot] + [C] == s1.fullName;
    KeyOf(s1, [A, Dot, B], [C]);
    assert [A, Dot, B] + [Dot] + [E] == s2.fullName;
    KeyOf(s2, [A, Dot, B], [E]);
    assert [C] + [Dot] + [D] == s3.fullName;
    KeyOf(s3, [C], [D]);
  }

  /** The grouping of the first pass over "a.b.c", "a.b.e" and "c.d": groups
      "a.b" (two members) and "c", both kept, and no root yet. */
  lemma NestedFirstGroups(s1: TestSuite, s2: TestSuite, s3: TestSuite)
    requires s1.fullName == [A, Dot, B, Dot, C] && s2.fullName == [A, Dot, B, Dot, E]
    requires s3.fullName == [C, Dot, D]
    ensures RootsOf([s1, s2, s3]) == []
    ensures NonRootGroups(SortByKey(GroupBy([s1, s2, s3])))
         == [Group([A, Dot, B], [s1, s2]), Group([C], [s3])]
  {
    NestedKeys(s1, s2, s3);
    NoRoots([s1, s2, s3]);
    var g1, g2 := Group([A, Dot, B], [s1, s2]), Group([C], [s3]);
    GroupByTogether(s1, s2, s3);
    SortTwo(g1, g2);
    KeepTwo(g1, g2);
  }

  /** The first pass over "a.b.c", "a.b.e" and "c.d": parents "a.b" and "c". */
  lemma NestedFirstPass(s1: TestSuite, s2: TestSuite, s3: TestSuite)
    requires s1.fullName == [A, Dot, B, Dot, C] && s2.fullName == [A, Dot, B, Dot, E]
    requires s3.fullName == [C, Dot, D]
    ensures RootsOf([s1, s2, s3]) == []
    ensures NextLevel([s1, s2, s3]) == [Aggregate([s1, s2], TestSuiteType, [B], [A, Dot, B]),
                                        Aggregate([s3], TestSuiteType, [C], [C])]
  {
    NestedFirstGroups(s1, s2, s3);
    var g1, g2 := Group([A, Dot, B], [s1, s2]), Group([C], [s3]);
    AggregatesTwo(g1, g2);
    DotJoinSplits([A], [B]);
    assert [A] + [Dot] + [B] == [A, Dot, B];
    DotSplit([C]);
    assert SubstringAfterDot(g1.key) == [B] && SubstringAfterDot(g2.key) == [C];
  }

  /** The second pass: "c" is a root; "a.b" becomes the one member of group "a",
      which sorts after the empty key and is the only group kept. */
  lemma NestedSecondPass(ab: TestSuite, c: TestSuite)
    requires ab.fullName == [A, Dot, B] && c.fullName == [C]
    ensures RootsOf([ab, c]) == [c]
    ensures NextLevel([ab, c]) == [Aggregate([ab], TestSuiteType, [A], [A])]
  {
    KeyOf(ab, [A], [B]);
    DotSplit([A]);
    DotSplit([C]);
    assert Key(c) == [];
    WithKeySnoc([ab], c, []);
    assert [ab] + [c] == [ab, c];
    assert [ab][..0] == [];
    var g1, g2 := Group([A], [ab]), Group([], [c]);
    GroupByApart(ab, c);
    SortTwo(g1, g2);
    KeepTwo(g1, g2);
    AggregatesSnoc([], g1);
    assert [] + [g1] == [g1];
  }

  /** The parent of one suite carries that suite's counters. */
  lemma AggregateOne(s: TestSuite, suiteType: Str, name: Str, fullName: Str)
    ensures Aggregate([s], suiteType, name, fullName)
         == TestSuite(SuiteElement(suiteType, name, fullName, s.total, s.passed, s.failed,
                                   s.inconclusive, s.skipped,
                                   if s.failed > 0 then Failed else Passed, s.time, [s.element]),
                      name, fullName, s.total, s.passed, s.failed, s.inconclusive,
                      s.skipped, s.error, s.time)
  {
    assert [s][1..] == [] && [s][..0] == [];
    assert forall c :: Sum([s], c) == Count(s, c) + Sum([], c);
    assert Elements([s]) == Elements([]) + [s.element];
    assert Elements([s]) == [s.element];
    assert Sum([s], TotalCount) == s.total && Sum([s], PassedCount) == s.passed;
    assert Sum([s], FailedCount) == s.failed && Sum([s], InconclusiveCount) == s.inconclusive;
    assert Sum([s], SkippedCount) == s.skipped && Sum([s], ErrorCount) == s.error;
    assert Sum([s], TimeCount) == s.time;
  }

  /** The parent of two suites carries the sums of their counters. */
  lemma AggregatePair(s1: TestSuite, s2: TestSuite, suiteType: Str, name: Str, fullName: Str)
    ensures Aggregate([s1, s2], suiteType, name, fullName)
         == TestSuite(SuiteElement(suiteType, name, fullName, s1.total + s2.total,
                                   s1.passed + s2.passed, s1.failed + s2.failed,
                                   s1.inconclusive + s2.inconclusive, s1.skipped + s2.skipped,
                                   if s1.failed + s2.failed > 0 then Failed else Passed,
                                   s1.time + s2.time, [s1.element, s2.element]),
                      name, fullName, s1.total + s2.total, s1.passed + s2.passed,
                      s1.failed + s2.failed, s1.inconclusive + s2.inconclusive,
                      s1.skipped + s2.skipped, s1.error + s2.error, s1.time + s2.time)
  {
    assert [s1, s2][1..] == [s2] && [s2][1..] == [];
    assert [s1, s2][..1] == [s1] && [s1][..0] == [];
    assert forall c :: Sum([s1, s2], c) == Count(s1, c) + Count(s2, c) + Sum([], c);
    assert Elements([s1, s2]) == Elements([]) + [s1.element] + [s2.element];
    assert Elements([s1, s2]) == [s1.element, s2.element];
    var ss := [s1, s2];
    assert Sum(ss, TotalCount) == s1.total + s2.total && Sum(ss, PassedCount) == s1.passed + s2.passed;
    assert Sum(ss, FailedCount) == s1.failed + s2.failed;
    assert Sum(ss, InconclusiveCount) == s1.inconclusive + s2.inconclusive;
    assert Sum(ss, SkippedCount) == s1.skipped + s2.skipped && Sum(ss, ErrorCount) == s1.error + s2.error;
    assert Sum(ss, TimeCount) == s1.time + s2.time;
  }

  /** The three passes over "a.b.c", "a.b.e" and "c.d": root "c" comes from
      the second pass and root "a" from the third. */
  lemma NestedRollUp(s1: TestSuite, s2: TestSuite, s3: TestSuite)
    requires s1.fullName == [A, Dot, B, Dot, C] && s2.fullName == [A, Dot, B, Dot, E]
    requires s3.fullName == [C, Dot, D]
    ensures RollUp([s1, s2, s3])
         == [Aggregate([s3], TestSuiteType, [C], [C]),
             Aggregate([Aggregate([s1, s2], TestSuiteType, [B], [A, Dot, B])], TestSuiteType, [A], [A])]
  {
    var ss := [s1, s2, s3];
    NestedFirstPass(s1, s2, s3);
    var ab := Aggregate([s1, s2], TestSuiteType, [B], [A, Dot, B]);
    var c := Aggregate([s3], TestSuiteType, [C], [C]);
    NestedSecondPass(ab, c);
    var a := Aggregate([ab], TestSuiteType, [A], [A]);
    DotSplit([A]);
    assert Key(a) == [];
    RollUpOfRoots([a]);
    RollUpUnfold([ab, c]);
    RollUpUnfold(ss);
  }

  /** Suites "a.b.c", "a.b.e" and "c.d" roll up into roots "c" and then "a":
      "c" (total 5) holds the leaf "c.d", and "a" (total 10) holds "a.b", which
      holds both of the other leaves; every counter is summed and both roots
      have failed, as the expected XML of the tests states. */
  lemma NestedSuites(s1: TestSuite, s2: TestSuite, s3: TestSuite)
    requires TestLeaf(s1, [A, Dot, B, Dot, C]) && TestLeaf(s2, [A, Dot, B, Dot, E])
    requires TestLeaf(s3, [C, Dot, D])
    ensures |RollUp([s1, s2, s3])| == 2
    ensures RollUp([s1, s2, s3])[0].name == [C]
    ensures RollUp([s1, s2, s3])[0].element
         == SuiteElement(TestSuiteType, [C], [C], 5, 1, 1, 1, 1, Failed, 0, [s3.element])
    ensures RollUp([s1, s2, s3])[1].name == [A]
    ensures RollUp([s1, s2, s3])[1].element
         == SuiteElement(TestSuiteType, [A], [A], 10, 2, 2, 2, 2, Failed, 0,
                         [SuiteElement(TestSuiteType, [B], [A, Dot, B], 10, 2, 2, 2, 2, Failed, 0,
                                       [s1.element, s2.element])])
  {
    NestedRollUp(s1, s2, s3);
    AggregateOne(s3, TestSuiteType, [C], [C]);
    AggregatePair(s1, s2, TestSuiteType, [B], [A, Dot, B]);
    var ab := Aggregate([s1, s2], TestSuiteType, [B], [A, Dot, B]);
    AggregateOne(ab, TestSuiteType, [A], [A]);
  }
}
