/**
 * Selecting the tests to run (gtest.cc): the filter, the disabled tests, and the distribution of
 * the runnable tests over shards.
 */
module TestSharding {
  import opened Arithmetic
  import opened TestFilter

  // ----- Shards of a range of test ids -----

  /** Whether a test runs on a shard; the test id numbers the runnable tests. */
  predicate ShouldRunTestOnShard(totalShards: nat, shardIndex: nat, testId: nat)
    requires shardIndex < totalShards
  {
    testId % totalShards == shardIndex
  }

  /** The number of the first `n` test ids that run on the shard. */
  ghost function ShardSize(totalShards: nat, shardIndex: nat, n: nat): nat
    requires shardIndex < totalShards
  {
    if n == 0 then 0 else
      var last := if ShouldRunTestOnShard(totalShards, shardIndex, n - 1) then 1 else 0;
      ShardSize(totalShards, shardIndex, n - 1) + last
  }

  ghost function SumOfShards(totalShards: nat, upTo: nat, n: nat): nat
    requires upTo <= totalShards
  {
    if upTo == 0 then 0 else SumOfShards(totalShards, upTo - 1, n) + ShardSize(totalShards, upTo - 1, n)
  }

  lemma Successor(n: nat, total: nat)
    requires total > 0
    ensures n % total + 1 < total ==> (n + 1) / total == n / total && (n + 1) % total == n % total + 1
    ensures n % total + 1 == total ==> (n + 1) / total == n / total + 1 && (n + 1) % total == 0
  {
    var q, r := n / total, n % total;
    assert n == total * q + r;
    if r + 1 < total {
      DivModUnique(n + 1, total, q, r + 1);
    } else {
      assert total * (q + 1) == total * q + total;
      DivModUnique(n + 1, total, q + 1, 0);
    }
  }

  /** A shard gets an equal part of the tests, and one more if it is among the first `n % total`. */
  lemma {:induction false} ShardSizeIsBalanced(totalShards: nat, shardIndex: nat, n: nat)
    requires shardIndex < totalShards
    ensures ShardSize(totalShards, shardIndex, n) == n / totalShards + if shardIndex < n % totalShards then 1 else 0
  {
    if n == 0 {
      DivModUnique(0, totalShards, 0, 0);
    } else {
      ShardSizeIsBalanced(totalShards, shardIndex, n - 1);
      Successor(n - 1, totalShards);
    }
  }

  /** Together the shards run every test, each on exactly one of them. */
  lemma {:induction false} ShardsPartition(totalShards: nat, upTo: nat, n: nat)
    requires upTo <= totalShards
    ensures SumOfShards(totalShards, upTo, n) ==
      if n == 0 then 0
      else SumOfShards(totalShards, upTo, n - 1) + if totalShards > 0 && (n - 1) % totalShards < upTo then 1 else 0
  {
    if upTo > 0 {
      ShardsPartition(totalShards, upTo - 1, n);
    }
  }

  /** No test is lost and none runs twice: the sizes of all shards add up to the number of tests. */
  lemma {:induction false} ShardSizesAddUp(totalShards: nat, n: nat)
    requires totalShards > 0
    ensures SumOfShards(totalShards, totalShards, n) == n
  {
    ShardsPartition(totalShards, totalShards, n);
    if n > 0 {
      ShardSizesAddUp(totalShards, n - 1);
    }
  }

  lemma ShardSizesDifferByAtMostOne(totalShards: nat, a: nat, b: nat, n: nat)
    requires a < totalShards && b < totalShards
    ensures ShardSize(totalShards, a, n) <= ShardSize(totalShards, b, n) + 1
  {
    ShardSizeIsBalanced(totalShards, a, n);
    ShardSizeIsBalanced(totalShards, b, n);
  }

  // ----- Choosing among runnable tests, case by case -----

  datatype Shard = Shard(total: nat, index: nat)

  /** Sharding is ignored, or it picks every `total`-th runnable test from `index` on. */
  datatype Sharding = Ignored | Honored(shard: Shard) {
    predicate Valid() { Honored? ==> shard.index < shard.total }

    predicate Selects(rank: nat)
      requires Valid()
    {
      Ignored? || ShouldRunTestOnShard(shard.total, shard.index, rank)
    }

    /** The number of the first `n` runnable tests that are selected. */
    ghost function SelectedOf(n: nat): nat
      requires Valid()
    {
      if Ignored? then n else ShardSize(shard.total, shard.index, n)
    }
  }

  /** The number of flags set among the first `n`. */
  ghost function Count(flags: seq<bool>, n: nat): nat
    requires n <= |flags|
  {
    if n == 0 then 0 else
      var last := if flags[n - 1] then 1 else 0;
      Count(flags, n - 1) + last
  }

  /** The number of flags set in the first `n` lists. */
  ghost function CountAll(lists: seq<seq<bool>>, n: nat): nat
    requires n <= |lists|
  {
    if n == 0 then 0 else CountAll(lists, n - 1) + Count(lists[n - 1], |lists[n - 1]|)
  }

  /** Mark `j` selects among the flagged tests, the first of which has the given rank. */
  ghost predicate MarkChosen(sharding: Sharding, flags: seq<bool>, marks: seq<bool>, rank: nat, j: nat)
    requires sharding.Valid() && j < |marks| <= |flags|
  {
    marks[j] <==> flags[j] && sharding.Selects(rank + Count(flags, j))
  }

  /** The marks, one for each of the first tests, are all rightly chosen. */
  ghost predicate Chosen(sharding: Sharding, flags: seq<bool>, marks: seq<bool>, rank: nat)
    requires sharding.Valid()
  {
    |marks| <= |flags| && forall j :: 0 <= j < |marks| ==> MarkChosen(sharding, flags, marks, rank, j)
  }

  /** The marks of case `i` are rightly chosen: ranks run on from case to case. */
  ghost predicate CaseChosen(sharding: Sharding, flags: seq<seq<bool>>, marks: seq<seq<bool>>, i: nat)
    requires sharding.Valid() && i < |marks| <= |flags|
  {
    |marks[i]| == |flags[i]| && Chosen(sharding, flags[i], marks[i], CountAll(flags, i))
  }

  ghost predicate AllChosen(sharding: Sharding, flags: seq<seq<bool>>, marks: seq<seq<bool>>)
    requires sharding.Valid()
  {
    |marks| <= |flags| && forall i :: 0 <= i < |marks| ==> CaseChosen(sharding, flags, marks, i)
  }

  lemma SelectedOfNext(sharding: Sharding, n: nat)
    requires sharding.Valid()
    ensures sharding.SelectedOf(n + 1) == sharding.SelectedOf(n) + if sharding.Selects(n) then 1 else 0
  {
  }

  /** The marks in a case are the selected ones of its flagged tests. */
  lemma {:induction false} ChosenCount(sharding: Sharding, flags: seq<bool>, marks: seq<bool>, rank: nat, n: nat)
    requires sharding.Valid() && Chosen(sharding, flags, marks, rank) && n <= |marks|
    ensures sharding.SelectedOf(rank) + Count(marks, n) == sharding.SelectedOf(rank + Count(flags, n))
  {
    if n > 0 {
      ChosenCount(sharding, flags, marks, rank, n - 1);
      assert MarkChosen(sharding, flags, marks, rank, n - 1);
      SelectedOfNext(sharding, rank + Count(flags, n - 1));
    }
  }

  /** The tests marked to run number what the shard is due of all runnable tests. */
  lemma {:induction false} MarkedCount(sharding: Sharding, flags: seq<seq<bool>>, marks: seq<seq<bool>>, n: nat)
    requires sharding.Valid() && AllChosen(sharding, flags, marks) && n <= |marks|
    ensures CountAll(marks, n) == sharding.SelectedOf(CountAll(flags, n))
  {
    if n > 0 {
      MarkedCount(sharding, flags, marks, n - 1);
      assert CaseChosen(sharding, flags, marks, n - 1);
      ChosenCount(sharding, flags[n - 1], marks[n - 1], CountAll(flags, n - 1), |flags[n - 1]|);
    }
  }

  lemma ChosenExtends(sharding: Sharding, flags: seq<bool>, marks: seq<bool>, rank: nat, mark: bool)
    requires sharding.Valid() && |marks| < |flags| && Chosen(sharding, flags, marks, rank)
    requires mark <==> flags[|marks|] && sharding.Selects(rank + Count(flags, |marks|))
    ensures Chosen(sharding, flags, marks + [mark], rank)
  {
    forall j | 0 <= j < |marks| + 1 ensures MarkChosen(sharding, flags, marks + [mark], rank, j) {
      assert j < |marks| ==> MarkChosen(sharding, flags, marks, rank, j);
    }
  }

  lemma AllChosenExtends(sharding: Sharding, flags: seq<seq<bool>>, marks: seq<seq<bool>>, last: seq<bool>)
    requires sharding.Valid() && |marks| < |flags| && AllChosen(sharding, flags, marks)
    requires |last| == |flags[|marks|]| && Chosen(sharding, flags[|marks|], last, CountAll(flags, |marks|))
    ensures AllChosen(sharding, flags, marks + [last])
  {
    forall i | 0 <= i < |marks| + 1 ensures CaseChosen(sharding, flags, marks + [last], i) {
      assert i < |marks| ==> CaseChosen(sharding, flags, marks, i);
    }
  }

  // ----- Across the shards -----

  /** `runs[s]` are the marks made on shard `s`. */
  ghost predicate RunOnAllShards(flags: seq<seq<bool>>, runs: seq<seq<seq<bool>>>) {
    && runs != []
    && forall s :: 0 <= s < |runs| ==> |runs[s]| == |flags| && AllChosen(Honored(Shard(|runs|, s)), flags, runs[s])
  }

  ghost predicate Marks(run: seq<seq<bool>>, i: nat, j: nat) {
    i < |run| && j < |run[i]| && run[i][j]
  }

  /** A runnable test is marked on exactly one of the shards; a test that is not runnable on none. */
  lemma MarkedOnExactlyOneShard(flags: seq<seq<bool>>, runs: seq<seq<seq<bool>>>, i: nat, j: nat) returns (owner: nat)
    requires RunOnAllShards(flags, runs) && i < |flags| && j < |flags[i]|
    ensures owner < |runs|
    ensures forall s :: 0 <= s < |runs| ==> (Marks(runs[s], i, j) <==> flags[i][j] && s == owner)
  {
    var rank := CountAll(flags, i) + Count(flags[i], j);
    owner := rank % |runs|;
    forall s | 0 <= s < |runs| ensures Marks(runs[s], i, j) <==> flags[i][j] && s == owner {
      assert CaseChosen(Honored(Shard(|runs|, s)), flags, runs[s], i);
      assert MarkChosen(Honored(Shard(|runs|, s)), flags[i], runs[s][i], CountAll(flags, i), j);
    }
  }

  ghost function MarkedOnShards(runs: seq<seq<seq<bool>>>, n: nat): nat
    requires n <= |runs|
  {
    if n == 0 then 0 else MarkedOnShards(runs, n - 1) + CountAll(runs[n - 1], |runs[n - 1]|)
  }

  lemma {:induction false} MarksSumUp(flags: seq<seq<bool>>, runs: seq<seq<seq<bool>>>, n: nat)
    requires RunOnAllShards(flags, runs) && n <= |runs|
    ensures MarkedOnShards(runs, n) == SumOfShards(|runs|, n, CountAll(flags, |flags|))
  {
    if n > 0 {
      MarksSumUp(flags, runs, n - 1);
      MarkedCount(Honored(Shard(|runs|, n - 1)), flags, runs[n - 1], |flags|);
    }
  }

  /** The tests marked on all the shards together number the runnable tests. */
  lemma ShardsCoverRunnableTests(flags: seq<seq<bool>>, runs: seq<seq<seq<bool>>>)
    requires RunOnAllShards(flags, runs)
    ensures MarkedOnShards(runs, |runs|) == CountAll(flags, |flags|)
  {
    MarksSumUp(flags, runs, |runs|);
    ShardSizesAddUp(|runs|, CountAll(flags, |flags|));
  }

  // ----- Test cases -----

  datatype TestInfo = TestInfo(name: string, isDisabled: bool, matchesFilter: bool, shouldRun: bool)

  datatype TestCase = TestCase(name: string, tests: seq<TestInfo>, shouldRun: bool)

  /** The flags of the program that decide which tests are runnable. */
  datatype Config = Config(filter: string, alsoRunDisabledTests: bool)

  ghost predicate Disabled(caseName: string, testName: string) {
    IsDisabledName(caseName) || IsDisabledName(testName)
  }

  ghost predicate Matches(caseName: string, testName: string, filter: string) {
    SelectedBy(filter, caseName + "." + testName)
  }

  ghost predicate Runnable(caseName: string, testName: string, config: Config) {
    (config.alsoRunDisabledTests || !Disabled(caseName, testName)) && Matches(caseName, testName, config.filter)
  }

  /**
   * Which tests are runnable, told from the names and the flags: `before` and `after` are the parts
   * of the filter around its first `-`.
   */
  lemma RunnableIff(caseName: string, testName: string, before: string, after: string, alsoRunDisabledTests: bool)
    requires '-' !in before
    ensures var fullName, enabled := caseName + "." + testName,
        alsoRunDisabledTests || !(IsDisabledName(caseName) || IsDisabledName(testName));
      && (Runnable(caseName, testName, Config(before, alsoRunDisabledTests)) <==> enabled && InFilter(before, fullName))
      && (Runnable(caseName, testName, Config(before + (['-'] + after), alsoRunDisabledTests)) <==>
          enabled && (before == "" || InFilter(before, fullName)) && !InFilter(after, fullName))
  {
    FlagWithoutDash(before, caseName + "." + testName);
    FlagWithDash(before, after, caseName + "." + testName);
  }

  ghost function RunnableFlags(testCase: TestCase, config: Config): (r: seq<bool>)
    ensures |r| == |testCase.tests|
    ensures forall j :: 0 <= j < |r| ==> (r[j] <==> Runnable(testCase.name, testCase.tests[j].name, config))
  {
    seq(|testCase.tests|, j requires 0 <= j < |testCase.tests| =>
      Runnable(testCase.name, testCase.tests[j].name, config))
  }

  function RunMarks(testCase: TestCase): (r: seq<bool>)
    ensures |r| == |testCase.tests|
    ensures forall j :: 0 <= j < |r| ==> r[j] == testCase.tests[j].shouldRun
  {
    seq(|testCase.tests|, j requires 0 <= j < |testCase.tests| => testCase.tests[j].shouldRun)
  }

  ghost function AllFlags(cases: seq<TestCase>, config: Config): (r: seq<seq<bool>>)
    ensures |r| == |cases| && forall i :: 0 <= i < |r| ==> r[i] == RunnableFlags(cases[i], config)
  {
    seq(|cases|, i requires 0 <= i < |cases| => RunnableFlags(cases[i], config))
  }

  function AllMarks(cases: seq<TestCase>): (r: seq<seq<bool>>)
    ensures |r| == |cases| && forall i :: 0 <= i < |r| ==> r[i] == RunMarks(cases[i])
  {
    seq(|cases|, i requires 0 <= i < |cases| => RunMarks(cases[i]))
  }

  /** What filtering records of a test besides the mark to run it. */
  ghost predicate TestRecorded(caseName: string, before: TestInfo, after: TestInfo, config: Config) {
    && after.name == before.name
    && (after.isDisabled <==> Disabled(caseName, before.name))
    && (after.matchesFilter <==> Matches(caseName, before.name, config.filter))
  }

  /** A case keeps its tests, and runs when one of them does. */
  ghost predicate CaseRecorded(before: TestCase, after: TestCase, config: Config) {
    && after.name == before.name && |after.tests| == |before.tests|
    && (forall j :: 0 <= j < |before.tests| ==>
      TestRecorded(before.name, before.tests[j], after.tests[j], config))
    && (after.shouldRun <==> true in RunMarks(after))
  }

  /** The first `n` cases are filtered, with those marks; the others are as they were. */
  ghost predicate CasesFiltered(before: seq<TestCase>, cases: seq<TestCase>, marks: seq<seq<bool>>, config: Config) {
    && |marks| <= |cases| == |before|
    && (forall i :: |marks| <= i < |cases| ==> cases[i] == before[i])
    && (forall i :: 0 <= i < |marks| ==> CaseRecorded(before[i], cases[i], config))
    && (forall i :: 0 <= i < |marks| ==> marks[i] == RunMarks(cases[i]))
  }

  lemma CasesFilteredFurther(before: seq<TestCase>, cases: seq<TestCase>, marks: seq<seq<bool>>, config: Config,
                             last: TestCase)
    requires CasesFiltered(before, cases, marks, config) && |marks| < |cases|
    requires CaseRecorded(cases[|marks|], last, config)
    ensures CasesFiltered(before, cases[|marks| := last], marks + [RunMarks(last)], config)
  {
  }

  lemma {:induction false} CountAppend(flags: seq<bool>, last: bool, n: nat)
    requires n <= |flags|
    ensures Count(flags + [last], n) == Count(flags, n)
  {
    if n > 0 {
      CountAppend(flags, last, n - 1);
    }
  }

  lemma {:induction false} CountAllAppend(lists: seq<seq<bool>>, last: seq<bool>, n: nat)
    requires n <= |lists|
    ensures CountAll(lists + [last], n) == CountAll(lists, n)
  {
    if n > 0 {
      CountAllAppend(lists, last, n - 1);
    }
  }

  // ----- The filtering loops -----

  class TestSelector {
    var testCases: seq<TestCase>

    /** Marks the tests to run, and returns how many they are. */
    method FilterTests(config: Config, sharding: Sharding) returns (numSelectedTests: nat)
      requires sharding.Valid()
      modifies this
      ensures |testCases| == |old(testCases)|
      ensures forall i :: 0 <= i < |testCases| ==> CaseRecorded(old(testCases)[i], testCases[i], config)
      ensures AllChosen(sharding, AllFlags(old(testCases), config), AllMarks(testCases))
      ensures numSelectedTests == CountAll(AllMarks(testCases), |testCases|)
      ensures numSelectedTests == sharding.SelectedOf(CountAll(AllFlags(old(testCases), config), |testCases|))
    {
      ghost var before := testCases;
      ghost var flags := AllFlags(before, config);
      ghost var marks: seq<seq<bool>> := [];
      var numRunnableTests: nat := 0;
      numSelectedTests := 0;
      var i := 0;
      while i < |testCases|
        invariant |testCases| == |flags| && i == |marks| && CasesFiltered(before, testCases, marks, config)
        invariant AllTallied(sharding, flags, marks, numRunnableTests, numSelectedTests)
        decreases |testCases| - i
      {
        ghost var runnable, selected := numRunnableTests, numSelectedTests;
        var testCase;
        testCase, numRunnableTests, numSelectedTests :=
          FilterCase(testCases[i], config, sharding, numRunnableTests, numSelectedTests);
        AllTalliedFurther(sharding, flags, marks, runnable, selected, RunMarks(testCase));
        CasesFilteredFurther(before, testCases, marks, config, testCase);
        testCases := testCases[i := testCase];
        marks := marks + [RunMarks(testCase)];
        i := i + 1;
      }
      assert marks == AllMarks(testCases);
      MarkedCount(sharding, flags, marks, |testCases|);
    }
  }

  /** The marks of the cases so far are rightly chosen, and both kinds of flags are counted. */
  ghost predicate AllTallied(sharding: Sharding, flags: seq<seq<bool>>, marks: seq<seq<bool>>, runnable: nat, selected: nat)
    requires sharding.Valid()
  {
    && AllChosen(sharding, flags, marks)
    && runnable == CountAll(flags, |marks|) && selected == CountAll(marks, |marks|)
  }

  lemma AllTalliedFurther(sharding: Sharding, flags: seq<seq<bool>>, marks: seq<seq<bool>>, runnable: nat, selected: nat,
                          last: seq<bool>)
    requires sharding.Valid() && |marks| < |flags| && AllTallied(sharding, flags, marks, runnable, selected)
    requires |last| == |flags[|marks|]| && Chosen(sharding, flags[|marks|], last, runnable)
    ensures AllTallied(sharding, flags, marks + [last],
      runnable + Count(flags[|marks|], |last|), selected + Count(last, |last|))
  {
    AllChosenExtends(sharding, flags, marks, last);
    CountAllAppend(marks, last, |marks|);
  }

  /** The inner loop: filters the tests of one case. */
  method FilterCase(testCase: TestCase, config: Config, sharding: Sharding, numRunnable: nat, numSelected: nat)
      returns (after: TestCase, runnable: nat, selected: nat)
    requires sharding.Valid()
    ensures CaseRecorded(testCase, after, config)
    ensures Chosen(sharding, RunnableFlags(testCase, config), RunMarks(after), numRunnable)
    ensures runnable == numRunnable + Count(RunnableFlags(testCase, config), |testCase.tests|)
    ensures selected == numSelected + Count(RunMarks(after), |after.tests|)
  {
    ghost var marks: seq<bool> := [];
    runnable, selected := numRunnable, numSelected;
    var tests, shouldRun := testCase.tests, false;
    var j := 0;
    while j < |tests|
      invariant j == |marks| && |tests| == |testCase.tests|
      invariant Underway(testCase, config, sharding, numRunnable, numSelected, tests, marks, runnable, selected, shouldRun)
      decreases |tests| - j
    {
      var test, isRunnable := FilterTest(testCase.name, tests[j], config, sharding, runnable);
      UnderwayFurther(testCase, config, sharding, numRunnable, numSelected, tests, marks, runnable, selected, shouldRun,
        test, isRunnable);
      runnable, selected := Tally(runnable, isRunnable), Tally(selected, test.shouldRun);
      tests, shouldRun := tests[j := test], shouldRun || test.shouldRun;
      marks := marks + [test.shouldRun];
      j := j + 1;
    }
    after := TestCase(testCase.name, tests, shouldRun);
    UnderwayEnds(testCase, config, sharding, numRunnable, numSelected, after, marks, runnable, selected);
  }

  function Tally(n: nat, flag: bool): nat { if flag then n + 1 else n }

  /** The tests up to `|marks|` are filtered, with those marks; the others are as they were. */
  ghost predicate FilteredSoFar(testCase: TestCase, tests: seq<TestInfo>, marks: seq<bool>, config: Config) {
    && |marks| <= |tests| == |testCase.tests|
    && (forall k :: |marks| <= k < |tests| ==> tests[k] == testCase.tests[k])
    && (forall k :: 0 <= k < |marks| ==> TestRecorded(testCase.name, testCase.tests[k], tests[k], config))
    && (forall k :: 0 <= k < |marks| ==> marks[k] == tests[k].shouldRun)
  }

  lemma FilteredFurther(testCase: TestCase, tests: seq<TestInfo>, marks: seq<bool>, config: Config, test: TestInfo)
    requires FilteredSoFar(testCase, tests, marks, config) && |marks| < |tests|
    requires TestRecorded(testCase.name, tests[|marks|], test, config)
    ensures FilteredSoFar(testCase, tests[|marks| := test], marks + [test.shouldRun], config)
  {
  }

  lemma FilteredWhole(testCase: TestCase, after: TestCase, marks: seq<bool>, config: Config)
    requires FilteredSoFar(testCase, after.tests, marks, config) && |marks| == |after.tests|
    requires after.name == testCase.name && (after.shouldRun <==> true in marks)
    ensures CaseRecorded(testCase, after, config) && RunMarks(after) == marks
  {
    assert RunMarks(after) == marks;
  }

  /** The marks so far choose this shard's share, and both kinds of flags are counted. */
  ghost predicate Tallied(sharding: Sharding, flags: seq<bool>, marks: seq<bool>, rank: nat, runnable: int, selected: int)
    requires sharding.Valid()
  {
    && |marks| <= |flags| && Chosen(sharding, flags, marks, rank)
    && runnable == Count(flags, |marks|) && selected == Count(marks, |marks|)
  }

  /** One more test filtered extends the marks and their count. */
  lemma TalliedFurther(sharding: Sharding, flags: seq<bool>, marks: seq<bool>, rank: nat, runnable: int, selected: int,
                       mark: bool)
    requires sharding.Valid() && |marks| < |flags| && Tallied(sharding, flags, marks, rank, runnable, selected)
    requires mark <==> flags[|marks|] && sharding.Selects(rank + runnable)
    ensures Tallied(sharding, flags, marks + [mark], rank,
      runnable + (if flags[|marks|] then 1 else 0), selected + (if mark then 1 else 0))
  {
    ChosenExtends(sharding, flags, marks, rank, mark);
    CountAppend(marks, mark, |marks|);
  }

  /** The state of the loop over a case: what is recorded, chosen and counted. */
  ghost predicate Underway(testCase: TestCase, config: Config, sharding: Sharding, rank: nat, before: nat,
                           tests: seq<TestInfo>, marks: seq<bool>, runnable: nat, selected: nat, shouldRun: bool)
    requires sharding.Valid()
  {
    && FilteredSoFar(testCase, tests, marks, config) && (shouldRun <==> true in marks)
    && Tallied(sharding, RunnableFlags(testCase, config), marks, rank, runnable - rank, selected - before)
  }

  lemma UnderwayFurther(testCase: TestCase, config: Config, sharding: Sharding, rank: nat, before: nat,
                        tests: seq<TestInfo>, marks: seq<bool>, runnable: nat, selected: nat, shouldRun: bool,
                        test: TestInfo, isRunnable: bool)
    requires sharding.Valid() && |marks| < |tests|
    requires Underway(testCase, config, sharding, rank, before, tests, marks, runnable, selected, shouldRun)
    requires TestRecorded(testCase.name, tests[|marks|], test, config)
    requires isRunnable <==> Runnable(testCase.name, tests[|marks|].name, config)
    requires test.shouldRun <==> isRunnable && sharding.Selects(runnable)
    ensures Underway(testCase, config, sharding, rank, before, tests[|marks| := test], marks + [test.shouldRun],
      Tally(runnable, isRunnable), Tally(selected, test.shouldRun), shouldRun || test.shouldRun)
  {
    FilteredFurther(testCase, tests, marks, config, test);
    TalliedFurther(sharding, RunnableFlags(testCase, config), marks, rank, runnable - rank, selected - before,
      test.shouldRun);
  }

  lemma UnderwayEnds(testCase: TestCase, config: Config, sharding: Sharding, rank: nat, before: nat,
                     after: TestCase, marks: seq<bool>, runnable: nat, selected: nat)
    requires sharding.Valid() && after.name == testCase.name && |marks| == |after.tests|
    requires Underway(testCase, config, sharding, rank, before, after.tests, marks, runnable, selected, after.shouldRun)
    ensures CaseRecorded(testCase, after, config)
    ensures Chosen(sharding, RunnableFlags(testCase, config), RunMarks(after), rank)
    ensures runnable == rank + Count(RunnableFlags(testCase, config), |testCase.tests|)
    ensures selected == before + Count(RunMarks(after), |after.tests|)
  {
    FilteredWhole(testCase, after, marks, config);
  }

  method FilterTest(caseName: string, test: TestInfo, config: Config, sharding: Sharding, rank: nat)
      returns (after: TestInfo, isRunnable: bool)
    requires sharding.Valid()
    ensures TestRecorded(caseName, test, after, config)
    ensures isRunnable <==> Runnable(caseName, test.name, config)
    ensures after.shouldRun <==> isRunnable && sharding.Selects(rank)
  {
    DisabledFilterMeaning(caseName);
    DisabledFilterMeaning(test.name);
    var caseDisabled := MatchesFilter(caseName, DISABLE_TEST_FILTER);
    var testDisabled := MatchesFilter(test.name, DISABLE_TEST_FILTER);
    var isDisabled := caseDisabled || testDisabled;
    var matchesFilter := FilterMatchesTest(caseName, test.name, config.filter);
    isRunnable := (config.alsoRunDisabledTests || !isDisabled) && matchesFilter;
    var isSelected := isRunnable && sharding.Selects(rank);
    after := TestInfo(test.name, isDisabled, matchesFilter, isSelected);
  }
}
