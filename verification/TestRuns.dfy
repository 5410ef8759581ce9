/**
 * What the test order means for a run (gtest.cc): unshuffling leads back to the order of registration,
 * of the cases and of the tests in them, and a run visits every test once.
 */
module TestRuns {
  import opened Sequences
  import opened TestFilter
  import opened TestOrder

  // ----- Unshuffling -----

  ghost predicate InOrder(indices: seq<int>) {
    forall j :: 0 <= j < |indices| ==> indices[j] == j
  }

  /** Neither the cases nor the tests in any of them are shuffled. */
  ghost predicate AllInOrder(o: Order) {
    InOrder(o.indices) && forall i :: 0 <= i < |o.cases| ==> InOrder(o.cases[i].testIndices)
  }

  /** The same cases at the same places, with as many tests in each. */
  ghost predicate SameShape(a: seq<TestCase>, b: seq<TestCase>) {
    |a| == |b| &&
    forall i :: 0 <= i < |a| ==> a[i].name == b[i].name && |a[i].testIndices| == |b[i].testIndices|
  }

  lemma InOrderIff(indices: seq<int>)
    ensures InOrder(indices) <==> indices == Identity(|indices|)
  {
  }

  /** Unshuffling leaves the cases, the number of tests in each and nothing of any order but the first. */
  lemma UnshuffledIff(o: Order, u: Order)
    requires |o.indices| == |o.cases|
    ensures u == Unshuffle(o) <==>
      SameShape(o.cases, u.cases) && |u.indices| == |u.cases| && AllInOrder(u) && u.lastDeath == o.lastDeath
  {
    var v := Unshuffle(o);
    if SameShape(o.cases, u.cases) && |u.indices| == |u.cases| && AllInOrder(u) && u.lastDeath == o.lastDeath {
      InOrderIff(u.indices);
      forall i | 0 <= i < |u.cases| ensures u.cases[i] == v.cases[i] {
        InOrderIff(u.cases[i].testIndices);
      }
    }
  }

  lemma UnshuffleOf(o: Order, p: Order)
    requires SameShape(o.cases, p.cases) && |p.indices| == |p.cases| && |o.indices| == |o.cases| && p.lastDeath == o.lastDeath
    ensures Unshuffle(o) == Unshuffle(p)
  {
    UnshuffledIff(p, Unshuffle(p));
    UnshuffledIff(o, Unshuffle(p));
  }

  lemma {:induction false} ShuffledInsideKeepsShape(cases: seq<TestCase>, state: nat)
    ensures SameShape(cases, ShuffledInside(cases, state))
    decreases |cases|
  {
    if cases != [] {
      ShuffledInsideKeepsShape(cases[1..], StateAfter(state, |cases[0].testIndices|));
      var r := ShuffledInside(cases, state);
      forall i | 0 <= i < |cases|
        ensures r[i].name == cases[i].name && |r[i].testIndices| == |cases[i].testIndices|
      {
        if i > 0 {
          assert r[i] == r[1..][i - 1] && cases[i] == cases[1..][i - 1];
        }
      }
    }
  }

  lemma UnshuffleUndoesShuffle(o: Order, state: nat)
    requires WellFormed(o)
    ensures Unshuffle(Shuffle(o, state)) == Unshuffle(o)
  {
    var d, n := o.lastDeath + 1, |o.cases|;
    ShuffledInsideKeepsShape(o.cases, StateAfter(StateAfter(state, d), n - d));
    UnshuffleOf(o, Shuffle(o, state));
  }

  lemma UnshuffleAfterAdd(o: Order, i: nat)
    requires WellFormed(o) && i < |o.cases|
    ensures Unshuffle(AddTest(o, i)) == AddTest(Unshuffle(o), i)
  {
    var u := AddTest(Unshuffle(o), i);
    var tests := o.cases[i].testIndices;
    UnshuffledIff(o, Unshuffle(o));
    assert InOrder(Identity(|tests|) + [|tests|]);
    UnshuffledIff(AddTest(o, i), u);
  }

  ghost predicate SameButInOrder(c: TestCase, d: TestCase) {
    c.name == d.name && |c.testIndices| == |d.testIndices| && InOrder(d.testIndices)
  }

  lemma RegisterCommutesAt(o: Order, v: Order, name: string, i: nat)
    requires -1 <= o.lastDeath < |o.cases| && !Registered(o.cases, name) && !Registered(v.cases, name)
    requires SameShape(o.cases, v.cases) && AllInOrder(v) && v.lastDeath == o.lastDeath
    requires i < |Register(o, name).cases|
    ensures |Register(o, name).cases| == |Register(v, name).cases| == |o.cases| + 1
    ensures SameButInOrder(Register(o, name).cases[i], Register(v, name).cases[i])
  {
    RegisterInserts(o, name, i);
    RegisterInserts(v, name, i);
  }

  lemma ShapesAgree(r: seq<TestCase>, u: seq<TestCase>)
    requires |r| == |u| && forall i :: 0 <= i < |r| ==> SameButInOrder(r[i], u[i])
    ensures SameShape(r, u) && forall i :: 0 <= i < |u| ==> InOrder(u[i].testIndices)
  {
  }

  lemma RegisterCommutes(o: Order, v: Order, name: string, r: seq<TestCase>, u: seq<TestCase>)
    requires -1 <= o.lastDeath < |o.cases| && !Registered(o.cases, name) && !Registered(v.cases, name)
    requires SameShape(o.cases, v.cases) && AllInOrder(v) && v.lastDeath == o.lastDeath
    requires r == Register(o, name).cases && u == Register(v, name).cases && |r| == |u|
    ensures SameShape(r, u) && forall i :: 0 <= i < |u| ==> InOrder(u[i].testIndices)
  {
    forall i | 0 <= i < |r| ensures SameButInOrder(r[i], u[i]) {
      RegisterCommutesAt(o, v, name, i);
    }
    ShapesAgree(r, u);
  }

  lemma RegisterIndices(o: Order, name: string)
    requires -1 <= o.lastDeath < |o.cases| == |o.indices| && !Registered(o.cases, name)
    ensures var r := Register(o, name);
      && |r.indices| == |r.cases| == |o.cases| + 1 && r.lastDeath == o.lastDeath + (if IsDeathTestName(name) then 1 else 0)
      && (InOrder(o.indices) ==> InOrder(r.indices))
  {
  }

  lemma SameRegistered(a: seq<TestCase>, b: seq<TestCase>, name: string)
    requires SameShape(a, b)
    ensures Registered(a, name) <==> Registered(b, name)
  {
    if i :| 0 <= i < |a| && a[i].name == name {
      assert b[i].name == name;
    }
    if i :| 0 <= i < |b| && b[i].name == name {
      assert a[i].name == name;
    }
  }

  lemma UnshuffleAfterNew(o: Order, v: Order, name: string)
    requires |o.indices| == |o.cases| && -1 <= o.lastDeath < |o.cases| && v == Unshuffle(o)
    requires !Registered(o.cases, name) && !Registered(v.cases, name)
    ensures Unshuffle(Register(o, name)) == Register(v, name)
  {
    UnshuffledIff(o, v);
    RegisterIndices(o, name);
    RegisterIndices(v, name);
    RegisterCommutes(o, v, name, Register(o, name).cases, Register(v, name).cases);
    UnshuffledIff(Register(o, name), Register(v, name));
  }

  lemma UnshuffleAfterRegister(o: Order, name: string)
    requires WellFormed(o)
    ensures Unshuffle(Register(o, name)) == Register(Unshuffle(o), name)
  {
    UnshuffledIff(o, Unshuffle(o));
    SameRegistered(o.cases, Unshuffle(o).cases, name);
    if !Registered(o.cases, name) {
      UnshuffleAfterNew(o, Unshuffle(o), name);
    }
  }

  predicate Registers(e: Event) { e.RegisterEvent? || e.AddTestEvent? }

  lemma UnshuffleAfterStep(o: Order, e: Event)
    requires WellFormed(o)
    ensures WellFormed(Unshuffle(o)) && WellFormed(Apply(o, e))
    ensures Unshuffle(Apply(o, e)) == if Registers(e) then Apply(Unshuffle(o), e) else Unshuffle(o)
  {
    UnshuffleIsWellFormed(o);
    ApplyKeepsWellFormed(o, e);
    match e {
      case RegisterEvent(name) => UnshuffleAfterRegister(o, name);
      case AddTestEvent(i) => if i < |o.cases| { UnshuffleAfterAdd(o, i); }
      case ShuffleEvent(state) => UnshuffleUndoesShuffle(o, state);
      case UnshuffleEvent => UnshuffleOf(o, Unshuffle(o));
    }
  }

  lemma OneMoreEvent(history: seq<Event>, e: Event)
    ensures After(history + [e]) == Apply(After(history), e)
  {
    assert (history + [e])[..|history|] == history;
  }

  lemma ForgetsOneMore(init: seq<Event>, e: Event)
    requires Unshuffle(After(init)) == After(Filter(Registers, init))
    ensures Unshuffle(After(init + [e])) == After(Filter(Registers, init + [e]))
  {
    OneMoreEvent(init, e);
    UnshuffleAfterStep(After(init), e);
    FilterAppend(Registers, init, e);
    if Registers(e) {
      OneMoreEvent(Filter(Registers, init), e);
    } else {
      assert Filter(Registers, init) + [] == Filter(Registers, init);
    }
  }

  lemma NothingToForget()
    ensures Unshuffle(After([])) == After(Filter(Registers, []))
  {
    UnshuffledIff(EMPTY_ORDER, EMPTY_ORDER);
  }

  lemma LastEvent(history: seq<Event>)
    requires history != []
    ensures history == history[..|history| - 1] + [history[|history| - 1]]
  {
  }

  /**
   * However shuffling, unshuffling and registration were mixed, unshuffling gives the order that the
   * registrations would have given alone.
   */
  lemma {:induction false} UnshuffleForgetsShuffles(history: seq<Event>)
    ensures Unshuffle(After(history)) == After(Filter(Registers, history))
    decreases |history|
  {
    if history == [] {
      NothingToForget();
    } else {
      LastEvent(history);
      UnshuffleForgetsShuffles(history[..|history| - 1]);
      ForgetsOneMore(history[..|history| - 1], history[|history| - 1]);
    }
  }

  /** A shuffle and an unshuffle restore the order exactly if nothing in it was shuffled before. */
  lemma ShuffleUnshuffleRestoresIff(history: seq<Event>, state: nat)
    ensures After(history + [ShuffleEvent(state), UnshuffleEvent]) == After(history) <==> AllInOrder(After(history))
  {
    var o := After(history);
    assert history + [ShuffleEvent(state), UnshuffleEvent] == history + [ShuffleEvent(state)] + [UnshuffleEvent];
    OneMoreEvent(history, ShuffleEvent(state));
    OneMoreEvent(history + [ShuffleEvent(state)], UnshuffleEvent);
    UnshuffleUndoesShuffle(o, state);
    UnshuffledIff(o, o);
  }

  // ----- The tests of a run -----

  /** The tests of a case in the order of registration. */
  function TestsInOrder(c: TestCase): (r: seq<TestRun>)
    ensures |r| == |c.testIndices| && forall j :: 0 <= j < |r| ==> r[j] == TestRun(c.name, j)
  {
    seq(|c.testIndices|, j requires 0 <= j < |c.testIndices| => TestRun(c.name, j))
  }

  /** All tests, case by case, in the order of registration. */
  function RegisteredTests(cases: seq<TestCase>): seq<TestRun> {
    if cases == [] then [] else RegisteredTests(cases[..|cases| - 1]) + TestsInOrder(cases[|cases| - 1])
  }

  lemma {:induction false} TestsOfUnshuffled(a: seq<TestCase>, b: seq<TestCase>)
    requires SameShape(a, b) && forall i :: 0 <= i < |b| ==> InOrder(b[i].testIndices)
    ensures AllTests(b) == RegisteredTests(a)
    decreases |a|
  {
    if a != [] {
      var n := |a| - 1;
      TestsOfUnshuffled(a[..n], b[..n]);
      assert TestsOf(b[n]) == TestsInOrder(a[n]);
    }
  }

  /** Unshuffling restores the order of registration, of the cases and of the tests in them. */
  lemma UnshuffledRunIsRegistered(o: Order)
    requires WellFormed(o)
    ensures WellFormed(Unshuffle(o)) && RunTests(Unshuffle(o)) == RegisteredTests(o.cases)
  {
    UnshuffleIsWellFormed(o);
    var u := Unshuffle(o);
    UnshuffledIff(o, u);
    assert Visited(u) == u.cases;
    TestsOfUnshuffled(o.cases, u.cases);
  }

  lemma TestsArePermuted(c: TestCase)
    requires IsIndexPermutation(c.testIndices)
    ensures multiset(TestsOf(c)) == multiset(TestsInOrder(c))
  {
    var f := (j: int) => TestRun(c.name, j);
    MappedPermutes(c.testIndices, Identity(|c.testIndices|), f);
    assert TestsOf(c) == Mapped(c.testIndices, f) && TestsInOrder(c) == Mapped(Identity(|c.testIndices|), f);
  }

  lemma {:induction false} AllTestsArePermuted(cases: seq<TestCase>)
    requires forall i :: 0 <= i < |cases| ==> IsIndexPermutation(cases[i].testIndices)
    ensures multiset(AllTests(cases)) == multiset(RegisteredTests(cases))
    decreases |cases|
  {
    if cases != [] {
      AllTestsArePermuted(cases[..|cases| - 1]);
      TestsArePermuted(cases[|cases| - 1]);
    }
  }

  lemma AllTestsAppend(cases: seq<TestCase>, c: TestCase)
    ensures AllTests(cases + [c]) == AllTests(cases) + TestsOf(c)
  {
    assert (cases + [c])[..|cases|] == cases;
  }

  lemma DropBeforeLast(cases: seq<TestCase>, j: nat)
    requires j < |cases| - 1
    ensures var init := cases[..|cases| - 1];
      && cases == init + [cases[|cases| - 1]] && init[j] == cases[j]
      && cases[..j] + cases[j + 1..] == init[..j] + init[j + 1..] + [cases[|cases| - 1]]
  {
  }

  lemma {:induction false} AllTestsWithout(cases: seq<TestCase>, j: nat)
    requires j < |cases|
    ensures multiset(AllTests(cases)) == multiset(AllTests(cases[..j] + cases[j + 1..])) + multiset(TestsOf(cases[j]))
    decreases |cases|
  {
    var init, last := cases[..|cases| - 1], cases[|cases| - 1];
    if j == |cases| - 1 {
      assert cases[..j] + cases[j + 1..] == init;
    } else {
      AllTestsWithout(init, j);
      DropBeforeLast(cases, j);
      AllTestsAppend(init, last);
      AllTestsAppend(init[..j] + init[j + 1..], last);
    }
  }

  lemma {:induction false} AllTestsPermute(a: seq<TestCase>, b: seq<TestCase>)
    requires multiset(a) == multiset(b)
    ensures multiset(AllTests(a)) == multiset(AllTests(b))
    decreases |a|
  {
    if a == [] {
      assert |multiset(b)| == 0;
    } else {
      var j := SharedElement(a, b);
      AllTestsPermute(a[..0] + a[1..], b[..j] + b[j + 1..]);
      AllTestsWithout(a, 0);
      AllTestsWithout(b, j);
    }
  }

  lemma VisitedPermutesCases(o: Order)
    requires WellFormed(o)
    ensures multiset(Visited(o)) == multiset(o.cases)
  {
    IndicesInRange(o.indices);
    var f := (x: int) => if 0 <= x < |o.cases| then o.cases[x] else TestCase("", []);
    MappedPermutes(o.indices, Identity(|o.cases|), f);
    assert Visited(o) == Mapped(o.indices, f);
    assert o.cases == Mapped(Identity(|o.cases|), f);
  }

  lemma RunPermutesTests(o: Order)
    requires WellFormed(o)
    ensures multiset(RunTests(o)) == multiset(RegisteredTests(o.cases))
  {
    VisitedPermutesCases(o);
    AllTestsPermute(Visited(o), o.cases);
    AllTestsArePermuted(o.cases);
  }

  /** The case has a test of that index. */
  ghost predicate HasTest(c: TestCase, t: TestRun) {
    c.name == t.caseName && 0 <= t.index < |c.testIndices|
  }

  lemma {:induction false} TestsInOrderCount(name: string, n: nat, t: TestRun)
    ensures multiset(TestsInOrder(TestCase(name, Identity(n))))[t] == if t.caseName == name && 0 <= t.index < n then 1 else 0
  {
    if n > 0 {
      TestsInOrderCount(name, n - 1, t);
      assert TestsInOrder(TestCase(name, Identity(n))) ==
        TestsInOrder(TestCase(name, Identity(n - 1))) + [TestRun(name, n - 1)];
    }
  }

  lemma CaseCount(c: TestCase, t: TestRun)
    ensures multiset(TestsInOrder(c))[t] == if HasTest(c, t) then 1 else 0
  {
    TestsInOrderCount(c.name, |c.testIndices|, t);
    assert TestsInOrder(c) == TestsInOrder(TestCase(c.name, Identity(|c.testIndices|)));
  }

  ghost predicate HasAnywhere(cases: seq<TestCase>, t: TestRun) {
    exists i :: 0 <= i < |cases| && HasTest(cases[i], t)
  }

  lemma HasAnywhereUnfolds(cases: seq<TestCase>, t: TestRun)
    requires cases != [] && NamesDistinct(cases)
    ensures var init, last := cases[..|cases| - 1], cases[|cases| - 1];
      && NamesDistinct(init) && !(HasAnywhere(init, t) && HasTest(last, t))
      && (HasAnywhere(cases, t) <==> HasAnywhere(init, t) || HasTest(last, t))
  {
    var init := cases[..|cases| - 1];
    forall i | 0 <= i < |init| ensures init[i] == cases[i] {
    }
    if HasAnywhere(init, t) {
      var i :| 0 <= i < |init| && HasTest(init[i], t);
      assert HasTest(cases[i], t);
    }
  }

  lemma {:induction false} RegisteredCount(cases: seq<TestCase>, t: TestRun)
    requires NamesDistinct(cases)
    ensures multiset(RegisteredTests(cases))[t] == if HasAnywhere(cases, t) then 1 else 0
    decreases |cases|
  {
    if cases != [] {
      HasAnywhereUnfolds(cases, t);
      RegisteredCount(cases[..|cases| - 1], t);
      CaseCount(cases[|cases| - 1], t);
    }
  }

  /** However the order was shuffled, a run visits each test exactly once, and nothing else. */
  lemma EachTestRunsOnce(o: Order, t: TestRun)
    requires WellFormed(o)
    ensures multiset(RunTests(o))[t] == if HasAnywhere(o.cases, t) then 1 else 0
  {
    RunPermutesTests(o);
    RegisteredCount(o.cases, t);
  }

  /** A test that is added becomes the last of its case. */
  lemma AddedTestIsRegistered(o: Order, i: nat, t: TestRun)
    requires WellFormed(o) && i < |o.cases|
    ensures HasAnywhere(AddTest(o, i).cases, t) <==>
      HasAnywhere(o.cases, t) || t == TestRun(o.cases[i].name, |o.cases[i].testIndices|)
  {
    var a := AddTest(o, i).cases;
    assert forall j :: 0 <= j < |a| ==> a[j].name == o.cases[j].name;
    if HasAnywhere(a, t) {
      var j :| 0 <= j < |a| && HasTest(a[j], t);
      assert HasTest(o.cases[j], t) || (j == i && t.index == |o.cases[i].testIndices|);
    }
    if HasAnywhere(o.cases, t) {
      var j :| 0 <= j < |o.cases| && HasTest(o.cases[j], t);
      assert HasTest(a[j], t);
    }
    if t == TestRun(o.cases[i].name, |o.cases[i].testIndices|) {
      assert HasTest(a[i], t);
    }
  }

  // ----- The order of the cases -----

  /** The names in the order in which they were first registered. */
  function FirstNames(history: seq<Event>): seq<string> {
    if history == [] then []
    else
      var before, e := FirstNames(history[..|history| - 1]), history[|history| - 1];
      if e.RegisterEvent? && e.name !in before then before + [e.name] else before
  }

  ghost function DeathNames(names: seq<string>): seq<string> {
    Filter((n: string) => IsDeathTestName(n), names)
  }

  ghost function OtherNames(names: seq<string>): seq<string> {
    Filter((n: string) => !IsDeathTestName(n), names)
  }

  lemma OneMoreName(names: seq<string>, name: string)
    ensures DeathNames(names + [name]) == DeathNames(names) + if IsDeathTestName(name) then [name] else []
    ensures OtherNames(names + [name]) == OtherNames(names) + if IsDeathTestName(name) then [] else [name]
  {
    FilterAppend((n: string) => IsDeathTestName(n), names, name);
    FilterAppend((n: string) => !IsDeathTestName(n), names, name);
  }

  lemma NamesAreShared(names: seq<string>, name: string)
    ensures name in DeathNames(names) + OtherNames(names) <==> name in names
  {
    FilterSharesOut((n: string) => IsDeathTestName(n), (n: string) => !IsDeathTestName(n), names);
    assert name in names <==> name in multiset(names);
    assert multiset(DeathNames(names) + OtherNames(names)) == multiset(names);
    assert name in DeathNames(names) + OtherNames(names) <==> name in multiset(DeathNames(names) + OtherNames(names));
  }

  /** The cases are the death test cases and then the others, each in the order of the names. */
  ghost predicate OrderedBy(o: Order, names: seq<string>) {
    Names(o.cases) == DeathNames(names) + OtherNames(names) && o.lastDeath + 1 == |DeathNames(names)|
  }

  lemma RegisteredIff(o: Order, name: string)
    ensures Registered(o.cases, name) <==> name in Names(o.cases)
  {
    if Registered(o.cases, name) {
      var i :| 0 <= i < |o.cases| && o.cases[i].name == name;
      assert Names(o.cases)[i] == name;
    }
  }

  lemma RegisterExtends(o: Order, name: string, names: seq<string>)
    requires -1 <= o.lastDeath < |o.cases| && !Registered(o.cases, name) && OrderedBy(o, names)
    ensures OrderedBy(Register(o, name), names + [name])
  {
    OneMoreName(names, name);
    NamesInserted(o.cases, o.lastDeath + 1, TestCase(name, []), DeathNames(names), OtherNames(names));
  }

  lemma NamesInserted(cases: seq<TestCase>, d: nat, c: TestCase, front: seq<string>, back: seq<string>)
    requires d <= |cases| && Names(cases) == front + back && |front| == d
    ensures Names(cases[..d] + [c] + cases[d..]) == front + [c.name] + back
    ensures Names(cases + [c]) == front + (back + [c.name])
  {
    assert Names(cases)[..d] == front && Names(cases)[d..] == back;
    assert Names(cases[..d]) == front && Names(cases[d..]) == back;
  }

  lemma StepKeepsOrder(o: Order, e: Event, names: seq<string>)
    requires WellFormed(o) && OrderedBy(o, names)
    ensures WellFormed(Apply(o, e))
    ensures OrderedBy(Apply(o, e), if e.RegisterEvent? && e.name !in names then names + [e.name] else names)
  {
    ApplyKeepsWellFormed(o, e);
    match e {
      case RegisterEvent(name) =>
        RegisteredIff(o, name);
        NamesAreShared(names, name);
        if !Registered(o.cases, name) {
          RegisterExtends(o, name, names);
        }
      case AddTestEvent(i) => if i < |o.cases| { assert Names(AddTest(o, i).cases) == Names(o.cases); }
      case ShuffleEvent(state) => ShuffleKeepsNames(o, state);
      case UnshuffleEvent => assert Names(Unshuffle(o).cases) == Names(o.cases);
    }
  }

  lemma ShuffleKeepsNames(o: Order, state: nat)
    requires WellFormed(o)
    ensures Names(Shuffle(o, state).cases) == Names(o.cases)
  {
    var d, n := o.lastDeath + 1, |o.cases|;
    ShuffledInsideKeepsShape(o.cases, StateAfter(StateAfter(state, d), n - d));
  }

  /** In every history the cases stay in the order of first registration, the death test cases in front. */
  lemma {:induction false} CasesFollowRegistration(history: seq<Event>)
    ensures OrderedBy(After(history), FirstNames(history))
    decreases |history|
  {
    if history != [] {
      CasesFollowRegistration(history[..|history| - 1]);
      StepKeepsOrder(After(history[..|history| - 1]), history[|history| - 1], FirstNames(history[..|history| - 1]));
    }
  }

  /** So an unshuffled run visits the death test cases, and then the others, as they were registered. */
  lemma UnshuffledRunFollowsRegistration(history: seq<Event>)
    ensures WellFormed(Unshuffle(After(history)))
    ensures RunSequence(Unshuffle(After(history))) ==
      DeathNames(FirstNames(history)) + OtherNames(FirstNames(history))
  {
    CasesFollowRegistration(history);
    UnshuffledRunIsRegistrationOrder(After(history));
  }
}
