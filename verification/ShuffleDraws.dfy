/**
 * How a shuffle of the whole order (gtest.cc) uses the generator: one stream of draws serves the
 * death test cases, the other cases and the tests of each case in turn, and each draw takes an
 * element out of those that are left.
 */
module ShuffleDraws {
  import opened TestOrder

  // ----- The stream of draws -----

  /** The wrap-around of 32-bit arithmetic cannot be seen in the states. */
  lemma NextRandomIs(state: nat)
    ensures NextRandom(state) == (1103515245 * state + 12345) % 0x8000_0000
  {
    NarrowedTwice(1103515245 * state + 12345);
  }

  ghost predicate Follows(at: nat -> nat, n: nat) { at(n + 1) == NextRandom(at(n)) }

  /** The states of the generator, numbered by the draws made before. */
  ghost predicate IsStream(at: nat -> nat) { forall n: nat :: Follows(at, n) }

  function StateAt(state: nat, n: nat): nat {
    if n == 0 then state else NextRandom(StateAt(state, n - 1))
  }

  /** From every state there is exactly one stream. */
  lemma {:induction false} StreamsAreUnique(at: nat -> nat, n: nat)
    requires IsStream(at)
    ensures at(n) == StateAt(at(0), n)
  {
    if n > 0 {
      StreamsAreUnique(at, n - 1);
      assert Follows(at, n - 1);
    }
  }

  lemma StreamExists(state: nat)
    ensures IsStream((n: nat) => StateAt(state, n)) && StateAt(state, 0) == state
  {
  }

  /** A shuffle of so many elements draws once for each but one. */
  function Draws(width: nat): nat { if width < 2 then 0 else width - 1 }

  /** The draws after the first `m`, each a place among what is left of so many. */
  function DrawsFrom(at: nat -> nat, m: nat, width: nat): (picks: seq<nat>)
    ensures ValidPicks(picks, width)
  {
    seq(Draws(width), j requires 0 <= j < Draws(width) => at(m + 1 + j) % (width - j))
  }

  lemma {:induction false} StateAfterIs(at: nat -> nat, m: nat, width: nat)
    requires IsStream(at)
    ensures StateAfter(at(m), width) == at(m + Draws(width))
    decreases width
  {
    if width >= 2 {
      assert Follows(at, m);
      StateAfterIs(at, m + 1, width - 1);
    }
  }

  lemma DrawsFromUnfolds(at: nat -> nat, m: nat, width: nat)
    requires width >= 2
    ensures DrawsFrom(at, m, width) == [at(m + 1) % width] + DrawsFrom(at, m + 1, width - 1)
  {
  }

  lemma {:induction false} PicksAre(at: nat -> nat, m: nat, width: nat)
    requires IsStream(at)
    ensures Picks(at(m), width) == DrawsFrom(at, m, width)
    decreases width
  {
    if width >= 2 {
      assert Follows(at, m);
      PicksAre(at, m + 1, width - 1);
      DrawsFromUnfolds(at, m, width);
    }
  }

  // ----- Taking elements out -----

  /** Takes out the chosen element, which comes last, and goes on with the others. */
  function TakenOut<T>(a: seq<T>, picks: seq<nat>): (r: seq<T>)
    requires ValidPicks(picks, |a|)
    ensures |r| == |a|
    decreases |a|
  {
    if |a| < 2 then a else TakenOut(Without(a, picks[0]), picks[1..]) + [a[picks[0]]]
  }

  /** The others: the last element fills the place of the chosen one. */
  function Without<T>(a: seq<T>, p: nat): (r: seq<T>)
    requires p < |a|
    ensures |r| == |a| - 1
  {
    var n := |a| - 1;
    if p == n then a[..n] else a[..n][p := a[n]]
  }

  /** What a swap with the last element of a range makes of the range. */
  lemma SwappedRange<T>(s: seq<T>, begin: nat, width: nat, p: nat)
    requires 2 <= width && begin + width <= |s| && p < width
    ensures var t := Swap(s, begin + p, begin + width - 1);
      && t[begin..begin + (width - 1)] == Without(s[begin..begin + width], p) && t[..begin] == s[..begin]
      && t[begin + (width - 1)..] == [s[begin..begin + width][p]] + s[begin + width..]
  {
  }

  lemma NothingTakenOut<T>(s: seq<T>, begin: nat, width: nat, picks: seq<nat>)
    requires width < 2 && begin + width <= |s| && ValidPicks(picks, width)
    ensures s[..begin] + TakenOut(s[begin..begin + width], picks) + s[begin + width..] == s
  {
  }

  lemma SwappedTakenOut<T>(s: seq<T>, t: seq<T>, begin: nat, width: nat, picks: seq<nat>)
    requires 2 <= width && begin + width <= |s| && ValidPicks(picks, width) && ValidPicks(picks[1..], width - 1)
    requires t == Swap(s, begin + picks[0], begin + width - 1)
    ensures t[..begin] + TakenOut(t[begin..begin + (width - 1)], picks[1..]) + t[begin + (width - 1)..] ==
      s[..begin] + TakenOut(s[begin..begin + width], picks) + s[begin + width..]
  {
    SwappedRange(s, begin, width, picks[0]);
    OneMoreTakenOut(t[..begin], t[begin..begin + (width - 1)], t[begin + (width - 1)..],
      s[begin..begin + width], s[begin + width..], picks);
  }

  lemma {:induction false} ShuffledByIs<T>(s: seq<T>, begin: nat, width: nat, picks: seq<nat>)
    requires begin + width <= |s| && ValidPicks(picks, width)
    ensures ShuffledBy(s, begin, width, picks) ==
      s[..begin] + TakenOut(s[begin..begin + width], picks) + s[begin + width..]
    decreases width
  {
    if width < 2 {
      NothingTakenOut(s, begin, width, picks);
    } else {
      var t := Swap(s, begin + picks[0], begin + width - 1);
      FirstPick(s, begin, width, picks);
      ShuffledByIs(t, begin, width - 1, picks[1..]);
      SwappedTakenOut(s, t, begin, width, picks);
    }
  }

  /** One more element taken out moves from the range to what comes after it. */
  lemma OneMoreTakenOut<T>(before: seq<T>, rest: seq<T>, tail: seq<T>, a: seq<T>, after: seq<T>, picks: seq<nat>)
    requires 2 <= |a| && ValidPicks(picks, |a|) && ValidPicks(picks[1..], |a| - 1)
    requires rest == Without(a, picks[0]) && tail == [a[picks[0]]] + after
    ensures before + TakenOut(rest, picks[1..]) + tail == before + TakenOut(a, picks) + after
  {
    Regroup(before, TakenOut(rest, picks[1..]), [a[picks[0]]], after);
  }

  lemma Regroup<T>(a: seq<T>, b: seq<T>, c: seq<T>, d: seq<T>)
    ensures a + b + (c + d) == a + (b + c) + d
  {
  }

  lemma ShuffledUnfolds<T>(s: seq<T>, begin: nat, end: nat, state: nat, picks: seq<nat>)
    requires begin <= end <= |s| && picks == Picks(state, end - begin)
    ensures Shuffled(s, begin, end, state) == ShuffledBy(s, begin, end - begin, picks)
  {
  }

  lemma RangeTakenOut<T>(s: seq<T>, begin: nat, width: nat, end: nat, picks: seq<nat>)
    requires begin + width == end <= |s| && ValidPicks(picks, width)
    ensures ShuffledBy(s, begin, width, picks) == s[..begin] + TakenOut(s[begin..end], picks) + s[end..]
  {
    ShuffledByIs(s, begin, width, picks);
  }

  /** A shuffle of a range takes the elements out by the draws, and leaves the rest. */
  lemma ShuffledIs<T>(s: seq<T>, begin: nat, end: nat, at: nat -> nat, m: nat)
    requires begin <= end <= |s| && IsStream(at)
    ensures Shuffled(s, begin, end, at(m)) ==
      s[..begin] + TakenOut(s[begin..end], DrawsFrom(at, m, end - begin)) + s[end..]
  {
    PicksAre(at, m, end - begin);
    ShuffledUnfolds(s, begin, end, at(m), DrawsFrom(at, m, end - begin));
    RangeTakenOut(s, begin, end - begin, end, DrawsFrom(at, m, end - begin));
  }

  lemma WholeShuffledIs<T>(s: seq<T>, at: nat -> nat, m: nat)
    requires IsStream(at)
    ensures Shuffled(s, 0, |s|, at(m)) == TakenOut(s, DrawsFrom(at, m, |s|))
  {
    ShuffledIs(s, 0, |s|, at, m);
    assert s[0..|s|] == s;
  }

  // ----- The whole order -----

  /** What a shuffle makes of a case, when so many draws came before. */
  function ShuffledCase(c: TestCase, at: nat -> nat, m: nat): TestCase {
    TestCase(c.name, TakenOut(c.testIndices, DrawsFrom(at, m, |c.testIndices|)))
  }

  /** The cases, each shuffled inside after the draws for those before it. */
  function ShuffledCases(cases: seq<TestCase>, at: nat -> nat, m: nat): seq<TestCase> {
    if cases == [] then []
    else [ShuffledCase(cases[0], at, m)] + ShuffledCases(cases[1..], at, m + Draws(|cases[0].testIndices|))
  }

  lemma ShuffledInsideUnfolds(cases: seq<TestCase>, state: nat, next: nat, first: seq<int>, rest: seq<TestCase>)
    requires cases != [] && next == StateAfter(state, |cases[0].testIndices|)
    requires first == Shuffled(cases[0].testIndices, 0, |cases[0].testIndices|, state)
    requires rest == ShuffledInside(cases[1..], next)
    ensures ShuffledInside(cases, state) == [TestCase(cases[0].name, first)] + rest
  {
  }

  lemma ShuffledCasesUnfold(cases: seq<TestCase>, at: nat -> nat, m: nat, next: nat, first: seq<int>, rest: seq<TestCase>)
    requires cases != [] && next == m + Draws(|cases[0].testIndices|)
    requires ShuffledCase(cases[0], at, m) == TestCase(cases[0].name, first)
    requires rest == ShuffledCases(cases[1..], at, next)
    ensures ShuffledCases(cases, at, m) == [TestCase(cases[0].name, first)] + rest
  {
  }

  lemma NextState(at: nat -> nat, m: nat, width: nat, next: nat)
    requires IsStream(at) && next == m + Draws(width)
    ensures StateAfter(at(m), width) == at(next)
  {
    StateAfterIs(at, m, width);
  }

  lemma FirstTests(tests: seq<int>, at: nat -> nat, m: nat, first: seq<int>)
    requires IsStream(at) && first == TakenOut(tests, DrawsFrom(at, m, |tests|))
    ensures Shuffled(tests, 0, |tests|, at(m)) == first
  {
    WholeShuffledIs(tests, at, m);
  }

  lemma CaseIs(c: TestCase, at: nat -> nat, m: nat, first: seq<int>)
    requires first == TakenOut(c.testIndices, DrawsFrom(at, m, |c.testIndices|))
    ensures ShuffledCase(c, at, m) == TestCase(c.name, first)
  {
  }

  lemma ShuffledInsideStep(cases: seq<TestCase>, at: nat -> nat, m: nat, next: nat, rest: seq<TestCase>)
    requires IsStream(at) && cases != [] && next == m + Draws(|cases[0].testIndices|)
    requires rest == ShuffledInside(cases[1..], at(next)) && rest == ShuffledCases(cases[1..], at, next)
    ensures ShuffledInside(cases, at(m)) == ShuffledCases(cases, at, m)
  {
    var first := TakenOut(cases[0].testIndices, DrawsFrom(at, m, |cases[0].testIndices|));
    NextState(at, m, |cases[0].testIndices|, next);
    FirstTests(cases[0].testIndices, at, m, first);
    ShuffledInsideUnfolds(cases, at(m), at(next), first, rest);
    CaseIs(cases[0], at, m, first);
    ShuffledCasesUnfold(cases, at, m, next, first, rest);
  }

  lemma {:induction false} ShuffledInsideIs(cases: seq<TestCase>, at: nat -> nat, m: nat)
    requires IsStream(at)
    ensures ShuffledInside(cases, at(m)) == ShuffledCases(cases, at, m)
    decreases |cases|
  {
    if cases != [] {
      var next := m + Draws(|cases[0].testIndices|);
      ShuffledInsideIs(cases[1..], at, next);
      ShuffledInsideStep(cases, at, m, next, ShuffledCases(cases[1..], at, next));
    }
  }

  /** The draws for the cases: the death test cases, and then the others. */
  function DrawsForCases(o: Order): nat
    requires -1 <= o.lastDeath < |o.cases|
  {
    Draws(o.lastDeath + 1) + Draws(|o.cases| - (o.lastDeath + 1))
  }

  lemma TwoShuffles<T>(s: seq<T>, s1: seq<T>, d: nat, at: nat -> nat)
    requires d <= |s| && s1 == Shuffled(s, 0, d, at(0)) && IsStream(at)
    ensures Shuffled(s1, d, |s1|, at(Draws(d))) ==
      TakenOut(s[..d], DrawsFrom(at, 0, d)) + TakenOut(s[d..], DrawsFrom(at, Draws(d), |s| - d))
  {
    ShuffledIs(s, 0, d, at, 0);
    TwoRanges(s, s1, d, TakenOut(s[0..d], DrawsFrom(at, 0, d)));
    ShuffledIs(s1, d, |s1|, at, Draws(d));
  }

  lemma ShuffleApart(o: Order, state: nat, s1: seq<int>, next: nat)
    requires -1 <= o.lastDeath < |o.cases| == |o.indices| && next == StateAfter(state, o.lastDeath + 1)
    requires s1 == Shuffled(o.indices, 0, o.lastDeath + 1, state)
    ensures Shuffle(o, state).indices == Shuffled(s1, o.lastDeath + 1, |s1|, next)
  {
  }

  /** The death test cases are shuffled first, and then the other cases, which stay behind them. */
  lemma CasesAreShuffledApart(o: Order, at: nat -> nat)
    requires -1 <= o.lastDeath < |o.cases| == |o.indices| && IsStream(at)
    ensures var d := o.lastDeath + 1;
      Shuffle(o, at(0)).indices == TakenOut(o.indices[..d], DrawsFrom(at, 0, d))
        + TakenOut(o.indices[d..], DrawsFrom(at, Draws(d), |o.cases| - d))
  {
    var d := o.lastDeath + 1;
    var s1 := Shuffled(o.indices, 0, d, at(0));
    NextState(at, 0, d, Draws(d));
    ShuffleApart(o, at(0), s1, at(Draws(d)));
    TwoShuffles(o.indices, s1, d, at);
  }

  lemma TwoRanges<T>(s: seq<T>, s1: seq<T>, d: nat, front: seq<T>)
    requires d <= |s| && |front| == d && s1 == s[..0] + front + s[d..]
    ensures s[0..d] == s[..d] && s1[..d] == front && s1[d..|s|] == s[d..] && s1[|s|..] == []
  {
  }

  /** The state in which the cases leave the generator. */
  lemma StateInside(o: Order, at: nat -> nat)
    requires -1 <= o.lastDeath < |o.cases| && IsStream(at)
    ensures StateAfter(StateAfter(at(0), o.lastDeath + 1), |o.cases| - (o.lastDeath + 1)) == at(DrawsForCases(o))
  {
    StateAfterIs(at, 0, o.lastDeath + 1);
    StateAfterIs(at, Draws(o.lastDeath + 1), |o.cases| - (o.lastDeath + 1));
  }

  lemma ShuffleInside(o: Order, state: nat, inside: nat)
    requires -1 <= o.lastDeath < |o.cases| == |o.indices|
    requires StateAfter(StateAfter(state, o.lastDeath + 1), |o.cases| - (o.lastDeath + 1)) == inside
    ensures Shuffle(o, state).cases == ShuffledInside(o.cases, inside)
  {
  }

  /** The tests of each case are shuffled with the draws that come next. */
  lemma TestsAreShuffledInTurn(o: Order, at: nat -> nat)
    requires -1 <= o.lastDeath < |o.cases| == |o.indices| && IsStream(at)
    ensures Shuffle(o, at(0)).cases == ShuffledCases(o.cases, at, DrawsForCases(o))
  {
    StateInside(o, at);
    ShuffleInside(o, at(0), at(DrawsForCases(o)));
    ShuffledInsideIs(o.cases, at, DrawsForCases(o));
  }
}
