/**
 * The order in which Google Test runs test cases (gtest.cc, gtest-internal-inl.h): registration,
 * the in-place Fisher-Yates shuffle of a range, shuffling and unshuffling, and a run.
 */
module TestOrder {
  import opened Wrappers
  import opened TestFilter

  // ----- The pseudo-random generator -----

  const MAX_RANGE: nat := 0x8000_0000

  /** One step of the linear congruential generator, in 32-bit unsigned arithmetic. */
  function NextRandom(state: nat): (r: nat)
    ensures r < MAX_RANGE
  {
    ((1103515245 * state + 12345) % 0x1_0000_0000) % MAX_RANGE
  }

  /** Undoes a step: 1857678181 is the inverse of the multiplier modulo 2^31. */
  function PreviousRandom(state: nat): (r: nat)
    ensures r < MAX_RANGE
  {
    (1857678181 * (state - 12345)) % MAX_RANGE
  }

  lemma NarrowedTwice(x: nat)
    ensures (x % 0x1_0000_0000) % MAX_RANGE == x % MAX_RANGE
  {
    CongruentIf(x, x % 0x1_0000_0000, 2 * (x / 0x1_0000_0000));
  }

  lemma CongruentIf(x: int, y: int, k: int)
    requires x == y + MAX_RANGE * k
    ensures x % MAX_RANGE == y % MAX_RANGE
  {
  }

  /** The state before a draw is recovered from the state after it, modulo 2^31. */
  lemma DrawIsUndone(state: nat)
    ensures PreviousRandom(NextRandom(state)) == state % MAX_RANGE
  {
    var x := 1103515245 * state + 12345;
    NarrowedTwice(x);
    var k := x / MAX_RANGE;
    assert NextRandom(state) == x - MAX_RANGE * k;
    CongruentIf(1857678181 * (x - MAX_RANGE * k - 12345), state, 954594553 * state - 1857678181 * k);
  }

  lemma PreviousIsUndone(after: nat)
    requires after < MAX_RANGE
    ensures NextRandom(PreviousRandom(after)) == after
  {
    var y := 1857678181 * (after - 12345);
    var k := y / MAX_RANGE;
    var before := y - MAX_RANGE * k;
    assert before == PreviousRandom(after);
    NarrowedTwice(1103515245 * before + 12345);
    CongruentIf(1103515245 * before + 12345, after, 954594553 * (after - 12345) - 1103515245 * k);
  }

  /** Every state below 2^31 comes after exactly one other, so no draw is out of reach. */
  lemma StateIsReachedOnceIff(state: nat, after: nat)
    requires state < MAX_RANGE && after < MAX_RANGE
    ensures NextRandom(state) == after <==> state == PreviousRandom(after)
  {
    DrawIsUndone(state);
    PreviousIsUndone(after);
    SmallRemainder(state);
  }

  lemma SmallRemainder(state: nat)
    requires state < MAX_RANGE
    ensures state % MAX_RANGE == state
  {
  }

  class Random {
    var state: nat

    constructor (seed: nat)
      ensures state == seed
    {
      state := seed;
    }

    /** Draws a number below the range; the draw is a one-to-one step of the state. */
    method Generate(range: nat) returns (r: nat)
      requires 0 < range <= MAX_RANGE
      modifies this
      ensures r < range && r == state % range
      ensures state == NextRandom(old(state)) && PreviousRandom(state) == old(state) % MAX_RANGE
    {
      DrawIsUndone(state);
      state := NextRandom(state);
      r := state % range;
    }
  }

  // ----- Shuffling a range -----

  /** The two differ only within the range, where one is a permutation of the other. */
  ghost predicate PermutedWithin<T>(s: seq<T>, t: seq<T>, begin: nat, end: nat)
    requires begin <= end <= |s|
  {
    && |t| == |s| && t[..begin] == s[..begin] && t[end..] == s[end..]
    && multiset(t[begin..end]) == multiset(s[begin..end])
  }

  function Swap<T>(s: seq<T>, i: nat, j: nat): (t: seq<T>)
    requires i < |s| && j < |s|
    ensures |t| == |s|
  {
    s[i := s[j]][j := s[i]]
  }

  /** One selection for each step of a shuffle, within what is left of the range. */
  predicate ValidPicks(picks: seq<nat>, width: nat) {
    && |picks| == (if width == 0 then 0 else width - 1)
    && forall j :: 0 <= j < |picks| ==> picks[j] < width - j
  }

  /** Fisher-Yates on `width` elements from `begin`, with the given selections. */
  function ShuffledBy<T>(s: seq<T>, begin: nat, width: nat, picks: seq<nat>): (t: seq<T>)
    requires begin + width <= |s| && ValidPicks(picks, width)
    ensures |t| == |s|
    decreases width
  {
    if width < 2 then s
    else ShuffledBy(Swap(s, begin + picks[0], begin + width - 1), begin, width - 1, picks[1..])
  }

  /** The selections a generator makes, and the state it is left in. */
  function Picks(state: nat, width: nat): (p: seq<nat>)
    ensures ValidPicks(p, width)
    decreases width
  {
    if width < 2 then [] else [NextRandom(state) % width] + Picks(NextRandom(state), width - 1)
  }

  function StateAfter(state: nat, width: nat): nat
    decreases width
  {
    if width < 2 then state else StateAfter(NextRandom(state), width - 1)
  }

  function Shuffled<T>(s: seq<T>, begin: nat, end: nat, state: nat): (t: seq<T>)
    requires begin <= end <= |s|
    ensures |t| == |s|
  {
    ShuffledBy(s, begin, end - begin, Picks(state, end - begin))
  }

  lemma MultisetSplit<T>(s: seq<T>, lo: nat, mid: nat, hi: nat)
    requires lo <= mid <= hi <= |s|
    ensures multiset(s[lo..hi]) == multiset(s[lo..mid]) + multiset(s[mid..hi])
  {
    assert s[lo..hi] == s[lo..mid] + s[mid..hi];
  }

  lemma SwapPermutes<T>(s: seq<T>, begin: nat, end: nat, i: nat)
    requires begin <= i < end <= |s|
    ensures PermutedWithin(s, Swap(s, i, end - 1), begin, end)
  {
    if i < end - 1 {
      SwapExchanges(s, begin, end, i);
    } else {
      assert Swap(s, i, i) == s;
    }
  }

  lemma SwapExchanges<T>(s: seq<T>, begin: nat, end: nat, i: nat)
    requires begin <= i < end - 1 < |s|
    ensures multiset(Swap(s, i, end - 1)[begin..end]) == multiset(s[begin..end])
  {
    var t := Swap(s, i, end - 1);
    SliceAround(s, begin, end, i);
    SliceAround(t, begin, end, i);
    assert t[begin..i] == s[begin..i] && t[i + 1..end - 1] == s[i + 1..end - 1];
    MultisetsExchange(s[begin..i], s[i], s[i + 1..end - 1], s[end - 1]);
  }

  lemma SliceAround<T>(s: seq<T>, begin: nat, end: nat, i: nat)
    requires begin <= i < end - 1 < |s|
    ensures s[begin..end] == s[begin..i] + [s[i]] + s[i + 1..end - 1] + [s[end - 1]]
  {
  }

  lemma MultisetsExchange<T>(a: seq<T>, x: T, b: seq<T>, y: T)
    ensures multiset(a + [x] + b + [y]) == multiset(a + [y] + b + [x])
  {
  }

  lemma MultisetCancel<T>(a: multiset<T>, b: multiset<T>, c: multiset<T>)
    requires a + c == b + c
    ensures a == b
  {
    forall x ensures a[x] == b[x] {
      assert (a + c)[x] == (b + c)[x];
    }
  }

  lemma TailsAgree<T>(s: seq<T>, t: seq<T>, k: nat)
    requires k < |s| == |t|
    ensures s[k..] == t[k..] <==> s[k] == t[k] && s[k + 1..] == t[k + 1..]
  {
    assert s[k..] == [s[k]] + s[k + 1..] && t[k..] == [t[k]] + t[k + 1..];
  }

  /** A permutation of a range is one of the range widened by an element it leaves alone. */
  lemma PermutedWiden<T>(s: seq<T>, t: seq<T>, begin: nat, end: nat)
    requires begin < end <= |s| && |t| == |s|
    ensures PermutedWithin(s, t, begin, end - 1) <==> PermutedWithin(s, t, begin, end) && s[end - 1] == t[end - 1]
  {
    TailsAgree(s, t, end - 1);
    if s[end - 1] == t[end - 1] {
      RangesAgree(s, t, begin, end);
    }
  }

  lemma RangesAgree<T>(s: seq<T>, t: seq<T>, begin: nat, end: nat)
    requires begin < end <= |s| == |t| && s[end - 1] == t[end - 1]
    ensures multiset(s[begin..end]) == multiset(t[begin..end]) <==>
      multiset(s[begin..end - 1]) == multiset(t[begin..end - 1])
  {
    MultisetSplit(s, begin, end - 1, end);
    MultisetSplit(t, begin, end - 1, end);
    assert s[end - 1..end] == [s[end - 1]] == t[end - 1..end];
    if multiset(s[begin..end]) == multiset(t[begin..end]) {
      MultisetCancel(multiset(s[begin..end - 1]), multiset(t[begin..end - 1]), multiset(s[end - 1..end]));
    }
  }

  /** Whatever the selections, a shuffle permutes its range and touches nothing else. */
  lemma {:induction false} ShuffleIsPermutation<T>(s: seq<T>, begin: nat, width: nat, picks: seq<nat>)
    requires begin + width <= |s| && ValidPicks(picks, width)
    ensures PermutedWithin(s, ShuffledBy(s, begin, width, picks), begin, begin + width)
    decreases width
  {
    if width < 2 {
      NothingShuffled(s, begin, width, picks);
    } else {
      var s1 := Swap(s, begin + picks[0], begin + width - 1);
      FirstPick(s, begin, width, picks);
      ShuffleIsPermutation(s1, begin, width - 1, picks[1..]);
      OneMoreShuffled(s, begin, begin + width, picks[0], ShuffledBy(s1, begin, width - 1, picks[1..]));
    }
  }

  lemma NothingShuffled<T>(s: seq<T>, begin: nat, width: nat, picks: seq<nat>)
    requires begin + width <= |s| && ValidPicks(picks, width) && width < 2
    ensures PermutedWithin(s, ShuffledBy(s, begin, width, picks), begin, begin + width)
  {
  }

  lemma OneMoreShuffled<T>(s: seq<T>, begin: nat, end: nat, pick: nat, t: seq<T>)
    requires begin + pick < end <= |s| && PermutedWithin(Swap(s, begin + pick, end - 1), t, begin, end - 1)
    ensures PermutedWithin(s, t, begin, end)
  {
    SwapThenPermute(s, begin, end, begin + pick, t);
  }

  lemma FirstPick<T>(s: seq<T>, begin: nat, width: nat, picks: seq<nat>)
    requires 2 <= width && begin + width <= |s| && ValidPicks(picks, width)
    ensures picks[0] < width && ValidPicks(picks[1..], width - 1)
    ensures ShuffledBy(s, begin, width, picks) ==
      ShuffledBy(Swap(s, begin + picks[0], begin + width - 1), begin, width - 1, picks[1..])
  {
  }

  lemma SwapThenPermute<T>(s: seq<T>, begin: nat, end: nat, i: nat, t: seq<T>)
    requires begin <= i < end <= |s|
    ensures PermutedWithin(Swap(s, i, end - 1), t, begin, end - 1) <==>
      PermutedWithin(s, t, begin, end) && t[end - 1] == s[i]
  {
    var s1 := Swap(s, i, end - 1);
    SwapPermutes(s, begin, end, i);
    if |t| == |s| {
      PermutedWiden(s1, t, begin, end);
      assert s1[end - 1] == s[i];
    }
  }

  /** The selection that puts the right element last leaves a permutation of the others. */
  lemma FindLast<T>(s: seq<T>, t: seq<T>, begin: nat, end: nat) returns (pick: nat)
    requires begin < end <= |s| && PermutedWithin(s, t, begin, end)
    ensures pick < end - begin && PermutedWithin(Swap(s, begin + pick, end - 1), t, begin, end - 1)
  {
    assert t[begin..end][end - 1 - begin] in multiset(t[begin..end]);
    pick :| 0 <= pick < end - begin && s[begin..end][pick] == t[end - 1];
    SwapThenPermute(s, begin, end, begin + pick, t);
  }

  lemma OneMorePick<T>(s: seq<T>, begin: nat, width: nat, pick: nat, rest: seq<nat>)
    requires 2 <= width && begin + width <= |s| && pick < width && ValidPicks(rest, width - 1)
    ensures ValidPicks([pick] + rest, width)
    ensures ShuffledBy(s, begin, width, [pick] + rest) ==
      ShuffledBy(Swap(s, begin + pick, begin + width - 1), begin, width - 1, rest)
  {
    assert ([pick] + rest)[1..] == rest;
  }

  lemma NarrowRangeIsEqual<T>(s: seq<T>, t: seq<T>, begin: nat, width: nat)
    requires begin + width <= |s| && width < 2 && PermutedWithin(s, t, begin, begin + width)
    ensures s == t
  {
    var end := begin + width;
    if width == 1 {
      assert s[begin..end] == [s[begin]] && t[begin..end] == [t[begin]];
      assert s[begin] in multiset(t[begin..end]);
    }
    assert s == s[..begin] + s[begin..end] + s[end..];
    assert t == t[..begin] + t[begin..end] + t[end..];
  }

  /** Every permutation of the range is the outcome of some selections: none is unreachable. */
  lemma {:induction false} EveryPermutationIsReached<T>(s: seq<T>, t: seq<T>, begin: nat, width: nat)
      returns (picks: seq<nat>)
    requires begin + width <= |s| && PermutedWithin(s, t, begin, begin + width)
    ensures ValidPicks(picks, width) && ShuffledBy(s, begin, width, picks) == t
    decreases width
  {
    if width < 2 {
      NarrowRangeIsEqual(s, t, begin, width);
      return [];
    }
    var pick := FindLast(s, t, begin, begin + width);
    var rest := EveryPermutationIsReached(Swap(s, begin + pick, begin + width - 1), t, begin, width - 1);
    OneMorePick(s, begin, width, pick, rest);
    picks := [pick] + rest;
  }

  class Vector<T> {
    var elems: seq<T>

    constructor (elems: seq<T>)
      ensures this.elems == elems
    {
      this.elems := elems;
    }
  }

  method ShuffleRange<T>(random: Random, begin: nat, end: nat, v: Vector<T>)
    requires begin <= end <= |v.elems| && end - begin <= MAX_RANGE
    modifies random, v
    ensures v.elems == Shuffled(old(v.elems), begin, end, old(random.state))
    ensures random.state == StateAfter(old(random.state), end - begin)
  {
    var rangeWidth := end - begin;
    while rangeWidth >= 2
      invariant 0 <= rangeWidth <= end - begin && |v.elems| == |old(v.elems)|
      invariant Shuffled(v.elems, begin, begin + rangeWidth, random.state)
        == Shuffled(old(v.elems), begin, end, old(random.state))
      invariant StateAfter(random.state, rangeWidth) == StateAfter(old(random.state), end - begin)
    {
      ghost var state, width := random.state, rangeWidth;
      var lastInRange := begin + rangeWidth - 1;
      var selected := random.Generate(rangeWidth);
      selected := begin + selected;
      v.elems := Swap(v.elems, selected, lastInRange);
      rangeWidth := rangeWidth - 1;
      assert Picks(state, width)[1..] == Picks(random.state, rangeWidth);
    }
  }

  // ----- The registered cases and their order -----

  /** A test case: its name, and the order of the tests inside it. */
  datatype TestCase = TestCase(name: string, testIndices: seq<int>)

  /** The death test cases are those at positions up to `lastDeath`. */
  datatype Order = Order(cases: seq<TestCase>, indices: seq<int>, lastDeath: int)

  const EMPTY_ORDER := Order([], [], -1)

  function Identity(n: nat): (s: seq<int>)
    ensures |s| == n && forall i :: 0 <= i < n ==> s[i] == i
  {
    seq(n, i => i)
  }

  ghost predicate IsIndexPermutation(indices: seq<int>) {
    multiset(indices) == multiset(Identity(|indices|))
  }

  ghost predicate NamesDistinct(cases: seq<TestCase>) {
    forall i, j :: 0 <= i < j < |cases| ==> cases[i].name != cases[j].name
  }

  /** Death test cases are exactly the registered prefix. */
  ghost predicate DeathCasesFirst(cases: seq<TestCase>, lastDeath: int) {
    && -1 <= lastDeath < |cases|
    && forall i :: 0 <= i < |cases| ==> (IsDeathTestName(cases[i].name) <==> i <= lastDeath)
  }

  /** What holds however registration and shuffling are mixed. */
  ghost predicate WellFormed(o: Order) {
    && |o.indices| == |o.cases| && IsIndexPermutation(o.indices)
    && NamesDistinct(o.cases) && DeathCasesFirst(o.cases, o.lastDeath)
    && forall i :: 0 <= i < |o.cases| ==> IsIndexPermutation(o.cases[i].testIndices)
  }

  /** The order keeps the death test cases in front. */
  ghost predicate PrefixKept(o: Order)
    requires WellFormed(o)
  {
    IsIndexPermutation(o.indices[..o.lastDeath + 1])
  }

  ghost predicate Unshuffled(o: Order) {
    o.indices == Identity(|o.indices|)
  }

  // ----- The operations, as functions of the order -----

  ghost predicate Registered(cases: seq<TestCase>, name: string) {
    exists i :: 0 <= i < |cases| && cases[i].name == name
  }

  ghost function Register(o: Order, name: string): Order
    requires -1 <= o.lastDeath < |o.cases|
  {
    if Registered(o.cases, name) then o
    else
      var case_, indices := TestCase(name, []), o.indices + [|o.indices|];
      if IsDeathTestName(name) then
        var d := o.lastDeath + 1;
        Order(o.cases[..d] + [case_] + o.cases[d..], indices, d)
      else
        Order(o.cases + [case_], indices, o.lastDeath)
  }

  /** The tests inside each case are shuffled in turn, one generator serving all. */
  function ShuffledInside(cases: seq<TestCase>, state: nat): (r: seq<TestCase>)
    ensures |r| == |cases|
  {
    if cases == [] then []
    else
      var tests := cases[0].testIndices;
      [cases[0].(testIndices := Shuffled(tests, 0, |tests|, state))]
      + ShuffledInside(cases[1..], StateAfter(state, |tests|))
  }

  function StateAfterInside(cases: seq<TestCase>, state: nat): nat {
    if cases == [] then state else StateAfterInside(cases[1..], StateAfter(state, |cases[0].testIndices|))
  }

  function Shuffle(o: Order, state: nat): Order
    requires -1 <= o.lastDeath < |o.cases| == |o.indices|
  {
    var d, n := o.lastDeath + 1, |o.cases|;
    var state1 := StateAfter(state, d);
    var state2 := StateAfter(state1, n - d);
    o.(indices := Shuffled(Shuffled(o.indices, 0, d, state), d, n, state1),
       cases := ShuffledInside(o.cases, state2))
  }

  function UnshuffledInside(cases: seq<TestCase>): (r: seq<TestCase>)
    ensures |r| == |cases|
  {
    seq(|cases|, i requires 0 <= i < |cases| =>
      TestCase(cases[i].name, Identity(|cases[i].testIndices|)))
  }

  function Unshuffle(o: Order): Order {
    o.(indices := Identity(|o.indices|), cases := UnshuffledInside(o.cases))
  }

  /** A test is added at the end of its case. */
  function AddTest(o: Order, i: nat): Order
    requires i < |o.cases|
  {
    var tests := o.cases[i].testIndices;
    o.(cases := o.cases[i := o.cases[i].(testIndices := tests + [|tests|])])
  }

  /** The names of the cases in the order in which a run visits them. */
  ghost function RunSequence(o: Order): (r: seq<string>)
    requires WellFormed(o)
    ensures |r| == |o.cases|
  {
    IndicesInRange(o.indices);
    seq(|o.indices|, i requires 0 <= i < |o.indices| => o.cases[o.indices[i]].name)
  }

  /** A test that is run: its case, and its place among the tests registered in the case. */
  datatype TestRun = TestRun(caseName: string, index: int)

  /** The tests of a case in the order in which a run visits them. */
  function TestsOf(c: TestCase): (r: seq<TestRun>)
    ensures |r| == |c.testIndices| && forall j :: 0 <= j < |r| ==> r[j] == TestRun(c.name, c.testIndices[j])
  {
    seq(|c.testIndices|, j requires 0 <= j < |c.testIndices| => TestRun(c.name, c.testIndices[j]))
  }

  function AllTests(cases: seq<TestCase>): seq<TestRun> {
    if cases == [] then [] else AllTests(cases[..|cases| - 1]) + TestsOf(cases[|cases| - 1])
  }

  ghost function Visited(o: Order): (r: seq<TestCase>)
    requires WellFormed(o)
    ensures |r| == |o.cases| == |RunSequence(o)| && forall i :: 0 <= i < |r| ==> r[i].name == RunSequence(o)[i]
  {
    IndicesInRange(o.indices);
    seq(|o.indices|, i requires 0 <= i < |o.indices| => o.cases[o.indices[i]])
  }

  /** All tests in the order in which a run visits them. */
  ghost function RunTests(o: Order): seq<TestRun>
    requires WellFormed(o)
  {
    AllTests(Visited(o))
  }

  // ----- Permutations of indices -----

  lemma {:induction false} IdentityCounts(n: nat)
    ensures forall x: int :: multiset(Identity(n))[x] == if 0 <= x < n then 1 else 0
  {
    if n > 0 {
      IdentityCounts(n - 1);
      assert Identity(n) == Identity(n - 1) + [n - 1];
    }
  }

  lemma IndicesInRange(indices: seq<int>)
    requires IsIndexPermutation(indices)
    ensures forall i :: 0 <= i < |indices| ==> 0 <= indices[i] < |indices|
  {
    IdentityCounts(|indices|);
    forall i | 0 <= i < |indices| ensures 0 <= indices[i] < |indices| {
      assert indices[i] in multiset(indices);
    }
  }

  lemma IdentityIsPermutation(n: nat)
    ensures IsIndexPermutation(Identity(n))
  {
  }

  lemma AppendKeepsPermutation(indices: seq<int>)
    requires IsIndexPermutation(indices)
    ensures IsIndexPermutation(indices + [|indices|])
  {
    assert Identity(|indices| + 1) == Identity(|indices|) + [|indices|];
  }

  lemma ExtendedPrefix(prefix: seq<int>, x: int)
    requires IsIndexPermutation(prefix)
    ensures IsIndexPermutation(prefix + [x]) <==> x == |prefix|
  {
    var n := |prefix|;
    assert Identity(n + 1) == Identity(n) + [n];
    assert multiset(prefix + [x]) == multiset(prefix) + multiset{x};
    if multiset(prefix) + multiset{x} == multiset(Identity(n)) + multiset{n} {
      assert (multiset(prefix) + multiset{x})[x] == (multiset(prefix) + multiset{n})[x];
    }
  }

  /** A permutation within a range keeps a permutation of all indices, and of a prefix it respects. */
  lemma PermutedKeepsIndices(s: seq<int>, t: seq<int>, begin: nat, end: nat)
    requires begin <= end <= |s| && PermutedWithin(s, t, begin, end) && IsIndexPermutation(s)
    ensures IsIndexPermutation(t)
  {
    assert s == s[..begin] + s[begin..end] + s[end..];
    assert t == t[..begin] + t[begin..end] + t[end..];
  }

  // ----- What every operation keeps -----

  /** Where a new case goes: after the last death test case, or at the end. */
  ghost function Position(o: Order, name: string): nat
    requires -1 <= o.lastDeath < |o.cases|
  {
    if IsDeathTestName(name) then o.lastDeath + 1 else |o.cases|
  }

  lemma RegisterInserts(o: Order, name: string, i: nat)
    requires -1 <= o.lastDeath < |o.cases| && !Registered(o.cases, name) && i <= |o.cases|
    ensures var r, d := Register(o, name), Position(o, name);
      && |r.cases| == |o.cases| + 1
      && r.cases[i] == if i < d then o.cases[i] else if i == d then TestCase(name, []) else o.cases[i - 1]
  {
  }

  lemma RegisterKeepsNamesDistinct(o: Order, name: string)
    requires -1 <= o.lastDeath < |o.cases| && !Registered(o.cases, name) && NamesDistinct(o.cases)
    ensures NamesDistinct(Register(o, name).cases)
  {
    var r := Register(o, name).cases;
    assert |r| == |o.cases| + 1;
    forall i, j | 0 <= i < j < |r| ensures r[i].name != r[j].name {
      RegisterInserts(o, name, i);
      RegisterInserts(o, name, j);
    }
  }

  lemma RegisterKeepsDeathCasesFirst(o: Order, name: string)
    requires DeathCasesFirst(o.cases, o.lastDeath) && !Registered(o.cases, name)
    ensures DeathCasesFirst(Register(o, name).cases, Register(o, name).lastDeath)
  {
    var r := Register(o, name);
    assert |r.cases| == |o.cases| + 1;
    forall i | 0 <= i < |r.cases| ensures IsDeathTestName(r.cases[i].name) <==> i <= r.lastDeath {
      RegisterInserts(o, name, i);
    }
  }

  lemma RegisterKeepsWellFormed(o: Order, name: string)
    requires WellFormed(o)
    ensures WellFormed(Register(o, name))
  {
    if !Registered(o.cases, name) {
      AppendKeepsPermutation(o.indices);
      RegisterKeepsNamesDistinct(o, name);
      RegisterKeepsDeathCasesFirst(o, name);
      var r := Register(o, name);
      forall i | 0 <= i < |r.cases| ensures IsIndexPermutation(r.cases[i].testIndices) {
        RegisterInserts(o, name, i);
        assert Identity(0) == [];
      }
    }
  }

  /**
   * Registering keeps the death cases in front exactly when the next slot of the order already
   * holds the next index; that is so while the cases have not been shuffled.
   */
  lemma RegisterKeepsPrefixIff(o: Order, name: string)
    requires WellFormed(o) && PrefixKept(o) && !Registered(o.cases, name)
    ensures WellFormed(Register(o, name))
    ensures PrefixKept(Register(o, name)) <==>
      !IsDeathTestName(name) || o.lastDeath + 1 == |o.indices| || o.indices[o.lastDeath + 1] == o.lastDeath + 1
  {
    RegisterKeepsWellFormed(o, name);
    var r, d := Register(o, name), o.lastDeath + 1;
    if IsDeathTestName(name) {
      assert r.indices[..d + 1] == o.indices[..d] + [r.indices[d]];
      ExtendedPrefix(o.indices[..d], r.indices[d]);
    } else {
      assert r.indices[..d] == o.indices[..d];
    }
  }

  lemma UnshuffledKeepsPrefix(o: Order)
    requires WellFormed(o) && Unshuffled(o)
    ensures PrefixKept(o)
  {
    assert o.indices[..o.lastDeath + 1] == Identity(o.lastDeath + 1);
  }

  lemma UnshuffleIsWellFormed(o: Order)
    requires WellFormed(o)
    ensures WellFormed(Unshuffle(o)) && Unshuffled(Unshuffle(o)) && PrefixKept(Unshuffle(o))
  {
    var u := Unshuffle(o);
    IdentityIsPermutation(|o.indices|);
    forall i | 0 <= i < |u.cases| ensures IsIndexPermutation(u.cases[i].testIndices) {
      IdentityIsPermutation(|o.cases[i].testIndices|);
    }
    UnshuffledKeepsPrefix(u);
  }

  lemma {:induction false} ShuffledInsideKeeps(cases: seq<TestCase>, state: nat)
    requires forall i :: 0 <= i < |cases| ==> IsIndexPermutation(cases[i].testIndices)
    ensures var r := ShuffledInside(cases, state);
      forall i :: 0 <= i < |cases| ==> r[i].name == cases[i].name && IsIndexPermutation(r[i].testIndices)
    decreases |cases|
  {
    if cases != [] {
      var tests := cases[0].testIndices;
      ShuffleIsPermutation(tests, 0, |tests|, Picks(state, |tests|));
      PermutedKeepsIndices(tests, Shuffled(tests, 0, |tests|, state), 0, |tests|);
      ShuffledInsideKeeps(cases[1..], StateAfter(state, |tests|));
    }
  }

  lemma ShuffledIsPermutation<T>(s: seq<T>, begin: nat, end: nat, state: nat)
    requires begin <= end <= |s|
    ensures PermutedWithin(s, Shuffled(s, begin, end, state), begin, end)
  {
    ShuffleIsPermutation(s, begin, end - begin, Picks(state, end - begin));
  }

  lemma ShuffleKeepsWellFormed(o: Order, state: nat)
    requires WellFormed(o)
    ensures WellFormed(Shuffle(o, state))
  {
    ShuffleKeepsIndices(o, state);
    ShuffledInsideKeeps(o.cases, StateAfter(StateAfter(state, o.lastDeath + 1), |o.cases| - (o.lastDeath + 1)));
    SameNamesKeepCases(o.cases, Shuffle(o, state).cases, o.lastDeath);
  }

  lemma ShuffleKeepsIndices(o: Order, state: nat)
    requires -1 <= o.lastDeath < |o.cases| == |o.indices| && IsIndexPermutation(o.indices)
    ensures IsIndexPermutation(Shuffle(o, state).indices)
  {
    var d, n := o.lastDeath + 1, |o.cases|;
    ShuffledKeepsIndices(o.indices, 0, d, state);
    ShuffledKeepsIndices(Shuffled(o.indices, 0, d, state), d, n, StateAfter(state, d));
  }

  lemma ShuffledKeepsIndices(indices: seq<int>, begin: nat, end: nat, state: nat)
    requires begin <= end <= |indices| && IsIndexPermutation(indices)
    ensures IsIndexPermutation(Shuffled(indices, begin, end, state))
  {
    ShuffledIsPermutation(indices, begin, end, state);
    PermutedKeepsIndices(indices, Shuffled(indices, begin, end, state), begin, end);
  }

  lemma SameNamesKeepCases(cases: seq<TestCase>, r: seq<TestCase>, lastDeath: int)
    requires NamesDistinct(cases) && DeathCasesFirst(cases, lastDeath) && |r| == |cases|
    requires forall i :: 0 <= i < |cases| ==> r[i].name == cases[i].name
    ensures NamesDistinct(r) && DeathCasesFirst(r, lastDeath)
  {
  }

  lemma ShuffleKeepsPrefix(o: Order, state: nat)
    requires WellFormed(o) && PrefixKept(o)
    ensures WellFormed(Shuffle(o, state)) && PrefixKept(Shuffle(o, state))
  {
    ShuffleKeepsWellFormed(o, state);
    var d, n := o.lastDeath + 1, |o.cases|;
    var s1 := Shuffled(o.indices, 0, d, state);
    ShuffledIsPermutation(o.indices, 0, d, state);
    ShuffledIsPermutation(s1, d, n, StateAfter(state, d));
    assert o.indices[0..d] == o.indices[..d] && s1[0..d] == s1[..d];
  }

  lemma AddTestKeepsWellFormed(o: Order, i: nat)
    requires WellFormed(o) && i < |o.cases|
    ensures WellFormed(AddTest(o, i)) && (PrefixKept(o) ==> PrefixKept(AddTest(o, i)))
  {
    AppendKeepsPermutation(o.cases[i].testIndices);
  }

  // ----- Histories -----

  datatype Event =
    | RegisterEvent(name: string)
    | AddTestEvent(index: nat)
    | ShuffleEvent(state: nat)
    | UnshuffleEvent

  ghost function Apply(o: Order, e: Event): Order
    requires WellFormed(o)
  {
    match e
    case RegisterEvent(name) => Register(o, name)
    case AddTestEvent(i) => if i < |o.cases| then AddTest(o, i) else o
    case ShuffleEvent(state) => Shuffle(o, state)
    case UnshuffleEvent => Unshuffle(o)
  }

  lemma ApplyKeepsWellFormed(o: Order, e: Event)
    requires WellFormed(o)
    ensures WellFormed(Apply(o, e))
  {
    match e
    case RegisterEvent(name) => RegisterKeepsWellFormed(o, name);
    case AddTestEvent(i) => if i < |o.cases| { AddTestKeepsWellFormed(o, i); }
    case ShuffleEvent(state) => ShuffleKeepsWellFormed(o, state);
    case UnshuffleEvent => UnshuffleIsWellFormed(o);
  }

  ghost function After(history: seq<Event>): (o: Order)
    ensures WellFormed(o)
  {
    if history == [] then
      assert Identity(0) == [];
      EMPTY_ORDER
    else
      var before := After(history[..|history| - 1]);
      ApplyKeepsWellFormed(before, history[|history| - 1]);
      Apply(before, history[|history| - 1])
  }

  /** Cases are registered only while the order is unshuffled. */
  ghost predicate RegistersUnshuffled(history: seq<Event>) {
    forall i :: 0 <= i < |history| && history[i].RegisterEvent? ==> Unshuffled(After(history[..i]))
  }

  /** After every such history the death cases form the prefix, and the order keeps them there. */
  lemma {:induction false} HistoriesKeepPrefix(history: seq<Event>)
    requires RegistersUnshuffled(history)
    ensures PrefixKept(After(history))
    decreases |history|
  {
    if history == [] {
      UnshuffledKeepsPrefix(After(history));
    } else {
      var init := history[..|history| - 1];
      InitRegistersUnshuffled(history);
      HistoriesKeepPrefix(init);
      ApplyKeepsPrefix(After(init), history[|history| - 1]);
    }
  }

  lemma InitRegistersUnshuffled(history: seq<Event>)
    requires RegistersUnshuffled(history) && history != []
    ensures RegistersUnshuffled(history[..|history| - 1])
    ensures history[|history| - 1].RegisterEvent? ==> Unshuffled(After(history[..|history| - 1]))
  {
    var init := history[..|history| - 1];
    forall i | 0 <= i < |init| && init[i].RegisterEvent? ensures Unshuffled(After(init[..i])) {
      assert init[..i] == history[..i] && history[i] == init[i];
    }
  }

  lemma ApplyKeepsPrefix(o: Order, e: Event)
    requires WellFormed(o) && PrefixKept(o) && (e.RegisterEvent? ==> Unshuffled(o))
    ensures WellFormed(Apply(o, e)) && PrefixKept(Apply(o, e))
  {
    match e {
      case RegisterEvent(name) => if !Registered(o.cases, name) { RegisterKeepsPrefixIff(o, name); }
      case AddTestEvent(i) => if i < |o.cases| { AddTestKeepsWellFormed(o, i); }
      case ShuffleEvent(state) => ShuffleKeepsPrefix(o, state);
      case UnshuffleEvent => UnshuffleIsWellFormed(o);
    }
  }

  lemma IndexIsPresent(indices: seq<int>, d: nat) returns (j: nat)
    requires IsIndexPermutation(indices) && d < |indices|
    ensures j < |indices| && indices[j] == d
  {
    IdentityCounts(|indices|);
    assert d in multiset(indices);
    j :| 0 <= j < |indices| && indices[j] == d;
  }

  /** The converse hazard: registering a death case into a shuffled order can run it too late. */
  lemma RegisterAfterShuffleBreaks(o: Order, name: string)
    requires WellFormed(o) && PrefixKept(o) && !Registered(o.cases, name) && IsDeathTestName(name)
    requires o.lastDeath + 1 < |o.indices| && o.indices[o.lastDeath + 1] != o.lastDeath + 1
    ensures WellFormed(Register(o, name))
    ensures var run := RunSequence(Register(o, name));
      exists i, j :: (0 <= i < j < |run| && !IsDeathTestName(run[i]) && IsDeathTestName(run[j]))
  {
    RegisterKeepsPrefixIff(o, name);
    var r := Register(o, name);
    var d := r.lastDeath;
    IndicesInRange(r.indices);
    PrefixMembership(o, d);
    assert r.indices[d] == o.indices[d] > d;
    assert !IsDeathTestName(RunSequence(r)[d]);
    var j := IndexIsPresent(r.indices, d);
    assert IsDeathTestName(RunSequence(r)[j]);
    if j < d {
      PrefixMembership(o, j);
      assert false;
    }
  }

  /** In a kept order exactly the first positions hold indices of death cases. */
  lemma PrefixMembership(o: Order, i: nat)
    requires WellFormed(o) && PrefixKept(o) && i < |o.indices|
    ensures o.indices[i] <= o.lastDeath <==> i <= o.lastDeath
  {
    var d, ix := o.lastDeath + 1, o.indices;
    IdentityCounts(d);
    IdentityCounts(|ix|);
    IndicesInRange(ix);
    assert ix == ix[..d] + ix[d..];
    var v := ix[i];
    assert multiset(ix)[v] == multiset(ix[..d])[v] + multiset(ix[d..])[v];
    if i < d {
      assert ix[..d][i] in multiset(ix[..d]);
    } else {
      assert ix[d..][i - d] in multiset(ix[d..]);
    }
  }

  function Mapped<A, B>(a: seq<A>, f: A -> B): seq<B> {
    seq(|a|, i requires 0 <= i < |a| => f(a[i]))
  }

  lemma MultisetRemove<T>(b: seq<T>, j: nat)
    requires j < |b|
    ensures multiset(b) == multiset(b[..j] + b[j + 1..]) + multiset{b[j]}
  {
    assert b == b[..j] + [b[j]] + b[j + 1..];
  }

  lemma MappedDrop<A, B>(b: seq<A>, j: nat, f: A -> B)
    requires j < |b|
    ensures Mapped(b[..j] + b[j + 1..], f) == Mapped(b, f)[..j] + Mapped(b, f)[j + 1..]
  {
  }

  lemma MappedRemove<A, B>(b: seq<A>, j: nat, f: A -> B)
    requires j < |b|
    ensures multiset(Mapped(b, f)) == multiset(Mapped(b[..j] + b[j + 1..], f)) + multiset{f(b[j])}
  {
    MappedDrop(b, j, f);
    MultisetRemove(Mapped(b, f), j);
  }

  lemma SharedElement<A>(a: seq<A>, b: seq<A>) returns (j: nat)
    requires a != [] && multiset(a) == multiset(b)
    ensures j < |b| && b[j] == a[0]
    ensures multiset(a[..0] + a[1..]) == multiset(b[..j] + b[j + 1..])
  {
    assert a[0] in multiset(b);
    j :| 0 <= j < |b| && b[j] == a[0];
    MultisetRemove(a, 0);
    MultisetRemove(b, j);
    MultisetCancel(multiset(a[..0] + a[1..]), multiset(b[..j] + b[j + 1..]), multiset{a[0]});
  }

  lemma {:induction false} MappedPermutes<A, B>(a: seq<A>, b: seq<A>, f: A -> B)
    requires multiset(a) == multiset(b)
    ensures multiset(Mapped(a, f)) == multiset(Mapped(b, f))
    decreases |a|
  {
    if a == [] {
      assert |multiset(b)| == 0;
    } else {
      var j := SharedElement(a, b);
      MappedPermutes(a[..0] + a[1..], b[..j] + b[j + 1..], f);
      MappedRemove(a, 0, f);
      MappedRemove(b, j, f);
    }
  }

  function Names(cases: seq<TestCase>): (r: seq<string>)
    ensures |r| == |cases| && forall i :: 0 <= i < |cases| ==> r[i] == cases[i].name
  {
    seq(|cases|, i requires 0 <= i < |cases| => cases[i].name)
  }

  lemma RunPermutesCases(o: Order)
    requires WellFormed(o)
    ensures multiset(RunSequence(o)) == multiset(Names(o.cases))
  {
    IndicesInRange(o.indices);
    var f := (x: int) => if 0 <= x < |o.cases| then o.cases[x].name else "";
    MappedPermutes(o.indices, Identity(|o.cases|), f);
    assert RunSequence(o) == Mapped(o.indices, f);
    assert Names(o.cases) == Mapped(Identity(|o.cases|), f);
  }

  lemma RunPutsDeathFirst(o: Order)
    requires WellFormed(o) && PrefixKept(o)
    ensures forall i :: 0 <= i < |o.cases| ==> (IsDeathTestName(RunSequence(o)[i]) <==> i <= o.lastDeath)
  {
    IndicesInRange(o.indices);
    forall i | 0 <= i < |o.cases| ensures IsDeathTestName(RunSequence(o)[i]) <==> i <= o.lastDeath {
      PrefixMembership(o, i);
    }
  }

  /** A run visits every case exactly once, all death test cases before all others. */
  lemma RunVisitsEachOnceDeathFirst(history: seq<Event>)
    requires RegistersUnshuffled(history)
    ensures var o := After(history);
      && multiset(RunSequence(o)) == multiset(Names(o.cases)) && NamesDistinct(o.cases)
      && forall i :: 0 <= i < |o.cases| ==> (IsDeathTestName(RunSequence(o)[i]) <==> i <= o.lastDeath)
  {
    HistoriesKeepPrefix(history);
    RunPermutesCases(After(history));
    RunPutsDeathFirst(After(history));
  }

  /** Unshuffling restores the order of registration. */
  lemma UnshuffledRunIsRegistrationOrder(o: Order)
    requires WellFormed(o)
    ensures WellFormed(Unshuffle(o)) && RunSequence(Unshuffle(o)) == Names(o.cases)
  {
    UnshuffleIsWellFormed(o);
  }

  // ----- The class -----

  /** The i-th element, or a default when there is none. */
  function GetElementOr<E>(v: seq<E>, i: int, defaultValue: E): E {
    if i < 0 || i >= |v| then defaultValue else v[i]
  }

  /** Shuffling the i-th case moves it from the cases to come to those done. */
  lemma ShuffleNext(testCases: seq<TestCase>, cases: seq<TestCase>, i: nat, state: nat)
    requires i < |testCases| == |cases| && testCases[i] == cases[i] && testCases[i..] == cases[i..]
    ensures var tests := cases[i].testIndices;
      var after := testCases[i := testCases[i].(testIndices := Shuffled(tests, 0, |tests|, state))];
      && after[i + 1..] == cases[i + 1..]
      && after[..i + 1] + ShuffledInside(cases[i + 1..], StateAfter(state, |tests|)) ==
        testCases[..i] + ShuffledInside(cases[i..], state)
  {
    var tests := cases[i].testIndices;
    var after := testCases[i := testCases[i].(testIndices := Shuffled(tests, 0, |tests|, state))];
    assert cases[i..][1..] == cases[i + 1..] && testCases[i..][1..] == testCases[i + 1..];
    assert after[..i + 1] == testCases[..i] + [after[i]] && after[i + 1..] == testCases[i + 1..];
  }

  lemma ShuffleMeans(o: Order, state: nat, after: Order)
    requires WellFormed(o) && after.indices == Shuffle(o, state).indices && after.lastDeath == o.lastDeath
    requires after.cases == ShuffledInside(o.cases,
      StateAfter(StateAfter(state, o.lastDeath + 1), |o.cases| - (o.lastDeath + 1)))
    ensures WellFormed(after) && after == Shuffle(o, state)
  {
    ShuffleKeepsWellFormed(o, state);
  }

  /** The generator can draw a place among the tests of each case. */
  ghost predicate SizesFit(cases: seq<TestCase>) {
    forall i :: 0 <= i < |cases| ==> |cases[i].testIndices| <= MAX_RANGE
  }

  lemma RegisteredSize(o: Order, name: string, i: nat)
    requires -1 <= o.lastDeath < |o.cases| && i < |Register(o, name).cases|
    requires forall j :: 0 <= j < |o.cases| ==> |o.cases[j].testIndices| < MAX_RANGE
    ensures |Register(o, name).cases[i].testIndices| < MAX_RANGE
  {
    if !Registered(o.cases, name) {
      RegisterInserts(o, name, i);
    }
  }

  class UnitTestImpl {
    var testCases: seq<TestCase>
    const testCaseIndices: Vector<int>
    var lastDeathTestCase: int
    const random: Random

    ghost function State(): Order
      reads this, testCaseIndices
    {
      Order(testCases, testCaseIndices.elems, lastDeathTestCase)
    }

    ghost predicate Valid()
      reads this, testCaseIndices
    {
      WellFormed(State()) && |testCases| <= MAX_RANGE
      && SizesFit(testCases)
    }

    constructor (seed: nat)
      ensures Valid() && State() == EMPTY_ORDER && fresh(testCaseIndices) && fresh(random)
    {
      testCases := [];
      testCaseIndices := new Vector([]);
      lastDeathTestCase := -1;
      random := new Random(seed);
      assert Identity(0) == [];
    }

    /** Returns the case with the given name, registering it if there is none. */
    method GetTestCase(name: string) returns (testCase: TestCase)
      requires Valid() && |testCases| < MAX_RANGE
      modifies this, testCaseIndices
      ensures Valid() && State() == Register(old(State()), name)
      ensures testCase in testCases && testCase.name == name
    {
      RegisterKeepsWellFormed(State(), name);
      var found := FindTestCase(name);
      if found.Some? {
        return found.value;
      }
      DeathTestFilterMeaning(name);
      var isDeath := MatchesFilter(name, DEATH_TEST_CASE_FILTER);
      testCase := InsertTestCase(name, isDeath);
    }

    /** Adds a test at the end of the case with the given name, registering that if there is none. */
    method AddTestInfo(name: string)
      requires Valid() && |testCases| < MAX_RANGE
      requires forall i :: 0 <= i < |testCases| ==> |testCases[i].testIndices| < MAX_RANGE
      modifies this, testCaseIndices
      ensures Valid()
      ensures var r := Register(old(State()), name);
        exists i :: 0 <= i < |r.cases| && r.cases[i].name == name && State() == AddTest(r, i)
    {
      ghost var o := State();
      var testCase := GetTestCase(name);
      var i :| 0 <= i < |testCases| && testCases[i] == testCase;
      AddTestKeepsWellFormed(State(), i);
      RegisteredSize(o, name, i);
      testCases := testCases[i := testCase.(testIndices := testCase.testIndices + [|testCase.testIndices|])];
      assert State() == AddTest(Register(o, name), i);
    }

    method FindTestCase(name: string) returns (found: Option<TestCase>)
      ensures found.None? ==> !Registered(testCases, name)
      ensures found.Some? ==> found.value in testCases && found.value.name == name && Registered(testCases, name)
    {
      var k := 0;
      while k < |testCases|
        invariant 0 <= k <= |testCases|
        invariant forall i :: 0 <= i < k ==> testCases[i].name != name
      {
        if testCases[k].name == name {
          return Some(testCases[k]);
        }
        k := k + 1;
      }
      return None;
    }

    /** Inserts a new case: after the last death test case if it is one, otherwise at the end. */
    method InsertTestCase(name: string, isDeath: bool) returns (newTestCase: TestCase)
      requires -1 <= lastDeathTestCase < |testCases| && (isDeath <==> IsDeathTestName(name))
      requires !Registered(testCases, name)
      modifies this, testCaseIndices
      ensures State() == Register(old(State()), name)
      ensures SizesFit(old(testCases)) ==> SizesFit(testCases)
      ensures |testCases| == |old(testCases)| + 1
      ensures newTestCase == TestCase(name, []) && newTestCase in testCases
    {
      newTestCase := TestCase(name, []);
      if isDeath {
        lastDeathTestCase := lastDeathTestCase + 1;
        testCases := testCases[..lastDeathTestCase] + [newTestCase] + testCases[lastDeathTestCase..];
      } else {
        testCases := testCases + [newTestCase];
      }
      testCaseIndices.elems := testCaseIndices.elems + [|testCaseIndices.elems|];
    }

    method ShuffleTests()
      requires Valid()
      modifies this, testCaseIndices, random
      ensures Valid() && State() == Shuffle(old(State()), old(random.state))
    {
      ghost var before, state := State(), random.state;
      ShuffleCases();
      ShuffleInside();
      ShuffleMeans(before, state, State());
    }

    /** Shuffles the death test cases among themselves, and the others. */
    method ShuffleCases()
      requires -1 <= lastDeathTestCase < |testCases| == |testCaseIndices.elems| && |testCases| <= MAX_RANGE
      modifies testCaseIndices, random
      ensures testCaseIndices.elems == Shuffle(old(State()), old(random.state)).indices
      ensures random.state == StateAfter(StateAfter(old(random.state), lastDeathTestCase + 1),
        |testCases| - (lastDeathTestCase + 1))
    {
      ShuffleRange(random, 0, lastDeathTestCase + 1, testCaseIndices);
      ShuffleRange(random, lastDeathTestCase + 1, |testCases|, testCaseIndices);
    }

    /** Shuffles the tests inside each case. */
    method ShuffleInside()
      requires SizesFit(testCases)
      modifies this`testCases, random
      ensures testCases == ShuffledInside(old(testCases), old(random.state))
      ensures SizesFit(testCases)
    {
      ghost var cases := testCases;
      var i := 0;
      assert testCases[0..] == cases;
      while i < |testCases|
        invariant 0 <= i <= |testCases| == |cases|
        invariant testCases[i..] == cases[i..]
        invariant testCases[..i] + ShuffledInside(cases[i..], random.state) == ShuffledInside(cases, old(random.state))
        invariant forall j :: 0 <= j < |testCases| ==> |testCases[j].testIndices| <= MAX_RANGE
      {
        assert testCases[i] == testCases[i..][0] == cases[i..][0];
        var tests := new Vector(testCases[i].testIndices);
        ShuffleNext(testCases, cases, i, random.state);
        ShuffleRange(random, 0, |tests.elems|, tests);
        testCases := testCases[i := testCases[i].(testIndices := tests.elems)];
        i := i + 1;
      }
    }

    method UnshuffleTests()
      requires Valid()
      modifies this`testCases, testCaseIndices
      ensures Valid() && State() == Unshuffle(old(State()))
    {
      UnshuffleIsWellFormed(State());
      var i := 0;
      while i < |testCases|
        invariant 0 <= i <= |testCases| == |old(testCases)| && |testCaseIndices.elems| == |testCases|
        invariant forall j :: 0 <= j < i ==> testCaseIndices.elems[j] == j
        invariant forall j :: 0 <= j < i ==> testCases[j] == UnshuffledInside(old(testCases))[j]
        invariant forall j :: i <= j < |testCases| ==> testCases[j] == old(testCases)[j]
      {
        testCases := testCases[i := testCases[i].(testIndices := Identity(|testCases[i].testIndices|))];
        testCaseIndices.elems := testCaseIndices.elems[i := i];
        i := i + 1;
      }
      assert testCaseIndices.elems == Identity(|testCases|);
      assert testCases == UnshuffledInside(old(testCases));
    }

    /** The i-th case in the current order, if there are so many. */
    method GetMutableTestCase(i: int) returns (testCase: Option<TestCase>)
      requires Valid()
      ensures testCase == if 0 <= i < |testCases| then Some(Visited(State())[i]) else None
    {
      IndicesInRange(testCaseIndices.elems);
      var index := GetElementOr(testCaseIndices.elems, i, -1);
      testCase := if index < 0 then None else Some(testCases[index]);
    }

    /** Runs every case in the current order, and reports the names and the tests in the order run. */
    method RunAll() returns (names: seq<string>, log: seq<TestRun>)
      requires Valid()
      ensures names == RunSequence(State()) && log == RunTests(State())
    {
      names, log := [], [];
      ghost var visited := Visited(State());
      var testIndex := 0;
      while testIndex < |testCases|
        invariant 0 <= testIndex <= |testCases| && names == RunSequence(State())[..testIndex]
        invariant log == AllTests(visited[..testIndex])
      {
        var testCase := GetMutableTestCase(testIndex);
        names := names + [testCase.value.name];
        VisitedArePermuted(State(), testIndex);
        var tests := RunCase(testCase.value);
        assert visited[..testIndex + 1][..testIndex] == visited[..testIndex];
        log := log + tests;
        testIndex := testIndex + 1;
      }
      assert visited[..testIndex] == visited;
    }

    /** Runs every test of a case in its current order. */
    method RunCase(c: TestCase) returns (log: seq<TestRun>)
      requires IsIndexPermutation(c.testIndices)
      ensures log == TestsOf(c)
    {
      log := [];
      var i := 0;
      while i < |c.testIndices|
        invariant 0 <= i <= |c.testIndices| && log == TestsOf(c)[..i]
      {
        var test := GetMutableTestInfo(c, i);
        log := log + [TestRun(c.name, test.value)];
        i := i + 1;
      }
    }

    method GetMutableTestInfo(c: TestCase, i: int) returns (test: Option<int>)
      requires IsIndexPermutation(c.testIndices)
      ensures test == if 0 <= i < |c.testIndices| then Some(c.testIndices[i]) else None
    {
      IndicesInRange(c.testIndices);
      var index := GetElementOr(c.testIndices, i, -1);
      test := if index < 0 then None else Some(index);
    }
  }

  lemma VisitedArePermuted(o: Order, i: nat)
    requires WellFormed(o) && i < |o.cases|
    ensures IsIndexPermutation(Visited(o)[i].testIndices)
  {
    IndicesInRange(o.indices);
  }
}
