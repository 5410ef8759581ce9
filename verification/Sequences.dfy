/** Order-preserving selection of the elements of a sequence. */
module Sequences {
  function Filter<T>(p: T -> bool, s: seq<T>): (r: seq<T>)
    ensures |r| <= |s| && forall i :: 0 <= i < |r| ==> p(r[i])
  {
    if s == [] then []
    else if p(s[0]) then [s[0]] + Filter(p, s[1..])
    else Filter(p, s[1..])
  }

  lemma {:induction false} FilterConcat<T>(p: T -> bool, a: seq<T>, b: seq<T>)
    ensures Filter(p, a + b) == Filter(p, a) + Filter(p, b)
  {
    if a == [] {
      assert a + b == b;
    } else {
      assert (a + b)[0] == a[0] && (a + b)[1..] == a[1..] + b;
      FilterConcat(p, a[1..], b);
    }
  }

  lemma FilterAppend<T>(p: T -> bool, a: seq<T>, x: T)
    ensures Filter(p, a + [x]) == Filter(p, a) + if p(x) then [x] else []
  {
    FilterConcat(p, a, [x]);
    assert [x][1..] == [];
  }

  /** A selection and the selection of the rest share out the elements. */
  lemma {:induction false} FilterSharesOut<T>(p: T -> bool, q: T -> bool, s: seq<T>)
    requires forall x :: x in s ==> (q(x) <==> !p(x))
    ensures multiset(Filter(p, s)) + multiset(Filter(q, s)) == multiset(s)
  {
    if s != [] {
      FilterSharesOut(p, q, s[1..]);
      FilterHead(p, s);
      FilterHead(q, s);
      assert s == [s[0]] + s[1..];
    }
  }

  lemma FilterHead<T>(p: T -> bool, s: seq<T>)
    requires s != []
    ensures multiset(Filter(p, s)) == multiset(Filter(p, s[1..])) + if p(s[0]) then multiset{s[0]} else multiset{}
  {
  }

  lemma {:induction false} FilterOfAll<T>(p: T -> bool, s: seq<T>)
    requires forall x :: x in s ==> p(x)
    ensures Filter(p, s) == s
  {
    if s != [] {
      FilterOfAll(p, s[1..]);
    }
  }

  lemma {:induction false} FilterOfNone<T>(p: T -> bool, s: seq<T>)
    requires forall x :: x in s ==> !p(x)
    ensures Filter(p, s) == []
  {
    if s != [] {
      FilterOfNone(p, s[1..]);
    }
  }

  ghost predicate Increasing(at: seq<nat>, end: nat) {
    && (forall j, k :: 0 <= j < k < |at| ==> at[j] < at[k])
    && forall j :: 0 <= j < |at| ==> at[j] < end
  }

  /** `at` lists, in order, the positions of the elements of `s` that satisfy `p`. */
  ghost predicate Positions<T>(p: T -> bool, s: seq<T>, at: seq<nat>) {
    Increasing(at, |s|) && forall i: nat :: i < |s| ==> (p(s[i]) <==> i in at)
  }

  lemma IncreasingAppend(at: seq<nat>, end: nat)
    requires Increasing(at, end)
    ensures Increasing(at + [end], end + 1) && Increasing(at, end + 1)
  {
  }

  lemma PositionsAppend<T>(p: T -> bool, s: seq<T>, x: T, at: seq<nat>)
    requires Positions(p, s, at)
    ensures Positions(p, s + [x], if p(x) then at + [|s|] else at)
  {
    IncreasingAppend(at, |s|);
    forall i: nat | i < |s| + 1
      ensures p((s + [x])[i]) <==> i in (if p(x) then at + [|s|] else at)
    {
      assert i < |s| ==> (s + [x])[i] == s[i];
      assert i in at + [|s|] <==> i in at || i == |s|;
    }
  }

  /** The selection takes the elements at those positions. */
  lemma {:induction false} FilterPositions<T>(p: T -> bool, s: seq<T>) returns (at: seq<nat>)
    ensures Positions(p, s, at) && |at| == |Filter(p, s)|
    ensures forall j :: 0 <= j < |at| ==> s[at[j]] == Filter(p, s)[j]
    decreases |s|
  {
    if s == [] {
      return [];
    }
    var init, x := s[..|s| - 1], s[|s| - 1];
    var before := FilterPositions(p, init);
    assert s == init + [x];
    FilterAppend(p, init, x);
    PositionsAppend(p, init, x, before);
    at := if p(x) then before + [|init|] else before;
  }
}
