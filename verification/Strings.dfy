/** Searching strings and splitting them at a separator. */
module Strings {
  import opened Wrappers

  /** The first position of `c`, as `strchr` and `find` give it. */
  function IndexOf(s: string, c: char): (r: Option<nat>)
    ensures r.None? ==> c !in s
    ensures r.Some? ==> r.value < |s| && s[r.value] == c && c !in s[..r.value]
  {
    if s == "" then None
    else if s[0] == c then Some(0)
    else match IndexOf(s[1..], c)
      case None => None
      case Some(i) => assert s[..i + 1] == [s[0]] + s[1..][..i]; Some(i + 1)
  }

  lemma {:induction false} IndexOfFirst(s: string, c: char, k: nat)
    requires k < |s| && s[k] == c && c !in s[..k]
    ensures IndexOf(s, c) == Some(k)
  {
    if k > 0 {
      assert s[0] == s[..k][0];
      assert s[..k] == [s[0]] + s[1..][..k - 1];
      IndexOfFirst(s[1..], c, k - 1);
    }
  }

  /** The text before the first `c`, or all of it. */
  function Before(s: string, c: char): string {
    match IndexOf(s, c) case None => s case Some(i) => s[..i]
  }

  /** The pieces between the occurrences of `c`; there is always at least one. */
  function Split(s: string, c: char): (pieces: seq<string>)
    ensures pieces != []
    decreases |s|
  {
    match IndexOf(s, c)
    case None => [s]
    case Some(i) => [s[..i]] + Split(s[i + 1..], c)
  }

  function Join(pieces: seq<string>, c: char): string
    requires pieces != []
  {
    if |pieces| == 1 then pieces[0] else pieces[0] + [c] + Join(pieces[1..], c)
  }

  /** The pieces are the string, cut at every separator. */
  lemma {:induction false} SplitJoins(s: string, c: char)
    ensures Join(Split(s, c), c) == s
    ensures forall i :: 0 <= i < |Split(s, c)| ==> c !in Split(s, c)[i]
    decreases |s|
  {
    match IndexOf(s, c) {
      case None =>
      case Some(i) =>
        SplitJoins(s[i + 1..], c);
        assert Split(s, c)[1..] == Split(s[i + 1..], c);
        assert s == s[..i] + [c] + s[i + 1..];
    }
  }

  /** The first piece of a string that starts with a separator-free part. */
  lemma SplitFirst(a: string, c: char, rest: string)
    requires c !in a
    ensures IndexOf(a + ([c] + rest), c) == Some(|a|)
    ensures Split(a + ([c] + rest), c) == [a] + Split(rest, c)
  {
    var s := a + ([c] + rest);
    assert s[|a|] == c && s[..|a|] == a && s[|a| + 1..] == rest;
    IndexOfFirst(s, c, |a|);
  }
}
