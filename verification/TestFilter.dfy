/** Test filters (gtest.cc): wildcard patterns, lists of them, and the split at the first `-`. */
module TestFilter {
  // Strings are NUL-terminated. A component of a filter, between colons, denotes a set of strings,
  // piece by piece, independently of the recursive matcher.

  import opened Strings
  import opened Wrappers

  // ----- The language of a wildcard pattern -----

  ghost predicate GlyphLanguage(glyph: char, w: string) {
    match glyph
    case '?' => |w| == 1
    case '*' => true
    case _ => w == [glyph]
  }

  /** `s` splits into pieces, one for each character of the pattern. */
  ghost predicate InGlob(pattern: string, s: string) {
    if pattern == "" then s == ""
    else exists k :: 0 <= k <= |s| && GlyphLanguage(pattern[0], s[..k]) && InGlob(pattern[1..], s[k..])
  }

  // ----- Components of a filter -----

  /** The colon-separated components of a filter; there is always at least one. */
  function Components(filter: string): seq<string> { Split(filter, ':') }

  // ----- The matcher -----

  predicate PatternMatchesString(pattern: string, str: string)
    decreases |pattern| + |str|
  {
    if pattern == "" || pattern[0] == ':' then str == ""
    else match pattern[0]
      case '?' => str != "" && PatternMatchesString(pattern[1..], str[1..])
      case '*' => (str != "" && PatternMatchesString(pattern, str[1..])) || PatternMatchesString(pattern[1..], str)
      case _ => str != "" && pattern[0] == str[0] && PatternMatchesString(pattern[1..], str[1..])
  }

  lemma BeforeUnfolds(pattern: string)
    requires pattern != "" && pattern[0] != ':'
    ensures Before(pattern, ':') == [pattern[0]] + Before(pattern[1..], ':')
    ensures Before(pattern, ':')[1..] == Before(pattern[1..], ':')
  {
    match IndexOf(pattern[1..], ':') {
      case None => assert pattern == [pattern[0]] + pattern[1..];
      case Some(i) => assert pattern[..i + 1] == [pattern[0]] + pattern[1..][..i];
    }
  }

  /** A pattern that starts with a single-character glyph consumes one character. */
  lemma OneCharacter(pattern: string, s: string)
    requires pattern != "" && pattern[0] != '*'
    ensures InGlob(pattern, s) <==>
      s != "" && (pattern[0] == '?' || pattern[0] == s[0]) && InGlob(pattern[1..], s[1..])
  {
    if s != "" {
      assert s[..1] == [s[0]];
    }
  }

  /** A star consumes nothing, or one character and then whatever it still wants. */
  lemma StarUnfolds(pattern: string, s: string)
    requires pattern != "" && pattern[0] == '*'
    ensures InGlob(pattern, s) <==> (s != "" && InGlob(pattern, s[1..])) || InGlob(pattern[1..], s)
  {
    if InGlob(pattern, s) {
      var k :| 0 <= k <= |s| && InGlob(pattern[1..], s[k..]);
      if k == 0 {
        assert s[0..] == s;
      } else {
        assert s[1..][k - 1..] == s[k..];
        assert GlyphLanguage('*', s[1..][..k - 1]);
      }
    }
    if s != "" && InGlob(pattern, s[1..]) {
      var k :| 0 <= k <= |s| - 1 && InGlob(pattern[1..], s[1..][k..]);
      assert s[k + 1..] == s[1..][k..];
      assert GlyphLanguage('*', s[..k + 1]);
    }
    if InGlob(pattern[1..], s) {
      assert s[0..] == s && GlyphLanguage('*', s[..0]);
    }
  }

  /** The matcher decides the language of the pattern up to its first colon. */
  lemma {:induction false} MatcherDecidesGlob(pattern: string, str: string)
    ensures PatternMatchesString(pattern, str) <==> InGlob(Before(pattern, ':'), str)
    decreases |pattern| + |str|
  {
    if pattern == "" || pattern[0] == ':' {
    } else {
      var p := Before(pattern, ':');
      BeforeUnfolds(pattern);
      if pattern[0] == '*' {
        StarUnfolds(p, str);
        if str != "" {
          MatcherDecidesGlob(pattern, str[1..]);
        }
        MatcherDecidesGlob(pattern[1..], str);
      } else {
        OneCharacter(p, str);
        if str != "" {
          MatcherDecidesGlob(pattern[1..], str[1..]);
        }
      }
    }
  }

  // ----- Filters -----

  ghost predicate InFilter(filter: string, name: string) {
    exists i :: 0 <= i < |Components(filter)| && InGlob(Components(filter)[i], name)
  }

  lemma FilterUnfolds(filter: string, name: string)
    ensures InFilter(filter, name) <==>
      InGlob(Before(filter, ':'), name)
      || (IndexOf(filter, ':').Some? && InFilter(filter[IndexOf(filter, ':').value + 1..], name))
  {
    var cs := Components(filter);
    assert cs[0] == Before(filter, ':');
    if IndexOf(filter, ':').Some? {
      var rest := filter[IndexOf(filter, ':').value + 1..];
      assert cs[1..] == Components(rest);
      if InFilter(rest, name) {
        var i :| 0 <= i < |Components(rest)| && InGlob(Components(rest)[i], name);
        assert cs[i + 1] == Components(rest)[i];
      }
      if InFilter(filter, name) && !InGlob(cs[0], name) {
        var i :| 0 <= i < |cs| && InGlob(cs[i], name);
        assert cs[i] == Components(rest)[i - 1];
      }
    }
  }

  method MatchesFilter(name: string, filter: string) returns (r: bool)
    ensures r <==> InFilter(filter, name)
  {
    var curPattern := filter;
    while true
      invariant InFilter(filter, name) <==> InFilter(curPattern, name)
      decreases |curPattern|
    {
      MatcherDecidesGlob(curPattern, name);
      FilterUnfolds(curPattern, name);
      if PatternMatchesString(curPattern, name) {
        return true;
      }
      var colon := IndexOf(curPattern, ':');
      if colon.None? {
        return false;
      }
      curPattern := curPattern[colon.value + 1..];
    }
  }

  /** The part of a flag before its first `-`, a missing one standing for everything. */
  function Positive(flag: string): string {
    match IndexOf(flag, '-')
    case None => flag
    case Some(i) => if i == 0 then "*" else flag[..i]
  }

  function Negative(flag: string): string {
    match IndexOf(flag, '-')
    case None => ""
    case Some(i) => flag[i + 1..]
  }

  ghost predicate SelectedBy(flag: string, fullName: string) {
    InFilter(Positive(flag), fullName) && !InFilter(Negative(flag), fullName)
  }

  method FilterMatchesTest(testCaseName: string, testName: string, flag: string) returns (r: bool)
    ensures r <==> SelectedBy(flag, testCaseName + "." + testName)
  {
    var fullName := testCaseName + "." + testName;
    var dash := IndexOf(flag, '-');
    var positive, negative;
    if dash.None? {
      positive, negative := flag, "";
    } else {
      positive, negative := flag[..dash.value], flag[dash.value + 1..];
      if positive == "" {
        positive := "*";
      }
    }
    var selected := MatchesFilter(fullName, positive);
    var rejected := MatchesFilter(fullName, negative);
    r := selected && !rejected;
  }

  /** A filter without `-`, or with nothing after it, excludes no test. */
  lemma EmptyNegativeExcludesNothing(flag: string, fullName: string)
    requires Negative(flag) == "" && fullName != ""
    ensures !InFilter(Negative(flag), fullName)
  {
    FilterUnfolds("", fullName);
  }

  /** A flag without `-` selects what its patterns match. */
  lemma FlagWithoutDash(flag: string, fullName: string)
    requires '-' !in flag && fullName != ""
    ensures SelectedBy(flag, fullName) <==> InFilter(flag, fullName)
  {
    assert Positive(flag) == flag && Negative(flag) == "";
    EmptyNegativeExcludesNothing(flag, fullName);
  }

  /** What follows the first `-` excludes; with nothing before it, from all tests. */
  lemma FlagWithDash(before: string, after: string, fullName: string)
    requires '-' !in before
    ensures SelectedBy(before + (['-'] + after), fullName) <==>
      (before == "" || InFilter(before, fullName)) && !InFilter(after, fullName)
  {
    var flag := before + (['-'] + after);
    SplitFirst(before, '-', after);
    assert flag[..|before|] == before && flag[|before| + 1..] == after;
    if before == "" {
      FilterUnfolds("*", fullName);
      StarAlone(fullName);
    }
  }

  // ----- The fixed filters -----

  /** A literal head of a pattern is a prefix of the string. */
  lemma {:induction false} LiteralHead(w: string, pattern: string, s: string)
    requires '?' !in w && '*' !in w
    ensures InGlob(w + pattern, s) <==> w <= s && InGlob(pattern, s[|w|..])
  {
    if w == "" {
      assert "" + pattern == pattern && s[0..] == s;
    } else {
      OneCharacter(w + pattern, s);
      assert (w + pattern)[1..] == w[1..] + pattern;
      if s != "" {
        LiteralHead(w[1..], pattern, s[1..]);
        assert w <= s <==> w[0] == s[0] && w[1..] <= s[1..];
        if w <= s {
          assert s[1..][|w| - 1..] == s[|w|..];
        }
      }
    }
  }

  lemma StarAlone(s: string)
    ensures InGlob("*", s)
  {
    assert s[|s|..] == "" && GlyphLanguage('*', s[..|s|]);
    assert "*"[1..] == "";
  }

  ghost predicate ContainsAt(s: string, w: string, k: nat) { k <= |s| && w <= s[k..] }

  lemma StarThenLiteral(w: string, pattern: string, s: string)
    requires '?' !in w && '*' !in w
    ensures InGlob("*" + (w + pattern), s) <==>
      exists k: nat :: ContainsAt(s, w, k) && InGlob(pattern, s[k..][|w|..])
  {
    var p := "*" + (w + pattern);
    assert p[1..] == w + pattern;
    if InGlob(p, s) {
      var k :| 0 <= k <= |s| && InGlob(p[1..], s[k..]);
      LiteralHead(w, pattern, s[k..]);
      assert ContainsAt(s, w, k);
    }
    if k: nat :| ContainsAt(s, w, k) && InGlob(pattern, s[k..][|w|..]) {
      LiteralHead(w, pattern, s[k..]);
      assert GlyphLanguage('*', s[..k]);
    }
  }

  /** The name of a death test case: it ends with `DeathTest`, or has `DeathTest/` in it. */
  ghost predicate IsDeathTestName(name: string) {
    || (exists k: nat :: k <= |name| && name[k..] == "DeathTest")
    || (exists k: nat :: ContainsAt(name, "DeathTest/", k))
  }

  const DEATH_TEST_CASE_FILTER := "*DeathTest:*DeathTest/*"

  lemma EndsWithGlob(w: string, name: string)
    requires '?' !in w && '*' !in w
    ensures InGlob("*" + w, name) <==> exists k: nat :: k <= |name| && name[k..] == w
  {
    StarThenLiteral(w, "", name);
    assert w + "" == w;
    if k: nat :| k <= |name| && name[k..] == w {
      assert ContainsAt(name, w, k) && name[k..][|w|..] == "";
    }
  }

  lemma ContainsGlob(w: string, name: string)
    requires '?' !in w && '*' !in w
    ensures InGlob("*" + (w + "*"), name) <==> exists k: nat :: ContainsAt(name, w, k)
  {
    StarThenLiteral(w, "*", name);
    if k: nat :| ContainsAt(name, w, k) {
      StarAlone(name[k..][|w|..]);
    }
  }

  lemma TwoComponents(a: string, b: string, name: string)
    requires ':' !in a && ':' !in b
    ensures InFilter(a + (":" + b), name) <==> InGlob(a, name) || InGlob(b, name)
  {
    var f := a + (":" + b);
    assert f[|a|] == ':' && f[..|a|] == a && f[|a| + 1..] == b;
    IndexOfFirst(f, ':', |a|);
    FilterUnfolds(f, name);
    FilterUnfolds(b, name);
  }

  /** A filter of the shape `*w:*v*` asks for names that end with `w` or contain `v`. */
  lemma EndsOrContains(w: string, v: string, name: string)
    requires '?' !in w && '*' !in w && ':' !in w && '?' !in v && '*' !in v && ':' !in v
    ensures InFilter("*" + w + (":" + ("*" + (v + "*"))), name) <==>
      (exists k: nat :: k <= |name| && name[k..] == w) || (exists k: nat :: ContainsAt(name, v, k))
  {
    TwoComponents("*" + w, "*" + (v + "*"), name);
    EndsWithGlob(w, name);
    ContainsGlob(v, name);
  }

  /** The filter for death test cases decides exactly those names. */
  lemma DeathTestFilterMeaning(name: string)
    ensures InFilter(DEATH_TEST_CASE_FILTER, name) <==> IsDeathTestName(name)
  {
    DeathTestFilterShape();
    EndsOrContains("DeathTest", "DeathTest/", name);
  }

  lemma DeathTestFilterShape()
    ensures DEATH_TEST_CASE_FILTER == "*" + "DeathTest" + (":" + ("*" + ("DeathTest/" + "*")))
  {
  }

  /** A disabled name starts with `DISABLED_`, or has `/DISABLED_` in it. */
  ghost predicate IsDisabledName(name: string) {
    "DISABLED_" <= name || exists k: nat :: ContainsAt(name, "/DISABLED_", k)
  }

  const DISABLE_TEST_FILTER := "DISABLED_*:*/DISABLED_*"

  /** A filter of the shape `w*:*v*` asks for names that start with `w` or contain `v`. */
  lemma StartsOrContains(w: string, v: string, name: string)
    requires '?' !in w && '*' !in w && ':' !in w && '?' !in v && '*' !in v && ':' !in v
    ensures InFilter(w + "*" + (":" + ("*" + (v + "*"))), name) <==>
      w <= name || (exists k: nat :: ContainsAt(name, v, k))
  {
    TwoComponents(w + "*", "*" + (v + "*"), name);
    LiteralHead(w, "*", name);
    if w <= name {
      StarAlone(name[|w|..]);
    }
    ContainsGlob(v, name);
  }

  /** The filter for disabled tests decides exactly those names. */
  lemma DisabledFilterMeaning(name: string)
    ensures InFilter(DISABLE_TEST_FILTER, name) <==> IsDisabledName(name)
  {
    DisableTestFilterShape();
    StartsOrContains("DISABLED_", "/DISABLED_", name);
  }

  lemma DisableTestFilterShape()
    ensures DISABLE_TEST_FILTER == "DISABLED_" + "*" + (":" + ("*" + ("/DISABLED_" + "*")))
  {
  }
}
