/** The simple regular expression engine of the bundled Google Test (gtest-port.cc). */
module Regex {
  // A pattern is a NUL-terminated string. Its meaning is given independently of the matcher: an
  // abstract syntax tree is rendered to a pattern, and the tree denotes a set of strings, by a
  // table of characters. The validator accepts exactly the renderings, and the matcher decides the
  // language.

  import opened Wrappers

  // ----- Character classes -----

  const FORM_FEED := '\U{000C}'
  const VERTICAL_TAB := '\U{000B}'

  /** Reading a NUL-terminated string at, or before, its terminator. */
  function CharAt(s: string, i: nat): char {
    if i < |s| then s[i] else '\0'
  }

  predicate IsInSet(ch: char, chars: string) {
    ch != '\0' && ch in chars
  }

  predicate IsAsciiDigit(ch: char) { '0' <= ch <= '9' }

  const PUNCTUATION := "^-!\"#$%&'()*+,./:;<=>?@[\\]_`{|}~"

  predicate IsAsciiPunct(ch: char) { IsInSet(ch, PUNCTUATION) }

  predicate IsRepeat(ch: char) { IsInSet(ch, "?*+") }

  predicate IsAsciiWhiteSpace(ch: char) { IsInSet(ch, " \U{000C}\n\r\t\U{000B}") }

  predicate IsAsciiWordChar(ch: char) {
    'a' <= ch <= 'z' || 'A' <= ch <= 'Z' || '0' <= ch <= '9' || ch == '_'
  }

  predicate IsValidEscape(ch: char) { IsAsciiPunct(ch) || IsInSet(ch, "dDfnrsStvwW") }

  /** Whether one atom, `patternChar` or `\patternChar`, matches one character. */
  predicate AtomMatchesChar(escaped: bool, patternChar: char, ch: char) {
    if escaped then
      match patternChar
      case 'd' => IsAsciiDigit(ch)
      case 'D' => !IsAsciiDigit(ch)
      case 'f' => ch == FORM_FEED
      case 'n' => ch == '\n'
      case 'r' => ch == '\r'
      case 's' => IsAsciiWhiteSpace(ch)
      case 'S' => !IsAsciiWhiteSpace(ch)
      case 't' => ch == '\t'
      case 'v' => ch == VERTICAL_TAB
      case 'w' => IsAsciiWordChar(ch)
      case 'W' => !IsAsciiWordChar(ch)
      case _ => IsAsciiPunct(patternChar) && patternChar == ch
    else
      (patternChar == '.' && ch != '\n') || patternChar == ch
  }

  // ----- The characters that an atom stands for -----

  predicate IsCapital(ch: char) { 'A' <= ch <= 'Z' }

  predicate IsSmallLetter(ch: char) { 'a' <= ch <= 'z' }

  predicate IsDigit(ch: char) { '0' <= ch <= '9' }

  predicate IsAlphanumeric(ch: char) { IsCapital(ch) || IsSmallLetter(ch) || IsDigit(ch) }

  /** The space and the five characters from the tabulator to the carriage return. */
  predicate IsBlank(ch: char) { ch == ' ' || '\t' <= ch <= '\r' }

  /** The visible ASCII characters other than letters and digits. */
  predicate IsPunctuation(ch: char) { '!' <= ch <= '~' && !IsAlphanumeric(ch) }

  /** What may follow a backslash. */
  predicate IsEscapable(c: char) {
    IsPunctuation(c) || c in {'d', 'D', 'f', 'n', 'r', 's', 'S', 't', 'v', 'w', 'W'}
  }

  /** The characters that an atom stands for. */
  predicate AtomDenotes(escaped: bool, c: char, ch: char) {
    if !escaped then (if c == '.' then ch != '\n' else ch == c)
    else match c
      case 'd' => IsDigit(ch)
      case 'D' => !IsDigit(ch)
      case 's' => IsBlank(ch)
      case 'S' => !IsBlank(ch)
      case 'w' => IsAlphanumeric(ch) || ch == '_'
      case 'W' => !IsAlphanumeric(ch) && ch != '_'
      case 'f' => ch == '\U{000C}'
      case 'n' => ch == '\n'
      case 'r' => ch == '\r'
      case 't' => ch == '\t'
      case 'v' => ch == '\U{000B}'
      case _ => IsPunctuation(c) && ch == c
  }

  lemma PunctuationInRange(ch: char)
    requires ch in PUNCTUATION
    ensures '!' <= ch <= '/' || ':' <= ch <= '@' || '[' <= ch <= '`' || '{' <= ch <= '~'
  {
  }

  lemma LowPunctuation(ch: char)
    requires '!' <= ch <= '/' || ':' <= ch <= '@'
    ensures ch in PUNCTUATION
  {
  }

  lemma HighPunctuation(ch: char)
    requires '[' <= ch <= '`' || '{' <= ch <= '~'
    ensures ch in PUNCTUATION
  {
  }

  /** The set of punctuation characters is complete. */
  lemma PunctuationIff(ch: char)
    ensures IsAsciiPunct(ch) <==> IsPunctuation(ch)
  {
    if IsAsciiPunct(ch) {
      PunctuationInRange(ch);
    }
    if IsPunctuation(ch) {
      if ch <= '@' {
        LowPunctuation(ch);
      } else {
        HighPunctuation(ch);
      }
    }
  }

  lemma BlanksIff(ch: char)
    ensures IsAsciiWhiteSpace(ch) <==> IsBlank(ch)
  {
  }

  lemma ClassLettersIff(c: char)
    ensures IsInSet(c, "dDfnrsStvwW") <==> c in {'d', 'D', 'f', 'n', 'r', 's', 'S', 't', 'v', 'w', 'W'}
  {
  }

  /** The supported escapes are exactly the class letters and all punctuation. */
  lemma ValidEscapeIff(c: char)
    ensures IsValidEscape(c) <==> IsEscapable(c)
  {
    PunctuationIff(c);
    ClassLettersIff(c);
  }

  /** The test decides what the atom stands for. */
  lemma AtomTestDecides(escaped: bool, c: char, ch: char)
    ensures AtomMatchesChar(escaped, c, ch) <==> AtomDenotes(escaped, c, ch)
  {
    BlanksIff(ch);
    PunctuationIff(c);
  }

  // ----- The classes, character by character -----

  const DIGITS := "0123456789"

  const CAPITALS := "ABCDEFGHIJKLMNOPQRSTUVWXYZ"

  const SMALL_LETTERS := "abcdefghijklmnopqrstuvwxyz"

  /** Space, tabulator, line feed, carriage return, vertical tabulator and form feed. */
  const BLANKS := [' ', '\t', '\n', '\r', '\U{000B}', '\U{000C}']

  lemma DigitsListed(ch: char)
    ensures IsDigit(ch) <==> ch in DIGITS
  {
    assert IsDigit(ch) ==> DIGITS[ch as int - '0' as int] == ch;
  }

  lemma CapitalsListed(ch: char)
    ensures IsCapital(ch) <==> ch in CAPITALS
  {
    assert IsCapital(ch) ==> CAPITALS[ch as int - 'A' as int] == ch;
  }

  lemma SmallLettersListed(ch: char)
    ensures IsSmallLetter(ch) <==> ch in SMALL_LETTERS
  {
    assert IsSmallLetter(ch) ==> SMALL_LETTERS[ch as int - 'a' as int] == ch;
  }

  lemma BlanksListed(ch: char)
    ensures IsBlank(ch) <==> ch in BLANKS
  {
  }

  /** Each class letter matches exactly the characters listed, and its capital the others. */
  lemma ClassesListed(ch: char)
    ensures AtomMatchesChar(true, 'd', ch) <==> ch in DIGITS
    ensures AtomMatchesChar(true, 's', ch) <==> ch in BLANKS
    ensures AtomMatchesChar(true, 'w', ch) <==> ch in DIGITS || ch in CAPITALS || ch in SMALL_LETTERS || ch == '_'
    ensures AtomMatchesChar(true, 'D', ch) <==> !AtomMatchesChar(true, 'd', ch)
    ensures AtomMatchesChar(true, 'S', ch) <==> !AtomMatchesChar(true, 's', ch)
    ensures AtomMatchesChar(true, 'W', ch) <==> !AtomMatchesChar(true, 'w', ch)
  {
    ClassTests(ch);
    DigitsListed(ch);
    CapitalsListed(ch);
    SmallLettersListed(ch);
    BlanksListed(ch);
  }

  lemma ClassTests(ch: char)
    ensures AtomMatchesChar(true, 'd', ch) <==> IsDigit(ch)
    ensures AtomMatchesChar(true, 's', ch) <==> IsBlank(ch)
    ensures AtomMatchesChar(true, 'w', ch) <==> IsAlphanumeric(ch) || ch == '_'
    ensures AtomMatchesChar(true, 'D', ch) <==> !IsDigit(ch)
    ensures AtomMatchesChar(true, 'S', ch) <==> !IsBlank(ch)
    ensures AtomMatchesChar(true, 'W', ch) <==> !(IsAlphanumeric(ch) || ch == '_')
  {
    BlanksIff(ch);
  }

  // ----- Abstract syntax and its rendering -----

  datatype Repeat = Once | Optional | Star | Plus

  datatype Item = Item(escaped: bool, c: char, repeat: Repeat)

  /** A whole pattern: `^`, then items, then `$`, the anchors being optional. */
  datatype Ast = Ast(anchored: bool, items: seq<Item>, toEnd: bool)

  ghost predicate ValidItem(item: Item) {
    if item.escaped then IsEscapable(item.c)
    else item.c != '\0' && item.c !in "^$()[]{}|?*+\\"
  }

  ghost predicate ValidItems(items: seq<Item>) {
    forall i :: 0 <= i < |items| ==> ValidItem(items[i])
  }

  function RenderRepeat(repeat: Repeat): string {
    match repeat
    case Once => ""
    case Optional => "?"
    case Star => "*"
    case Plus => "+"
  }

  function RenderAtom(item: Item): string {
    if item.escaped then ['\\', item.c] else [item.c]
  }

  function RenderTail(items: seq<Item>, toEnd: bool): string {
    if items == [] then if toEnd then "$" else ""
    else RenderAtom(items[0]) + RenderRepeat(items[0].repeat) + RenderTail(items[1..], toEnd)
  }

  function Render(ast: Ast): string {
    (if ast.anchored then "^" else "") + RenderTail(ast.items, ast.toEnd)
  }

  ghost predicate Denotes(regex: string, ast: Ast) {
    ValidItems(ast.items) && Render(ast) == regex
  }

  /** The grammar the validator is meant to decide. */
  ghost predicate WellFormed(regex: string) {
    exists ast :: Denotes(regex, ast)
  }

  // ----- The language of a pattern -----

  ghost predicate AllDenoted(item: Item, w: string) {
    forall i :: 0 <= i < |w| ==> AtomDenotes(item.escaped, item.c, w[i])
  }

  ghost predicate ItemLanguage(item: Item, w: string) {
    && AllDenoted(item, w)
    && (item.repeat.Once? ==> |w| == 1)
    && (item.repeat.Optional? ==> |w| <= 1)
    && (item.repeat.Plus? ==> |w| >= 1)
  }

  ghost predicate Language(items: seq<Item>, w: string) {
    if items == [] then w == ""
    else exists k :: 0 <= k <= |w| && ItemLanguage(items[0], w[..k]) && Language(items[1..], w[k..])
  }

  /** Some prefix of `str` is in the language; the prefix is all of `str` when `$` ends the pattern. */
  ghost predicate MatchesHead(items: seq<Item>, toEnd: bool, str: string) {
    exists n :: 0 <= n <= |str| && Language(items, str[..n]) && (toEnd ==> n == |str|)
  }

  /** Some substring of `str` that respects the anchors is in the language. */
  ghost predicate Occurs(ast: Ast, str: string) {
    if ast.anchored then MatchesHead(ast.items, ast.toEnd, str)
    else exists i :: 0 <= i <= |str| && MatchesHead(ast.items, ast.toEnd, str[i..])
  }

  // ----- The validator -----

  /** What the validation loop still has to check of the remaining text. */
  ghost predicate TailAccepted(s: string, atStart: bool, prevRepeatable: bool) {
    if s == "" then true
    else if s[0] == '\\' then
      |s| >= 2 && IsEscapable(s[1]) && TailAccepted(s[2..], false, true)
    else
      && !(s[0] == '^' && !atStart)
      && !(s[0] == '$' && |s| > 1)
      && !IsInSet(s[0], "()[]{}|")
      && !(IsRepeat(s[0]) && !prevRepeatable)
      && TailAccepted(s[1..], false, !IsInSet(s[0], "^$?*+"))
  }

  lemma {:induction false} ParseTail(s: string) returns (items: seq<Item>, toEnd: bool)
    requires '\0' !in s && TailAccepted(s, false, false)
    ensures ValidItems(items) && RenderTail(items, toEnd) == s
    decreases |s|
  {
    if s == "" {
      return [], false;
    }
    if s == "$" {
      return [], true;
    }
    var item, rest := ParseItem(s);
    var items';
    items', toEnd := ParseTail(rest);
    items := [item] + items';
    assert items[1..] == items';
  }

  /** The repetition at the head of a text, and what follows it. */
  lemma ParseRepeat(s: string) returns (repeat: Repeat, rest: string)
    requires TailAccepted(s, false, true) && '\0' !in s
    ensures s == RenderRepeat(repeat) + rest && TailAccepted(rest, false, false) && '\0' !in rest
  {
    if s != "" && IsRepeat(s[0]) {
      repeat := if s[0] == '?' then Optional else if s[0] == '*' then Star else Plus;
      rest := s[1..];
      assert IsInSet(s[0], "^$?*+");
    } else {
      repeat, rest := Once, s;
      NotRepeated(s);
    }
  }

  /** Only a repetition needs something to repeat. */
  lemma NotRepeated(s: string)
    requires TailAccepted(s, false, true) && (s == "" || !IsRepeat(s[0]))
    ensures TailAccepted(s, false, false)
  {
  }

  /** The item at the head of a text, and what follows it. */
  lemma ParseItem(s: string) returns (item: Item, rest: string)
    requires '\0' !in s && TailAccepted(s, false, false) && s != "" && s != "$"
    ensures ValidItem(item) && s == RenderAtom(item) + RenderRepeat(item.repeat) + rest
    ensures |rest| < |s| && TailAccepted(rest, false, false) && '\0' !in rest
  {
    var atom, rest' := ParseAtom(s);
    var repeat;
    repeat, rest := ParseRepeat(rest');
    item := atom.(repeat := repeat);
    RepeatedAtom(atom, repeat);
    Associate(RenderAtom(item), RenderRepeat(repeat), rest);
  }

  lemma RepeatedAtom(atom: Item, repeat: Repeat)
    ensures ValidItem(atom.(repeat := repeat)) <==> ValidItem(atom)
    ensures RenderAtom(atom.(repeat := repeat)) == RenderAtom(atom)
  {
  }

  lemma Associate(a: string, b: string, c: string)
    ensures a + (b + c) == a + b + c
  {
  }

  lemma ParseAtom(s: string) returns (atom: Item, rest: string)
    requires '\0' !in s && TailAccepted(s, false, false) && s != "" && s != "$"
    ensures ValidItem(atom) && s == RenderAtom(atom) + rest
    ensures |rest| < |s| && TailAccepted(rest, false, true) && '\0' !in rest
  {
    AtomIsValid(s);
    if s[0] == '\\' {
      atom, rest := Item(true, s[1], Once), s[2..];
      assert s == [s[0], s[1]] + rest;
    } else {
      atom, rest := Item(false, s[0], Once), s[1..];
      assert s == [s[0]] + rest;
    }
  }

  lemma AtomIsValid(s: string)
    requires '\0' !in s && TailAccepted(s, false, false) && s != "" && s != "$"
    ensures s[0] == '\\' ==> |s| >= 2 && IsEscapable(s[1]) && TailAccepted(s[2..], false, true)
    ensures s[0] != '\\' ==> s[0] !in "^$()[]{}|?*+\\" && s[0] != '\0' && TailAccepted(s[1..], false, true)
  {
    assert |s| == 1 ==> s == [s[0]];
  }

  lemma AtomAccepted(item: Item, rest: string, prevRepeatable: bool)
    requires ValidItem(item) && TailAccepted(rest, false, true)
    ensures TailAccepted(RenderAtom(item) + rest, false, prevRepeatable)
  {
    var s := RenderAtom(item) + rest;
    if item.escaped {
      assert s[2..] == rest;
    } else {
      assert item.c !in "^$?*+" && item.c !in "()[]{}|";
      assert !IsInSet(item.c, "^$?*+");
      assert !IsInSet(item.c, "()[]{}|");
      assert !IsInSet(item.c, "?*+");
      assert s[1..] == rest;
    }
  }

  lemma RepeatAccepted(repeat: Repeat, rest: string)
    requires TailAccepted(rest, false, false) && TailAccepted(rest, false, true)
    ensures TailAccepted(RenderRepeat(repeat) + rest, false, true)
  {
    var s := RenderRepeat(repeat) + rest;
    if repeat.Once? {
      assert s == rest;
    } else {
      assert s[1..] == rest;
      assert IsInSet(s[0], "^$?*+") && !IsInSet(s[0], "()[]{}|");
    }
  }

  lemma DollarAccepted(prevRepeatable: bool)
    ensures TailAccepted("$", false, prevRepeatable)
  {
    var s := "$";
    assert s[0] == '$' && |s| == 1;
    assert TailAccepted(s[1..], false, false);
    assert !IsInSet('$', "()[]{}|");
  }

  lemma {:induction false} RenderedTailAccepted(items: seq<Item>, toEnd: bool, prevRepeatable: bool)
    requires ValidItems(items)
    ensures TailAccepted(RenderTail(items, toEnd), false, prevRepeatable)
    decreases |items|
  {
    if items == [] {
      DollarAccepted(prevRepeatable);
    } else {
      var rest := RenderTail(items[1..], toEnd);
      RenderedTailAccepted(items[1..], toEnd, false);
      RenderedTailAccepted(items[1..], toEnd, true);
      RepeatAccepted(items[0].repeat, rest);
      AtomAccepted(items[0], RenderRepeat(items[0].repeat) + rest, prevRepeatable);
      RenderTailUnfolds(items, toEnd);
    }
  }

  lemma RenderTailUnfolds(items: seq<Item>, toEnd: bool)
    requires items != []
    ensures RenderTail(items, toEnd) ==
      RenderAtom(items[0]) + (RenderRepeat(items[0].repeat) + RenderTail(items[1..], toEnd))
  {
  }

  lemma {:induction false} RenderedHasNoNul(items: seq<Item>, toEnd: bool)
    requires ValidItems(items)
    ensures '\0' !in RenderTail(items, toEnd)
  {
    if items != [] {
      RenderedHasNoNul(items[1..], toEnd);
    }
  }

  lemma AcceptedHasAst(regex: string) returns (ast: Ast)
    requires '\0' !in regex && TailAccepted(regex, true, false)
    ensures Denotes(regex, ast)
  {
    var anchored := regex != "" && regex[0] == '^';
    var s := if anchored then regex[1..] else regex;
    var items, toEnd := ParseTail(s);
    ast := Ast(anchored, items, toEnd);
  }

  lemma RenderedAccepted(ast: Ast)
    requires ValidItems(ast.items)
    ensures TailAccepted(Render(ast), true, false)
  {
    var regex, tail := Render(ast), RenderTail(ast.items, ast.toEnd);
    RenderedTailAccepted(ast.items, ast.toEnd, false);
    if ast.anchored {
      assert regex[1..] == tail;
      assert IsInSet('^', "^$?*+") && !IsInSet('^', "()[]{}|");
    } else {
      assert regex == tail;
    }
  }

  /** The grammar and the left-to-right check agree. */
  lemma AcceptedIsWellFormed(regex: string)
    requires '\0' !in regex
    ensures TailAccepted(regex, true, false) <==> WellFormed(regex)
  {
    if TailAccepted(regex, true, false) {
      var ast := AcceptedHasAst(regex);
    }
    if WellFormed(regex) {
      var ast :| Denotes(regex, ast);
      RenderedAccepted(ast);
    }
  }

  method ValidateRegex(regex: Option<string>) returns (isValid: bool)
    requires regex.Some? ==> '\0' !in regex.value
    ensures isValid <==> regex.Some? && WellFormed(regex.value)
  {
    if regex.None? {
      return false;
    }
    var s := regex.value;
    AcceptedIsWellFormed(s);
    isValid := true;
    var prevRepeatable := false;
    var i := 0;
    assert s[0..] == s;
    while i < |s|
      invariant 0 <= i <= |s|
      invariant TailAccepted(s, true, false) <==> isValid && TailAccepted(s[i..], i == 0, prevRepeatable)
    {
      ghost var tail := s[i..];
      if s[i] == '\\' {
        i := i + 1;
        if CharAt(s, i) == '\0' {
          return false;
        }
        ValidEscapeIff(s[i]);
        if !IsValidEscape(s[i]) {
          isValid := false;
        }
        prevRepeatable := true;
        assert tail[2..] == s[i + 1..];
      } else {
        var ch := s[i];
        if ch == '^' && i > 0 {
          isValid := false;
        } else if ch == '$' && CharAt(s, i + 1) != '\0' {
          isValid := false;
        } else if IsInSet(ch, "()[]{}|") {
          isValid := false;
        } else if IsRepeat(ch) && !prevRepeatable {
          isValid := false;
        }
        prevRepeatable := !IsInSet(ch, "^$?*+");
        assert tail[1..] == s[i + 1..];
      }
      i := i + 1;
    }
  }

  // ----- The matcher -----

  /** The largest repetition count the matcher tries: the greatest 64-bit size, less one. */
  const MAX_COUNT: nat := 0xFFFF_FFFF_FFFF_FFFE

  /** A string whose characters, and terminator, can be indexed by a 64-bit size. */
  ghost predicate CString(s: string) {
    '\0' !in s && |s| <= MAX_COUNT
  }

  lemma SlicesCompose(s: string, k: nat, n: nat)
    requires k <= n <= |s|
    ensures s[..n][..k] == s[..k] && s[..n][k..] == s[k..][..n - k]
  {
  }

  /** The first item matches the first `k` characters, and the others the head of what follows. */
  ghost predicate SplitsAt(items: seq<Item>, toEnd: bool, str: string, k: nat)
    requires items != []
  {
    k <= |str| && ItemLanguage(items[0], str[..k]) && MatchesHead(items[1..], toEnd, str[k..])
  }

  /** Matching a head is matching the first item on some first piece, and the rest after it. */
  lemma MatchesHeadUnfolds(items: seq<Item>, toEnd: bool, str: string)
    requires items != []
    ensures MatchesHead(items, toEnd, str) <==> exists k: nat :: SplitsAt(items, toEnd, str, k)
  {
    if MatchesHead(items, toEnd, str) {
      var k := MatchSplits(items, toEnd, str);
    }
    if k: nat :| SplitsAt(items, toEnd, str, k) {
      SplitMatches(items, toEnd, str, k);
    }
  }

  lemma MatchSplits(items: seq<Item>, toEnd: bool, str: string) returns (k: nat)
    requires items != [] && MatchesHead(items, toEnd, str)
    ensures SplitsAt(items, toEnd, str, k)
  {
    var n :| 0 <= n <= |str| && Language(items, str[..n]) && (toEnd ==> n == |str|);
    var w := str[..n];
    k :| 0 <= k <= |w| && ItemLanguage(items[0], w[..k]) && Language(items[1..], w[k..]);
    SlicesCompose(str, k, n);
    assert Language(items[1..], str[k..][..n - k]);
  }

  lemma SplitMatches(items: seq<Item>, toEnd: bool, str: string, k: nat)
    requires items != [] && SplitsAt(items, toEnd, str, k)
    ensures MatchesHead(items, toEnd, str)
  {
    var tail := str[k..];
    var m :| 0 <= m <= |tail| && Language(items[1..], tail[..m]) && (toEnd ==> m == |tail|);
    SlicesCompose(str, k, k + m);
    assert Language(items, str[..k + m]);
  }

  lemma EmptyTailMatches(toEnd: bool, str: string)
    ensures MatchesHead([], toEnd, str) <==> !toEnd || str == ""
  {
    assert str[..0] == "";
  }

  function MinCount(repeat: char): nat { if repeat == '+' then 1 else 0 }

  function MaxCount(repeat: char): nat { if repeat == '?' then 1 else MAX_COUNT }

  method MatchRepetitionAndRegexAtHead(escaped: bool, c: char, repeat: char, regex: string, str: string,
                                       ghost items: seq<Item>, ghost toEnd: bool) returns (r: bool)
    requires CString(str) && items != [] && ValidItems(items)
    requires items[0].escaped == escaped && items[0].c == c && RenderRepeat(items[0].repeat) == [repeat]
    requires regex == RenderTail(items[1..], toEnd)
    ensures r <==> MatchesHead(items, toEnd, str)
    decreases |items|, 0
  {
    var minCount, maxCount := MinCount(repeat), MaxCount(repeat);
    MatchesHeadUnfolds(items, toEnd, str);
    var i := 0;
    while i <= maxCount
      invariant 0 <= i <= |str|
      invariant forall j :: 0 <= j < i ==> AtomMatchesChar(escaped, c, str[j])
      invariant forall k: nat :: k < i ==> !SplitsAt(items, toEnd, str, k)
      decreases |str| - i
    {
      RepeatedPrefix(items[0], repeat, str, i);
      if i >= minCount {
        var tailMatches := MatchRegexAtHead(regex, str[i..], items[1..], toEnd);
        if tailMatches {
          assert SplitsAt(items, toEnd, str, i);
          return true;
        }
      }
      if CharAt(str, i) == '\0' || !AtomMatchesChar(escaped, c, str[i]) {
        NoLongerPrefix(items, toEnd, str, i);
        return false;
      }
      i := i + 1;
    }
    TooManyRepetitions(items, repeat, toEnd, str, i);
    return false;
  }

  /** A prefix of matching characters is a repetition exactly when its length is in range. */
  lemma RepeatedPrefix(item: Item, repeat: char, str: string, i: nat)
    requires CString(str) && RenderRepeat(item.repeat) == [repeat] && i <= |str|
    requires forall j :: 0 <= j < i ==> AtomMatchesChar(item.escaped, item.c, str[j])
    ensures ItemLanguage(item, str[..i]) <==> MinCount(repeat) <= i <= MaxCount(repeat)
  {
    AllMatch(item, str[..i]);
    ItemLength(item, repeat, str[..i]);
  }

  lemma AllMatch(item: Item, w: string)
    requires forall j :: 0 <= j < |w| ==> AtomMatchesChar(item.escaped, item.c, w[j])
    ensures AllDenoted(item, w)
  {
    forall j | 0 <= j < |w| ensures AtomDenotes(item.escaped, item.c, w[j]) {
      AtomTestDecides(item.escaped, item.c, w[j]);
    }
  }

  lemma ItemLength(item: Item, repeat: char, w: string)
    requires CString(w) && RenderRepeat(item.repeat) == [repeat] && AllDenoted(item, w)
    ensures ItemLanguage(item, w) <==> MinCount(repeat) <= |w| <= MaxCount(repeat)
  {
  }

  /** A character that does not match ends the repetition. */
  lemma NoLongerPrefix(items: seq<Item>, toEnd: bool, str: string, i: nat)
    requires items != [] && CString(str) && i <= |str|
    requires i < |str| ==> !AtomMatchesChar(items[0].escaped, items[0].c, str[i])
    ensures forall k: nat :: k > i ==> !SplitsAt(items, toEnd, str, k)
  {
    forall k: nat | i < k <= |str| ensures !AllDenoted(items[0], str[..k]) {
      assert str[..k][i] == str[i];
      AtomTestDecides(items[0].escaped, items[0].c, str[i]);
    }
  }

  lemma TooManyRepetitions(items: seq<Item>, repeat: char, toEnd: bool, str: string, i: nat)
    requires items != [] && CString(str) && RenderRepeat(items[0].repeat) == [repeat] && i > MaxCount(repeat)
    ensures forall k: nat :: k >= i ==> !SplitsAt(items, toEnd, str, k)
  {
    assert forall k :: i <= k <= |str| ==> |str[..k]| == k;
  }

  function AtomWidth(item: Item): nat { if item.escaped then 2 else 1 }

  /** Reads off the first atom of a rendered tail the way the matcher does. */
  lemma RenderedAtom(items: seq<Item>, toEnd: bool)
    requires items != [] && ValidItem(items[0])
    ensures var s, item, n := RenderTail(items, toEnd), items[0], AtomWidth(items[0]);
      && |s| >= n && s[0] != '\0' && s[0] != '$' && (s[0] == '\\' <==> item.escaped) && s[n - 1] == item.c
      && s[n..] == RenderRepeat(item.repeat) + RenderTail(items[1..], toEnd)
  {
    var tail := RenderRepeat(items[0].repeat) + RenderTail(items[1..], toEnd);
    assert RenderTail(items, toEnd) == RenderAtom(items[0]) + tail;
  }

  lemma RenderedHead(items: seq<Item>, toEnd: bool)
    requires items != [] && ValidItems(items)
    ensures var s, item, n := RenderTail(items, toEnd), items[0], AtomWidth(items[0]);
      && |s| >= n && s[0] != '\0' && s[0] != '$' && (s[0] == '\\' <==> item.escaped) && s[n - 1] == item.c
      && (IsRepeat(CharAt(s, n)) <==> !item.repeat.Once?)
      && (item.repeat.Once? ==> s[n..] == RenderTail(items[1..], toEnd))
      && (!item.repeat.Once? ==> RenderRepeat(item.repeat) == [s[n]] && s[n + 1..] == RenderTail(items[1..], toEnd))
  {
    RenderedAtom(items, toEnd);
    var s, n, rest := RenderTail(items, toEnd), AtomWidth(items[0]), RenderTail(items[1..], toEnd);
    NotARepeat(items[1..], toEnd);
    if items[0].repeat.Once? {
      assert s[n..] == rest;
      assert CharAt(s, n) == CharAt(rest, 0);
    } else {
      var mark := RenderRepeat(items[0].repeat);
      assert s[n] == s[n..][0] == mark[0];
      assert s[n + 1..] == s[n..][1..] == rest;
    }
  }

  lemma NotARepeat(items: seq<Item>, toEnd: bool)
    requires ValidItems(items)
    ensures !IsRepeat(CharAt(RenderTail(items, toEnd), 0))
  {
    if items != [] {
      assert ValidItem(items[0]);
      assert CharAt(RenderTail(items, toEnd), 0) == RenderAtom(items[0])[0];
    }
  }

  method MatchRegexAtHead(regex: string, str: string, ghost items: seq<Item>, ghost toEnd: bool) returns (r: bool)
    requires CString(str) && ValidItems(items) && regex == RenderTail(items, toEnd)
    ensures r <==> MatchesHead(items, toEnd, str)
    decreases |items|, 1
  {
    if items != [] {
      RenderedHead(items, toEnd);
    } else {
      EmptyTailMatches(toEnd, str);
    }
    if CharAt(regex, 0) == '\0' {
      return true;
    }
    if regex[0] == '$' {
      return CharAt(str, 0) == '\0';
    }
    var escaped := regex[0] == '\\';
    var rest := if escaped then regex[1..] else regex;
    if IsRepeat(CharAt(rest, 1)) {
      r := MatchRepetitionAndRegexAtHead(escaped, rest[0], rest[1], rest[2..], str, items, toEnd);
    } else {
      SingleCharacter(items, toEnd, str);
      if str == "" {
        return false;
      }
      r := AtomMatchesChar(escaped, rest[0], str[0]);
      if r {
        assert rest[1..] == RenderTail(items[1..], toEnd);
        r := MatchRegexAtHead(rest[1..], str[1..], items[1..], toEnd);
      }
    }
  }

  lemma OneCharacterItem(item: Item, w: string)
    requires item.repeat.Once?
    ensures ItemLanguage(item, w) <==> |w| == 1 && AtomMatchesChar(item.escaped, item.c, w[0])
  {
    if |w| == 1 {
      AtomTestDecides(item.escaped, item.c, w[0]);
    }
  }

  /** An atom that is not repeated matches just the first character. */
  lemma SingleCharacter(items: seq<Item>, toEnd: bool, str: string)
    requires items != [] && items[0].repeat.Once?
    ensures MatchesHead(items, toEnd, str) <==>
      str != "" && AtomMatchesChar(items[0].escaped, items[0].c, str[0]) && MatchesHead(items[1..], toEnd, str[1..])
  {
    MatchesHeadUnfolds(items, toEnd, str);
    forall k: nat | k <= |str| ensures ItemLanguage(items[0], str[..k]) <==>
      k == 1 && AtomMatchesChar(items[0].escaped, items[0].c, str[0])
    {
      OneCharacterItem(items[0], str[..k]);
    }
    assert str != "" ==> (SplitsAt(items, toEnd, str, 1) <==> ItemLanguage(items[0], str[..1]) && MatchesHead(items[1..], toEnd, str[1..]));
  }

  method MatchRegexAnywhere(regex: Option<string>, str: Option<string>, ghost ast: Ast) returns (r: bool)
    requires regex.Some? ==> Denotes(regex.value, ast)
    requires str.Some? ==> CString(str.value)
    ensures r <==> regex.Some? && str.Some? && Occurs(ast, str.value)
  {
    if regex.None? || str.None? {
      return false;
    }
    var p, s := regex.value, str.value;
    AnchorIsFirst(ast);
    if CharAt(p, 0) == '^' {
      r := MatchRegexAtHead(p[1..], s, ast.items, ast.toEnd);
      return;
    }
    var i := 0;
    while true
      invariant 0 <= i <= |s|
      invariant forall j :: 0 <= j < i ==> !MatchesHead(ast.items, ast.toEnd, s[j..])
      decreases |s| - i
    {
      var here := MatchRegexAtHead(p, s[i..], ast.items, ast.toEnd);
      if here {
        return true;
      }
      if CharAt(s, i) == '\0' {
        return false;
      }
      i := i + 1;
    }
  }

  lemma AnchorIsFirst(ast: Ast)
    requires ValidItems(ast.items)
    ensures CharAt(Render(ast), 0) == '^' <==> ast.anchored
    ensures ast.anchored ==> Render(ast)[1..] == RenderTail(ast.items, ast.toEnd)
    ensures !ast.anchored ==> Render(ast) == RenderTail(ast.items, ast.toEnd)
  {
    if !ast.anchored && ast.items != [] {
      RenderedHead(ast.items, ast.toEnd);
      assert ValidItem(ast.items[0]);
    }
  }

  // ----- The RE class -----

  /** The pattern's last item is an escaped `$`, which the end-anchor test mistakes for the anchor. */
  ghost predicate EndsWithEscapedDollar(ast: Ast) { !ast.toEnd && LastIsDollar(ast.items) }

  ghost predicate LastIsDollar(items: seq<Item>) {
    items != [] && items[|items| - 1] == Item(true, '$', Once)
  }

  /** What a match of the whole string means: the anchors add nothing to it. */
  ghost predicate MatchesWhole(ast: Ast, str: string) {
    Language(ast.items, str)
  }

  /** The answer the code gives for a full match. */
  ghost predicate FullMatchAnswer(ast: Ast, str: string) {
    if EndsWithEscapedDollar(ast) then MatchesHead(ast.items, false, str) else MatchesWhole(ast, str)
  }

  function EndAnchor(s: string): string {
    if s == "" || s[|s| - 1] != '$' then "$" else ""
  }

  /** The pattern a full match runs, and the tree it denotes. */
  function FullPattern(regex: string): string {
    (if CharAt(regex, 0) != '^' then "^" else "") + regex + EndAnchor(regex)
  }

  ghost function FullAst(ast: Ast): Ast {
    Ast(true, ast.items, !EndsWithEscapedDollar(ast))
  }

  lemma EmptyRendering(items: seq<Item>, toEnd: bool)
    ensures items != [] || toEnd ==> RenderTail(items, toEnd) != ""
  {
    if items != [] {
      assert |RenderAtom(items[0])| > 0;
    }
  }

  lemma {:induction false} RenderedLast(items: seq<Item>, toEnd: bool)
    requires ValidItems(items)
    ensures var s := RenderTail(items, toEnd);
      (s != "" && s[|s| - 1] == '$') <==>
      toEnd || LastIsDollar(items)
    decreases |items|
  {
    if items != [] {
      var head, rest := RenderAtom(items[0]) + RenderRepeat(items[0].repeat), RenderTail(items[1..], toEnd);
      assert RenderTail(items, toEnd) == head + rest;
      RenderedLast(items[1..], toEnd);
      if rest == "" {
        EmptyRendering(items[1..], toEnd);
        LastOfItem(items[0]);
      } else {
        LastOfConcat(head, rest);
        LastOfTail(items);
      }
    }
  }

  lemma LastOfConcat(head: string, rest: string)
    requires rest != ""
    ensures (head + rest)[|head + rest| - 1] == rest[|rest| - 1]
  {
  }

  lemma LastOfTail(items: seq<Item>)
    requires items != []
    ensures items[1..] != [] ==> (LastIsDollar(items[1..]) <==> LastIsDollar(items))
  {
  }

  lemma LastOfItem(item: Item)
    requires ValidItem(item)
    ensures var s := RenderAtom(item) + RenderRepeat(item.repeat);
      s != "" && (s[|s| - 1] == '$' <==> item == Item(true, '$', Once))
  {
    assert '$' in "^$()[]{}|?*+\\";
  }

  lemma {:induction false} EndAnchorAppends(items: seq<Item>)
    ensures RenderTail(items, false) + "$" == RenderTail(items, true)
  {
    if items != [] {
      EndAnchorAppends(items[1..]);
      var head := RenderAtom(items[0]) + RenderRepeat(items[0].repeat);
      assert head + RenderTail(items[1..], false) + "$" == head + (RenderTail(items[1..], false) + "$");
    }
  }

  lemma FullTail(ast: Ast)
    requires ValidItems(ast.items)
    ensures var tail := RenderTail(ast.items, ast.toEnd);
      tail + EndAnchor(tail) == RenderTail(ast.items, !EndsWithEscapedDollar(ast))
  {
    RenderedLast(ast.items, ast.toEnd);
    EndAnchorAppends(ast.items);
  }

  lemma FullPatternShape(tail: string, anchored: bool)
    requires !anchored ==> CharAt(tail, 0) != '^'
    ensures FullPattern((if anchored then "^" else "") + tail) == "^" + (tail + EndAnchor(tail))
  {
    var regex := (if anchored then "^" else "") + tail;
    if tail != "" {
      assert regex[|regex| - 1] == tail[|tail| - 1];
    }
    assert EndAnchor(regex) == EndAnchor(tail);
    if anchored {
      assert regex[0] == '^';
      assert FullPattern(regex) == regex + EndAnchor(tail);
    } else {
      assert regex == tail;
      assert FullPattern(regex) == "^" + tail + EndAnchor(tail);
    }
  }

  lemma FullPatternDenotes(regex: string, ast: Ast)
    requires Denotes(regex, ast)
    ensures Denotes(FullPattern(regex), FullAst(ast))
  {
    AnchorIsFirst(ast);
    FullTail(ast);
    FullPatternShape(RenderTail(ast.items, ast.toEnd), ast.anchored);
  }

  class RE {
    var pattern: Option<string>
    var fullPattern: Option<string>
    var isValid: bool

    ghost predicate Inited()
      reads this
    {
      && (isValid <==> pattern.Some? && WellFormed(pattern.value))
      && (pattern.Some? ==> '\0' !in pattern.value)
      && fullPattern == if isValid then Some(FullPattern(pattern.value)) else None
    }

    constructor Init(regex: Option<string>)
      requires regex.Some? ==> '\0' !in regex.value
      ensures Inited() && pattern == regex
    {
      pattern, fullPattern := None, None;
      isValid := false;
      new;
      if regex.Some? {
        pattern := regex;
      }
      isValid := ValidateRegex(regex);
      if !isValid {
        return;
      }
      var buffer := AnchoredPattern(regex.value);
      fullPattern := Some(buffer);
    }

    /** Fills a buffer with the pattern, anchored at both ends. */
    static method AnchoredPattern(s: string) returns (buffer: string)
      ensures buffer == FullPattern(s)
    {
      buffer := "";
      if CharAt(s, 0) != '^' {
        buffer := buffer + "^";
      }
      buffer := buffer + s;
      if |s| == 0 || s[|s| - 1] != '$' {
        buffer := buffer + "$";
      }
    }

    /** Decides a match of the whole string, unless the pattern ends with an escaped `$`. */
    static method FullMatch(str: string, re: RE) returns (r: bool)
      requires re.Inited() && CString(str)
      ensures !re.isValid ==> !r
      ensures forall ast :: re.isValid && Denotes(re.pattern.value, ast) ==>
        (r <==> FullMatchAnswer(ast, str))
    {
      if !re.isValid {
        return false;
      }
      ghost var ast :| Denotes(re.pattern.value, ast);
      FullPatternDenotes(re.pattern.value, ast);
      r := MatchRegexAnywhere(re.fullPattern, Some(str), FullAst(ast));
      assert str[..|str|] == str;
      forall other | Denotes(re.pattern.value, other) ensures other == ast {
        RenderInjective(ast, other);
      }
    }

    static method PartialMatch(str: string, re: RE) returns (r: bool)
      requires re.Inited() && CString(str)
      ensures !re.isValid ==> !r
      ensures forall ast :: re.isValid && Denotes(re.pattern.value, ast) ==> (r <==> Occurs(ast, str))
    {
      if !re.isValid {
        return false;
      }
      ghost var ast :| Denotes(re.pattern.value, ast);
      r := MatchRegexAnywhere(re.pattern, Some(str), ast);
      forall other | Denotes(re.pattern.value, other) ensures other == ast {
        RenderInjective(ast, other);
      }
    }
  }

  // ----- A pattern has one tree -----

  lemma {:induction false} RenderTailInjective(items: seq<Item>, toEnd: bool, items': seq<Item>, toEnd': bool)
    requires ValidItems(items) && ValidItems(items') && RenderTail(items, toEnd) == RenderTail(items', toEnd')
    ensures items == items' && toEnd == toEnd'
    decreases |items|
  {
    if items != [] {
      RenderedHead(items, toEnd);
    }
    if items' != [] {
      RenderedHead(items', toEnd');
    }
    if items != [] && items' != [] {
      assert items[0] == items'[0];
      RenderTailInjective(items[1..], toEnd, items'[1..], toEnd');
      assert items == [items[0]] + items[1..] == items';
    }
  }

  /** The grammar is unambiguous, so a pattern has one meaning. */
  lemma RenderInjective(ast: Ast, ast': Ast)
    requires ValidItems(ast.items) && ValidItems(ast'.items) && Render(ast) == Render(ast')
    ensures ast == ast'
  {
    AnchorIsFirst(ast);
    AnchorIsFirst(ast');
    RenderTailInjective(ast.items, ast.toEnd, ast'.items, ast'.toEnd);
  }

  // ----- When a full match means a whole match -----

  /** A character each valid atom matches. */
  /** Some character that the atom stands for. */
  lemma AtomIsSatisfiable(item: Item) returns (ch: char)
    requires ValidItem(item)
    ensures ch != '\0' && ItemLanguage(item, [ch])
  {
    ch := if item.escaped && !IsPunctuation(item.c) then ClassMember(item.c) else item.c;
    DenotedByAtom(item, ch);
  }

  function ClassMember(c: char): char {
    match c
    case 'd' => '0'
    case 'f' => FORM_FEED
    case 'n' => '\n'
    case 'r' => '\r'
    case 's' => ' '
    case 't' => '\t'
    case 'v' => VERTICAL_TAB
    case 'W' => ' '
    case _ => 'x'
  }

  lemma DenotedByAtom(item: Item, ch: char)
    requires ValidItem(item)
    requires ch == if item.escaped && !IsPunctuation(item.c) then ClassMember(item.c) else item.c
    ensures ch != '\0' && AtomDenotes(item.escaped, item.c, ch)
  {
  }

  lemma {:induction false} LanguageIsInhabited(items: seq<Item>) returns (w: string)
    requires ValidItems(items)
    ensures '\0' !in w && |w| <= |items| && Language(items, w)
  {
    if items == [] {
      return "";
    }
    var ch := AtomIsSatisfiable(items[0]);
    var rest := LanguageIsInhabited(items[1..]);
    w := [ch] + rest;
    assert w[..1] == [ch] && w[1..] == rest;
  }

  /** Every string of a language whose last item is an escaped `$` ends with `$`. */
  lemma {:induction false} LanguageEndsWithDollar(items: seq<Item>, w: string)
    requires LastIsDollar(items) && Language(items, w)
    ensures w != "" && w[|w| - 1] == '$'
  {
    var k :| 0 <= k <= |w| && ItemLanguage(items[0], w[..k]) && Language(items[1..], w[k..]);
    if |items| == 1 {
      assert w[k..] == "" && w[..k] == w;
      OnlyDollarMatches(w);
    } else {
      LanguageEndsWithDollar(items[1..], w[k..]);
    }
  }

  lemma OnlyDollarMatches(w: string)
    requires ItemLanguage(Item(true, '$', Once), w)
    ensures w == ['$']
  {
    assert AtomDenotes(true, '$', w[0]);
  }

  /** Full matching is whole matching exactly for the patterns that do not end with an escaped `$`. */
  lemma FullMatchIsWholeMatchIff(ast: Ast)
    requires ValidItems(ast.items) && |ast.items| < MAX_COUNT
    ensures (forall str :: CString(str) ==> (FullMatchAnswer(ast, str) <==> MatchesWhole(ast, str)))
      <==> !EndsWithEscapedDollar(ast)
  {
    if EndsWithEscapedDollar(ast) {
      var str := MatchedButNotWhole(ast);
    }
  }

  lemma MatchedButNotWhole(ast: Ast) returns (str: string)
    requires ValidItems(ast.items) && |ast.items| < MAX_COUNT && EndsWithEscapedDollar(ast)
    ensures CString(str) && FullMatchAnswer(ast, str) && !MatchesWhole(ast, str)
  {
    str := LongerThanMatch(ast.items);
    PrefixIsAnswer(ast, str);
  }

  lemma PrefixIsAnswer(ast: Ast, str: string)
    requires EndsWithEscapedDollar(ast) && MatchesHead(ast.items, false, str) && !Language(ast.items, str)
    ensures FullMatchAnswer(ast, str) && !MatchesWhole(ast, str)
  {
  }

  /** A string of the language, and one more character. */
  lemma LongerThanMatch(items: seq<Item>) returns (str: string)
    requires ValidItems(items) && |items| < MAX_COUNT && LastIsDollar(items)
    ensures CString(str) && MatchesHead(items, false, str) && !Language(items, str)
  {
    var w := LanguageIsInhabited(items);
    str := w + ['x'];
    AppendedIsCString(w);
    PrefixMatchesHead(items, w, ['x']);
    NotEndingWithDollar(items, str);
  }

  lemma AppendedIsCString(w: string)
    requires '\0' !in w && |w| < MAX_COUNT
    ensures CString(w + ['x'])
  {
  }

  lemma NotEndingWithDollar(items: seq<Item>, str: string)
    requires LastIsDollar(items) && str != "" && str[|str| - 1] != '$'
    ensures !Language(items, str)
  {
    if Language(items, str) {
      LanguageEndsWithDollar(items, str);
    }
  }

  lemma PrefixMatchesHead(items: seq<Item>, w: string, rest: string)
    requires Language(items, w)
    ensures MatchesHead(items, false, w + rest)
  {
    assert (w + rest)[..|w|] == w;
  }
}
