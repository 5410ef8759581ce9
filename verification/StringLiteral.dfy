/**
 * Printing of byte strings as C string literals (gtest-printers.cc), judged by a lexer for
 * adjacent string literals: escape sequences of section 6.4.4.4 and concatenation of section 6.4.5
 * of ISO C99, with maximal munch for hexadecimal and octal escapes.
 */
module StringLiteral {
  import opened Wrappers
  import opened OutputStream

  type Byte = x: int | 0 <= x < 256

  // ----- The lexer -----

  predicate IsOctalDigit(ch: char) { '0' <= ch <= '7' }

  predicate IsXDigit(ch: char) {
    '0' <= ch <= '9' || 'a' <= ch <= 'f' || 'A' <= ch <= 'F'
  }

  function DigitValue(ch: char): nat
    requires IsXDigit(ch)
  {
    if ch <= '9' then ch as int - '0' as int
    else if ch <= 'F' then ch as int - 'A' as int + 10
    else ch as int - 'a' as int + 10
  }

  /** The length of the run of hexadecimal digits at the head of `s`. */
  function HexRun(s: string): (n: nat)
    ensures n <= |s| && forall i :: 0 <= i < n ==> IsXDigit(s[i])
    ensures n == |s| || !IsXDigit(s[n])
  {
    if s != "" && IsXDigit(s[0]) then 1 + HexRun(s[1..]) else 0
  }

  /** The length of the run of at most `limit` octal digits at the head of `s`. */
  function OctalRun(s: string, limit: nat): (n: nat)
    ensures n <= limit && n <= |s| && forall i :: 0 <= i < n ==> IsOctalDigit(s[i])
    ensures n == limit || n == |s| || !IsOctalDigit(s[n])
  {
    if limit > 0 && s != "" && IsOctalDigit(s[0]) then 1 + OctalRun(s[1..], limit - 1) else 0
  }

  function Numeral(digits: string, base: nat): nat
    requires forall i :: 0 <= i < |digits| ==> IsXDigit(digits[i])
  {
    if digits == "" then 0
    else Numeral(digits[..|digits| - 1], base) * base + DigitValue(digits[|digits| - 1])
  }

  function SimpleEscape(ch: char): Option<Byte> {
    match ch
    case '\'' => Some(39)
    case '"' => Some(34)
    case '?' => Some(63)
    case '\\' => Some(92)
    case 'a' => Some(7)
    case 'b' => Some(8)
    case 'f' => Some(12)
    case 'n' => Some(10)
    case 'r' => Some(13)
    case 't' => Some(9)
    case 'v' => Some(11)
    case _ => None
  }

  datatype Lexeme = Lexeme(value: nat, width: nat)

  /** The character or escape sequence at the head of `s`. */
  function LexChar(s: string): (r: Option<Lexeme>)
    ensures r.Some? ==> 1 <= r.value.width <= |s|
  {
    if s == "" || s[0] == '\n' then None
    else if s[0] != '\\' then Some(Lexeme(s[0] as int, 1))
    else if |s| == 1 then None
    else if s[1] == 'x' then
      var n := HexRun(s[2..]);
      if n == 0 then None else Some(Lexeme(Numeral(s[2..2 + n], 16), 2 + n))
    else if IsOctalDigit(s[1]) then
      var n := OctalRun(s[1..], 3);
      Some(Lexeme(Numeral(s[1..1 + n], 8), 1 + n))
    else match SimpleEscape(s[1])
      case None => None
      case Some(v) => Some(Lexeme(v, 2))
  }

  /** The bytes of adjacent literals, read from within one of them. */
  function LexInside(s: string): Option<seq<Byte>>
    decreases |s|
  {
    if s != "" && s[0] == '"' then LexOutside(s[1..])
    else match LexChar(s)
      case None => None
      case Some(c) =>
        if c.value > 255 then None
        else match LexInside(s[c.width..])
          case None => None
          case Some(bytes) => Some([c.value] + bytes)
  }

  /** The bytes of adjacent literals, read from between two of them. */
  function LexOutside(s: string): Option<seq<Byte>>
    decreases |s|
  {
    if s == "" then Some([])
    else if s[0] == ' ' then LexOutside(s[1..])
    else if s[0] == '"' then LexInside(s[1..])
    else None
  }

  // ----- The printed text -----

  datatype CharFormat = AsIs | HexEscape | SpecialEscape

  predicate IsPrintableAscii(c: Byte) { 0x20 <= c <= 0x7E }

  function HexDigit(d: nat): char
    requires d < 16
  {
    "0123456789ABCDEF"[d]
  }

  function Hex(c: Byte): string {
    if c < 16 then [HexDigit(c)] else [HexDigit(c / 16), HexDigit(c % 16)]
  }

  function CharText(c: Byte): string {
    match c
    case 0 => "\\0"
    case 39 => "\\'"
    case 92 => "\\\\"
    case 7 => "\\a"
    case 8 => "\\b"
    case 12 => "\\f"
    case 10 => "\\n"
    case 13 => "\\r"
    case 9 => "\\t"
    case 11 => "\\v"
    case _ => if IsPrintableAscii(c) then [c as char] else "\\x" + Hex(c)
  }

  function CharFormatOf(c: Byte): CharFormat {
    if c in {0, 39, 92, 7, 8, 12, 10, 13, 9, 11} then SpecialEscape
    else if IsPrintableAscii(c) then AsIs
    else HexEscape
  }

  function StringCharText(c: Byte): string {
    if c == 39 then "'" else if c == 34 then "\\\"" else CharText(c)
  }

  function StringCharFormatOf(c: Byte): CharFormat {
    if c == 39 then AsIs else if c == 34 then SpecialEscape else CharFormatOf(c)
  }

  predicate IsHexEscaped(c: Byte) { StringCharFormatOf(c).HexEscape? }

  function Printed(bytes: seq<Byte>, afterHex: bool): string {
    if bytes == [] then ""
    else
      (if afterHex && IsXDigit(bytes[0] as char) then "\" \"" else "")
      + StringCharText(bytes[0]) + Printed(bytes[1..], IsHexEscaped(bytes[0]))
  }

  function PrintedLiteral(bytes: seq<Byte>): string {
    "\"" + Printed(bytes, false) + "\""
  }

  // ----- The printers -----

  method PrintAsCharLiteralTo(c: Byte, os: OStream) returns (format: CharFormat)
    modifies os
    ensures os.text == old(os.text) + CharText(c) && format == CharFormatOf(c)
  {
    match c {
      case 0 => os.Write("\\0");
      case 39 => os.Write("\\'");
      case 92 => os.Write("\\\\");
      case 7 => os.Write("\\a");
      case 8 => os.Write("\\b");
      case 12 => os.Write("\\f");
      case 10 => os.Write("\\n");
      case 13 => os.Write("\\r");
      case 9 => os.Write("\\t");
      case 11 => os.Write("\\v");
      case _ =>
        if IsPrintableAscii(c) {
          os.Write([c as char]);
          return AsIs;
        } else {
          os.Write("\\x" + Hex(c));
          return HexEscape;
        }
    }
    return SpecialEscape;
  }

  method PrintAsStringLiteralTo(c: Byte, os: OStream) returns (format: CharFormat)
    modifies os
    ensures os.text == old(os.text) + StringCharText(c) && format == StringCharFormatOf(c)
  {
    if c == 39 {
      os.Write("'");
      return AsIs;
    } else if c == 34 {
      os.Write("\\\"");
      return SpecialEscape;
    }
    format := PrintAsCharLiteralTo(c, os);
  }

  method PrintCharsAsStringTo(begin: seq<Byte>, os: OStream)
    modifies os
    ensures os.text == old(os.text) + PrintedLiteral(begin)
  {
    ghost var total := os.text + "\"" + Printed(begin, false);
    ConcatAssociates(os.text, "\"", Printed(begin, false), "\"");
    os.Write("\"");
    var isPreviousHex := false;
    var index := 0;
    assert begin[0..] == begin;
    while index < |begin|
      invariant 0 <= index <= |begin|
      invariant os.text + Printed(begin[index..], isPreviousHex) == total
    {
      var cur := begin[index];
      PrintedNext(os.text, begin, index, isPreviousHex);
      if isPreviousHex && IsXDigit(cur as char) {
        os.Write("\" \"");
      }
      var format := PrintAsStringLiteralTo(cur, os);
      isPreviousHex := format == HexEscape;
      index := index + 1;
    }
    assert begin[index..] == [];
    assert os.text == total;
    os.Write("\"");
  }

  lemma PrintedNext(before: string, bytes: seq<Byte>, i: nat, afterHex: bool)
    requires i < |bytes|
    ensures before + Printed(bytes[i..], afterHex) ==
      (if afterHex && IsXDigit(bytes[i] as char) then before + "\" \"" else before)
      + StringCharText(bytes[i]) + Printed(bytes[i + 1..], IsHexEscaped(bytes[i]))
  {
    PrintedUnfolds(before, bytes[i..], afterHex);
    assert bytes[i..][1..] == bytes[i + 1..];
    assert before + "" == before;
  }

  lemma PrintedUnfolds(before: string, bytes: seq<Byte>, afterHex: bool)
    requires bytes != []
    ensures before + Printed(bytes, afterHex) ==
      before + (if afterHex && IsXDigit(bytes[0] as char) then "\" \"" else "")
      + StringCharText(bytes[0]) + Printed(bytes[1..], IsHexEscaped(bytes[0]))
  {
    var gap := if afterHex && IsXDigit(bytes[0] as char) then "\" \"" else "";
    ConcatAssociates(before, gap, StringCharText(bytes[0]), Printed(bytes[1..], IsHexEscaped(bytes[0])));
  }

  lemma ConcatAssociates(a: string, b: string, c: string, d: string)
    ensures a + (b + c + d) == a + b + c + d
  {
  }

  // ----- The round trip -----

  lemma HexDigitReads(d: nat)
    requires d < 16
    ensures IsXDigit(HexDigit(d)) && DigitValue(HexDigit(d)) == d
  {
  }

  lemma {:induction false} HexReads(c: Byte, tail: string)
    requires tail == "" || !IsXDigit(tail[0])
    ensures HexRun(Hex(c) + tail) == |Hex(c)|
    ensures forall i :: 0 <= i < |Hex(c)| ==> IsXDigit(Hex(c)[i])
    ensures Numeral(Hex(c), 16) == c
  {
    var s, h := Hex(c) + tail, Hex(c);
    HexDigitReads(c % 16);
    assert HexRun(tail) == 0;
    if c < 16 {
      assert s[1..] == tail;
      assert h[..0] == "";
    } else {
      HexDigitReads(c / 16);
      assert s[1..] == [h[1]] + tail;
      assert s[1..][1..] == tail;
      OneDigit(h[0]);
      assert h[..1] == [h[0]];
    }
  }

  lemma {:induction false} OneDigit(d: char)
    requires IsXDigit(d)
    ensures Numeral([d], 16) == Numeral([d], 8) == DigitValue(d)
  {
    assert [d][..0] == "";
  }

  lemma {:induction false} NulReads(tail: string)
    requires tail == "" || !IsOctalDigit(tail[0])
    ensures LexChar("\\0" + tail) == Some(Lexeme(0, 2))
  {
    var s := "\\0" + tail;
    assert s[1..][1..] == tail;
    assert OctalRun(s[1..], 3) == 1;
    assert s[1..2] == "0" && "0"[..0] == "";
  }

  lemma SpecialText(c: Byte) returns (e: char)
    requires CharFormatOf(c).SpecialEscape? && c != 0
    ensures CharText(c) == ['\\', e] && SimpleEscape(e) == Some(c) && e != 'x' && !IsOctalDigit(e)
  {
    e := CharText(c)[1];
  }

  lemma EscapeReads(e: char, v: Byte, tail: string)
    requires SimpleEscape(e) == Some(v) && e != 'x' && !IsOctalDigit(e)
    ensures LexChar(['\\', e] + tail) == Some(Lexeme(v, 2))
  {
  }

  lemma AsIsReads(c: Byte, tail: string)
    requires CharFormatOf(c).AsIs?
    ensures CharText(c) == [c as char] && LexChar([c as char] + tail) == Some(Lexeme(c, 1))
  {
  }

  lemma HexEscapeReads(c: Byte, tail: string)
    requires tail == "" || !IsXDigit(tail[0])
    ensures LexChar(['\\', 'x'] + Hex(c) + tail) == Some(Lexeme(c, 2 + |Hex(c)|))
  {
    var s := ['\\', 'x'] + Hex(c) + tail;
    HexReads(c, tail);
    assert s[2..] == Hex(c) + tail;
    assert s[2..2 + |Hex(c)|] == Hex(c);
  }

  lemma HexText(c: Byte)
    requires CharFormatOf(c).HexEscape?
    ensures CharText(c) == ['\\', 'x'] + Hex(c)
  {
  }

  /** A printed character reads back, given that what follows does not extend its escape. */
  lemma CharReads(c: Byte, tail: string)
    requires CharFormatOf(c).HexEscape? ==> tail == "" || !IsXDigit(tail[0])
    requires c == 0 ==> tail == "" || !IsOctalDigit(tail[0])
    ensures LexChar(CharText(c) + tail) == Some(Lexeme(c, |CharText(c)|))
  {
    if c == 0 {
      NulReads(tail);
    } else if CharFormatOf(c).HexEscape? {
      HexText(c);
      HexEscapeReads(c, tail);
    } else if CharFormatOf(c).AsIs? {
      AsIsReads(c, tail);
    } else {
      var e := SpecialText(c);
      EscapeReads(e, c, tail);
    }
  }

  lemma StringCharReads(c: Byte, tail: string)
    requires IsHexEscaped(c) ==> tail == "" || !IsXDigit(tail[0])
    requires c == 0 ==> tail == "" || !IsOctalDigit(tail[0])
    ensures var text := StringCharText(c);
      text[0] != '"' && LexChar(text + tail) == Some(Lexeme(c, |text|))
  {
    if c != 39 && c != 34 {
      CharReads(c, tail);
    }
  }

  /** A character literal reads back: the character between quotes is exactly the one printed. */
  lemma CharLiteralRoundTrip(c: Byte)
    ensures LexChar(CharText(c) + "'") == Some(Lexeme(c, |CharText(c)|))
  {
    CharReads(c, "'");
  }

  /** What follows a printed string: the rest of the string, then the closing quote. */
  function Rest(bytes: seq<Byte>, afterHex: bool): string {
    Printed(bytes, afterHex) + "\""
  }

  lemma RestHead(bytes: seq<Byte>, afterHex: bool)
    ensures afterHex ==> !IsXDigit(Rest(bytes, afterHex)[0])
    ensures !afterHex ==>
      (IsOctalDigit(Rest(bytes, false)[0]) <==> bytes != [] && IsOctalDigit(bytes[0] as char))
  {
    if bytes != [] {
      var c := bytes[0];
      assert StringCharText(c)[0] == '\\' || StringCharText(c)[0] == c as char;
      assert IsXDigit(c as char) ==> StringCharText(c) == [c as char];
      if !(afterHex && IsXDigit(c as char)) {
        assert Rest(bytes, afterHex)[0] == StringCharText(c)[0];
      }
    }
  }

  lemma GapIsSkipped(t: string)
    ensures LexInside(['"', ' ', '"'] + t) == LexInside(t)
  {
    var s := ['"', ' ', '"'] + t;
    var u, v := [' ', '"'] + t, ['"'] + t;
    assert s[1..] == u && u[1..] == v && v[1..] == t;
    assert LexOutside(u) == LexOutside(v) == LexInside(t);
  }

  /** The break after a hexadecimal escape only joins two literals. */
  lemma BreakIsInvisible(bytes: seq<Byte>, afterHex: bool)
    ensures LexInside(Rest(bytes, afterHex)) == LexInside(Rest(bytes, false))
  {
    if bytes != [] && afterHex && IsXDigit(bytes[0] as char) {
      assert Rest(bytes, true) == ['"', ' ', '"'] + Rest(bytes, false);
      GapIsSkipped(Rest(bytes, false));
    } else {
      assert Rest(bytes, afterHex) == Rest(bytes, false);
    }
  }

  lemma RestUnfolds(bytes: seq<Byte>)
    requires bytes != []
    ensures Rest(bytes, false) == StringCharText(bytes[0]) + Rest(bytes[1..], IsHexEscaped(bytes[0]))
  {
    NoGap(StringCharText(bytes[0]), Printed(bytes[1..], IsHexEscaped(bytes[0])), "\"");
  }

  lemma NoGap(a: string, b: string, c: string)
    ensures "" + a + b + c == a + (b + c)
  {
  }

  /** A string that starts with the text of a character reads as that character and the rest. */
  lemma LexemeIsRead(text: string, rest: string, c: Byte)
    requires text != "" && text[0] != '"' && LexChar(text + rest) == Some(Lexeme(c, |text|))
    ensures LexInside(text + rest) ==
      if LexInside(rest).None? then None else Some([c] + LexInside(rest).value)
  {
    assert (text + rest)[|text|..] == rest;
  }

  /** A byte that is not a NUL before an octal digit is the next byte read. */
  lemma StepReads(bytes: seq<Byte>)
    requires bytes != []
    requires !(bytes[0] == 0 && |bytes| > 1 && IsOctalDigit(bytes[1] as char))
    ensures var tail := LexInside(Rest(bytes[1..], false));
      LexInside(Rest(bytes, false)) == if tail.None? then None else Some([bytes[0]] + tail.value)
  {
    var c, hex := bytes[0], IsHexEscaped(bytes[0]);
    var rest := Rest(bytes[1..], hex);
    RestUnfolds(bytes);
    RestHead(bytes[1..], hex);
    StringCharReads(c, rest);
    LexemeIsRead(StringCharText(c), rest, c);
    BreakIsInvisible(bytes[1..], hex);
  }

  /** A NUL and one octal digit, with no octal digit after them, are read as one escape. */
  lemma {:induction false} TwoDigitsMisread(d1: char, rest: string) returns (v: Byte)
    requires IsOctalDigit(d1) && rest != "" && !IsOctalDigit(rest[0])
    ensures LexChar(['\\', '0', d1] + rest) == Some(Lexeme(v, 3))
  {
    var s := ['\\', '0', d1] + rest;
    assert s[1..][1..][1..] == rest;
    assert s[1..3] == ['0', d1];
    v := MisreadValue(['0', d1]);
  }

  /** A NUL and two octal digits are read as one escape, whatever follows. */
  lemma {:induction false} ThreeDigitsMisread(d1: char, d2: char, rest: string) returns (v: Byte)
    requires IsOctalDigit(d1) && IsOctalDigit(d2)
    ensures LexChar(['\\', '0', d1, d2] + rest) == Some(Lexeme(v, 4))
  {
    var s := ['\\', '0', d1, d2] + rest;
    assert s[1..][1..][1..] == [d2] + rest;
    assert OctalRun([d2] + rest, 1) == 1;
    assert s[1..4] == ['0', d1, d2];
    v := MisreadValue(['0', d1, d2]);
  }

  /** The value a NUL, printed as `\0`, and the octal digits after it are misread as. */
  lemma {:induction false} NulMisreads(bytes: seq<Byte>) returns (v: Byte, skip: nat)
    requires |bytes| > 1 && bytes[0] == 0 && IsOctalDigit(bytes[1] as char)
    ensures 2 <= skip <= |bytes|
    ensures var tail := LexInside(Rest(bytes[skip..], false));
      LexInside(Rest(bytes, false)) == if tail.None? then None else Some([v] + tail.value)
  {
    var d1, rest2 := bytes[1] as char, Rest(bytes[2..], false);
    NulText(bytes);
    RestHead(bytes[2..], false);
    if |bytes| > 2 && IsOctalDigit(bytes[2] as char) {
      var d2, rest3 := bytes[2] as char, Rest(bytes[3..], false);
      PrintsItself(bytes[2..]);
      assert bytes[2..][1..] == bytes[3..];
      assert ['\\', '0', d1] + rest2 == ['\\', '0', d1, d2] + rest3;
      skip := 3;
      v := ThreeDigitsMisread(d1, d2, rest3);
      LexemeIsRead(['\\', '0', d1, d2], rest3, v);
    } else {
      skip := 2;
      v := TwoDigitsMisread(d1, rest2);
      LexemeIsRead(['\\', '0', d1], rest2, v);
    }
  }

  lemma NulPrinted()
    ensures StringCharText(0) == ['\\', '0'] && !IsHexEscaped(0)
  {
  }

  lemma NulText(bytes: seq<Byte>)
    requires |bytes| > 1 && bytes[0] == 0 && IsOctalDigit(bytes[1] as char)
    ensures Rest(bytes, false) == ['\\', '0', bytes[1] as char] + Rest(bytes[2..], false)
  {
    NulPrinted();
    RestUnfolds(bytes);
    PrintsItself(bytes[1..]);
    assert bytes[1..][1..] == bytes[2..];
    ThreeCharacters(bytes[1] as char, Rest(bytes[2..], false));
  }

  lemma ThreeCharacters(c: char, rest: string)
    ensures ['\\', '0'] + ([c] + rest) == ['\\', '0', c] + rest
  {
  }

  lemma PrintsItself(bytes: seq<Byte>)
    requires bytes != [] && IsOctalDigit(bytes[0] as char)
    ensures Rest(bytes, false) == [bytes[0] as char] + Rest(bytes[1..], false)
  {
    RestUnfolds(bytes);
    OctalText(bytes[0]);
  }

  lemma OctalText(c: Byte)
    requires IsOctalDigit(c as char)
    ensures StringCharText(c) == [c as char] && !IsHexEscaped(c)
  {
  }

  lemma {:induction false} MisreadValue(digits: string) returns (v: Byte)
    requires 2 <= |digits| <= 3 && digits[0] == '0' && forall i :: 0 <= i < |digits| ==> IsOctalDigit(digits[i]) && IsXDigit(digits[i])
    ensures v == Numeral(digits, 8)
  {
    assert digits[..1][..0] == "";
    assert Numeral(digits[..1], 8) == 0;
    if |digits| == 3 {
      assert digits[..2][..1] == digits[..1];
      assert Numeral(digits[..2], 8) == DigitValue(digits[1]) <= 7;
    }
    v := Numeral(digits, 8);
  }

  /** No NUL is directly followed by an octal digit. */
  ghost predicate NoNulBeforeOctal(bytes: seq<Byte>) {
    forall i :: 0 <= i < |bytes| - 1 && bytes[i] == 0 ==> !IsOctalDigit(bytes[i + 1] as char)
  }

  /** Reading back never fails, never lengthens, and is exact or shortens as `NoNulBeforeOctal` says. */
  lemma {:induction false} ReadBack(bytes: seq<Byte>)
    ensures var r := LexInside(Rest(bytes, false));
      && r.Some? && |r.value| <= |bytes|
      && (NoNulBeforeOctal(bytes) ==> r.value == bytes)
      && (!NoNulBeforeOctal(bytes) ==> |r.value| < |bytes|)
    decreases |bytes|
  {
    if bytes == [] {
      assert Rest(bytes, false)[1..] == "";
    } else if bytes[0] == 0 && |bytes| > 1 && IsOctalDigit(bytes[1] as char) {
      var v, skip := NulMisreads(bytes);
      ReadBack(bytes[skip..]);
    } else {
      StepReads(bytes);
      ReadBack(bytes[1..]);
      assert bytes == [bytes[0]] + bytes[1..];
      TailCondition(bytes);
    }
  }

  lemma TailCondition(bytes: seq<Byte>)
    requires bytes != [] && !(bytes[0] == 0 && |bytes| > 1 && IsOctalDigit(bytes[1] as char))
    ensures NoNulBeforeOctal(bytes) <==> NoNulBeforeOctal(bytes[1..])
  {
    var tail := bytes[1..];
    if NoNulBeforeOctal(tail) {
      forall i | 0 <= i < |bytes| - 1 && bytes[i] == 0 ensures !IsOctalDigit(bytes[i + 1] as char) {
        if i > 0 {
          assert tail[i - 1] == bytes[i] && tail[i] == bytes[i + 1];
        }
      }
    }
  }

  /** The printed literal denotes the original bytes exactly when no NUL precedes an octal digit. */
  lemma LiteralRoundTripIff(bytes: seq<Byte>)
    ensures LexOutside(PrintedLiteral(bytes)) == Some(bytes) <==> NoNulBeforeOctal(bytes)
  {
    ReadBack(bytes);
    assert PrintedLiteral(bytes)[1..] == Rest(bytes, false);
  }

  /** The failing family is not empty: a NUL and the digit 1 are read as the single byte 1. */
  lemma NulOneIsMisread()
    ensures LexOutside(PrintedLiteral([0, 49])) != Some([0, 49])
  {
    var bytes: seq<Byte> := [0, 49];
    assert bytes[0] == 0 && IsOctalDigit(bytes[1] as char);
    LiteralRoundTripIff(bytes);
  }
}
