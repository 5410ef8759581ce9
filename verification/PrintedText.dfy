/**
 * What the string printers write (gtest-printers.cc), byte by byte: the table of the texts, and the
 * breaks between them. Together they fix every character of the output. That the text reads back, and
 * when it does not, is proved in StringLiteral.
 */
module PrintedText {
  import opened StringLiteral

  // ----- The text of a byte -----

  /** Every visible ASCII character but the single quote and the backslash is printed as it is. */
  lemma VisibleText(c: Byte)
    requires 0x20 <= c <= 0x7E && c != 0x27 && c != 0x5C
    ensures CharText(c) == [c as char] && CharFormatOf(c) == AsIs
  {
  }

  /** The ten bytes with an escape sequence of their own. */
  lemma NamedEscapes()
    ensures CharText(0) == ['\\', '0'] && CharText(7) == ['\\', 'a'] && CharText(8) == ['\\', 'b']
    ensures CharText(9) == ['\\', 't'] && CharText(10) == ['\\', 'n'] && CharText(11) == ['\\', 'v']
    ensures CharText(12) == ['\\', 'f'] && CharText(13) == ['\\', 'r']
    ensures CharText(0x27) == ['\\', '\''] && CharText(0x5C) == ['\\', '\\']
    ensures forall c: Byte :: CharFormatOf(c) == SpecialEscape <==> c in {0, 7, 8, 9, 10, 11, 12, 13, 0x27, 0x5C}
  {
  }

  const UPPER_HEX_DIGITS := "0123456789ABCDEF"

  lemma UpperDigit(d: nat)
    requires d < 16
    ensures HexDigit(d) == UPPER_HEX_DIGITS[d]
  {
  }

  /** Every other byte is printed in upper-case hexadecimal, without a leading zero. */
  lemma OtherText(c: Byte)
    requires (c < 0x20 || c > 0x7E) && c !in {0, 7, 8, 9, 10, 11, 12, 13}
    ensures CharFormatOf(c) == HexEscape
    ensures CharText(c) == ['\\', 'x'] +
      if c < 0x10 then [UPPER_HEX_DIGITS[c]] else [UPPER_HEX_DIGITS[c / 0x10], UPPER_HEX_DIGITS[c % 0x10]]
  {
    HexOf(c);
  }

  lemma HexOf(c: Byte)
    ensures Hex(c) ==
      if c < 0x10 then [UPPER_HEX_DIGITS[c]] else [UPPER_HEX_DIGITS[c / 0x10], UPPER_HEX_DIGITS[c % 0x10]]
  {
    UpperDigit(c % 0x10);
    UpperDigit(c / 0x10);
  }

  /** In a string the quotes change places, and nothing else does. */
  lemma QuotesChangePlaces(c: Byte)
    ensures StringCharText(0x27) == ['\''] && StringCharFormatOf(0x27) == AsIs
    ensures StringCharText(0x22) == ['\\', '"'] && StringCharFormatOf(0x22) == SpecialEscape
    ensures c != 0x27 && c != 0x22 ==> StringCharText(c) == CharText(c) && StringCharFormatOf(c) == CharFormatOf(c)
  {
  }

  // ----- The text of a string -----

  const HEX_DIGITS := "0123456789abcdefABCDEF"

  /** A byte that is printed in hexadecimal. */
  predicate IsObscure(c: Byte) { (c < 0x20 || c > 0x7E) && c !in {0, 7, 8, 9, 10, 11, 12, 13} }

  lemma HexEscapedIff(c: Byte)
    ensures IsHexEscaped(c) <==> IsObscure(c)
  {
    if IsObscure(c) {
      OtherText(c);
      QuotesChangePlaces(c);
    }
  }

  lemma HexDigitsListed(ch: char)
    ensures IsXDigit(ch) <==> ch in HEX_DIGITS
  {
    assert '0' <= ch <= '9' ==> HEX_DIGITS[ch as int - '0' as int] == ch;
    assert 'a' <= ch <= 'f' ==> HEX_DIGITS[ch as int - 'a' as int + 10] == ch;
    assert 'A' <= ch <= 'F' ==> HEX_DIGITS[ch as int - 'A' as int + 16] == ch;
  }

  /** A break comes between a byte printed in hexadecimal and a hexadecimal digit. */
  ghost predicate BreaksBefore(bytes: seq<Byte>, n: nat)
    requires n < |bytes|
  {
    n > 0 && IsObscure(bytes[n - 1]) && bytes[n] as char in HEX_DIGITS
  }

  /** The text of the first `n` bytes. */
  ghost function TextOf(bytes: seq<Byte>, n: nat): string
    requires n <= |bytes|
  {
    if n == 0 then ""
    else
      TextOf(bytes, n - 1) + (if BreaksBefore(bytes, n - 1) then ['"', ' ', '"'] else [])
      + StringCharText(bytes[n - 1])
  }

  lemma PieceMoves(before: string, gap: string, piece: string, rest: string)
    ensures before + (gap + piece + rest) == before + gap + piece + rest
  {
  }

  lemma GapIs(bytes: seq<Byte>, n: nat)
    requires n < |bytes|
    ensures var afterHex := n > 0 && IsHexEscaped(bytes[n - 1]);
      (if afterHex && IsXDigit(bytes[n] as char) then "\" \"" else "") ==
        if BreaksBefore(bytes, n) then ['"', ' ', '"'] else []
  {
    HexDigitsListed(bytes[n] as char);
    if n > 0 {
      HexEscapedIff(bytes[n - 1]);
    }
  }

  lemma {:induction false} PrintedFrom(bytes: seq<Byte>, n: nat)
    requires n <= |bytes|
    ensures TextOf(bytes, n) + Printed(bytes[n..], n > 0 && IsHexEscaped(bytes[n - 1])) == TextOf(bytes, |bytes|)
    decreases |bytes| - n
  {
    if n == |bytes| {
      assert bytes[n..] == [];
    } else {
      var gap := if BreaksBefore(bytes, n) then ['"', ' ', '"'] else [];
      var rest := Printed(bytes[n + 1..], IsHexEscaped(bytes[n]));
      PrintedFrom(bytes, n + 1);
      GapIs(bytes, n);
      assert bytes[n..][1..] == bytes[n + 1..];
      PieceMoves(TextOf(bytes, n), gap, StringCharText(bytes[n]), rest);
    }
  }

  lemma PrintedWhole(bytes: seq<Byte>)
    ensures Printed(bytes, false) == TextOf(bytes, |bytes|)
  {
    PrintedFrom(bytes, 0);
    assert bytes[0..] == bytes;
    NothingBefore(TextOf(bytes, 0), Printed(bytes, false));
  }

  lemma NothingBefore(a: string, b: string)
    ensures a == "" ==> a + b == b
  {
  }

  /** A printed string is the texts of its bytes between quotes, with exactly those breaks. */
  lemma PrintedLiteralIs(bytes: seq<Byte>)
    ensures PrintedLiteral(bytes) == ['"'] + TextOf(bytes, |bytes|) + ['"']
  {
    PrintedWhole(bytes);
  }

  ghost predicate IsPlain(bytes: seq<Byte>) {
    forall i :: 0 <= i < |bytes| ==> 0x20 <= bytes[i] <= 0x7E && bytes[i] != 0x22 && bytes[i] != 0x5C
  }

  function Characters(bytes: seq<Byte>): (s: string)
    ensures |s| == |bytes| && forall i :: 0 <= i < |s| ==> s[i] == bytes[i] as char
  {
    seq(|bytes|, i requires 0 <= i < |bytes| => bytes[i] as char)
  }

  lemma PlainByte(c: Byte)
    requires 0x20 <= c <= 0x7E && c != 0x22 && c != 0x5C
    ensures StringCharText(c) == [c as char] && !IsObscure(c)
  {
    QuotesChangePlaces(c);
    if c != 0x27 {
      VisibleText(c);
    }
  }

  lemma PlainTextGrows(bytes: seq<Byte>, n: nat)
    requires IsPlain(bytes) && n < |bytes|
    ensures TextOf(bytes, n + 1) == TextOf(bytes, n) + [bytes[n] as char]
  {
    PlainByte(bytes[n]);
    if n > 0 {
      PlainByte(bytes[n - 1]);
    }
  }

  lemma PlainTextStep(bytes: seq<Byte>, n: nat)
    requires IsPlain(bytes) && n < |bytes| && TextOf(bytes, n) == Characters(bytes)[..n]
    ensures TextOf(bytes, n + 1) == Characters(bytes)[..n + 1]
  {
    PlainTextGrows(bytes, n);
    CharactersGrow(bytes, n);
  }

  lemma CharactersGrow(bytes: seq<Byte>, n: nat)
    requires n < |bytes|
    ensures Characters(bytes)[..n + 1] == Characters(bytes)[..n] + [bytes[n] as char]
  {
  }

  lemma PlainTextStarts(bytes: seq<Byte>)
    ensures TextOf(bytes, 0) == Characters(bytes)[..0]
  {
  }

  lemma {:induction false} PlainText(bytes: seq<Byte>, n: nat)
    requires IsPlain(bytes) && n <= |bytes|
    ensures TextOf(bytes, n) == Characters(bytes)[..n]
    decreases n
  {
    if n == 0 {
      PlainTextStarts(bytes);
    } else {
      PlainText(bytes, n - 1);
      PlainTextStep(bytes, n - 1);
    }
  }

  /** A string of visible characters, without double quotes and backslashes, is printed as it is. */
  lemma PlainStringIsVerbatim(bytes: seq<Byte>)
    requires IsPlain(bytes)
    ensures PrintedLiteral(bytes) == ['"'] + Characters(bytes) + ['"']
  {
    PrintedLiteralIs(bytes);
    PlainText(bytes, |bytes|);
    assert Characters(bytes)[..|bytes|] == Characters(bytes);
  }
}
