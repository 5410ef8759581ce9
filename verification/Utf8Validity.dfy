/**
 * What transcoding promises of its output (gtest.cc): that it is UTF-8, as section 4 of RFC 3629
 * spells out its octets, and that a value above U+10FFFF becomes a message. Each holds exactly for
 * the inputs named here.
 */
module Utf8Validity {
  import opened Utf8

  // ----- The octets of UTF-8 -----

  predicate IsTailOctet(b: bv8) { 0x80 <= b <= 0xBF }

  predicate IsUtf8Pair(a: bv8, b: bv8) { 0xC2 <= a <= 0xDF && IsTailOctet(b) }

  predicate IsUtf8Triple(a: bv8, b: bv8, c: bv8) {
    && IsTailOctet(c)
    && (|| (a == 0xE0 && 0xA0 <= b <= 0xBF)
        || (0xE1 <= a <= 0xEC && IsTailOctet(b))
        || (a == 0xED && 0x80 <= b <= 0x9F)
        || (0xEE <= a <= 0xEF && IsTailOctet(b)))
  }

  predicate IsUtf8Quad(a: bv8, b: bv8, c: bv8, d: bv8) {
    && IsTailOctet(c) && IsTailOctet(d)
    && (|| (a == 0xF0 && 0x90 <= b <= 0xBF)
        || (0xF1 <= a <= 0xF3 && IsTailOctet(b))
        || (a == 0xF4 && 0x80 <= b <= 0x8F))
  }

  /** The number of octets of the character at the head of `s`, or 0 when there is none. */
  function CharWidth(s: seq<bv8>): (n: nat)
    ensures n <= |s|
  {
    if s == [] then 0
    else if s[0] <= 0x7F then 1
    else if |s| >= 2 && IsUtf8Pair(s[0], s[1]) then 2
    else if |s| >= 3 && IsUtf8Triple(s[0], s[1], s[2]) then 3
    else if |s| >= 4 && IsUtf8Quad(s[0], s[1], s[2], s[3]) then 4
    else 0
  }

  predicate IsUtf8(s: seq<bv8>) {
    s == [] || (CharWidth(s) > 0 && IsUtf8(s[CharWidth(s)..]))
  }

  // ----- One code point -----

  lemma OneOctet(cp: CodePoint)
    requires cp <= MAX_CODE_POINT_1
    ensures cp as bv8 <= 0x7F && IsScalar(cp)
  {
  }

  lemma TwoOctets(cp: CodePoint)
    requires MAX_CODE_POINT_1 < cp <= MAX_CODE_POINT_2
    ensures Lead2(cp) > 0x7F && IsUtf8Pair(Lead2(cp), Trail(cp)) && IsScalar(cp)
  {
  }

  lemma ThreeOctets(cp: CodePoint)
    requires MAX_CODE_POINT_2 < cp <= MAX_CODE_POINT_3
    ensures Lead3(cp) >= 0xE0
    ensures IsUtf8Triple(Lead3(cp), Trail(cp >> 6), Trail(cp)) <==> IsScalar(cp)
  {
  }

  lemma FourOctets(cp: CodePoint)
    requires MAX_CODE_POINT_3 < cp <= MAX_CODE_POINT_4
    ensures Lead4(cp) >= 0xF0
    ensures IsUtf8Quad(Lead4(cp), Trail(cp >> 12), Trail(cp >> 6), Trail(cp)) <==> IsScalar(cp)
  {
  }

  /** What the encoder gives for a code point is one character of UTF-8 exactly for scalar values. */
  lemma EncodedIsUtf8Iff(cp: CodePoint, rest: seq<bv8>)
    requires cp <= MAX_CODE_POINT_4
    ensures CharWidth(Encode(cp) + rest) == if IsScalar(cp) then |Encode(cp)| else 0
  {
    if cp <= MAX_CODE_POINT_1 {
      OneOctet(cp);
    } else if cp <= MAX_CODE_POINT_2 {
      TwoOctets(cp);
    } else if cp <= MAX_CODE_POINT_3 {
      ThreeOctets(cp);
    } else {
      FourOctets(cp);
    }
  }

  lemma {:induction false} AsciiIsUtf8(s: seq<bv8>, rest: seq<bv8>)
    requires forall i :: 0 <= i < |s| ==> s[i] <= 0x7F
    ensures IsUtf8(s + rest) <==> IsUtf8(rest)
  {
    if s == [] {
      assert s + rest == rest;
    } else {
      assert (s + rest)[1..] == s[1..] + rest;
      AsciiIsUtf8(s[1..], rest);
    }
  }

  /** A scalar value, or one so large that it becomes a message. */
  predicate Presentable(cp: CodePoint) { IsScalar(cp) || cp > MAX_CODE_POINT_4 }

  lemma TextIsUtf8Iff(cp: CodePoint, rest: seq<bv8>)
    ensures IsUtf8(Text(cp) + rest) <==> Presentable(cp) && IsUtf8(rest)
  {
    if cp <= MAX_CODE_POINT_4 {
      EncodedIsUtf8Iff(cp, rest);
      assert (Encode(cp) + rest)[|Encode(cp)|..] == rest;
    } else {
      AsciiIsUtf8(InvalidText(cp), rest);
    }
  }

  lemma {:induction false} TextsAreUtf8Iff(cps: seq<CodePoint>)
    ensures IsUtf8(Texts(cps)) <==> forall i :: 0 <= i < |cps| ==> Presentable(cps[i])
  {
    if cps != [] {
      TextIsUtf8Iff(cps[0], Texts(cps[1..]));
      TextsAreUtf8Iff(cps[1..]);
      assert forall i :: 1 <= i < |cps| ==> cps[i] == cps[1..][i - 1];
    }
  }

  // ----- Strings of 16-bit units -----

  predicate IsHigh(unit: bv32) { unit & 0xFC00 == 0xD800 }

  predicate IsLow(unit: bv32) { unit & 0xFC00 == 0xDC00 }

  /** A surrogate without its other half beside it. */
  predicate LoneSurrogate(str: seq<bv32>, i: nat)
    requires i < |str|
  {
    || (IsHigh(str[i]) && !(i + 1 < |str| && IsLow(str[i + 1])))
    || (IsLow(str[i]) && !(i > 0 && IsHigh(str[i - 1])))
  }

  predicate NoLoneSurrogate(str: seq<bv32>) { forall i: nat :: i < |str| ==> !LoneSurrogate(str, i) }

  lemma SurrogateBits(unit: bv32)
    requires unit <= 0xFFFF
    ensures IsScalar(unit) <==> !IsHigh(unit) && !IsLow(unit)
    ensures !(IsHigh(unit) && IsLow(unit)) && unit <= MAX_CODE_POINT_4
  {
  }

  lemma PairIsScalar(first: bv32, second: bv32)
    requires IsHigh(first) && IsLow(second)
    ensures IsScalar(CreateCodePointFromUtf16SurrogatePair(2, first, second))
  {
  }

  /** What follows a unit that is no high surrogate stands by itself. */
  lemma LoneInTail(str: seq<bv32>, n: nat)
    requires 1 <= n <= |str| && !IsHigh(str[n - 1])
    ensures forall i: nat :: i < |str| - n ==> (LoneSurrogate(str, i + n) <==> LoneSurrogate(str[n..], i))
  {
  }

  lemma NoLoneUnfolds(str: seq<bv32>, n: nat)
    requires 1 <= n <= |str| && !IsHigh(str[n - 1])
    ensures NoLoneSurrogate(str) <==> NoLoneSurrogate(str[n..]) && forall i: nat :: i < n ==> !LoneSurrogate(str, i)
  {
    LoneInTail(str, n);
    if NoLoneSurrogate(str[n..]) && forall i: nat :: i < n ==> !LoneSurrogate(str, i) {
      forall i: nat | i < |str| ensures !LoneSurrogate(str, i) {
        assert i >= n ==> !LoneSurrogate(str[n..], i - n) && !LoneSurrogate(str, (i - n) + n);
      }
    }
    if NoLoneSurrogate(str) {
      forall i: nat | i < |str| - n ensures !LoneSurrogate(str[n..], i) {
        assert !LoneSurrogate(str, i + n);
      }
    }
  }

  ghost predicate AllPresentable(cps: seq<CodePoint>) { forall i :: 0 <= i < |cps| ==> Presentable(cps[i]) }

  lemma AllPresentableCons(cp: CodePoint, cps: seq<CodePoint>)
    ensures AllPresentable([cp] + cps) <==> Presentable(cp) && AllPresentable(cps)
  {
    var all := [cp] + cps;
    assert all[0] == cp && forall i :: 0 <= i < |cps| ==> all[i + 1] == cps[i];
  }

  lemma {:induction false} CodePointsPresentableIff(str: seq<bv32>)
    requires forall i :: 0 <= i < |str| ==> str[i] <= 0xFFFF
    ensures AllPresentable(CodePoints(2, str)) <==> NoLoneSurrogate(str)
    decreases |str|
  {
    if str != [] {
      SurrogateBits(str[0]);
      if |str| >= 2 && IsUtf16SurrogatePair(2, str[0], str[1]) {
        SurrogateBits(str[1]);
        PairIsScalar(str[0], str[1]);
        AllPresentableCons(CreateCodePointFromUtf16SurrogatePair(2, str[0], str[1]), CodePoints(2, str[2..]));
        CodePointsPresentableIff(str[2..]);
        NoLoneUnfolds(str, 2);
      } else {
        AllPresentableCons(str[0], CodePoints(2, str[1..]));
        CodePointsPresentableIff(str[1..]);
        if IsHigh(str[0]) {
          assert LoneSurrogate(str, 0);
        } else {
          NoLoneUnfolds(str, 1);
          assert LoneSurrogate(str, 0) <==> IsLow(str[0]);
        }
      }
    }
  }

  /**
   * The transcoded string is UTF-8 exactly if the wide string has no lone surrogate, for two-byte
   * units, and for four-byte units if none is a surrogate or from 0x110000 to 0x1FFFFF.
   */
  lemma TranscodedIsUtf8Iff(size: nat, str: seq<bv32>)
    requires WideString(size, str)
    ensures IsUtf8(Texts(CodePoints(size, str))) <==>
      if size == 2 then NoLoneSurrogate(str) else forall i :: 0 <= i < |str| ==> Presentable(str[i])
  {
    TextsAreUtf8Iff(CodePoints(size, str));
    if size == 2 {
      CodePointsPresentableIff(str);
    } else {
      WideUnitsAreCodePoints(str);
    }
  }

  // ----- Values outside Unicode -----

  /** The text that the comments on the two functions promise. */
  function DocumentedText(cp: CodePoint): seq<bv8> {
    if cp <= 0x10_FFFF then Encode(cp) else InvalidText(cp)
  }

  function DocumentedTexts(cps: seq<CodePoint>): seq<bv8> {
    if cps == [] then [] else DocumentedText(cps[0]) + DocumentedTexts(cps[1..])
  }

  predicate IsMisjudged(cp: CodePoint) { 0x10_FFFF < cp <= MAX_CODE_POINT_4 }

  lemma MisjudgedStarts(cp: CodePoint)
    requires IsMisjudged(cp)
    ensures Text(cp)[0] >= 0xF4 && DocumentedText(cp)[0] == 0x28
  {
  }

  /** The text is as documented exactly outside 0x110000 to 0x1FFFFF, which are encoded. */
  lemma TextIsDocumentedIff(cp: CodePoint)
    ensures Text(cp) == DocumentedText(cp) <==> !IsMisjudged(cp)
  {
    if IsMisjudged(cp) {
      MisjudgedStarts(cp);
    }
  }

  /** The first value above Unicode is given four octets and no message. */
  lemma FirstInvalidIsEncoded()
    ensures Text(0x11_0000) == [0xF4, 0x90, 0x80, 0x80]
    ensures Text(0x11_0000) != DocumentedText(0x11_0000) && !IsUtf8(Text(0x11_0000))
  {
    MisjudgedStarts(0x11_0000);
    EncodedIsUtf8Iff(0x11_0000, []);
    assert Text(0x11_0000) + [] == Text(0x11_0000);
  }

  lemma {:induction false} TextsAreDocumentedIff(cps: seq<CodePoint>)
    ensures Texts(cps) == DocumentedTexts(cps) <==> forall i :: 0 <= i < |cps| ==> !IsMisjudged(cps[i])
  {
    if cps != [] {
      var cp, rest, documented := cps[0], Texts(cps[1..]), DocumentedTexts(cps[1..]);
      if IsMisjudged(cp) {
        MisjudgedStarts(cp);
        assert Texts(cps)[0] == Text(cp)[0] && DocumentedTexts(cps)[0] == DocumentedText(cp)[0];
      } else {
        TextIsDocumentedIff(cp);
        SameHead(Text(cp), rest, documented);
        TextsAreDocumentedIff(cps[1..]);
        assert forall i :: 1 <= i < |cps| ==> cps[i] == cps[1..][i - 1];
      }
    }
  }

  lemma SameHead(head: seq<bv8>, a: seq<bv8>, b: seq<bv8>)
    ensures head + a == head + b <==> a == b
  {
    assert (head + a)[|head|..] == a && (head + b)[|head|..] == b;
  }

  /**
   * The transcoding is as documented for every string of two-byte units, and for one of four-byte
   * units exactly if none is from 0x110000 to 0x1FFFFF.
   */
  lemma TranscodedIsDocumentedIff(size: nat, str: seq<bv32>)
    requires WideString(size, str)
    ensures Texts(CodePoints(size, str)) == DocumentedTexts(CodePoints(size, str)) <==>
      size == 2 || forall i :: 0 <= i < |str| ==> !IsMisjudged(str[i])
  {
    TextsAreDocumentedIff(CodePoints(size, str));
    if size == 2 {
      CodePointsLossless(str);
    } else {
      WideUnitsAreCodePoints(str);
    }
  }

  // ----- The message -----

  /** `(Invalid Unicode 0x`, in ASCII. */
  const MESSAGE: seq<bv8> := [0x28, 0x49, 0x6E, 0x76, 0x61, 0x6C, 0x69, 0x64, 0x20,
                              0x55, 0x6E, 0x69, 0x63, 0x6F, 0x64, 0x65, 0x20, 0x30, 0x78]

  predicate IsUpperHexOctet(b: bv8) { 0x30 <= b <= 0x39 || 0x41 <= b <= 0x46 }

  function OctetValue(b: bv8): bv32
    requires IsUpperHexOctet(b)
  {
    if b <= 0x39 then (b - 0x30) as bv32 else (b - 0x41) as bv32 + 10
  }

  /** The value of at most eight upper-case hexadecimal digits. */
  function HexValue(digits: seq<bv8>): bv32
    requires forall i :: 0 <= i < |digits| ==> IsUpperHexOctet(digits[i])
  {
    if digits == [] then 0 else (HexValue(digits[..|digits| - 1]) << 4) | OctetValue(digits[|digits| - 1])
  }

  lemma DigitReads(d: bv32)
    requires d < 16
    ensures IsUpperHexOctet(HexDigitOf(d)) && OctetValue(HexDigitOf(d)) == d
    ensures HexDigitOf(d) == 0x30 <==> d == 0
  {
  }

  lemma NibblesJoin(n: bv32)
    ensures ((n >> 4) << 4) | (n & 0xF) == n && n & 0xF < 16
    ensures n < 16 ==> n & 0xF == n
    ensures n >= 16 ==> n >> 4 != 0
  {
  }

  /** The largest value of so many digits. */
  function WidestValue(width: nat): bv32 {
    match width
    case 0 => 0
    case 1 => 0xF
    case 2 => 0xFF
    case 3 => 0xFFF
    case 4 => 0xFFFF
    case 5 => 0xF_FFFF
    case 6 => 0xFF_FFFF
    case 7 => 0xFFF_FFFF
    case _ => 0xFFFF_FFFF
  }

  lemma WidthShrinks(n: bv32, width: nat)
    requires 1 < width <= 8 && n <= WidestValue(width)
    ensures n >> 4 <= WidestValue(width - 1)
  {
  }

  /** Upper-case digits of the value, with no leading zero. */
  predicate IsNumeralOf(digits: seq<bv8>, n: bv32) {
    && digits != [] && (forall i :: 0 <= i < |digits| ==> IsUpperHexOctet(digits[i]))
    && HexValue(digits) == n && (digits[0] == 0x30 ==> n == 0 && |digits| == 1)
  }

  lemma OneDigit(d: bv32)
    requires d < 16
    ensures IsNumeralOf([HexDigitOf(d)], d)
  {
    DigitReads(d);
    assert [HexDigitOf(d)][..0] == [];
    ZeroJoins(d);
  }

  lemma ZeroJoins(d: bv32)
    ensures (0 << 4) | d == d
  {
  }

  lemma OneMoreDigit(digits: seq<bv8>, n: bv32)
    requires n >= 16 && IsNumeralOf(digits, n >> 4)
    ensures IsNumeralOf(digits + [HexDigitOf(n & 0xF)], n)
  {
    NibblesJoin(n);
    DigitReads(n & 0xF);
    assert (digits + [HexDigitOf(n & 0xF)])[..|digits|] == digits;
  }

  lemma LastDigit(n: bv32, width: nat)
    requires 1 <= width && (width == 1 || n < 16)
    ensures HexDigits(n, width) == [HexDigitOf(n & 0xF)]
  {
  }

  lemma MoreDigits(n: bv32, width: nat)
    requires 1 < width && n >= 16
    ensures HexDigits(n, width) == HexDigits(n >> 4, width - 1) + [HexDigitOf(n & 0xF)]
  {
  }

  lemma SmallValue(n: bv32, width: nat)
    requires width == 1 || n < 16
    requires n <= WidestValue(width)
    ensures n < 16 && n & 0xF == n
  {
  }

  lemma LastDigitIsNumeral(n: bv32, width: nat)
    requires 1 <= width && (width == 1 || n < 16) && n <= WidestValue(width)
    ensures IsNumeralOf(HexDigits(n, width), n)
  {
    SmallValue(n, width);
    LastDigit(n, width);
    OneDigit(n);
  }

  lemma MoreDigitsAreNumeral(n: bv32, width: nat)
    requires 1 < width && n >= 16 && IsNumeralOf(HexDigits(n >> 4, width - 1), n >> 4)
    ensures IsNumeralOf(HexDigits(n, width), n)
  {
    MoreDigits(n, width);
    OneMoreDigit(HexDigits(n >> 4, width - 1), n);
  }

  lemma {:induction false} DigitsAreNumeral(n: bv32, width: nat)
    requires 1 <= width <= 8 && n <= WidestValue(width)
    ensures IsNumeralOf(HexDigits(n, width), n)
    decreases width
  {
    if width == 1 || n < 16 {
      LastDigitIsNumeral(n, width);
    } else {
      WidthShrinks(n, width);
      DigitsAreNumeral(n >> 4, width - 1);
      MoreDigitsAreNumeral(n, width);
    }
  }

  /** The message for an invalid code point holds its value, in hexadecimal and nothing else. */
  lemma MessageNamesValue(cp: CodePoint) returns (digits: seq<bv8>)
    ensures InvalidText(cp) == MESSAGE + digits + [0x29] && IsNumeralOf(digits, cp)
  {
    digits := HexDigits(cp, 8);
    DigitsAreNumeral(cp, 8);
  }
}
