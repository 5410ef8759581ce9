/**
 * The texts of addresses (Common/Utils.h), digit by digit: what `atoi` reads off a text, what the
 * printer writes for a byte, and which byte of the integer each piece of a dotted text is. IpAddress
 * has the round trips.
 */
module AddressText {
  import opened IpAddress
  import opened Strings

  predicate IsNumeral(s: string) { forall i :: 0 <= i < |s| ==> '0' <= s[i] <= '9' }

  /** The number that a string of decimal digits denotes. */
  function Numeral(s: string): nat
    requires IsNumeral(s)
  {
    if s == "" then 0 else 10 * Numeral(s[..|s| - 1]) + (s[|s| - 1] as int - '0' as int)
  }

  // ----- What is read -----

  lemma {:induction false} DigitsOf(digits: string, rest: string)
    requires IsNumeral(digits)
    ensures Digits(digits + rest, 0) == Digits(rest, Numeral(digits))
    decreases |digits|
  {
    if digits == "" {
      assert digits + rest == rest;
    } else {
      var init, last := digits[..|digits| - 1], digits[|digits| - 1];
      assert digits + rest == init + ([last] + rest);
      DigitsOf(init, [last] + rest);
      DigitsCons(last, rest, Numeral(init));
    }
  }

  ghost predicate IsBlank(s: string) { forall i :: 0 <= i < |s| ==> s[i] in {' ', '\t', '\n', '\U{000B}', '\U{000C}', '\r'} }

  lemma BlanksAreSpaces(c: char)
    ensures IsSpace(c) <==> c in {' ', '\t', '\n', '\U{000B}', '\U{000C}', '\r'}
  {
    assert " \t\n\r" == [' ', '\t', '\n', '\r'];
  }

  lemma {:induction false} BlanksAreSkipped(blanks: string, rest: string)
    requires IsBlank(blanks)
    ensures Atoi(blanks + rest) == Atoi(rest)
    decreases |blanks|
  {
    if blanks == "" {
      assert blanks + rest == rest;
    } else {
      BlanksAreSpaces(blanks[0]);
      assert (blanks + rest)[1..] == blanks[1..] + rest;
      BlanksAreSkipped(blanks[1..], rest);
    }
  }

  /** White space is skipped, a sign is heeded, the digits are read, and the rest is not looked at. */
  lemma AtoiReads(blanks: string, sign: string, digits: string, rest: string)
    requires IsBlank(blanks) && sign in ["", "+", "-"] && IsNumeral(digits)
    requires rest == "" || !('0' <= rest[0] <= '9')
    requires sign == "" && digits == "" ==> rest == "" || (!IsBlank(rest[..1]) && rest[0] != '+' && rest[0] != '-')
    ensures Atoi(blanks + (sign + (digits + rest))) == (if sign == "-" then -1 else 1) * Numeral(digits)
  {
    BlanksAreSkipped(blanks, sign + (digits + rest));
    DigitsOf(digits, rest);
    if sign == "" {
      UnsignedReads(digits, rest);
    } else {
      SignReads(sign[0], digits + rest);
    }
  }

  lemma SignReads(sign: char, s: string)
    requires sign == '+' || sign == '-'
    ensures Atoi([sign] + s) == if sign == '-' then -Digits(s, 0) else Digits(s, 0)
  {
    BlanksAreSpaces(sign);
    assert ([sign] + s)[1..] == s;
  }

  lemma UnsignedReads(digits: string, rest: string)
    requires IsNumeral(digits) && (rest == "" || !('0' <= rest[0] <= '9'))
    requires digits == "" ==> rest == "" || (!IsBlank(rest[..1]) && rest[0] != '+' && rest[0] != '-')
    ensures Atoi("" + (digits + rest)) == Digits(digits + rest, 0)
  {
    var s := digits + rest;
    assert "" + s == s;
    if s != "" {
      BlanksAreSpaces(s[0]);
    }
  }

  // ----- What is printed -----

  lemma DigitIs(d: int)
    requires 0 <= d < 10
    ensures '0' <= DigitChar(d) <= '9' && DigitChar(d) as int == '0' as int + d
  {
  }

  lemma {:induction false} NumeralAppend(s: string, d: int)
    requires IsNumeral(s) && 0 <= d < 10
    ensures IsNumeral(s + [DigitChar(d)]) && Numeral(s + [DigitChar(d)]) == 10 * Numeral(s) + d
  {
    DigitIs(d);
    assert (s + [DigitChar(d)])[..|s|] == s;
  }

  lemma OneDigit(d: int)
    requires 0 <= d < 10
    ensures IsNumeral([DigitChar(d)]) && Numeral([DigitChar(d)]) == d
  {
    NumeralAppend("", d);
    assert "" + [DigitChar(d)] == [DigitChar(d)];
  }

  lemma TwoDigits(n: nat)
    requires 10 <= n < 100
    ensures var s := [DigitChar(n / 10), DigitChar(n % 10)];
      IsNumeral(s) && Numeral(s) == n && s[0] != '0'
  {
    OneDigit(n / 10);
    DigitIs(n / 10);
    NumeralAppend([DigitChar(n / 10)], n % 10);
    assert [DigitChar(n / 10)] + [DigitChar(n % 10)] == [DigitChar(n / 10), DigitChar(n % 10)];
  }

  /** A byte is printed as the decimal numeral for it that has no leading zero. */
  lemma DecimalIsNumeral(n: Byte)
    ensures IsNumeral(Decimal(n)) && Numeral(Decimal(n)) == n
    ensures Decimal(n)[0] == '0' <==> n == 0
    ensures Decimal(0) == "0"
  {
    if n < 10 {
      OneDigit(n);
      DigitIs(n);
    } else if n < 100 {
      TwoDigits(n);
    } else {
      TwoDigits(n / 10);
      assert n / 10 / 10 == n / 100;
      NumeralAppend([DigitChar(n / 100), DigitChar(n / 10 % 10)], n % 10);
      assert Decimal(n) == [DigitChar(n / 100), DigitChar(n / 10 % 10)] + [DigitChar(n % 10)];
    }
  }

  /** The first piece of a dotted text is the lowest byte, on the way out and on the way in. */
  lemma LowestByteComesFirst(x: Address, a: Byte, b: Byte, c: Byte, d: Byte)
    requires x == a + 0x100 * b + 0x1_0000 * c + 0x100_0000 * d
    ensures IntToIPString(x) ==
      Decimal(a) + (['.'] + (Decimal(b) + (['.'] + (Decimal(c) + (['.'] + Decimal(d))))))
  {
    ComposedOctets(a, b, c, d);
    QuadOf(x, a, b, c, d);
  }

  lemma QuadOf(x: Address, a: Byte, b: Byte, c: Byte, d: Byte)
    requires Octet(x, 0) == a && Octet(x, 1) == b && Octet(x, 2) == c && Octet(x, 3) == d
    ensures IntToIPString(x) == DottedQuad(a, b, c, d)
  {
  }

  lemma NumeralReads(digits: string)
    requires IsNumeral(digits)
    ensures Atoi(digits) == Numeral(digits) && '.' !in digits
  {
    AtoiReads("", "", digits, "");
    assert "" + ("" + (digits + "")) == digits;
  }

  /** Four numerals, of whatever length, are read as bytes from the lowest on, modulo 2^32. */
  lemma NumeralsRead(p: string, q: string, r: string, t: string)
    requires IsNumeral(p) && IsNumeral(q) && IsNumeral(r) && IsNumeral(t)
    ensures IpValue(p + (['.'] + (q + (['.'] + (r + (['.'] + t)))))) ==
      (Numeral(p) + 0x100 * Numeral(q) + 0x1_0000 * Numeral(r) + 0x100_0000 * Numeral(t)) % 0x1_0000_0000
  {
    NumeralsWeigh(p, q, r, t, 0);
    WeightIsTruncated(p + (['.'] + (q + (['.'] + (r + (['.'] + t))))),
      Numeral(p) + 0x100 * Numeral(q) + 0x1_0000 * Numeral(r) + 0x100_0000 * Numeral(t));
  }

  lemma WeightIsTruncated(s: string, v: int)
    requires Weighted(Split(s, '.'), 0) == v
    ensures IpValue(s) == v % 0x1_0000_0000
  {
  }

  lemma NumeralsWeigh(p: string, q: string, r: string, t: string, k: nat)
    requires IsNumeral(p) && IsNumeral(q) && IsNumeral(r) && IsNumeral(t) && k == 0
    ensures Weighted(Split(p + (['.'] + (q + (['.'] + (r + (['.'] + t))))), '.'), k) ==
      Numeral(p) + 0x100 * Numeral(q) + 0x1_0000 * Numeral(r) + 0x100_0000 * Numeral(t)
  {
    NumeralReads(p);
    NumeralReads(q);
    NumeralReads(r);
    NumeralReads(t);
    FourPieces(p, q, r, t, k);
    ShiftedSum(Numeral(p), Numeral(q), Numeral(r), Numeral(t), k);
  }

  lemma ShiftedSum(a: int, b: int, c: int, d: int, k: nat)
    requires k == 0
    ensures ShiftBytes(a, k) + (ShiftBytes(b, k + 1) + (ShiftBytes(c, k + 2) + ShiftBytes(d, k + 3))) ==
      a + 0x100 * b + 0x1_0000 * c + 0x100_0000 * d
  {
    ShiftBytesUnfolds(a);
    ShiftBytesUnfolds(b);
    ShiftBytesUnfolds(c);
    ShiftBytesUnfolds(d);
  }
}
