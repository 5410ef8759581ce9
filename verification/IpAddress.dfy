/**
 * IPv4 addresses as the project stores them (Common/Utils.h): a 32-bit integer in network order
 * read on a little-endian machine, and its dotted text. Also the `subscriber|subscribee` request.
 */
module IpAddress {
  import opened Wrappers
  import opened Strings

  const TWO_32: int := 0x1_0000_0000

  /** The bit pattern of a 32-bit integer, as an unsigned value. */
  type Address = x: int | 0 <= x < 0x1_0000_0000

  type Byte = x: int | 0 <= x < 256

  // ----- Decimal numerals -----

  function DigitChar(d: int): char
    requires 0 <= d < 10
  {
    "0123456789"[d]
  }

  function Decimal(n: Byte): string {
    if n < 10 then [DigitChar(n)]
    else if n < 100 then [DigitChar(n / 10), DigitChar(n % 10)]
    else [DigitChar(n / 100), DigitChar(n / 10 % 10), DigitChar(n % 10)]
  }

  predicate IsSpace(c: char) { c in " \t\n\r" || c == '\U{000B}' || c == '\U{000C}' }

  predicate IsDigit(c: char) { '0' <= c <= '9' }

  function DigitValue(c: char): int { c as int - '0' as int }

  /** The digits at the head of `s`, appended to the value read so far. */
  function Digits(s: string, value: int): int {
    if s != "" && IsDigit(s[0]) then Digits(s[1..], 10 * value + DigitValue(s[0])) else value
  }

  /** Leading white space, a sign, and as many digits as there are; no digits give zero. */
  function Atoi(s: string): int {
    if s == "" then 0
    else if IsSpace(s[0]) then Atoi(s[1..])
    else if s[0] == '-' then -Digits(s[1..], 0)
    else if s[0] == '+' then Digits(s[1..], 0)
    else Digits(s, 0)
  }

  // ----- The conversions -----

  /** A byte of an address: `physical_address >> 8k & 255`. */
  function Octet(x: Address, k: nat): Byte {
    (if k == 0 then x else if k == 1 then x / 0x100 else if k == 2 then x / 0x1_0000 else x / 0x100_0000) % 256
  }

  function DottedQuad(a: Byte, b: Byte, c: Byte, d: Byte): string {
    Decimal(a) + (['.'] + (Decimal(b) + (['.'] + (Decimal(c) + (['.'] + Decimal(d))))))
  }

  function IntToIPString(physicalAddress: Address): string {
    DottedQuad(Octet(physicalAddress, 0), Octet(physicalAddress, 1), Octet(physicalAddress, 2), Octet(physicalAddress, 3))
  }

  /** A left shift by `k` bytes, before truncation. */
  function ShiftBytes(v: int, k: nat): int
    decreases k
  {
    if k == 0 then v else ShiftBytes(256 * v, k - 1)
  }

  /** The value of dotted pieces, the first being shifted by `k` bytes. */
  function Weighted(pieces: seq<string>, k: nat): int {
    if pieces == [] then 0 else ShiftBytes(Atoi(pieces[0]), k) + Weighted(pieces[1..], k + 1)
  }

  function Truncate(v: int): Address { v % TWO_32 }

  /** What the text of an address denotes, in 32-bit arithmetic. */
  function IpValue(physicalAddress: string): Address {
    Truncate(Weighted(Split(physicalAddress, '.'), 0))
  }

  /** The value of the pieces still to be read of a text that ends with a dot. */
  function Remaining(s: string, k: nat): int {
    if s == "" then 0 else Weighted(Split(s[..|s| - 1], '.'), k)
  }

  predicate EndsWithDot(s: string) { s != "" && s[|s| - 1] == '.' }

  lemma LastDotIsFound(s: string)
    ensures EndsWithDot(s) ==> IndexOf(s, '.').Some?
    ensures s == "" ==> IndexOf(s, '.').None?
  {
  }

  /**
   * The loop adds the pieces up in an unsigned 32-bit accumulator. A shift by 32 bits or more,
   * from a fifth piece on, is undefined in C; here it contributes nothing.
   */
  method IPStringToInt(physicalAddress: string) returns (address: Address)
    ensures address == IpValue(physicalAddress)
  {
    address := 0;
    var k: nat := 0;
    var s := physicalAddress + ".";
    ghost var sum := 0;
    ReadingStarts(physicalAddress);
    while true
      invariant Reading(s, k, address, sum, physicalAddress)
      decreases |s|
    {
      ReadingAdvances(s, k, address, sum, physicalAddress);
      sum := sum + ShiftBytes(Atoi(s), k);
      address := Truncate(address + ShiftBytes(Atoi(s), k));
      k := k + 1;
      s := s[IndexOf(s, '.').value + 1..];
      if IndexOf(s, '.').None? {
        break;
      }
    }
  }

  /** What is read so far, as an exact sum, and what remains make up the value of the text. */
  ghost predicate Reading(s: string, k: nat, address: Address, sum: int, text: string) {
    && EndsWithDot(s) && address == Truncate(sum)
    && sum + Remaining(s, k) == Weighted(Split(text, '.'), 0)
  }

  lemma ReadingStarts(text: string)
    ensures Reading(text + ".", 0, 0, 0, text)
  {
    assert (text + ".")[..|text|] == text;
  }

  lemma ReadingAdvances(s: string, k: nat, address: Address, sum: int, text: string)
    requires Reading(s, k, address, sum, text)
    ensures IndexOf(s, '.').Some?
    ensures var v, rest := ShiftBytes(Atoi(s), k), s[IndexOf(s, '.').value + 1..];
      && (IndexOf(rest, '.').None? ==> Truncate(address + v) == IpValue(text))
      && (IndexOf(rest, '.').Some? ==> Reading(rest, k + 1, Truncate(address + v), sum + v, text))
  {
    LastDotIsFound(s);
    PieceAdds(s, k);
    LastDotIsFound(s[IndexOf(s, '.').value + 1..]);
    TruncatedSum(sum, ShiftBytes(Atoi(s), k));
  }

  lemma TruncatedSum(sum: int, v: int)
    ensures Truncate(Truncate(sum) + v) == Truncate(sum + v)
  {
  }

  /** `atoi` reads no further than the first dot. */
  lemma {:induction false} DigitsStopAtDot(s: string, dot: nat, value: int)
    requires dot < |s| && s[dot] == '.'
    ensures Digits(s, value) == Digits(s[..dot], value)
    decreases dot
  {
    if dot > 0 && IsDigit(s[0]) {
      assert s[..dot][1..] == s[1..][..dot - 1];
      DigitsStopAtDot(s[1..], dot - 1, 10 * value + DigitValue(s[0]));
    }
  }

  lemma {:induction false} AtoiStopsAtDot(s: string, dot: nat)
    requires dot < |s| && s[dot] == '.'
    ensures Atoi(s) == Atoi(s[..dot])
    decreases dot
  {
    if dot > 0 {
      assert s[..dot][1..] == s[1..][..dot - 1] && s[1..][dot - 1] == '.';
      if IsSpace(s[0]) {
        AtoiStopsAtDot(s[1..], dot - 1);
      } else {
        DigitsStopAtDot(s[1..], dot - 1, 0);
        DigitsStopAtDot(s, dot, 0);
      }
    }
  }

  /** One turn of the loop moves the first piece from the text to the accumulator. */
  lemma PieceAdds(s: string, k: nat)
    requires EndsWithDot(s) && IndexOf(s, '.').Some?
    ensures var rest := s[IndexOf(s, '.').value + 1..];
      (rest == "" || EndsWithDot(rest)) && Remaining(s, k) == ShiftBytes(Atoi(s), k) + Remaining(rest, k + 1)
  {
    var dot, body := IndexOf(s, '.').value, s[..|s| - 1];
    var rest := s[dot + 1..];
    AtoiStopsAtDot(s, dot);
    if rest == "" {
      assert body == s[..dot];
      OnePiece(body, k);
    } else {
      var tail := rest[..|rest| - 1];
      assert body == s[..dot] + (['.'] + tail);
      SplitFirst(s[..dot], '.', tail);
      WeightedCons(s[..dot], Split(tail, '.'), k);
    }
  }

  lemma WeightedCons(piece: string, pieces: seq<string>, k: nat)
    ensures Weighted([piece] + pieces, k) == ShiftBytes(Atoi(piece), k) + Weighted(pieces, k + 1)
  {
    assert ([piece] + pieces)[1..] == pieces;
  }

  lemma OnePiece(body: string, k: nat)
    requires '.' !in body
    ensures Split(body, '.') == [body] && Weighted(Split(body, '.'), k) == ShiftBytes(Atoi(body), k)
  {
    assert [body] + [] == [body];
    WeightedCons(body, [], k);
  }

  // ----- The round trips -----

  lemma DigitReads(d: int)
    requires 0 <= d < 10
    ensures IsDigit(DigitChar(d)) && DigitValue(DigitChar(d)) == d
  {
  }

  lemma DigitsCons(c: char, s: string, value: int)
    requires IsDigit(c)
    ensures Digits([c] + s, value) == Digits(s, 10 * value + DigitValue(c))
  {
    assert ([c] + s)[1..] == s;
  }

  lemma AtoiDigits(c: char, s: string)
    requires IsDigit(c)
    ensures Atoi([c] + s) == Digits([c] + s, 0)
  {
    assert !IsSpace(c);
  }

  lemma DecimalReads(n: Byte)
    ensures Atoi(Decimal(n)) == n
  {
    if n < 10 {
      DigitReads(n);
      AtoiDigits(DigitChar(n), "");
      DigitsCons(DigitChar(n), "", 0);
      assert Decimal(n) == [DigitChar(n)] + "";
    } else if n < 100 {
      DigitReads(n / 10);
      DigitReads(n % 10);
      var s := [DigitChar(n % 10)] + "";
      assert Decimal(n) == [DigitChar(n / 10)] + s;
      AtoiDigits(DigitChar(n / 10), s);
      DigitsCons(DigitChar(n / 10), s, 0);
      DigitsCons(DigitChar(n % 10), "", n / 10);
    } else {
      ThreeDigits(n);
    }
  }

  lemma ThreeDigits(n: Byte)
    requires n >= 100
    ensures Atoi(Decimal(n)) == n
  {
    var a, b, c := n / 100, n / 10 % 10, n % 10;
    DigitReads(a);
    DigitReads(b);
    DigitReads(c);
    var s1 := [DigitChar(c)] + "";
    var s2 := [DigitChar(b)] + s1;
    assert Decimal(n) == [DigitChar(a)] + s2;
    AtoiDigits(DigitChar(a), s2);
    DigitsCons(DigitChar(a), s2, 0);
    DigitsCons(DigitChar(b), s1, a);
    DigitsCons(DigitChar(c), "", 10 * a + b);
    HundredsTensUnits(n);
  }

  lemma HundredsTensUnits(n: Byte)
    ensures 10 * (10 * (n / 100) + n / 10 % 10) + n % 10 == n
  {
    var tens := n / 10;
    assert n == 10 * tens + n % 10;
    assert tens == 10 * (tens / 10) + tens % 10 && tens / 10 == n / 100;
  }

  lemma DecimalHasNoDot(n: Byte)
    ensures '.' !in Decimal(n)
  {
    DigitReads(n % 10);
    DigitReads(n / 10 % 10);
  }

  function Compose(a: Byte, b: Byte, c: Byte, d: Byte): Address {
    a + 0x100 * b + 0x1_0000 * c + 0x100_0000 * d
  }

  lemma ShiftBytesUnfolds(v: int)
    ensures ShiftBytes(v, 0) == v && ShiftBytes(v, 1) == 0x100 * v
    ensures ShiftBytes(v, 2) == 0x1_0000 * v && ShiftBytes(v, 3) == 0x100_0000 * v
  {
    assert ShiftBytes(v, 3) == ShiftBytes(0x100 * v, 2) == ShiftBytes(0x1_0000 * v, 1) == ShiftBytes(0x100_0000 * v, 0);
    assert ShiftBytes(v, 2) == ShiftBytes(0x100 * v, 1) == ShiftBytes(0x1_0000 * v, 0);
  }

  lemma PieceWeight(piece: string, rest: string, k: nat)
    requires '.' !in piece
    ensures Weighted(Split(piece + (['.'] + rest), '.'), k) == ShiftBytes(Atoi(piece), k) + Weighted(Split(rest, '.'), k + 1)
  {
    SplitFirst(piece, '.', rest);
    WeightedCons(piece, Split(rest, '.'), k);
  }

  lemma FourPieces(p: string, q: string, r: string, t: string, k: nat)
    requires '.' !in p && '.' !in q && '.' !in r && '.' !in t
    ensures Weighted(Split(p + (['.'] + (q + (['.'] + (r + (['.'] + t))))), '.'), k) == ShiftBytes(Atoi(p), k)
      + (ShiftBytes(Atoi(q), k + 1) + (ShiftBytes(Atoi(r), k + 2) + ShiftBytes(Atoi(t), k + 3)))
  {
    ThreePieces(q, r, t, k + 1);
    PieceWeight(p, q + (['.'] + (r + (['.'] + t))), k);
  }

  lemma ThreePieces(q: string, r: string, t: string, k: nat)
    requires '.' !in q && '.' !in r && '.' !in t
    ensures Weighted(Split(q + (['.'] + (r + (['.'] + t))), '.'), k) ==
      ShiftBytes(Atoi(q), k) + (ShiftBytes(Atoi(r), k + 1) + ShiftBytes(Atoi(t), k + 2))
  {
    TwoPieces(r, t, k + 1);
    PieceWeight(q, r + (['.'] + t), k);
  }

  lemma TwoPieces(r: string, t: string, k: nat)
    requires '.' !in r && '.' !in t
    ensures Weighted(Split(r + (['.'] + t), '.'), k) == ShiftBytes(Atoi(r), k) + ShiftBytes(Atoi(t), k + 1)
  {
    OnePiece(t, k + 1);
    PieceWeight(r, t, k);
  }

  lemma DecimalPiece(n: Byte)
    ensures '.' !in Decimal(n) && Atoi(Decimal(n)) == n
  {
    DecimalHasNoDot(n);
    DecimalReads(n);
  }

  lemma QuadWeight(a: Byte, b: Byte, c: Byte, d: Byte, k: nat)
    ensures Weighted(Split(DottedQuad(a, b, c, d), '.'), k) ==
      ShiftBytes(a, k) + (ShiftBytes(b, k + 1) + (ShiftBytes(c, k + 2) + ShiftBytes(d, k + 3)))
  {
    DecimalPiece(a);
    DecimalPiece(b);
    DecimalPiece(c);
    DecimalPiece(d);
    FourPieces(Decimal(a), Decimal(b), Decimal(c), Decimal(d), k);
  }

  lemma QuadSum(a: Byte, b: Byte, c: Byte, d: Byte)
    ensures Weighted(Split(DottedQuad(a, b, c, d), '.'), 0) == Compose(a, b, c, d)
  {
    QuadSumAt(a, b, c, d, 0);
  }

  lemma QuadSumAt(a: Byte, b: Byte, c: Byte, d: Byte, k: nat)
    requires k == 0
    ensures Weighted(Split(DottedQuad(a, b, c, d), '.'), k) == Compose(a, b, c, d)
  {
    QuadWeight(a, b, c, d, k);
    QuadShiftsAt(a, b, c, d, k);
  }

  lemma QuadShiftsAt(a: Byte, b: Byte, c: Byte, d: Byte, k: nat)
    requires k == 0
    ensures ShiftBytes(a, k) + (ShiftBytes(b, k + 1) + (ShiftBytes(c, k + 2) + ShiftBytes(d, k + 3))) == Compose(a, b, c, d)
  {
    QuadShifts(a, b, c, d);
  }

  lemma QuadValue(a: Byte, b: Byte, c: Byte, d: Byte)
    ensures IpValue(DottedQuad(a, b, c, d)) == Compose(a, b, c, d)
  {
    QuadSum(a, b, c, d);
    ValueOfWeight(DottedQuad(a, b, c, d), Compose(a, b, c, d));
  }

  lemma ValueOfWeight(s: string, v: Address)
    requires Weighted(Split(s, '.'), 0) == v
    ensures IpValue(s) == v
  {
  }

  lemma QuadShifts(a: Byte, b: Byte, c: Byte, d: Byte)
    ensures ShiftBytes(a, 0) + (ShiftBytes(b, 1) + (ShiftBytes(c, 2) + ShiftBytes(d, 3))) == Compose(a, b, c, d)
  {
    ShiftBytesUnfolds(a);
    ShiftBytesUnfolds(b);
    ShiftBytesUnfolds(c);
    ShiftBytesUnfolds(d);
  }

  lemma OctetsCompose(x: Address)
    ensures Compose(Octet(x, 0), Octet(x, 1), Octet(x, 2), Octet(x, 3)) == x
  {
    var x1, x2, x3 := x / 0x100, x / 0x1_0000, x / 0x100_0000;
    assert x1 / 0x100 == x2 && x2 / 0x100 == x3;
    assert x == 0x100 * x1 + x % 256 && x1 == 0x100 * x2 + x1 % 256 && x2 == 0x100 * x3 + x2 % 256;
  }

  lemma ComposedOctets(a: Byte, b: Byte, c: Byte, d: Byte)
    ensures var x := Compose(a, b, c, d);
      Octet(x, 0) == a && Octet(x, 1) == b && Octet(x, 2) == c && Octet(x, 3) == d
  {
    var x := Compose(a, b, c, d);
    assert x / 0x100 == b + 0x100 * c + 0x1_0000 * d;
    assert x / 0x1_0000 == c + 0x100 * d;
    assert x / 0x100_0000 == d;
  }

  /** Printing an address and reading the text back is the identity on all 32-bit integers. */
  lemma AddressRoundTrip(x: Address)
    ensures IpValue(IntToIPString(x)) == x
  {
    QuadValue(Octet(x, 0), Octet(x, 1), Octet(x, 2), Octet(x, 3));
    OctetsCompose(x);
  }

  /** Reading a dotted quad and printing it back is the identity too, so the texts are canonical. */
  lemma QuadRoundTrip(a: Byte, b: Byte, c: Byte, d: Byte)
    ensures IntToIPString(IpValue(DottedQuad(a, b, c, d))) == DottedQuad(a, b, c, d)
  {
    QuadValue(a, b, c, d);
    ComposedOctets(a, b, c, d);
  }

  /** No address has the empty text, which reads as 0. */
  lemma EmptyTextIsNoAddress(x: Address)
    ensures IntToIPString(x) != "" && IpValue("") == 0
  {
    OnePiece("", 0);
  }

  // ----- The lookup request -----

  /** The size of the buffers messages are received into. */
  const BUFFER_SIZE: nat := 4096

  /** The text a receiver finds in its zeroed buffer: what fits, up to the first NUL. */
  function Received(message: string): string {
    Before(if |message| <= BUFFER_SIZE then message else message[..BUFFER_SIZE], '\0')
  }

  /** The address that a pushed update is read as: its text is sent with the terminating NUL. */
  function PushedAddress(text: string): Address { IpValue(Received(text + ['\0'])) }

  lemma DecimalIsShort(n: Byte)
    ensures |Decimal(n)| <= 3 && '\0' !in Decimal(n)
  {
    DigitReads(n % 10);
    DigitReads(n / 10 % 10);
  }

  lemma QuadIsShort(a: Byte, b: Byte, c: Byte, d: Byte)
    ensures |DottedQuad(a, b, c, d)| <= 15 && '\0' !in DottedQuad(a, b, c, d)
  {
    DecimalIsShort(a);
    DecimalIsShort(b);
    DecimalIsShort(c);
    DecimalIsShort(d);
  }

  lemma ReceivedText(text: string)
    requires |text| < BUFFER_SIZE && '\0' !in text
    ensures Received(text + ['\0']) == text
  {
    assert text + ['\0'] == text + (['\0'] + []);
    SplitFirst(text, '\0', []);
    assert (text + ['\0'])[..|text|] == text;
  }

  /** An address survives being printed, pushed and read back. */
  lemma PushRoundTrip(x: Address)
    ensures PushedAddress(IntToIPString(x)) == x
  {
    QuadIsShort(Octet(x, 0), Octet(x, 1), Octet(x, 2), Octet(x, 3));
    ReceivedText(IntToIPString(x));
    AddressRoundTrip(x);
  }

  /** The subscriber and the subscribee; without a separator, both are the whole request. */
  function ParseRequest(request: string): (string, string) {
    match IndexOf(request, '|')
    case None => (request, request)
    case Some(i) => (request[..i], request[i + 1..])
  }

  /** The lookup request: the two names, with a separator. */
  function RequestText(subscriber: string, subscribee: string): string {
    subscriber + (['|'] + subscribee)
  }

  /** Neither name has a NUL, the first has no separator, and they fit; or the separator is cut off. */
  predicate RequestSurvives(subscriber: string, subscribee: string) {
    && '|' !in subscriber && '\0' !in subscriber && '\0' !in subscribee
    && (|subscriber| + 1 + |subscribee| <= 4096 || (|subscriber| == 4096 && subscribee == subscriber))
  }

  /** What fits the buffer of a request. */
  function Fitting(message: string): string {
    if |message| <= BUFFER_SIZE then message else message[..BUFFER_SIZE]
  }

  lemma ReceivedWithoutNul(message: string)
    ensures '\0' !in Received(message) && Received(message) <= Fitting(message)
    ensures '\0' !in Fitting(message) ==> Received(message) == Fitting(message)
  {
  }

  /** A request with a separator is parsed at the first, and neither part has a NUL. */
  lemma ParsedAtSeparator(request: string, subscriber: string, subscribee: string)
    requires '|' in request
    ensures ParseRequest(request) == (subscriber, subscribee) <==>
      '|' !in subscriber && request == subscriber + (['|'] + subscribee)
  {
    var i := IndexOf(request, '|').value;
    assert request == request[..i] + (['|'] + request[i + 1..]);
    if '|' !in subscriber && request == subscriber + (['|'] + subscribee) {
      SeparatedIsParsed(subscriber, subscribee);
    }
  }

  lemma SeparatedIsParsed(subscriber: string, subscribee: string)
    requires '|' !in subscriber
    ensures ParseRequest(subscriber + (['|'] + subscribee)) == (subscriber, subscribee)
  {
    var request := subscriber + (['|'] + subscribee);
    SplitFirst(subscriber, '|', subscribee);
    assert request[|subscriber| + 1..] == subscribee && request[..|subscriber|] == subscriber;
  }

  /** The text arrives whole exactly if it fits and has no NUL. */
  lemma ReceivedWholeIff(message: string)
    ensures Received(message) == message <==> |message| <= 4096 && '\0' !in message
  {
    ReceivedWithoutNul(message);
  }

  lemma RequestHasNul(a: string, b: string)
    ensures '\0' in RequestText(a, b) <==> '\0' in a || '\0' in b
    ensures |RequestText(a, b)| == |a| + 1 + |b| && RequestText(a, b)[|a|] == '|'
  {
  }

  lemma SeparatedRequest(a: string, b: string)
    requires '|' in Received(RequestText(a, b))
    ensures ParseRequest(Received(RequestText(a, b))) == (a, b) <==> RequestSurvives(a, b)
  {
    var message := RequestText(a, b);
    ParsedAtSeparator(Received(message), a, b);
    ReceivedWholeIff(message);
    RequestHasNul(a, b);
    ReceivedWithoutNul(message);
    assert |a| == BUFFER_SIZE ==> Fitting(message) == a;
  }

  lemma UnseparatedRequest(a: string, b: string)
    requires '|' !in Received(RequestText(a, b))
    ensures ParseRequest(Received(RequestText(a, b))) == (a, b) <==> RequestSurvives(a, b)
  {
    var message := RequestText(a, b);
    var request := Received(message);
    assert ParseRequest(request) == (request, request);
    ReceivedWithoutNul(message);
    RequestHasNul(a, b);
    assert message[|a|] == '|';
    ReceivedWholeIff(message);
    assert |a| == BUFFER_SIZE ==> Fitting(message) == a;
  }

  /** Parsing recovers the two names of a request exactly when it survives, for all names. */
  lemma RequestRoundTripIff(subscriber: string, subscribee: string)
    ensures ParseRequest(Received(RequestText(subscriber, subscribee))) == (subscriber, subscribee) <==>
      RequestSurvives(subscriber, subscribee)
  {
    if '|' in Received(RequestText(subscriber, subscribee)) {
      SeparatedRequest(subscriber, subscribee);
    } else {
      UnseparatedRequest(subscriber, subscribee);
    }
  }
}
