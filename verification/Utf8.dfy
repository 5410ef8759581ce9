/** Transcoding of wide strings to UTF-8 (gtest.cc). */
module Utf8 {
  // It is judged by a shortest-form decoder that is as wide as the encoder (the bit patterns of
  // section 3 of RFC 3629 for all 21-bit values, surrogates included; Utf8Validity has the octets
  // that the RFC admits) and by the UTF-16 encoder of section 2.1 of RFC 2781.

  import opened Wrappers

  type CodePoint = bv32

  const MAX_CODE_POINT_1: CodePoint := 0x7F
  const MAX_CODE_POINT_2: CodePoint := 0x7FF
  const MAX_CODE_POINT_3: CodePoint := 0xFFFF
  const MAX_CODE_POINT_4: CodePoint := 0x1F_FFFF

  // ----- Encoding one code point -----

  function Trail(bits: CodePoint): bv8 { (0x80 | (bits & 0x3F)) as bv8 }

  function Lead2(cp: CodePoint): bv8
    requires cp <= MAX_CODE_POINT_2
  {
    (0xC0 | (cp >> 6)) as bv8
  }

  function Lead3(cp: CodePoint): bv8
    requires cp <= MAX_CODE_POINT_3
  {
    (0xE0 | (cp >> 12)) as bv8
  }

  function Lead4(cp: CodePoint): bv8
    requires cp <= MAX_CODE_POINT_4
  {
    (0xF0 | (cp >> 18)) as bv8
  }

  function Encode(cp: CodePoint): (s: seq<bv8>)
    requires cp <= MAX_CODE_POINT_4
    ensures 1 <= |s| <= 4
  {
    if cp <= MAX_CODE_POINT_1 then [cp as bv8]
    else if cp <= MAX_CODE_POINT_2 then [Lead2(cp), Trail(cp)]
    else if cp <= MAX_CODE_POINT_3 then [Lead3(cp), Trail(cp >> 6), Trail(cp)]
    else [Lead4(cp), Trail(cp >> 12), Trail(cp >> 6), Trail(cp)]
  }

  function HexDigitOf(d: bv32): bv8
    requires d < 16
  {
    if d < 10 then (0x30 + d) as bv8 else (0x37 + d) as bv8
  }

  function HexDigits(n: bv32, width: nat): (s: seq<bv8>)
    requires 1 <= width
    ensures 1 <= |s| <= width && forall i :: 0 <= i < |s| ==> 0 < s[i] <= 0x7F
    decreases width
  {
    if width == 1 || n < 16 then [HexDigitOf(n & 0xF)]
    else HexDigits(n >> 4, width - 1) + [HexDigitOf(n & 0xF)]
  }

  /** `(Invalid Unicode 0x`, the hexadecimal digits of the value, and a closing parenthesis. */
  function InvalidText(cp: CodePoint): (s: seq<bv8>)
    ensures 0 < |s| <= 28 && s[0] == 0x28 && forall i :: 0 <= i < |s| ==> 0 < s[i] <= 0x7F
  {
    [0x28, 0x49, 0x6E, 0x76, 0x61, 0x6C, 0x69, 0x64, 0x20, 0x55, 0x6E, 0x69, 0x63, 0x6F, 0x64, 0x65, 0x20, 0x30, 0x78]
    + HexDigits(cp, 8) + [0x29]
  }

  /** The text a code point becomes. */
  function Text(cp: CodePoint): (s: seq<bv8>)
    ensures |s| <= 28
  {
    if cp <= MAX_CODE_POINT_4 then Encode(cp) else InvalidText(cp)
  }

  /** Returns the `n` lowest bits, and shifts the pattern right by `n` bits. */
  method ChopLowBits(bits: bv32, n: bv6) returns (lowBits: bv32, rest: bv32)
    requires n < 32
    ensures lowBits == bits & ((1 << n) - 1) && rest == bits >> n
  {
    lowBits := bits & ((1 << n) - 1);
    rest := bits >> n;
  }

  /** Chopping six bits, as the encoder does, yields the only two parts that make up the pattern. */
  lemma SixBitsRejoinIff(bits: bv32, lowBits: bv32, rest: bv32)
    ensures lowBits == bits & ((1 << 6) - 1) && rest == bits >> 6 <==>
      bits == (rest << 6) | lowBits && lowBits < 64 && rest < 0x400_0000
  {
  }

  method CodePointToUtf8(codePoint: CodePoint, str: array<bv8>)
    requires str.Length >= 32
    modifies str
    ensures str[..|Text(codePoint)|] == Text(codePoint) && str[|Text(codePoint)|] == 0
  {
    if codePoint <= MAX_CODE_POINT_1 {
      str[1] := 0;
      str[0] := codePoint as bv8;
    } else if codePoint <= MAX_CODE_POINT_2 {
      var lead, trail := Chop2(codePoint);
      str[2], str[1], str[0] := 0, trail, lead;
    } else if codePoint <= MAX_CODE_POINT_3 {
      var lead, middle, trail := Chop3(codePoint);
      str[3], str[2], str[1], str[0] := 0, trail, middle, lead;
    } else if codePoint <= MAX_CODE_POINT_4 {
      var lead, first, middle, trail := Chop4(codePoint);
      str[4], str[3], str[2], str[1], str[0] := 0, trail, middle, first, lead;
    } else {
      FillInvalid(codePoint, str);
    }
  }

  /** A continuation byte from six bits already chopped off. */
  function TrailByte(low: bv32): bv8
    requires low <= 0x3F
  {
    (0x80 | low) as bv8
  }

  lemma ChoppedTrail(bits: CodePoint)
    ensures bits & 0x3F <= 0x3F && TrailByte(bits & 0x3F) == Trail(bits)
  {
  }

  lemma ShiftsCompose(cp: CodePoint)
    ensures (cp >> 6) >> 6 == cp >> 12 && (cp >> 12) >> 6 == cp >> 18
  {
  }

  method ChopSix(bits: bv32) returns (trail: bv8, rest: bv32)
    ensures trail == Trail(bits) && rest == bits >> 6
  {
    var low;
    low, rest := ChopLowBits(bits, 6);
    ChoppedTrail(bits);
    trail := TrailByte(low);
  }

  method Chop2(codePoint: CodePoint) returns (lead: bv8, trail: bv8)
    requires codePoint <= MAX_CODE_POINT_2
    ensures lead == Lead2(codePoint) && trail == Trail(codePoint)
  {
    var cp;
    trail, cp := ChopSix(codePoint);
    lead := (0xC0 | cp) as bv8;
  }

  method Chop3(codePoint: CodePoint) returns (lead: bv8, middle: bv8, trail: bv8)
    requires codePoint <= MAX_CODE_POINT_3
    ensures lead == Lead3(codePoint) && middle == Trail(codePoint >> 6) && trail == Trail(codePoint)
  {
    ShiftsCompose(codePoint);
    var cp;
    trail, cp := ChopSix(codePoint);
    middle, cp := ChopSix(cp);
    lead := (0xE0 | cp) as bv8;
  }

  method Chop4(codePoint: CodePoint) returns (lead: bv8, first: bv8, middle: bv8, trail: bv8)
    requires codePoint <= MAX_CODE_POINT_4
    ensures lead == Lead4(codePoint) && first == Trail(codePoint >> 12)
    ensures middle == Trail(codePoint >> 6) && trail == Trail(codePoint)
  {
    ShiftsCompose(codePoint);
    var cp;
    trail, cp := ChopSix(codePoint);
    middle, cp := ChopSix(cp);
    first, cp := ChopSix(cp);
    lead := (0xF0 | cp) as bv8;
  }

  /** A bounded copy of the message: the rest of the 32 bytes is zeroed. */
  method FillInvalid(codePoint: CodePoint, str: array<bv8>)
    requires str.Length >= 32
    modifies str
    ensures str[..|InvalidText(codePoint)|] == InvalidText(codePoint) && str[|InvalidText(codePoint)|] == 0
  {
    var text := InvalidText(codePoint);
    var i := 0;
    while i < 32
      invariant 0 <= i <= 32
      invariant forall j :: 0 <= j < i ==> str[j] == if j < |text| then text[j] else 0
    {
      str[i] := if i < |text| then text[i] else 0;
      i := i + 1;
    }
    str[31] := 0;
  }

  // ----- The decoder -----

  predicate IsTrail(b: bv8) { b & 0xC0 == 0x80 }

  function Payload(b: bv8): CodePoint { (b & 0x3F) as bv32 }

  datatype Decoded = Decoded(cp: CodePoint, width: nat)

  function Join2(a: bv8, b: bv8): CodePoint { ((a & 0x1F) as bv32 << 6) | Payload(b) }

  function Join3(a: bv8, b: bv8, c: bv8): CodePoint {
    ((a & 0x0F) as bv32 << 12) | (Payload(b) << 6) | Payload(c)
  }

  function Join4(a: bv8, b: bv8, c: bv8, d: bv8): CodePoint {
    ((a & 0x07) as bv32 << 18) | (Payload(b) << 12) | (Payload(c) << 6) | Payload(d)
  }

  /** The number of bytes the first byte announces, or 0 when it announces none. */
  function Announced(b: bv8): nat {
    if b & 0x80 == 0 then 1
    else if b & 0xE0 == 0xC0 then 2
    else if b & 0xF0 == 0xE0 then 3
    else if b & 0xF8 == 0xF0 then 4
    else 0
  }

  /** The code point at the head of `s`, in the shortest form only. */
  function Decode(s: seq<bv8>): (r: Option<Decoded>)
    ensures r.Some? ==> 1 <= r.value.width <= |s|
  {
    if s == [] then None
    else
      var n := Announced(s[0]);
      if n == 0 || n > |s| then None
      else if n == 1 then Some(Decoded(s[0] as bv32, 1))
      else if !IsTrail(s[1]) then None
      else if n == 2 then
        if Join2(s[0], s[1]) > MAX_CODE_POINT_1 then Some(Decoded(Join2(s[0], s[1]), 2)) else None
      else if !IsTrail(s[2]) then None
      else if n == 3 then
        if Join3(s[0], s[1], s[2]) > MAX_CODE_POINT_2 then Some(Decoded(Join3(s[0], s[1], s[2]), 3)) else None
      else if !IsTrail(s[3]) then None
      else
        if Join4(s[0], s[1], s[2], s[3]) > MAX_CODE_POINT_3
        then Some(Decoded(Join4(s[0], s[1], s[2], s[3]), 4))
        else None
  }

  function DecodeAll(s: seq<bv8>): Option<seq<CodePoint>>
    decreases |s|
  {
    if s == [] then Some([])
    else match Decode(s)
      case None => None
      case Some(d) =>
        match DecodeAll(s[d.width..])
        case None => None
        case Some(rest) => Some([d.cp] + rest)
  }

  // ----- The bit patterns, one width at a time -----

  lemma TrailIsTrail(bits: CodePoint)
    ensures IsTrail(Trail(bits)) && Payload(Trail(bits)) == bits & 0x3F
  {
  }

  lemma Bits1(b: bv8, cp: CodePoint)
    ensures cp <= MAX_CODE_POINT_1 ==> Announced(cp as bv8) == 1 && (cp as bv8) as bv32 == cp
    ensures Announced(b) == 1 ==> b as bv32 <= MAX_CODE_POINT_1
  {
  }

  lemma Split2(cp: CodePoint)
    requires cp <= MAX_CODE_POINT_2
    ensures Announced(Lead2(cp)) == 2 && Join2(Lead2(cp), Trail(cp)) == cp
  {
  }

  lemma Split3(cp: CodePoint)
    requires cp <= MAX_CODE_POINT_3
    ensures Announced(Lead3(cp)) == 3 && Join3(Lead3(cp), Trail(cp >> 6), Trail(cp)) == cp
  {
  }

  lemma Split4(cp: CodePoint)
    requires cp <= MAX_CODE_POINT_4
    ensures Announced(Lead4(cp)) == 4 && Join4(Lead4(cp), Trail(cp >> 12), Trail(cp >> 6), Trail(cp)) == cp
  {
  }

  lemma Unsplit2(a: bv8, b: bv8)
    requires Announced(a) == 2 && IsTrail(b)
    ensures var cp := Join2(a, b);
      cp <= MAX_CODE_POINT_2 && Lead2(cp) == a && Trail(cp) == b
  {
  }

  lemma Unsplit3(a: bv8, b: bv8, c: bv8)
    requires Announced(a) == 3 && IsTrail(b) && IsTrail(c)
    ensures var cp := Join3(a, b, c);
      cp <= MAX_CODE_POINT_3 && Lead3(cp) == a && Trail(cp >> 6) == b && Trail(cp) == c
  {
  }

  lemma Unsplit4(a: bv8, b: bv8, c: bv8, d: bv8)
    requires Announced(a) == 4 && IsTrail(b) && IsTrail(c) && IsTrail(d)
    ensures var cp := Join4(a, b, c, d);
      cp <= MAX_CODE_POINT_4 && Lead4(cp) == a && Trail(cp >> 12) == b && Trail(cp >> 6) == c && Trail(cp) == d
  {
  }

  /** The decoder inverts the encoder, whatever follows: the encoder's output is a prefix code. */
  lemma EncodeDecodes(cp: CodePoint, rest: seq<bv8>)
    requires cp <= MAX_CODE_POINT_4
    ensures Decode(Encode(cp) + rest) == Some(Decoded(cp, |Encode(cp)|))
  {
    TrailIsTrail(cp);
    TrailIsTrail(cp >> 6);
    TrailIsTrail(cp >> 12);
    if cp <= MAX_CODE_POINT_1 {
      Bits1(0, cp);
    } else if cp <= MAX_CODE_POINT_2 {
      Split2(cp);
    } else if cp <= MAX_CODE_POINT_3 {
      Split3(cp);
    } else {
      Split4(cp);
    }
  }

  /** Only the encoder's output decodes, so the encoding is the shortest form. */
  lemma DecodeEncodes(s: seq<bv8>)
    requires Decode(s).Some?
    ensures var d := Decode(s).value;
      d.cp <= MAX_CODE_POINT_4 && Encode(d.cp) == s[..d.width]
  {
    var n := Announced(s[0]);
    if n == 1 {
      Bits1(s[0], 0);
      assert s[..1] == [s[0]];
    } else if n == 2 {
      DecodeEncodes2(s);
    } else if n == 3 {
      DecodeEncodes3(s);
    } else {
      DecodeEncodes4(s);
    }
  }

  lemma DecodeEncodes2(s: seq<bv8>)
    requires Decode(s).Some? && Announced(s[0]) == 2
    ensures Decode(s).value.cp <= MAX_CODE_POINT_4 && Encode(Decode(s).value.cp) == s[..Decode(s).value.width]
  {
    Unsplit2(s[0], s[1]);
    assert s[..2] == [s[0], s[1]];
  }

  lemma DecodeEncodes3(s: seq<bv8>)
    requires Decode(s).Some? && Announced(s[0]) == 3
    ensures Decode(s).value.cp <= MAX_CODE_POINT_4 && Encode(Decode(s).value.cp) == s[..Decode(s).value.width]
  {
    Unsplit3(s[0], s[1], s[2]);
    assert s[..3] == [s[0], s[1], s[2]];
  }

  lemma DecodeEncodes4(s: seq<bv8>)
    requires Decode(s).Some? && Announced(s[0]) == 4
    ensures Decode(s).value.cp <= MAX_CODE_POINT_4 && Encode(Decode(s).value.cp) == s[..Decode(s).value.width]
  {
    DecodedAs4(s);
    Encoded4(s[0], s[1], s[2], s[3]);
    assert s[..4] == [s[0], s[1], s[2], s[3]];
  }

  lemma DecodedAs4(s: seq<bv8>)
    requires Decode(s).Some? && Announced(s[0]) == 4
    ensures |s| >= 4 && IsTrail(s[1]) && IsTrail(s[2]) && IsTrail(s[3])
    ensures var cp := Join4(s[0], s[1], s[2], s[3]);
      cp > MAX_CODE_POINT_3 && Decode(s) == Some(Decoded(cp, 4))
  {
  }

  lemma Encoded4(a: bv8, b: bv8, c: bv8, d: bv8)
    requires Announced(a) == 4 && IsTrail(b) && IsTrail(c) && IsTrail(d) && Join4(a, b, c, d) > MAX_CODE_POINT_3
    ensures Join4(a, b, c, d) <= MAX_CODE_POINT_4 && Encode(Join4(a, b, c, d)) == [a, b, c, d]
  {
    Unsplit4(a, b, c, d);
  }

  // ----- Wide strings -----

  /** One `wchar_t`, which is two or four bytes wide. */
  ghost predicate WideString(size: nat, str: seq<bv32>) {
    && size in {2, 4}
    && forall i :: 0 <= i < |str| ==> str[i] != 0 && (size == 2 ==> str[i] <= 0xFFFF)
  }

  /** Reading a wide string at, or before, its terminator. */
  function UnitAt(str: seq<bv32>, i: nat): bv32 {
    if i < |str| then str[i] else 0
  }

  predicate IsUtf16SurrogatePair(size: nat, first: bv32, second: bv32) {
    size == 2 && first & 0xFC00 == 0xD800 && second & 0xFC00 == 0xDC00
  }

  function CreateCodePointFromUtf16SurrogatePair(size: nat, first: bv32, second: bv32): CodePoint {
    if size == 2 then (((first & 0x3FF) << 10) | (second & 0x3FF)) + 0x1_0000 else first
  }

  /** The code points of a wide string: pairs are combined, unpaired surrogates kept. */
  function CodePoints(size: nat, str: seq<bv32>): seq<CodePoint> {
    if str == [] then []
    else if |str| >= 2 && IsUtf16SurrogatePair(size, str[0], str[1]) then
      [CreateCodePointFromUtf16SurrogatePair(size, str[0], str[1])] + CodePoints(size, str[2..])
    else [str[0]] + CodePoints(size, str[1..])
  }

  function Texts(cps: seq<CodePoint>): seq<bv8> {
    if cps == [] then [] else Text(cps[0]) + Texts(cps[1..])
  }

  /** The bytes a stream takes from a buffer: those before the first NUL. */
  function CStringOf(s: seq<bv8>): seq<bv8> {
    if s == [] || s[0] == 0 then [] else [s[0]] + CStringOf(s[1..])
  }

  lemma {:induction false} CStringEndsAtNul(s: seq<bv8>, n: nat)
    requires n < |s| && s[n] == 0 && forall i :: 0 <= i < n ==> s[i] != 0
    ensures CStringOf(s) == s[..n]
    decreases n
  {
    if n > 0 {
      CStringEndsAtNul(s[1..], n - 1);
      assert s[..n] == [s[0]] + s[1..][..n - 1];
    }
  }

  lemma MarkedByteIsNotNul(cp: CodePoint)
    ensures Trail(cp) != 0
    ensures 0 < cp <= MAX_CODE_POINT_1 ==> cp as bv8 != 0
    ensures cp <= MAX_CODE_POINT_2 ==> Lead2(cp) != 0
    ensures cp <= MAX_CODE_POINT_3 ==> Lead3(cp) != 0
    ensures cp <= MAX_CODE_POINT_4 ==> Lead4(cp) != 0
  {
  }

  lemma TextHasNoNul(cp: CodePoint)
    requires cp != 0
    ensures forall i :: 0 <= i < |Text(cp)| ==> Text(cp)[i] != 0
  {
    MarkedByteIsNotNul(cp);
    MarkedByteIsNotNul(cp >> 6);
    MarkedByteIsNotNul(cp >> 12);
  }

  /** Encodes into a fresh buffer and takes its content, as streaming the buffer does. */
  method Transcode(cp: CodePoint) returns (text: seq<bv8>)
    requires cp != 0
    ensures text == Text(cp)
  {
    var buffer := new bv8[32];
    CodePointToUtf8(cp, buffer);
    TextHasNoNul(cp);
    CStringEndsAtNul(buffer[..], |Text(cp)|);
    text := CStringOf(buffer[..]);
  }

  /** Transcodes the first `numChars` units, or as many as there are; -1 stands for all of them. */
  method WideStringToUtf8(size: nat, str: seq<bv32>, numChars: int) returns (stream: seq<bv8>)
    requires WideString(size, str)
    ensures 0 <= numChars <= |str| ==> stream == Texts(CodePoints(size, str[..numChars]))
    ensures numChars == -1 || numChars > |str| ==> stream == Texts(CodePoints(size, str))
    ensures numChars < -1 ==> stream == []
  {
    var n := if numChars == -1 then |str| else numChars;
    ghost var w := if n < 0 then [] else if n > |str| then str else str[..n];
    stream := [];
    var i := 0;
    StreamStarts(size, w);
    while i < n
      invariant 0 <= i <= |w|
      invariant stream + Texts(CodePoints(size, w[i..])) == Texts(CodePoints(size, w))
      decreases |w| - i
    {
      if UnitAt(str, i) == 0 {
        break;
      }
      ghost var rest := CodePoints(size, w[i..]);
      var unicodeCodePoint;
      unicodeCodePoint, i := NextCodePoint(size, str, n, w, i);
      TextsUnfold(stream, rest);
      assert rest[1..] == CodePoints(size, w[i..]);
      var text := Transcode(unicodeCodePoint);
      stream := stream + text;
    }
    StreamEnds(size, w, i, stream);
    assert str[..|str|] == str;
  }

  /** Reads the code point at `i`, which is not past the terminator, and steps over its units. */
  method NextCodePoint(size: nat, str: seq<bv32>, n: int, ghost w: seq<bv32>, i: nat)
      returns (unicodeCodePoint: CodePoint, next: nat)
    requires WideString(size, str) && i < n && i < |str| && |w| <= |str| && w == str[..|w|]
    requires |w| == if n > |str| then |str| else n
    ensures i < next <= |w| && unicodeCodePoint != 0
    ensures CodePoints(size, w[i..]) == [unicodeCodePoint] + CodePoints(size, w[next..])
  {
    PairTest(size, str, n, w, i);
    CodePointsStep(size, w, i);
    next := i;
    if next + 1 < n && IsUtf16SurrogatePair(size, UnitAt(str, next), UnitAt(str, next + 1)) {
      unicodeCodePoint := CreateCodePointFromUtf16SurrogatePair(size, UnitAt(str, next), UnitAt(str, next + 1));
      next := next + 1;
    } else {
      unicodeCodePoint := UnitAt(str, next);
    }
    next := next + 1;
  }

  lemma StreamStarts(size: nat, w: seq<bv32>)
    ensures [] + Texts(CodePoints(size, w[0..])) == Texts(CodePoints(size, w))
  {
    assert w[0..] == w;
  }

  lemma StreamEnds(size: nat, w: seq<bv32>, i: nat, stream: seq<bv8>)
    requires i == |w|
    ensures stream + Texts(CodePoints(size, w[i..])) == stream
  {
  }

  /** Whether the unit at `i` starts a pair within the string. */
  predicate StartsPair(size: nat, w: seq<bv32>, i: nat)
    requires i < |w|
  {
    i + 1 < |w| && IsUtf16SurrogatePair(size, w[i], w[i + 1])
  }

  lemma CodePointsStep(size: nat, w: seq<bv32>, i: nat)
    requires i < |w|
    ensures StartsPair(size, w, i) ==>
      CodePoints(size, w[i..]) == [CreateCodePointFromUtf16SurrogatePair(size, w[i], w[i + 1])] + CodePoints(size, w[i + 2..])
    ensures !StartsPair(size, w, i) ==> CodePoints(size, w[i..]) == [w[i]] + CodePoints(size, w[i + 1..])
  {
    var tail := w[i..];
    assert tail[1..] == w[i + 1..];
    if StartsPair(size, w, i) {
      assert tail[2..] == w[i + 2..];
    }
  }

  lemma PairIsNotNul(first: bv32, second: bv32)
    ensures CreateCodePointFromUtf16SurrogatePair(2, first, second) != 0
  {
  }

  lemma NulEndsNoPair(size: nat, first: bv32)
    ensures !IsUtf16SurrogatePair(size, first, 0)
  {
  }

  /** The test of the loop tells whether a pair starts within the part that is transcoded. */
  lemma PairTest(size: nat, str: seq<bv32>, n: int, w: seq<bv32>, i: nat)
    requires WideString(size, str) && i < n && i < |str| && |w| <= |str| && w == str[..|w|]
    requires |w| == if n > |str| then |str| else n
    ensures UnitAt(str, i) == w[i] != 0
    ensures i + 1 < n && IsUtf16SurrogatePair(size, UnitAt(str, i), UnitAt(str, i + 1)) <==> StartsPair(size, w, i)
    ensures StartsPair(size, w, i) ==> UnitAt(str, i + 1) == w[i + 1]
    ensures StartsPair(size, w, i) ==> CreateCodePointFromUtf16SurrogatePair(size, w[i], w[i + 1]) != 0
  {
    NulEndsNoPair(size, UnitAt(str, i));
    PairIsNotNul(UnitAt(str, i), UnitAt(str, i + 1));
  }

  lemma TextsUnfold(stream: seq<bv8>, cps: seq<CodePoint>)
    requires cps != []
    ensures stream + Texts(cps) == stream + Text(cps[0]) + Texts(cps[1..])
  {
  }

  // ----- The UTF-16 encoder -----

  function Utf16Units(cp: CodePoint): seq<bv32> {
    if 0x1_0000 <= cp <= 0x10_FFFF then
      [0xD800 | ((cp - 0x1_0000) >> 10), 0xDC00 | ((cp - 0x1_0000) & 0x3FF)]
    else [cp]
  }

  function Utf16Encode(cps: seq<CodePoint>): seq<bv32> {
    if cps == [] then [] else Utf16Units(cps[0]) + Utf16Encode(cps[1..])
  }

  lemma PairBits(first: bv32, second: bv32)
    requires first <= 0xFFFF && second <= 0xFFFF && IsUtf16SurrogatePair(2, first, second)
    ensures var cp := CreateCodePointFromUtf16SurrogatePair(2, first, second);
      && 0x1_0000 <= cp <= 0x10_FFFF
      && 0xD800 | ((cp - 0x1_0000) >> 10) == first && 0xDC00 | ((cp - 0x1_0000) & 0x3FF) == second
  {
  }

  /** Combining pairs loses nothing: splitting the code points again gives the units back. */
  lemma {:induction false} CodePointsLossless(str: seq<bv32>)
    requires forall i :: 0 <= i < |str| ==> str[i] <= 0xFFFF
    ensures Utf16Encode(CodePoints(2, str)) == str
    ensures forall i :: 0 <= i < |CodePoints(2, str)| ==> CodePoints(2, str)[i] <= 0x10_FFFF
    decreases |str|
  {
    if str != [] {
      assert str[0..] == str;
      CodePointsStep(2, str, 0);
      if StartsPair(2, str, 0) {
        CodePointsLossless(str[2..]);
        PairUnits(str[0], str[1]);
        EncodeCons(CreateCodePointFromUtf16SurrogatePair(2, str[0], str[1]), CodePoints(2, str[2..]));
        assert str == [str[0], str[1]] + str[2..];
      } else {
        CodePointsLossless(str[1..]);
        UnitStays(str[0]);
        EncodeCons(str[0], CodePoints(2, str[1..]));
        assert str == [str[0]] + str[1..];
      }
    }
  }

  lemma UnitStays(unit: bv32)
    requires unit <= 0xFFFF
    ensures Utf16Units(unit) == [unit] && unit <= 0x10_FFFF
  {
  }

  lemma PairUnits(first: bv32, second: bv32)
    requires first <= 0xFFFF && second <= 0xFFFF && IsUtf16SurrogatePair(2, first, second)
    ensures var cp := CreateCodePointFromUtf16SurrogatePair(2, first, second);
      Utf16Units(cp) == [first, second] && cp <= 0x10_FFFF
  {
    PairBits(first, second);
  }

  lemma EncodeCons(cp: CodePoint, rest: seq<CodePoint>)
    ensures Utf16Encode([cp] + rest) == Utf16Units(cp) + Utf16Encode(rest)
  {
    assert ([cp] + rest)[1..] == rest;
  }

  predicate IsScalar(cp: CodePoint) { cp <= 0x10_FFFF && !(0xD800 <= cp <= 0xDFFF) }

  lemma HalvesJoin(x: bv32)
    requires x <= 0xF_FFFF
    ensures var a, b := 0xD800 | (x >> 10), 0xDC00 | (x & 0x3FF);
      && a & 0xFC00 == 0xD800 && b & 0xFC00 == 0xDC00
      && (((a & 0x3FF) << 10) | (b & 0x3FF)) == x
  {
  }

  lemma UnpairBits(cp: CodePoint)
    requires 0x1_0000 <= cp <= 0x10_FFFF
    ensures var a, b := 0xD800 | ((cp - 0x1_0000) >> 10), 0xDC00 | ((cp - 0x1_0000) & 0x3FF);
      IsUtf16SurrogatePair(2, a, b) && CreateCodePointFromUtf16SurrogatePair(2, a, b) == cp
  {
    var x := cp - 0x1_0000;
    assert x <= 0xF_FFFF && x + 0x1_0000 == cp;
    HalvesJoin(x);
  }

  lemma ScalarIsNoSurrogate(cp: CodePoint, second: bv32)
    requires IsScalar(cp) && cp <= 0xFFFF
    ensures !IsUtf16SurrogatePair(2, cp, second)
  {
  }

  lemma ScalarSurvives(cp: CodePoint, rest: seq<bv32>)
    requires IsScalar(cp)
    ensures CodePoints(2, Utf16Units(cp) + rest) == [cp] + CodePoints(2, rest)
  {
    var s := Utf16Units(cp) + rest;
    if cp >= 0x1_0000 {
      UnpairBits(cp);
      assert s[2..] == rest;
    } else {
      assert s == [cp] + rest;
      assert s[1..] == rest;
      if |s| >= 2 {
        ScalarIsNoSurrogate(cp, s[1]);
      }
    }
  }

  /** Splitting Unicode scalar values and combining again is the identity. */
  lemma {:induction false} ScalarsSurvive(cps: seq<CodePoint>)
    requires forall i :: 0 <= i < |cps| ==> IsScalar(cps[i])
    ensures CodePoints(2, Utf16Encode(cps)) == cps
  {
    if cps != [] {
      ScalarsSurvive(cps[1..]);
      ScalarSurvives(cps[0], Utf16Encode(cps[1..]));
      assert cps == [cps[0]] + cps[1..];
    }
  }

  // ----- The round trip -----

  lemma {:induction false} TextsDecode(cps: seq<CodePoint>)
    requires forall i :: 0 <= i < |cps| ==> cps[i] <= MAX_CODE_POINT_4
    ensures DecodeAll(Texts(cps)) == Some(cps)
  {
    if cps != [] {
      TextsDecode(cps[1..]);
      EncodeDecodes(cps[0], Texts(cps[1..]));
      assert Texts(cps)[|Encode(cps[0])|..] == Texts(cps[1..]);
      assert cps == [cps[0]] + cps[1..];
    }
  }

  /**
   * The transcoding of any 16-bit wide string decodes to its UTF-16 code points, from which the
   * original units are recovered: nothing is lost, unpaired surrogates included.
   */
  lemma Utf16RoundTrip(str: seq<bv32>)
    requires WideString(2, str)
    ensures DecodeAll(Texts(CodePoints(2, str))) == Some(CodePoints(2, str))
    ensures Utf16Encode(CodePoints(2, str)) == str
  {
    CodePointsLossless(str);
    TextsDecode(CodePoints(2, str));
  }

  /** So does that of any part of one, even if the limit falls between the two halves of a pair. */
  lemma LimitedRoundTrip(str: seq<bv32>, numChars: nat)
    requires WideString(2, str) && numChars <= |str|
    ensures var decoded := DecodeAll(Texts(CodePoints(2, str[..numChars])));
      decoded.Some? && Utf16Encode(decoded.value) == str[..numChars]
  {
    Utf16RoundTrip(str[..numChars]);
  }

  lemma {:induction false} WideUnitsAreCodePoints(str: seq<bv32>)
    ensures CodePoints(4, str) == str
  {
    if str != [] {
      WideUnitsAreCodePoints(str[1..]);
      assert str == [str[0]] + str[1..];
    }
  }

  /** With a four-byte `wchar_t` the transcoding of 21-bit units decodes to the units themselves. */
  lemma Utf32RoundTrip(str: seq<bv32>)
    requires forall i :: 0 <= i < |str| ==> str[i] <= MAX_CODE_POINT_4
    ensures DecodeAll(Texts(CodePoints(4, str))) == Some(str)
  {
    WideUnitsAreCodePoints(str);
    TextsDecode(str);
  }
}
