/** Segments of a QR Code's data: their modes, how they are made, and how they are read. */
module Segment {
  import opened BinaryPoly
  import opened Bits
  import opened Results
  import opened RadixCode

  datatype Mode = Numeric | Alphanumeric | Byte | Kanji | Eci {
    /** The mode indicator, a 4-bit value. */
    function ModeBits(): (m: nat)
      ensures 0 < m < 16
    {
      match this
      case Numeric => 0x1
      case Alphanumeric => 0x2
      case Byte => 0x4
      case Kanji => 0x8
      case Eci => 0x7
    }

    /** The width of the character count field in the three version ranges. */
    function CountWidths(): (w: seq<nat>)
      ensures |w| == 3
    {
      match this
      case Numeric => [10, 12, 14]
      case Alphanumeric => [9, 11, 13]
      case Byte => [8, 16, 16]
      case Kanji => [8, 10, 12]
      case Eci => [0, 0, 0]
    }

    /** `QrSegment::Mode::numCharCountBits`. */
    function NumCharCountBits(ver: int): (w: nat)
      requires 1 <= ver <= 40
      ensures w <= 16
    {
      CountWidths()[(ver + 7) / 17]
    }
  }

  datatype QrSegment = QrSegment(mode: Mode, numChars: nat, data: seq<bool>)

  const NUMERIC := Coding(10, 3, 3)
  const ALPHANUMERIC := Coding(45, 2, 5)
  const BYTES := Coding(256, 1, 7)
  const KANJI := Coding(8192, 1, 12)

  lemma CodingsValid()
    ensures NUMERIC.Valid() && ALPHANUMERIC.Valid() && BYTES.Valid() && KANJI.Valid()
  {
    assert Power(10, 1) == 10 && Power(10, 2) == 100 && Power(10, 3) == 1000;
    assert Power(45, 1) == 45 && Power(45, 2) == 2025;
    assert Power(256, 1) == 256 && Power(8192, 1) == 8192;
    assert Pow2(4) == 16 && Pow2(7) == 128 && Pow2(10) == 1024 && Pow2(6) == 64 && Pow2(11) == 2048;
    assert Pow2(8) == 256 && Pow2(13) == 8192;
  }

  // ----- Text -----

  /** The characters of a C string: single bytes, none of them NUL. */
  predicate IsCString(s: string) {
    forall i :: 0 <= i < |s| ==> 0 < s[i] as int < 256
  }

  const DIGITS := "0123456789"
  const ALPHANUMERIC_CHARSET := DIGITS + "ABCDEFGHIJKLMNOPQRSTUVWXYZ $%*+-./:"

  /** The index of the first c in s, or |s|: what `std::strchr` finds. */
  function FirstIndex(s: string, c: char): (i: nat)
    ensures i <= |s|
    ensures i < |s| <==> c in s
    ensures i < |s| ==> s[i] == c
  {
    if |s| == 0 || s[0] == c then 0 else 1 + FirstIndex(s[1..], c)
  }

  predicate IsDigit(c: char) {
    '0' <= c <= '9'
  }

  predicate AllDigits(s: string) {
    forall i :: 0 <= i < |s| ==> IsDigit(s[i])
  }

  predicate AllAlphanumeric(s: string) {
    forall i :: 0 <= i < |s| ==> s[i] in ALPHANUMERIC_CHARSET
  }

  function DigitValue(c: char): nat
    requires IsDigit(c)
  {
    c as int - '0' as int
  }

  function DigitValues(s: string): (vs: seq<nat>)
    requires AllDigits(s)
    ensures |vs| == |s| && forall i :: 0 <= i < |s| ==> vs[i] == DigitValue(s[i])
  {
    seq(|s|, i requires 0 <= i < |s| => DigitValue(s[i]))
  }

  function CharsetValues(s: string): (vs: seq<nat>)
    ensures |vs| == |s| && forall i :: 0 <= i < |s| ==> vs[i] == FirstIndex(ALPHANUMERIC_CHARSET, s[i])
  {
    seq(|s|, i requires 0 <= i < |s| => FirstIndex(ALPHANUMERIC_CHARSET, s[i]))
  }

  /** The bytes of a C string. */
  function TextBytes(s: string): (b: seq<nat>)
    ensures |b| == |s| && forall i :: 0 <= i < |s| ==> b[i] == s[i] as int
  {
    seq(|s|, i requires 0 <= i < |s| => s[i] as int)
  }

  // ----- Reading a segment -----

  function PayloadCoding(m: Mode): Option<Coding> {
    match m
    case Numeric => Some(NUMERIC)
    case Alphanumeric => Some(ALPHANUMERIC)
    case Byte => Some(BYTES)
    case Kanji => Some(KANJI)
    case Eci => None
  }

  /** The bit length of an ECI designator, which its first bits determine. */
  function EciLength(b: seq<bool>): Option<nat> {
    if |b| >= 1 && !b[0] then Some(8)
    else if |b| >= 2 && !b[1] then Some(16)
    else if |b| >= 3 && !b[2] then Some(24)
    else None
  }

  /** The number of payload bits at the front of b, for a segment with n characters. */
  function PayloadLength(m: Mode, n: nat, b: seq<bool>): Option<nat> {
    match PayloadCoding(m)
    case Some(c) => Some(EncodedLength(n, c))
    case None => EciLength(b)
  }

  /** The character count agrees with the mode and the length of the data. */
  predicate Agrees(seg: QrSegment) {
    PayloadLength(seg.mode, seg.numChars, seg.data) == Some(|seg.data|)
  }

  function DigitText(vs: seq<nat>): (b: seq<nat>)
    ensures |b| == |vs| && forall i :: 0 <= i < |vs| ==> b[i] == '0' as int + vs[i]
  {
    seq(|vs|, i requires 0 <= i < |vs| => '0' as int + vs[i])
  }

  function CharsetText(vs: seq<nat>): (b: seq<nat>)
    requires forall i :: 0 <= i < |vs| ==> vs[i] < |ALPHANUMERIC_CHARSET|
    ensures |b| == |vs| && forall i :: 0 <= i < |vs| ==> b[i] == ALPHANUMERIC_CHARSET[vs[i]] as int
  {
    seq(|vs|, i requires 0 <= i < |vs| => ALPHANUMERIC_CHARSET[vs[i]] as int)
  }

  /** The bytes of text that a segment stands for; kanji and ECI segments are not text of bytes. */
  function Content(seg: QrSegment): Option<seq<nat>>
    requires Agrees(seg)
  {
    match seg.mode
    case Numeric => Some(DigitText(Decode(seg.data, seg.numChars, NUMERIC)))
    case Alphanumeric =>
      var vs := Decode(seg.data, seg.numChars, ALPHANUMERIC);
      if forall i :: 0 <= i < |vs| ==> vs[i] < |ALPHANUMERIC_CHARSET| then Some(CharsetText(vs)) else None
    case Byte => Some(Decode(seg.data, seg.numChars, BYTES))
    case _ => None
  }

  // ----- Making segments -----

  ghost function NumericSegment(digits: string): QrSegment
    requires AllDigits(digits)
  {
    QrSegment(Numeric, |digits|, Encode(DigitValues(digits), NUMERIC))
  }

  ghost function AlphanumericSegment(text: string): QrSegment {
    QrSegment(Alphanumeric, |text|, Encode(CharsetValues(text), ALPHANUMERIC))
  }

  ghost function ByteSegment(data: seq<nat>): QrSegment {
    QrSegment(Byte, |data|, Encode(data, BYTES))
  }

  /** A numeric segment stands for the digits it was made from. */
  lemma NumericContent(digits: string)
    requires AllDigits(digits)
    ensures Agrees(NumericSegment(digits))
    ensures Content(NumericSegment(digits)) == Some(TextBytes(digits))
  {
    hide Encode, Decode, EncodedLength;
    CodingsValid();
    var vs := DigitValues(digits);
    DecodeEncode(vs, NUMERIC, []);
    assert Encode(vs, NUMERIC) + [] == Encode(vs, NUMERIC);
    assert DigitText(vs) == TextBytes(digits);
  }

  lemma CharsetSize()
    ensures |ALPHANUMERIC_CHARSET| == 45
  {
  }

  lemma AlphanumericContent(text: string)
    requires AllAlphanumeric(text)
    ensures Agrees(AlphanumericSegment(text))
    ensures Content(AlphanumericSegment(text)) == Some(TextBytes(text))
  {
    hide Encode, Decode, EncodedLength, FirstIndex;
    CodingsValid();
    CharsetSize();
    var vs := CharsetValues(text);
    DecodeEncode(vs, ALPHANUMERIC, []);
    assert Encode(vs, ALPHANUMERIC) + [] == Encode(vs, ALPHANUMERIC);
    assert CharsetText(vs) == TextBytes(text);
  }

  lemma ByteContent(data: seq<nat>)
    requires Below(data, 256)
    ensures Agrees(ByteSegment(data))
    ensures Content(ByteSegment(data)) == Some(data)
  {
    hide Encode, Decode, EncodedLength;
    CodingsValid();
    DecodeEncode(data, BYTES, []);
    assert Encode(data, BYTES) + [] == Encode(data, BYTES);
  }

  /** `QrSegment::makeBytes`. */
  method MakeBytes(data: seq<nat>) returns (r: Result<QrSegment>)
    requires Below(data, 256)
    ensures r == if |data| > INT_MAX then Err(LengthError) else Ok(ByteSegment(data))
  {
    hide Encode;
    if |data| > INT_MAX {
      return Err(LengthError);
    }
    var bb := new BitBuffer();
    EncodeEmpty(BYTES);
    assert data[..0] == [];
    for k := 0 to |data|
      invariant bb.bits == Encode(data[..k], BYTES)
    {
      EncodeNextGroup(data, k, k + 1, BYTES);
      NumberOfOne(data[k], 256);
      assert data[k..k + 1] == [data[k]];
      Pow2Of8();
      var ok := bb.AppendBits(data[k], 8);
    }
    assert data[..|data|] == data;
    r := Ok(QrSegment(Byte, |data|, bb.bits));
  }

  lemma EncodeEmpty(c: Coding)
    requires c.group > 0
    ensures Encode([], c) == []
  {
  }

  /** The next group may be full, or short at the end. */
  lemma EncodeNextGroup(vs: seq<nat>, k: nat, k': nat, c: Coding)
    requires k < k' <= |vs| && k' - k <= c.group && k % c.group == 0
    ensures Encode(vs[..k'], c) == Encode(vs[..k], c) + BitsOf(Number(vs[k..k'], c.radix), c.GroupBits(k' - k))
  {
    hide Encode;
    assert vs[..k'] == vs[..k] + vs[k..k'];
    EncodeAppend(vs[..k], vs[k..k'], c);
    EncodeOneGroup(vs[k..k'], c);
  }

  lemma NumberOfOne(v: nat, radix: nat)
    ensures Number([v], radix) == v
  {
    assert Number([], radix) == 0;
  }

  // ----- The accumulator loop shared by numeric and alphanumeric segments -----

  /** The state of the loop once vs has been read: full groups are written, `count` values wait in `acc`. */
  ghost predicate Accumulated(vs: seq<nat>, bits: seq<bool>, acc: nat, count: nat, c: Coding)
    requires c.group > 0
  {
    && count < c.group && count <= |vs| && (|vs| - count) % c.group == 0
    && bits == Encode(vs[..|vs| - count], c)
    && acc == Number(vs[|vs| - count..], c.radix)
  }

  lemma AccumulateNone(c: Coding)
    requires c.group > 0
    ensures Accumulated([], [], 0, 0, c)
  {
    DivModUnique(c.group, 0, 0);
  }

  lemma AccumulateOne(vs: seq<nat>, v: nat, bits: seq<bool>, acc: nat, count: nat, c: Coding)
    requires c.Valid() && Below(vs + [v], c.radix)
    requires Accumulated(vs, bits, acc, count, c)
    ensures count + 1 < c.group ==> Accumulated(vs + [v], bits, acc * c.radix + v, count + 1, c)
    ensures count + 1 == c.group ==>
              && acc * c.radix + v < Pow2(c.GroupBits(c.group))
              && Accumulated(vs + [v], bits + BitsOf(acc * c.radix + v, c.GroupBits(c.group)), 0, 0, c)
  {
    hide Encode, Number, Coding.Valid;
    var start, ws := |vs| - count, vs + [v];
    var next := acc * c.radix + v;
    assert ws[..start] == vs[..start];
    NumberAppend(vs[start..], v, c.radix);
    assert ws[start..] == vs[start..] + [v];
    if count + 1 == c.group {
      GroupFits(ws[start..], c);
      EncodeNextGroup(ws, start, |ws|, c);
      assert ws[..|ws|] == ws;
      NextMultiple(start, c.group);
      assert ws[|ws|..] == [];
      NumberOfNone(c.radix);
    }
  }

  lemma AccumulateEnd(vs: seq<nat>, bits: seq<bool>, acc: nat, count: nat, c: Coding)
    requires c.Valid() && Below(vs, c.radix)
    requires Accumulated(vs, bits, acc, count, c)
    ensures count == 0 ==> bits == Encode(vs, c)
    ensures count > 0 ==> acc < Pow2(c.GroupBits(count)) && bits + BitsOf(acc, c.GroupBits(count)) == Encode(vs, c)
  {
    hide Encode, Number, Coding.Valid;
    var start := |vs| - count;
    assert vs[..|vs|] == vs;
    if count > 0 {
      assert vs[start..] == vs[start..|vs|];
      GroupFits(vs[start..], c);
      EncodeNextGroup(vs, start, |vs|, c);
    }
  }

  lemma NextMultiple(n: nat, g: nat)
    requires 0 < g && n % g == 0
    ensures (n + g) % g == 0
  {
    assert n == g * (n / g);
    Distribute(g, n / g, 1);
    DivModUnique(g, n / g + 1, 0);
  }

  lemma NumberOfNone(radix: nat)
    ensures Number([], radix) == 0
  {
  }

  lemma NumberAppend(vs: seq<nat>, v: nat, radix: nat)
    ensures Number(vs + [v], radix) == Number(vs, radix) * radix + v
  {
    assert (vs + [v])[..|vs|] == vs;
  }

  lemma GroupFits(vs: seq<nat>, c: Coding)
    requires c.Valid() && Below(vs, c.radix) && 1 <= |vs| <= c.group
    ensures Number(vs, c.radix) < Pow2(c.GroupBits(|vs|))
  {
    NumberBound(vs, c.radix);
  }

  lemma Pow2Of8()
    ensures Pow2(8) == 256
  {
  }

  /** `QrSegment::makeNumeric`. */
  method MakeNumeric(digits: string) returns (r: Result<QrSegment>)
    requires IsCString(digits)
    ensures r == if AllDigits(digits) then Ok(NumericSegment(digits)) else Err(DomainError)
  {
    hide BitsOf, Pow2, Encode, Accumulated, Coding.Valid;
    CodingsValid();
    var bb := new BitBuffer();
    var accumData: nat, accumCount: nat, charCount: nat := 0, 0, 0;
    ghost var vs: seq<nat> := [];
    AccumulateNone(NUMERIC);
    while charCount < |digits|
      invariant charCount == |vs| <= |digits| && accumCount < 3
      invariant forall i :: 0 <= i < charCount ==> IsDigit(digits[i]) && vs[i] == DigitValue(digits[i])
      invariant Accumulated(vs, bb.bits, accumData, accumCount, NUMERIC)
    {
      var c := digits[charCount];
      if c < '0' || c > '9' {
        return Err(DomainError);
      }
      AccumulateOne(vs, DigitValue(c), bb.bits, accumData, accumCount, NUMERIC);
      vs := vs + [DigitValue(c)];
      accumData := accumData * 10 + (c as int - '0' as int);
      accumCount := accumCount + 1;
      if accumCount == 3 {
        var ok := bb.AppendBits(accumData, 10);
        accumData := 0;
        accumCount := 0;
      }
      charCount := charCount + 1;
    }
    AccumulateEnd(vs, bb.bits, accumData, accumCount, NUMERIC);
    if accumCount > 0 {
      var ok := bb.AppendBits(accumData, accumCount * 3 + 1);
    }
    assert vs == DigitValues(digits);
    r := Ok(QrSegment(Numeric, charCount, bb.bits));
  }

  /** `QrSegment::makeAlphanumeric`. */
  method MakeAlphanumeric(text: string) returns (r: Result<QrSegment>)
    requires IsCString(text)
    ensures r == if AllAlphanumeric(text) then Ok(AlphanumericSegment(text)) else Err(DomainError)
  {
    hide BitsOf, Pow2, Encode, Accumulated, Coding.Valid, FirstIndex, ALPHANUMERIC_CHARSET;
    CodingsValid();
    CharsetSize();
    var bb := new BitBuffer();
    var accumData: nat, accumCount: nat, charCount: nat := 0, 0, 0;
    ghost var vs: seq<nat> := [];
    AccumulateNone(ALPHANUMERIC);
    while charCount < |text|
      invariant charCount == |vs| <= |text| && accumCount < 2
      invariant forall i :: 0 <= i < charCount ==>
        text[i] in ALPHANUMERIC_CHARSET && vs[i] == FirstIndex(ALPHANUMERIC_CHARSET, text[i])
      invariant Accumulated(vs, bb.bits, accumData, accumCount, ALPHANUMERIC)
    {
      var temp := FirstIndex(ALPHANUMERIC_CHARSET, text[charCount]);
      if temp == |ALPHANUMERIC_CHARSET| {
        return Err(DomainError);
      }
      AccumulateOne(vs, temp, bb.bits, accumData, accumCount, ALPHANUMERIC);
      vs := vs + [temp];
      accumData := accumData * 45 + temp;
      accumCount := accumCount + 1;
      if accumCount == 2 {
        var ok := bb.AppendBits(accumData, 11);
        accumData := 0;
        accumCount := 0;
      }
      charCount := charCount + 1;
    }
    AccumulateEnd(vs, bb.bits, accumData, accumCount, ALPHANUMERIC);
    if accumCount > 0 {
      var ok := bb.AppendBits(accumData, 6);
    }
    assert vs == CharsetValues(text);
    r := Ok(QrSegment(Alphanumeric, charCount, bb.bits));
  }

  /** `QrSegment::isNumeric`. */
  method IsNumeric(text: string) returns (r: bool)
    requires IsCString(text)
    ensures r == AllDigits(text)
  {
    for k := 0 to |text|
      invariant forall i :: 0 <= i < k ==> IsDigit(text[i])
    {
      var c := text[k];
      if c < '0' || c > '9' {
        return false;
      }
    }
    return true;
  }

  /** `QrSegment::isAlphanumeric`. */
  method IsAlphanumeric(text: string) returns (r: bool)
    requires IsCString(text)
    ensures r == AllAlphanumeric(text)
  {
    hide FirstIndex, ALPHANUMERIC_CHARSET;
    for k := 0 to |text|
      invariant forall i :: 0 <= i < k ==> text[i] in ALPHANUMERIC_CHARSET
    {
      if FirstIndex(ALPHANUMERIC_CHARSET, text[k]) == |ALPHANUMERIC_CHARSET| {
        return false;
      }
    }
    return true;
  }

  /** The text that a list of segments stands for, when each of them stands for text. */
  function ContentOf(segs: seq<QrSegment>): Option<seq<nat>>
    requires forall i :: 0 <= i < |segs| ==> Agrees(segs[i])
  {
    if |segs| == 0 then Some([])
    else
      match (Content(segs[0]), ContentOf(segs[1..]))
      case (Some(a), Some(b)) => Some(a + b)
      case _ => None
  }

  /** One segment in the first of the numeric, alphanumeric and byte modes that can hold the text, or none for the empty text. */
  ghost function TextSegments(text: string): seq<QrSegment>
    requires IsCString(text)
  {
    if text == [] then []
    else [if AllDigits(text) then NumericSegment(text)
          else if AllAlphanumeric(text) then AlphanumericSegment(text)
          else ByteSegment(TextBytes(text))]
  }

  /** `QrSegment::makeSegments`: the segments stand for the text. */
  method MakeSegments(text: string) returns (r: Result<seq<QrSegment>>)
    requires IsCString(text)
    ensures r.Err? <==> |text| > INT_MAX && !AllAlphanumeric(text)
    ensures r.Err? ==> r.error == LengthError
    ensures r.Ok? ==> r.value == TextSegments(text)
    ensures r.Ok? ==> forall i :: 0 <= i < |r.value| ==> Agrees(r.value[i])
    ensures r.Ok? ==> ContentOf(r.value) == Some(TextBytes(text))
  {
    hide Encode, ALPHANUMERIC_CHARSET, Content, FirstIndex;
    DigitsAreAlphanumeric(text);
    if |text| == 0 {
      return Ok([]);
    }
    var numeric := IsNumeric(text);
    if numeric {
      var seg := MakeNumeric(text);
      NumericContent(text);
      ContentOfOne(seg.value);
      return Ok([seg.value]);
    }
    var alphanumeric := IsAlphanumeric(text);
    if alphanumeric {
      var seg := MakeAlphanumeric(text);
      AlphanumericContent(text);
      ContentOfOne(seg.value);
      return Ok([seg.value]);
    }
    var bytes := [];
    for k := 0 to |text|
      invariant |bytes| == k && forall i :: 0 <= i < k ==> bytes[i] == text[i] as int
    {
      bytes := bytes + [text[k] as int];
    }
    assert bytes == TextBytes(text);
    var seg := MakeBytes(bytes);
    if seg.Err? {
      return Err(seg.error);
    }
    ByteContent(bytes);
    ContentOfOne(seg.value);
    r := Ok([seg.value]);
  }

  lemma DigitInCharset(c: char)
    requires IsDigit(c)
    ensures c in ALPHANUMERIC_CHARSET
  {
    assert c == '0' || c == '1' || c == '2' || c == '3' || c == '4' || c == '5' || c == '6' || c == '7' || c == '8' || c == '9';
    assert c in DIGITS;
  }

  lemma DigitsAreAlphanumeric(text: string)
    ensures AllDigits(text) ==> AllAlphanumeric(text)
  {
    if AllDigits(text) {
      forall i | 0 <= i < |text|
        ensures text[i] in ALPHANUMERIC_CHARSET
      {
        DigitInCharset(text[i]);
      }
    }
  }

  lemma ContentOfOne(seg: QrSegment)
    requires Agrees(seg)
    ensures Content(seg).Some? ==> ContentOf([seg]) == Content(seg)
  {
    hide Content;
    assert [seg][1..] == [];
    if Content(seg).Some? {
      assert Content(seg).value + [] == Content(seg).value;
    }
  }

  // ----- Extended Channel Interpretation designators -----

  /** The assignment value of the designator at the front of b. */
  function EciValue(b: seq<bool>): Option<nat> {
    match EciLength(b)
    case None => None
    case Some(n) =>
      if |b| < n then None
      else Some(ValueOf(b[if n == 8 then 1 else if n == 16 then 2 else 3..n]))
  }

  /** The shortest designator: one, two or three bytes, which start with 0, 10 and 110. */
  function EciBits(v: nat): seq<bool> {
    if v < 128 then BitsOf(v, 8)
    else if v < 16384 then [true, false] + BitsOf(v, 14)
    else [true, true, false] + BitsOf(v, 21)
  }

  /** `QrSegment::makeEci`. */
  method MakeEci(assignVal: int) returns (r: Result<QrSegment>)
    ensures r.Ok? <==> 0 <= assignVal < 1000000
    ensures r.Err? ==> r.error == DomainError
    ensures r.Ok? ==> r.value.mode == Eci && r.value.numChars == 0 && Agrees(r.value)
    ensures r.Ok? ==> EciValue(r.value.data) == Some(assignVal)
    ensures r.Ok? ==> r.value.data == EciBits(assignVal)
  {
    hide BitsOf, ValueOf, Pow2, EciValue;
    EciPowers();
    EciPrefixes();
    var bb := new BitBuffer();
    if assignVal < 0 {
      return Err(DomainError);
    } else if assignVal < 128 {
      var ok := bb.AppendBits(assignVal, 8);
    } else if assignVal < 16384 {
      var ok := bb.AppendBits(2, 2);
      ok := bb.AppendBits(assignVal, 14);
    } else if assignVal < 1000000 {
      var ok := bb.AppendBits(6, 3);
      ok := bb.AppendBits(assignVal, 21);
    } else {
      return Err(DomainError);
    }
    EciReadsBack(assignVal);
    assert bb.bits == EciBits(assignVal);
    r := Ok(QrSegment(Eci, 0, bb.bits));
  }

  /** The designator of a value is read back as the value. */
  lemma EciReadsBack(v: nat)
    requires v < 2097152
    ensures EciLength(EciBits(v)) == Some(|EciBits(v)|)
    ensures EciValue(EciBits(v)) == Some(v)
  {
    hide BitsOf, ValueOf, Pow2;
    EciPowers();
    var b := EciBits(v);
    if v < 128 {
      LeadingZeroBit(v);
    } else if v < 16384 {
      ValueOfBitsOf(v, 14);
      assert b[2..16] == BitsOf(v, 14);
    } else {
      ValueOfBitsOf(v, 21);
      assert b[3..24] == BitsOf(v, 21);
    }
  }

  lemma EciPowers()
    ensures Pow2(8) == 256 && Pow2(2) == 4 && Pow2(14) == 16384 && Pow2(3) == 8 && Pow2(21) == 2097152
  {
    assert Pow2(14) == 2 * Pow2(13) == 16384;
    assert Pow2(21) == 2 * Pow2(20);
  }

  lemma EciPrefixes()
    ensures BitsOf(2, 2) == [true, false] && BitsOf(6, 3) == [true, true, false]
  {
  }

  lemma LeadingZeroBit(v: nat)
    requires v < 128
    ensures BitsOf(v, 8) == [false] + BitsOf(v, 8)[1..]
    ensures ValueOf(BitsOf(v, 8)[1..8]) == v
  {
    hide BitsOf, ValueOf;
    assert Pow2(7) == 128;
    ValueOfBitsOf(v, 7);
    LeadingBits(v, 7);
    assert BitsOf(v, 8)[1..8] == BitsOf(v, 7);
  }

  /** One more bit than a number needs is a zero in front. */
  lemma {:induction false} LeadingBits(v: nat, len: nat)
    requires v < Pow2(len)
    ensures BitsOf(v, len + 1) == [false] + BitsOf(v, len)
    decreases len
  {
    if len > 0 {
      LeadingBits(v / 2, len - 1);
    }
  }
}
