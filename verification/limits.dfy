/** How much text and how many bytes fit a symbol, and which mode needs the fewest bits. */
module Limits {
  import opened BinaryPoly
  import opened BitStream
  import opened Encoder
  import opened RadixCode
  import opened Results
  import opened Segment
  import opened Tables

  ghost predicate FitsSome(segs: seq<QrSegment>, ecl: Ecc, minVersion: int, maxVersion: int) {
    exists v: Version :: minVersion <= v <= maxVersion && Fits(segs, v, ecl)
  }

  // ----- Capacities -----

  /** The versions with which the three widths of count fields end. */
  predicate IsTop(top: int) {
    top == 9 || top == 26 || top == 40
  }

  /** The data codewords of these versions at the low level. */
  function TopCodewords(top: int): nat
    requires IsTop(top)
  {
    if top == 9 then 232 else if top == 26 then 1370 else 2956
  }

  lemma LowCapacity(top: Version)
    requires IsTop(top)
    ensures NumDataCodewords(top, Low) == TopCodewords(top)
  {
    RawCodewordsIsTable(top);
  }

  /** Check codewords take away from the raw codewords. */
  lemma DataBelowRaw(ver: Version, ecl: Ecc)
    ensures NumDataCodewords(ver, ecl) <= RawCodewordsTable(ver)
    ensures NumDataCodewords(ver, ecl) == RawCodewordsTable(ver) - EccCodewordsPerBlock(ecl, ver) * NumErrorCorrectionBlocks(ecl, ver)
  {
    hide EccCodewordsPerBlock, NumErrorCorrectionBlocks, RawCodewords, RawCodewordsTable;
    RawCodewordsIsTable(ver);
    TablesOk(ver, ecl);
    var e, b := EccCodewordsPerBlock(ecl, ver), NumErrorCorrectionBlocks(ecl, ver);
    assert e * b >= 0;
  }

  lemma LargeSymbols(ver: Version, ecl: Ecc)
    requires ver >= 36
    ensures RawCodewordsTable(ver) - EccCodewordsPerBlock(ecl, ver) * NumErrorCorrectionBlocks(ecl, ver) <= 2956
  {
    assert ver == 36 || ver == 37 || ver == 38 || ver == 39 || ver == 40;
    match ecl
    case Low =>
    case Medium =>
    case Quartile =>
    case High =>
  }

  lemma MediumSymbols(ver: Version, ecl: Ecc)
    requires 24 <= ver <= 26
    ensures RawCodewordsTable(ver) - EccCodewordsPerBlock(ecl, ver) * NumErrorCorrectionBlocks(ecl, ver) <= 1370
  {
    assert ver == 24 || ver == 25 || ver == 26;
    match ecl
    case Low =>
    case Medium =>
    case Quartile =>
    case High =>
  }

  lemma SmallSymbols(ver: Version, ecl: Ecc)
    requires 8 <= ver <= 9
    ensures RawCodewordsTable(ver) - EccCodewordsPerBlock(ecl, ver) * NumErrorCorrectionBlocks(ecl, ver) <= 232
  {
    assert ver == 8 || ver == 9;
    match ecl
    case Low =>
    case Medium =>
    case Quartile =>
    case High =>
  }

  /** No symbol of a range of versions has more data codewords than the largest one of the low level. */
  lemma CapacityBound(ver: Version, ecl: Ecc)
    ensures NumDataCodewords(ver, ecl) <= if ver <= 9 then 232 else if ver <= 26 then 1370 else 2956
  {
    hide EccCodewordsPerBlock, NumErrorCorrectionBlocks, NumDataCodewords;
    DataBelowRaw(ver, ecl);
    if ver >= 36 {
      LargeSymbols(ver, ecl);
    } else if 24 <= ver <= 26 {
      MediumSymbols(ver, ecl);
    } else if 8 <= ver <= 9 {
      SmallSymbols(ver, ecl);
    }
  }

  // ----- Payload lengths -----

  /** Three digits take ten bits, and a shorter group the bits it needs. */
  lemma {:induction false} NumericLength(n: nat)
    ensures 10 * n <= 3 * EncodedLength(n, NUMERIC) <= 10 * n + 2
  {
    if n > 0 {
      NumericLength(n - GroupSize(n, NUMERIC));
    }
  }

  lemma {:induction false} AlphanumericLength(n: nat)
    ensures 11 * n <= 2 * EncodedLength(n, ALPHANUMERIC) <= 11 * n + 1
  {
    if n > 0 {
      AlphanumericLength(n - GroupSize(n, ALPHANUMERIC));
    }
  }

  lemma {:induction false} ByteLength(n: nat)
    ensures EncodedLength(n, BYTES) == 8 * n
  {
    if n > 0 {
      ByteLength(n - 1);
    }
  }

  lemma {:induction false} KanjiLength(n: nat)
    ensures EncodedLength(n, KANJI) == 13 * n
  {
    if n > 0 {
      KanjiLength(n - 1);
    }
  }

  /** The lengths of the segments that a text can become. */
  lemma TextLengths(text: string)
    requires IsCString(text)
    ensures AllDigits(text) ==> 10 * |text| <= 3 * |NumericSegment(text).data| <= 10 * |text| + 2
    ensures AllAlphanumeric(text) ==> 11 * |text| <= 2 * |AlphanumericSegment(text).data| <= 11 * |text| + 1
    ensures |ByteSegment(TextBytes(text)).data| == 8 * |text|
  {
    hide Encode, EncodedLength, AllAlphanumeric, ALPHANUMERIC_CHARSET, FirstIndex;
    if AllDigits(text) {
      EncodeLength(DigitValues(text), NUMERIC);
      NumericLength(|text|);
    }
    EncodeLength(CharsetValues(text), ALPHANUMERIC);
    AlphanumericLength(|text|);
    EncodeLength(TextBytes(text), BYTES);
    ByteLength(|text|);
  }

  lemma OneSegmentBits(seg: QrSegment, ver: Version)
    ensures TotalBits([seg], ver) == 4 + seg.mode.NumCharCountBits(ver) + |seg.data|
    ensures CountsFit([seg], ver) <==> CountFits(seg, ver)
  {
    hide CountFits;
    assert TotalBits([seg][..0], ver) == 0;
    assert [seg][0] == seg;
  }

  lemma CountPowers()
    ensures Pow2(8) == 256 && Pow2(9) == 512 && Pow2(10) == 1024 && Pow2(11) == 2048 && Pow2(12) == 4096
    ensures Pow2(13) == 8192 && Pow2(14) == 16384 && Pow2(16) == 65536
  {
    assert Pow2(8) == 2 * Pow2(7) == 4 * Pow2(6) && Pow2(6) == 64;
    assert Pow2(10) == 2 * Pow2(9) && Pow2(12) == 2 * Pow2(11) == 4 * Pow2(10);
    assert Pow2(14) == 2 * Pow2(13) == 4 * Pow2(12) && Pow2(16) == 4 * Pow2(14);
  }

  // ----- The most efficient mode -----

  /** In every version, no other mode that can hold the text takes fewer bits, although count fields differ. */
  lemma CheapestMode(text: string, ver: Version)
    requires IsCString(text) && text != []
    ensures TotalBits(TextSegments(text), ver) <= TotalBits([ByteSegment(TextBytes(text))], ver)
    ensures AllAlphanumeric(text) ==> TotalBits(TextSegments(text), ver) <= TotalBits([AlphanumericSegment(text)], ver)
    ensures AllDigits(text) ==> TotalBits(TextSegments(text), ver) <= TotalBits([NumericSegment(text)], ver)
  {
    hide Encode, TotalBits, AllAlphanumeric, AllDigits, TextBytes, ByteSegment, AlphanumericSegment, NumericSegment;
    TextLengths(text);
    SegmentShapes(text);
    OneSegmentBits(ByteSegment(TextBytes(text)), ver);
    OneSegmentBits(AlphanumericSegment(text), ver);
    if AllDigits(text) {
      OneSegmentBits(NumericSegment(text), ver);
      DigitsAreAlphanumeric(text);
    }
  }

  lemma SegmentShapes(text: string)
    requires IsCString(text)
    ensures AllDigits(text) ==> NumericSegment(text).mode == Numeric && NumericSegment(text).numChars == |text|
    ensures AlphanumericSegment(text).mode == Alphanumeric && AlphanumericSegment(text).numChars == |text|
    ensures ByteSegment(TextBytes(text)).mode == Byte && ByteSegment(TextBytes(text)).numChars == |text|
  {
  }

  /** Whatever fits in another mode fits in the chosen one, although its count field may be narrower. */
  lemma CheapestFits(text: string, ver: Version, ecl: Ecc)
    requires IsCString(text) && text != []
    ensures Fits([ByteSegment(TextBytes(text))], ver, ecl) ==> Fits(TextSegments(text), ver, ecl)
    ensures AllAlphanumeric(text) && Fits([AlphanumericSegment(text)], ver, ecl) ==> Fits(TextSegments(text), ver, ecl)
    ensures AllDigits(text) && Fits([NumericSegment(text)], ver, ecl) ==> Fits(TextSegments(text), ver, ecl)
  {
    hide Encode, TotalBits, CountsFit, AllAlphanumeric, AllDigits, TextBytes, ByteSegment, AlphanumericSegment, NumericSegment,
         NumDataCodewords, Pow2;
    CheapestMode(text, ver);
    TextLengths(text);
    SegmentShapes(text);
    CapacityBound(ver, ecl);
    CountPowers();
    OneSegmentBits(ByteSegment(TextBytes(text)), ver);
    OneSegmentBits(AlphanumericSegment(text), ver);
    if AllDigits(text) {
      OneSegmentBits(NumericSegment(text), ver);
      DigitsAreAlphanumeric(text);
    }
  }

  // ----- Limits of the low level -----

  /** How many digits fit up to the given version. */
  function DigitLimit(top: int): nat {
    if top == 9 then 552 else if top == 26 then 3283 else 7089
  }

  function AlphanumericLimit(top: int): nat {
    if top == 9 then 335 else if top == 26 then 1990 else 4296
  }

  function ByteLimit(top: int): nat {
    if top == 9 then 230 else if top == 26 then 1367 else 2953
  }

  /** How long a text may be up to the given version. */
  function TextLimit(text: string, top: int): nat {
    if AllDigits(text) then DigitLimit(top) else if AllAlphanumeric(text) then AlphanumericLimit(top) else ByteLimit(top)
  }

  lemma NothingFits(top: Version)
    requires IsTop(top)
    ensures Fits([], top, Low)
  {
    hide NumDataCodewords;
    LowCapacity(top);
  }

  /** A segment whose bits fit the largest symbol of a range of versions. */
  lemma FitsLargest(seg: QrSegment, top: Version)
    requires IsTop(top)
    requires 4 + seg.mode.NumCharCountBits(top) + |seg.data| <= 8 * TopCodewords(top)
    requires seg.numChars < Pow2(seg.mode.NumCharCountBits(top))
    ensures FitsSome([seg], Low, 1, top)
  {
    hide NumDataCodewords, TotalBits, CountsFit, Pow2;
    OneSegmentBits(seg, top);
    LowCapacity(top);
    assert Fits([seg], top, Low);
  }

  /** A segment that is too long for this symbol, and far too long for those with narrower count fields. */
  lemma FitsNone(seg: QrSegment, ecl: Ecc, top: Version)
    requires IsTop(top) && seg.mode != Eci
    requires 4 + seg.mode.NumCharCountBits(top) + |seg.data| > 8 * TopCodewords(top)
    ensures !FitsSome([seg], ecl, 1, top)
  {
    hide NumDataCodewords, TotalBits, CountsFit;
    forall v: Version | v <= top
      ensures !Fits([seg], v, ecl)
    {
      OneSegmentBits(seg, v);
      CapacityBound(v, ecl);
    }
  }

  /** Bytes fit some symbol at the low level exactly when there are at most 2953, or fewer with a smaller largest version. */
  lemma BytesFitLow(data: seq<nat>, top: Version)
    requires IsTop(top)
    ensures FitsSome([ByteSegment(data)], Low, 1, top) <==> |data| <= ByteLimit(top)
  {
    hide Encode, EncodedLength, FitsSome, Pow2;
    var seg := ByteSegment(data);
    EncodeLength(data, BYTES);
    ByteLength(|data|);
    CountPowers();
    if |data| <= ByteLimit(top) {
      FitsLargest(seg, top);
    } else {
      FitsNone(seg, Low, top);
    }
  }

  /** Digits fit some symbol at the low level exactly when there are at most 7089, or fewer with a smaller largest version. */
  lemma DigitsFitLow(digits: string, top: Version)
    requires AllDigits(digits) && IsTop(top)
    ensures FitsSome([NumericSegment(digits)], Low, 1, top) <==> |digits| <= DigitLimit(top)
  {
    hide Encode, EncodedLength, FitsSome, Pow2;
    var seg := NumericSegment(digits);
    EncodeLength(DigitValues(digits), NUMERIC);
    NumericLength(|digits|);
    CountPowers();
    if |digits| <= DigitLimit(top) {
      FitsLargest(seg, top);
    } else {
      FitsNone(seg, Low, top);
    }
  }

  /** Alphanumeric text fits some symbol at the low level exactly when it has at most 4296 characters, or fewer with a smaller largest version. */
  lemma AlphanumericFitsLow(text: string, top: Version)
    requires IsTop(top)
    ensures FitsSome([AlphanumericSegment(text)], Low, 1, top) <==> |text| <= AlphanumericLimit(top)
  {
    hide Encode, EncodedLength, FitsSome, Pow2, ALPHANUMERIC_CHARSET, FirstIndex;
    var seg := AlphanumericSegment(text);
    EncodeLength(CharsetValues(text), ALPHANUMERIC);
    AlphanumericLength(|text|);
    CountPowers();
    if |text| <= AlphanumericLimit(top) {
      FitsLargest(seg, top);
    } else {
      FitsNone(seg, Low, top);
    }
  }

  /** A text fits some symbol at the low level exactly when it is within the limit of its mode. */
  lemma TextFitsLow(text: string, top: Version)
    requires IsCString(text) && IsTop(top)
    ensures FitsSome(TextSegments(text), Low, 1, top) <==> |text| <= TextLimit(text, top)
  {
    hide Fits, AllDigits, AllAlphanumeric, ByteSegment, AlphanumericSegment, NumericSegment;
    if text == [] {
      NothingFits(top);
      assert Fits(TextSegments(text), top, Low);
    } else if AllDigits(text) {
      DigitsFitLow(text, top);
    } else if AllAlphanumeric(text) {
      AlphanumericFitsLow(text, top);
    } else {
      BytesFitLow(TextBytes(text), top);
    }
  }

  /** Bytes that no `int` can count fit no symbol. */
  lemma HugeNeverFits(data: seq<nat>, ecl: Ecc)
    requires |data| > INT_MAX
    ensures !FitsSome([ByteSegment(data)], ecl, 1, 40)
  {
    hide Encode, EncodedLength, FitsSome;
    EncodeLength(data, BYTES);
    ByteLength(|data|);
    FitsNone(ByteSegment(data), ecl, 40);
  }

  lemma HugeTextNeverFits(text: string, ecl: Ecc)
    requires IsCString(text) && |text| > INT_MAX && !AllAlphanumeric(text)
    ensures !FitsSome(TextSegments(text), ecl, 1, 40)
  {
    hide FitsSome, ALPHANUMERIC_CHARSET;
    DigitsAreAlphanumeric(text);
    HugeNeverFits(TextBytes(text), ecl);
  }

  // ----- The limit of every symbol -----

  /** The number of characters in all segments. */
  function TotalChars(segs: seq<QrSegment>): nat {
    if |segs| == 0 then 0 else TotalChars(segs[..|segs| - 1]) + segs[|segs| - 1].numChars
  }

  /** A segment with characters needs ten bits for three of them, and from version 27 on a header of eighteen. */
  lemma SegmentWeight(seg: QrSegment, ver: Version)
    requires Agrees(seg) && CountFits(seg, ver) && seg.numChars > 0
    ensures 3 * (4 + seg.mode.NumCharCountBits(ver) + |seg.data|) >= 10 * seg.numChars + if ver >= 27 then 54 else 0
  {
    hide EncodedLength;
    NumericLength(seg.numChars);
    AlphanumericLength(seg.numChars);
    ByteLength(seg.numChars);
    KanjiLength(seg.numChars);
  }

  lemma {:induction false} SegmentsWeight(segs: seq<QrSegment>, ver: Version)
    requires CountsFit(segs, ver) && forall i :: 0 <= i < |segs| ==> Agrees(segs[i])
    ensures TotalChars(segs) > 0 ==> 3 * TotalBits(segs, ver) >= 10 * TotalChars(segs) + if ver >= 27 then 54 else 0
    decreases |segs|
  {
    hide Agrees, CountFits;
    if |segs| > 0 {
      var init, last := segs[..|segs| - 1], segs[|segs| - 1];
      SegmentsWeight(init, ver);
      if last.numChars > 0 {
        SegmentWeight(last, ver);
      }
    }
  }

  /** No symbol holds more than 7089 characters, however they are spread over segments. */
  lemma CharacterLimit(segs: seq<QrSegment>, ver: Version, ecl: Ecc)
    requires Fits(segs, ver, ecl) && forall i :: 0 <= i < |segs| ==> Agrees(segs[i])
    ensures TotalChars(segs) <= 7089
  {
    hide NumDataCodewords, TotalBits, TotalChars, Agrees, CountFits;
    SegmentsWeight(segs, ver);
    CapacityBound(ver, ecl);
  }
}
