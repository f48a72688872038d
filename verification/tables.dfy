/** Versions, error correction levels and the capacity tables. */
module Tables {

  const MIN_VERSION := 1
  const MAX_VERSION := 40

  type Version = v: int | 1 <= v <= 40 witness 1

  datatype Ecc = Low | Medium | Quartile | High {
    function Ordinal(): nat {
      match this
      case Low => 0
      case Medium => 1
      case Quartile => 2
      case High => 3
    }

    /** `QrCode::getFormatBits`. */
    function FormatBits(): (f: nat)
      ensures f < 4
    {
      match this
      case Low => 1
      case Medium => 0
      case Quartile => 3
      case High => 2
    }
  }

  function EccCodewordsPerBlockLow(ver: Version): int {
    match ver
      case 1 => 7 case 2 => 10 case 3 => 15 case 4 => 20 case 5 => 26 case 6 => 18 case 7 => 20 case 8 => 24
      case 9 => 30 case 10 => 18 case 11 => 20 case 12 => 24 case 13 => 26 case 14 => 30 case 15 => 22 case 16 => 24
      case 17 => 28 case 18 => 30 case 19 => 28 case 20 => 28 case 21 => 28 case 22 => 28 case 23 => 30 case 24 => 30
      case 25 => 26 case 26 => 28 case 27 => 30 case 28 => 30 case 29 => 30 case 30 => 30 case 31 => 30 case 32 => 30
      case 33 => 30 case 34 => 30 case 35 => 30 case 36 => 30 case 37 => 30 case 38 => 30 case 39 => 30 case _ => 30
  }

  function EccCodewordsPerBlockMedium(ver: Version): int {
    match ver
      case 1 => 10 case 2 => 16 case 3 => 26 case 4 => 18 case 5 => 24 case 6 => 16 case 7 => 18 case 8 => 22
      case 9 => 22 case 10 => 26 case 11 => 30 case 12 => 22 case 13 => 22 case 14 => 24 case 15 => 24 case 16 => 28
      case 17 => 28 case 18 => 26 case 19 => 26 case 20 => 26 case 21 => 26 case 22 => 28 case 23 => 28 case 24 => 28
      case 25 => 28 case 26 => 28 case 27 => 28 case 28 => 28 case 29 => 28 case 30 => 28 case 31 => 28 case 32 => 28
      case 33 => 28 case 34 => 28 case 35 => 28 case 36 => 28 case 37 => 28 case 38 => 28 case 39 => 28 case _ => 28
  }

  function EccCodewordsPerBlockQuartile(ver: Version): int {
    match ver
      case 1 => 13 case 2 => 22 case 3 => 18 case 4 => 26 case 5 => 18 case 6 => 24 case 7 => 18 case 8 => 22
      case 9 => 20 case 10 => 24 case 11 => 28 case 12 => 26 case 13 => 24 case 14 => 20 case 15 => 30 case 16 => 24
      case 17 => 28 case 18 => 28 case 19 => 26 case 20 => 30 case 21 => 28 case 22 => 30 case 23 => 30 case 24 => 30
      case 25 => 30 case 26 => 28 case 27 => 30 case 28 => 30 case 29 => 30 case 30 => 30 case 31 => 30 case 32 => 30
      case 33 => 30 case 34 => 30 case 35 => 30 case 36 => 30 case 37 => 30 case 38 => 30 case 39 => 30 case _ => 30
  }

  function EccCodewordsPerBlockHigh(ver: Version): int {
    match ver
      case 1 => 17 case 2 => 28 case 3 => 22 case 4 => 16 case 5 => 22 case 6 => 28 case 7 => 26 case 8 => 26
      case 9 => 24 case 10 => 28 case 11 => 24 case 12 => 28 case 13 => 22 case 14 => 24 case 15 => 24 case 16 => 30
      case 17 => 28 case 18 => 28 case 19 => 26 case 20 => 28 case 21 => 30 case 22 => 24 case 23 => 30 case 24 => 30
      case 25 => 30 case 26 => 30 case 27 => 30 case 28 => 30 case 29 => 30 case 30 => 30 case 31 => 30 case 32 => 30
      case 33 => 30 case 34 => 30 case 35 => 30 case 36 => 30 case 37 => 30 case 38 => 30 case 39 => 30 case _ => 30
  }

  function EccCodewordsPerBlock(ecl: Ecc, ver: Version): int {
    match ecl
    case Low => EccCodewordsPerBlockLow(ver)
    case Medium => EccCodewordsPerBlockMedium(ver)
    case Quartile => EccCodewordsPerBlockQuartile(ver)
    case High => EccCodewordsPerBlockHigh(ver)
  }

  function NumErrorCorrectionBlocksLow(ver: Version): int {
    match ver
      case 1 => 1 case 2 => 1 case 3 => 1 case 4 => 1 case 5 => 1 case 6 => 2 case 7 => 2 case 8 => 2
      case 9 => 2 case 10 => 4 case 11 => 4 case 12 => 4 case 13 => 4 case 14 => 4 case 15 => 6 case 16 => 6
      case 17 => 6 case 18 => 6 case 19 => 7 case 20 => 8 case 21 => 8 case 22 => 9 case 23 => 9 case 24 => 10
      case 25 => 12 case 26 => 12 case 27 => 12 case 28 => 13 case 29 => 14 case 30 => 15 case 31 => 16 case 32 => 17
      case 33 => 18 case 34 => 19 case 35 => 19 case 36 => 20 case 37 => 21 case 38 => 22 case 39 => 24 case _ => 25
  }

  function NumErrorCorrectionBlocksMedium(ver: Version): int {
    match ver
      case 1 => 1 case 2 => 1 case 3 => 1 case 4 => 2 case 5 => 2 case 6 => 4 case 7 => 4 case 8 => 4
      case 9 => 5 case 10 => 5 case 11 => 5 case 12 => 8 case 13 => 9 case 14 => 9 case 15 => 10 case 16 => 10
      case 17 => 11 case 18 => 13 case 19 => 14 case 20 => 16 case 21 => 17 case 22 => 17 case 23 => 18 case 24 => 20
      case 25 => 21 case 26 => 23 case 27 => 25 case 28 => 26 case 29 => 28 case 30 => 29 case 31 => 31 case 32 => 33
      case 33 => 35 case 34 => 37 case 35 => 38 case 36 => 40 case 37 => 43 case 38 => 45 case 39 => 47 case _ => 49
  }

  function NumErrorCorrectionBlocksQuartile(ver: Version): int {
    match ver
      case 1 => 1 case 2 => 1 case 3 => 2 case 4 => 2 case 5 => 4 case 6 => 4 case 7 => 6 case 8 => 6
      case 9 => 8 case 10 => 8 case 11 => 8 case 12 => 10 case 13 => 12 case 14 => 16 case 15 => 12 case 16 => 17
      case 17 => 16 case 18 => 18 case 19 => 21 case 20 => 20 case 21 => 23 case 22 => 23 case 23 => 25 case 24 => 27
      case 25 => 29 case 26 => 34 case 27 => 34 case 28 => 35 case 29 => 38 case 30 => 40 case 31 => 43 case 32 => 45
      case 33 => 48 case 34 => 51 case 35 => 53 case 36 => 56 case 37 => 59 case 38 => 62 case 39 => 65 case _ => 68
  }

  function NumErrorCorrectionBlocksHigh(ver: Version): int {
    match ver
      case 1 => 1 case 2 => 1 case 3 => 2 case 4 => 4 case 5 => 4 case 6 => 4 case 7 => 5 case 8 => 6
      case 9 => 8 case 10 => 8 case 11 => 11 case 12 => 11 case 13 => 16 case 14 => 16 case 15 => 18 case 16 => 16
      case 17 => 19 case 18 => 21 case 19 => 25 case 20 => 25 case 21 => 25 case 22 => 34 case 23 => 30 case 24 => 32
      case 25 => 35 case 26 => 37 case 27 => 40 case 28 => 42 case 29 => 45 case 30 => 48 case 31 => 51 case 32 => 54
      case 33 => 57 case 34 => 60 case 35 => 63 case 36 => 66 case 37 => 70 case 38 => 74 case 39 => 77 case _ => 81
  }

  function NumErrorCorrectionBlocks(ecl: Ecc, ver: Version): int {
    match ecl
    case Low => NumErrorCorrectionBlocksLow(ver)
    case Medium => NumErrorCorrectionBlocksMedium(ver)
    case Quartile => NumErrorCorrectionBlocksQuartile(ver)
    case High => NumErrorCorrectionBlocksHigh(ver)
  }

  /** The number of alignment pattern positions on each axis, for versions from 2 up. */
  function NumAlign(ver: Version): nat {
    ver / 7 + 2
  }

  /** `QrCode::getNumRawDataModules`. */
  function NumRawDataModules(ver: Version): int {
    var r := (16 * ver + 128) * ver + 64;
    if ver >= 2 then
      r - ((25 * NumAlign(ver) - 10) * NumAlign(ver) - 55) - (if ver >= 7 then 36 else 0)
    else r
  }

  function RawCodewords(ver: Version): int {
    NumRawDataModules(ver) / 8
  }

  /** `QrCode::getNumDataCodewords`. */
  function NumDataCodewords(ver: Version, ecl: Ecc): int {
    RawCodewords(ver) - EccCodewordsPerBlock(ecl, ver) * NumErrorCorrectionBlocks(ecl, ver)
  }

  // ----- The numbers of data codewords that table 7 of ISO/IEC 18004:2015 lists -----

  function DataCodewordsLow(ver: Version): int {
    match ver
      case 1 => 19 case 2 => 34 case 3 => 55 case 4 => 80 case 5 => 108 case 6 => 136 case 7 => 156 case 8 => 194
      case 9 => 232 case 10 => 274 case 11 => 324 case 12 => 370 case 13 => 428 case 14 => 461 case 15 => 523 case 16 => 589
      case 17 => 647 case 18 => 721 case 19 => 795 case 20 => 861 case 21 => 932 case 22 => 1006 case 23 => 1094 case 24 => 1174
      case 25 => 1276 case 26 => 1370 case 27 => 1468 case 28 => 1531 case 29 => 1631 case 30 => 1735 case 31 => 1843 case 32 => 1955
      case 33 => 2071 case 34 => 2191 case 35 => 2306 case 36 => 2434 case 37 => 2566 case 38 => 2702 case 39 => 2812 case _ => 2956
  }

  function DataCodewordsMedium(ver: Version): int {
    match ver
      case 1 => 16 case 2 => 28 case 3 => 44 case 4 => 64 case 5 => 86 case 6 => 108 case 7 => 124 case 8 => 154
      case 9 => 182 case 10 => 216 case 11 => 254 case 12 => 290 case 13 => 334 case 14 => 365 case 15 => 415 case 16 => 453
      case 17 => 507 case 18 => 563 case 19 => 627 case 20 => 669 case 21 => 714 case 22 => 782 case 23 => 860 case 24 => 914
      case 25 => 1000 case 26 => 1062 case 27 => 1128 case 28 => 1193 case 29 => 1267 case 30 => 1373 case 31 => 1455 case 32 => 1541
      case 33 => 1631 case 34 => 1725 case 35 => 1812 case 36 => 1914 case 37 => 1992 case 38 => 2102 case 39 => 2216 case _ => 2334
  }

  function DataCodewordsQuartile(ver: Version): int {
    match ver
      case 1 => 13 case 2 => 22 case 3 => 34 case 4 => 48 case 5 => 62 case 6 => 76 case 7 => 88 case 8 => 110
      case 9 => 132 case 10 => 154 case 11 => 180 case 12 => 206 case 13 => 244 case 14 => 261 case 15 => 295 case 16 => 325
      case 17 => 367 case 18 => 397 case 19 => 445 case 20 => 485 case 21 => 512 case 22 => 568 case 23 => 614 case 24 => 664
      case 25 => 718 case 26 => 754 case 27 => 808 case 28 => 871 case 29 => 911 case 30 => 985 case 31 => 1033 case 32 => 1115
      case 33 => 1171 case 34 => 1231 case 35 => 1286 case 36 => 1354 case 37 => 1426 case 38 => 1502 case 39 => 1582 case _ => 1666
  }

  function DataCodewordsHigh(ver: Version): int {
    match ver
      case 1 => 9 case 2 => 16 case 3 => 26 case 4 => 36 case 5 => 46 case 6 => 60 case 7 => 66 case 8 => 86
      case 9 => 100 case 10 => 122 case 11 => 140 case 12 => 158 case 13 => 180 case 14 => 197 case 15 => 223 case 16 => 253
      case 17 => 283 case 18 => 313 case 19 => 341 case 20 => 385 case 21 => 406 case 22 => 442 case 23 => 464 case 24 => 514
      case 25 => 538 case 26 => 596 case 27 => 628 case 28 => 661 case 29 => 701 case 30 => 745 case 31 => 793 case 32 => 845
      case 33 => 901 case 34 => 961 case 35 => 986 case 36 => 1054 case 37 => 1096 case 38 => 1142 case 39 => 1222 case _ => 1276
  }

  function DataCodewordsTable(ecl: Ecc, ver: Version): int {
    match ecl
    case Low => DataCodewordsLow(ver)
    case Medium => DataCodewordsMedium(ver)
    case Quartile => DataCodewordsQuartile(ver)
    case High => DataCodewordsHigh(ver)
  }

  /** The percentage of wrong codewords that a level promises to tolerate. */
  function Tolerance(ecl: Ecc): nat {
    match ecl
    case Low => 7
    case Medium => 15
    case Quartile => 25
    case High => 30
  }

  // ----- The tables are usable -----

  /**
   * Every block holds data and is short enough for its code, the data codewords are those of the
   * standard, and half of the check codewords are the promised percentage of all codewords.
   */
  predicate EntryOk(raw: int, ecc: int, blocks: int, data: int, tolerance: int) {
    && 1 <= blocks <= 81
    && 7 <= ecc <= 30
    && blocks * (ecc + 1) <= raw < 254 * blocks
    && raw - ecc * blocks == data
    && 100 * (ecc * blocks) >= 2 * tolerance * raw
  }

  function RawCodewordsTable(ver: Version): int {
    match ver
      case 1 => 26 case 2 => 44 case 3 => 70 case 4 => 100 case 5 => 134 case 6 => 172 case 7 => 196 case 8 => 242
      case 9 => 292 case 10 => 346 case 11 => 404 case 12 => 466 case 13 => 532 case 14 => 581 case 15 => 655 case 16 => 733
      case 17 => 815 case 18 => 901 case 19 => 991 case 20 => 1085 case 21 => 1156 case 22 => 1258 case 23 => 1364 case 24 => 1474
      case 25 => 1588 case 26 => 1706 case 27 => 1828 case 28 => 1921 case 29 => 2051 case 30 => 2185 case 31 => 2323 case 32 => 2465
      case 33 => 2611 case 34 => 2761 case 35 => 2876 case 36 => 3034 case 37 => 3196 case 38 => 3362 case 39 => 3532 case _ => 3706
  }

  lemma RawCodewordsFrom1(ver: int)
    requires 1 <= ver <= 10
    ensures RawCodewords(ver) == RawCodewordsTable(ver)
  {
    assert ver == 1 || ver == 2 || ver == 3 || ver == 4 || ver == 5
        || ver == 6 || ver == 7 || ver == 8 || ver == 9 || ver == 10;
  }

  lemma RawCodewordsFrom11(ver: int)
    requires 11 <= ver <= 20
    ensures RawCodewords(ver) == RawCodewordsTable(ver)
  {
    assert ver == 11 || ver == 12 || ver == 13 || ver == 14 || ver == 15
        || ver == 16 || ver == 17 || ver == 18 || ver == 19 || ver == 20;
  }

  lemma RawCodewordsFrom21(ver: int)
    requires 21 <= ver <= 30
    ensures RawCodewords(ver) == RawCodewordsTable(ver)
  {
    assert ver == 21 || ver == 22 || ver == 23 || ver == 24 || ver == 25
        || ver == 26 || ver == 27 || ver == 28 || ver == 29 || ver == 30;
  }

  lemma RawCodewordsFrom31(ver: int)
    requires 31 <= ver <= 40
    ensures RawCodewords(ver) == RawCodewordsTable(ver)
  {
    assert ver == 31 || ver == 32 || ver == 33 || ver == 34 || ver == 35
        || ver == 36 || ver == 37 || ver == 38 || ver == 39 || ver == 40;
  }

  lemma RawCodewordsIsTable(ver: Version)
    ensures RawCodewords(ver) == RawCodewordsTable(ver)
  {
    hide RawCodewords, RawCodewordsTable;
    if ver <= 10 {
      RawCodewordsFrom1(ver);
    } else if ver <= 20 {
      RawCodewordsFrom11(ver);
    } else if ver <= 30 {
      RawCodewordsFrom21(ver);
    } else {
      RawCodewordsFrom31(ver);
    }
  }

  /** The range check that ends `getNumRawDataModules` never fails. */
  lemma RawDataModulesRange(ver: Version)
    ensures 208 <= NumRawDataModules(ver) <= 29648
  {
    RawCodewordsIsTable(ver);
    if ver == 40 {
      assert NumRawDataModules(40) == 29648;
    }
  }

  lemma LowFrom1(ver: int)
    requires 1 <= ver <= 10
    ensures EntryOk(RawCodewordsTable(ver), EccCodewordsPerBlockLow(ver), NumErrorCorrectionBlocksLow(ver),
                    DataCodewordsLow(ver), Tolerance(Low))
  {
    assert ver == 1 || ver == 2 || ver == 3 || ver == 4 || ver == 5
        || ver == 6 || ver == 7 || ver == 8 || ver == 9 || ver == 10;
  }

  lemma LowFrom11(ver: int)
    requires 11 <= ver <= 20
    ensures EntryOk(RawCodewordsTable(ver), EccCodewordsPerBlockLow(ver), NumErrorCorrectionBlocksLow(ver),
                    DataCodewordsLow(ver), Tolerance(Low))
  {
    assert ver == 11 || ver == 12 || ver == 13 || ver == 14 || ver == 15
        || ver == 16 || ver == 17 || ver == 18 || ver == 19 || ver == 20;
  }

  lemma LowFrom21(ver: int)
    requires 21 <= ver <= 30
    ensures EntryOk(RawCodewordsTable(ver), EccCodewordsPerBlockLow(ver), NumErrorCorrectionBlocksLow(ver),
                    DataCodewordsLow(ver), Tolerance(Low))
  {
    assert ver == 21 || ver == 22 || ver == 23 || ver == 24 || ver == 25
        || ver == 26 || ver == 27 || ver == 28 || ver == 29 || ver == 30;
  }

  lemma LowFrom31(ver: int)
    requires 31 <= ver <= 40
    ensures EntryOk(RawCodewordsTable(ver), EccCodewordsPerBlockLow(ver), NumErrorCorrectionBlocksLow(ver),
                    DataCodewordsLow(ver), Tolerance(Low))
  {
    assert ver == 31 || ver == 32 || ver == 33 || ver == 34 || ver == 35
        || ver == 36 || ver == 37 || ver == 38 || ver == 39 || ver == 40;
  }

  lemma MediumFrom1(ver: int)
    requires 1 <= ver <= 10
    ensures EntryOk(RawCodewordsTable(ver), EccCodewordsPerBlockMedium(ver), NumErrorCorrectionBlocksMedium(ver),
                    DataCodewordsMedium(ver), Tolerance(Medium))
  {
    assert ver == 1 || ver == 2 || ver == 3 || ver == 4 || ver == 5
        || ver == 6 || ver == 7 || ver == 8 || ver == 9 || ver == 10;
  }

  lemma MediumFrom11(ver: int)
    requires 11 <= ver <= 20
    ensures EntryOk(RawCodewordsTable(ver), EccCodewordsPerBlockMedium(ver), NumErrorCorrectionBlocksMedium(ver),
                    DataCodewordsMedium(ver), Tolerance(Medium))
  {
    assert ver == 11 || ver == 12 || ver == 13 || ver == 14 || ver == 15
        || ver == 16 || ver == 17 || ver == 18 || ver == 19 || ver == 20;
  }

  lemma MediumFrom21(ver: int)
    requires 21 <= ver <= 30
    ensures EntryOk(RawCodewordsTable(ver), EccCodewordsPerBlockMedium(ver), NumErrorCorrectionBlocksMedium(ver),
                    DataCodewordsMedium(ver), Tolerance(Medium))
  {
    assert ver == 21 || ver == 22 || ver == 23 || ver == 24 || ver == 25
        || ver == 26 || ver == 27 || ver == 28 || ver == 29 || ver == 30;
  }

  lemma MediumFrom31(ver: int)
    requires 31 <= ver <= 40
    ensures EntryOk(RawCodewordsTable(ver), EccCodewordsPerBlockMedium(ver), NumErrorCorrectionBlocksMedium(ver),
                    DataCodewordsMedium(ver), Tolerance(Medium))
  {
    assert ver == 31 || ver == 32 || ver == 33 || ver == 34 || ver == 35
        || ver == 36 || ver == 37 || ver == 38 || ver == 39 || ver == 40;
  }

  lemma QuartileFrom1(ver: int)
    requires 1 <= ver <= 10
    ensures EntryOk(RawCodewordsTable(ver), EccCodewordsPerBlockQuartile(ver), NumErrorCorrectionBlocksQuartile(ver),
                    DataCodewordsQuartile(ver), Tolerance(Quartile))
  {
    assert ver == 1 || ver == 2 || ver == 3 || ver == 4 || ver == 5
        || ver == 6 || ver == 7 || ver == 8 || ver == 9 || ver == 10;
  }

  lemma QuartileFrom11(ver: int)
    requires 11 <= ver <= 20
    ensures EntryOk(RawCodewordsTable(ver), EccCodewordsPerBlockQuartile(ver), NumErrorCorrectionBlocksQuartile(ver),
                    DataCodewordsQuartile(ver), Tolerance(Quartile))
  {
    assert ver == 11 || ver == 12 || ver == 13 || ver == 14 || ver == 15
        || ver == 16 || ver == 17 || ver == 18 || ver == 19 || ver == 20;
  }

  lemma QuartileFrom21(ver: int)
    requires 21 <= ver <= 30
    ensures EntryOk(RawCodewordsTable(ver), EccCodewordsPerBlockQuartile(ver), NumErrorCorrectionBlocksQuartile(ver),
                    DataCodewordsQuartile(ver), Tolerance(Quartile))
  {
    assert ver == 21 || ver == 22 || ver == 23 || ver == 24 || ver == 25
        || ver == 26 || ver == 27 || ver == 28 || ver == 29 || ver == 30;
  }

  lemma QuartileFrom31(ver: int)
    requires 31 <= ver <= 40
    ensures EntryOk(RawCodewordsTable(ver), EccCodewordsPerBlockQuartile(ver), NumErrorCorrectionBlocksQuartile(ver),
                    DataCodewordsQuartile(ver), Tolerance(Quartile))
  {
    assert ver == 31 || ver == 32 || ver == 33 || ver == 34 || ver == 35
        || ver == 36 || ver == 37 || ver == 38 || ver == 39 || ver == 40;
  }

  lemma HighFrom1(ver: int)
    requires 1 <= ver <= 10
    ensures EntryOk(RawCodewordsTable(ver), EccCodewordsPerBlockHigh(ver), NumErrorCorrectionBlocksHigh(ver),
                    DataCodewordsHigh(ver), Tolerance(High))
  {
    assert ver == 1 || ver == 2 || ver == 3 || ver == 4 || ver == 5
        || ver == 6 || ver == 7 || ver == 8 || ver == 9 || ver == 10;
  }

  lemma HighFrom11(ver: int)
    requires 11 <= ver <= 20
    ensures EntryOk(RawCodewordsTable(ver), EccCodewordsPerBlockHigh(ver), NumErrorCorrectionBlocksHigh(ver),
                    DataCodewordsHigh(ver), Tolerance(High))
  {
    assert ver == 11 || ver == 12 || ver == 13 || ver == 14 || ver == 15
        || ver == 16 || ver == 17 || ver == 18 || ver == 19 || ver == 20;
  }

  lemma HighFrom21(ver: int)
    requires 21 <= ver <= 30
    ensures EntryOk(RawCodewordsTable(ver), EccCodewordsPerBlockHigh(ver), NumErrorCorrectionBlocksHigh(ver),
                    DataCodewordsHigh(ver), Tolerance(High))
  {
    assert ver == 21 || ver == 22 || ver == 23 || ver == 24 || ver == 25
        || ver == 26 || ver == 27 || ver == 28 || ver == 29 || ver == 30;
  }

  lemma HighFrom31(ver: int)
    requires 31 <= ver <= 40
    ensures EntryOk(RawCodewordsTable(ver), EccCodewordsPerBlockHigh(ver), NumErrorCorrectionBlocksHigh(ver),
                    DataCodewordsHigh(ver), Tolerance(High))
  {
    assert ver == 31 || ver == 32 || ver == 33 || ver == 34 || ver == 35
        || ver == 36 || ver == 37 || ver == 38 || ver == 39 || ver == 40;
  }

  lemma TablesOk(ver: Version, ecl: Ecc)
    ensures EntryOk(RawCodewords(ver), EccCodewordsPerBlock(ecl, ver), NumErrorCorrectionBlocks(ecl, ver),
                    DataCodewordsTable(ecl, ver), Tolerance(ecl))
  {
    hide EntryOk, RawCodewords, RawCodewordsTable, EccCodewordsPerBlockLow, NumErrorCorrectionBlocksLow,
         EccCodewordsPerBlockMedium, NumErrorCorrectionBlocksMedium, EccCodewordsPerBlockQuartile,
         NumErrorCorrectionBlocksQuartile, EccCodewordsPerBlockHigh, NumErrorCorrectionBlocksHigh,
         DataCodewordsLow, DataCodewordsMedium, DataCodewordsQuartile, DataCodewordsHigh;
    RawCodewordsIsTable(ver);
    match ecl
    case Low =>
      if ver <= 10 {
        LowFrom1(ver);
      } else if ver <= 20 {
        LowFrom11(ver);
      } else if ver <= 30 {
        LowFrom21(ver);
      } else {
        LowFrom31(ver);
      }
    case Medium =>
      if ver <= 10 {
        MediumFrom1(ver);
      } else if ver <= 20 {
        MediumFrom11(ver);
      } else if ver <= 30 {
        MediumFrom21(ver);
      } else {
        MediumFrom31(ver);
      }
    case Quartile =>
      if ver <= 10 {
        QuartileFrom1(ver);
      } else if ver <= 20 {
        QuartileFrom11(ver);
      } else if ver <= 30 {
        QuartileFrom21(ver);
      } else {
        QuartileFrom31(ver);
      }
    case High =>
      if ver <= 10 {
        HighFrom1(ver);
      } else if ver <= 20 {
        HighFrom11(ver);
      } else if ver <= 30 {
        HighFrom21(ver);
      } else {
        HighFrom31(ver);
      }
  }

  lemma EntryRange(raw: int, ecc: int, blocks: int, data: int, tolerance: int)
    requires EntryOk(raw, ecc, blocks, data, tolerance)
    ensures 1 <= blocks <= 81 && 7 <= ecc <= 30 && blocks * (ecc + 1) <= raw < 254 * blocks
  {
  }
}
