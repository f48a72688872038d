/** The factory functions of QR Codes. */
module QrFactory {
  import opened BinaryPoly
  import opened BitStream
  import opened Encoder
  import opened Limits
  import opened QrSymbol
  import opened RadixCode
  import opened Results
  import opened Segment
  import opened SymbolReader
  import opened Tables

  ghost predicate ValidArguments(minVersion: int, maxVersion: int, mask: int) {
    MIN_VERSION <= minVersion <= maxVersion <= MAX_VERSION && -1 <= mask <= 7
  }

  /** The version is the smallest in range that fits the segments. */
  ghost predicate SmallestVersion(segs: seq<QrSegment>, ecl: Ecc, minVersion: int, maxVersion: int, ver: Version) {
    && minVersion <= ver <= maxVersion && Fits(segs, ver, ecl)
    && forall v: Version :: minVersion <= v < ver ==> !Fits(segs, v, ecl)
  }

  /** The level is the requested one, or with boosting the highest that does not need a larger version. */
  ghost predicate RightLevel(segs: seq<QrSegment>, ver: Version, ecl: Ecc, boosted: Ecc, boostEcl: bool) {
    && Fits(segs, ver, boosted)
    && boosted.Ordinal() >= ecl.Ordinal()
    && (!boostEcl ==> boosted == ecl)
    && (boostEcl ==> forall e: Ecc :: e.Ordinal() > boosted.Ordinal() ==> !Fits(segs, ver, e))
  }

  /** The data codewords of segments at a version and level that fit them. */
  ghost function CodewordsFor(segs: seq<QrSegment>, ver: Version, ecl: Ecc): (c: seq<byte>)
    requires Fits(segs, ver, ecl)
    ensures |c| == NumDataCodewords(ver, ecl)
  {
    DataCodewords(segs, ver, NumDataCodewords(ver, ecl))
  }

  /** q is the symbol that was asked for. */
  ghost predicate Encodes(q: QrCode, segs: seq<QrSegment>, ecl: Ecc, minVersion: int, maxVersion: int, mask: int, boostEcl: bool)
    reads q
  {
    && SmallestVersion(segs, ecl, minVersion, maxVersion, q.version)
    && RightLevel(segs, q.version, ecl, q.errorCorrectionLevel, boostEcl)
    && var data := CodewordsFor(segs, q.version, q.errorCorrectionLevel);
       && q.IsSymbol(q.version, q.errorCorrectionLevel, data)
       && (mask != -1 ==> q.mask == mask)
       && (mask == -1 ==> BestMask(q.version, q.errorCorrectionLevel, data, q.mask))
  }

  /** A symbol that encodes segments holds exactly these segments. */
  lemma EncodedReadsBack(q: QrCode, segs: seq<QrSegment>, ecl: Ecc, minVersion: int, maxVersion: int, mask: int, boostEcl: bool)
    requires Encodes(q, segs, ecl, minVersion, maxVersion, mask, boostEcl)
    requires forall i :: 0 <= i < |segs| ==> Agrees(segs[i])
    ensures ReadSymbol(q.modules) == Some(Symbol(q.version, q.errorCorrectionLevel, q.mask, segs))
  {
    hide ReadSymbol, SymbolGrid, NumDataCodewords, CountsFit, TotalBits, Agrees, DataCodewords, BestMask;
    SymbolReadsBack(segs, q.version, q.errorCorrectionLevel, q.mask);
  }

  /** `QrCode::encodeSegments`. */
  method EncodeSegments(segs: seq<QrSegment>, ecl: Ecc, minVersion: int, maxVersion: int, mask: int, boostEcl: bool)
    returns (r: Result<QrCode>)
    ensures !ValidArguments(minVersion, maxVersion, mask) ==> r == Err(InvalidArgument)
    ensures ValidArguments(minVersion, maxVersion, mask) ==>
              && (r.Ok? <==> FitsSome(segs, ecl, minVersion, maxVersion))
              && (r.Err? ==> r.error == TooLong(segs, maxVersion, ecl))
    ensures r.Ok? ==> fresh(r.value) && Encodes(r.value, segs, ecl, minVersion, maxVersion, mask, boostEcl)
  {
    hide NumDataCodewords, CountsFit, TotalBits, DataCodewords, BestMask, SymbolGrid;
    if !(MIN_VERSION <= minVersion <= maxVersion <= MAX_VERSION) || mask < -1 || mask > 7 {
      return Err(InvalidArgument);
    }
    var choice := ChooseVersion(segs, ecl, minVersion, maxVersion);
    if choice.Err? {
      return Err(choice.error);
    }
    var version, dataUsedBits := choice.value.version, choice.value.usedBits;
    var boosted := BoostEcl(version, ecl, dataUsedBits, boostEcl);
    CapacityRange(version, boosted);
    var dataCodewords := BuildCodewords(segs, version, NumDataCodewords(version, boosted), dataUsedBits);
    r := QrCode.Create(version, boosted, dataCodewords, mask);
  }

  // ----- Text and binary data -----

  /** The text that the symbol holds. */
  ghost predicate HoldsText(q: QrCode, bytes: seq<nat>)
    reads q
  {
    match ReadSymbol(q.modules)
    case None => false
    case Some(symbol) =>
      (forall i :: 0 <= i < |symbol.segs| ==> Agrees(symbol.segs[i])) && ContentOf(symbol.segs) == Some(bytes)
  }

  /** `QrCode::encodeText`. At the low error correction level the limit depends on the characters of the text. */
  method EncodeText(text: string, ecl: Ecc) returns (r: Result<QrCode>)
    requires IsCString(text)
    ensures r.Ok? <==> FitsSome(TextSegments(text), ecl, 1, 40)
    ensures r.Err? ==>
              r.error == if |text| > INT_MAX && !AllAlphanumeric(text) then LengthError else TooLong(TextSegments(text), 40, ecl)
    ensures ecl == Low ==> (r.Ok? <==> |text| <= TextLimit(text, 40))
    ensures r.Ok? ==> fresh(r.value) && Encodes(r.value, TextSegments(text), ecl, 1, 40, -1, true)
    ensures r.Ok? ==> HoldsText(r.value, TextBytes(text))
  {
    hide ReadSymbol, ContentOf, Agrees, Encodes, TextSegments, AllAlphanumeric, FitsSome, TooLong, TextLimit;
    TextFitsLow(text, 40);
    var segs := MakeSegments(text);
    if segs.Err? {
      HugeTextNeverFits(text, ecl);
      return Err(segs.error);
    }
    r := EncodeSegments(segs.value, ecl, 1, 40, -1, true);
    if r.Ok? {
      EncodedReadsBack(r.value, segs.value, ecl, 1, 40, -1, true);
    }
  }

  /** `QrCode::encodeBinary`. At the low error correction level up to 2953 bytes are allowed. */
  method EncodeBinary(data: seq<nat>, ecl: Ecc) returns (r: Result<QrCode>)
    requires Below(data, 256)
    ensures r.Ok? <==> FitsSome([ByteSegment(data)], ecl, 1, 40)
    ensures r.Err? ==> r.error == if |data| > INT_MAX then LengthError else TooLong([ByteSegment(data)], 40, ecl)
    ensures ecl == Low ==> (r.Ok? <==> |data| <= 2953)
    ensures r.Ok? ==> fresh(r.value) && Encodes(r.value, [ByteSegment(data)], ecl, 1, 40, -1, true)
    ensures r.Ok? ==> HoldsText(r.value, data)
  {
    hide ReadSymbol, ContentOf, Content, Agrees, Encodes, ByteSegment, FitsSome, TooLong;
    BytesFitLow(data, 40);
    var seg := MakeBytes(data);
    if seg.Err? {
      HugeNeverFits(data, ecl);
      return Err(seg.error);
    }
    ByteContent(data);
    ContentOfOne(seg.value);
    r := EncodeSegments([seg.value], ecl, 1, 40, -1, true);
    if r.Ok? {
      EncodedReadsBack(r.value, [seg.value], ecl, 1, 40, -1, true);
    }
  }
}
