/** Choosing a version and an error correction level for segments, and building their codewords. */
module Encoder {
  import opened BinaryPoly
  import opened Bits
  import opened BitStream
  import opened Results
  import opened Segment
  import opened Tables
  import RadixCode

  /** The number of data bits of a symbol. */
  function Capacity(ver: Version, ecl: Ecc): int {
    NumDataCodewords(ver, ecl) * 8
  }

  lemma CapacityRange(ver: Version, ecl: Ecc)
    ensures 8 <= Capacity(ver, ecl) < INT_MAX
  {
    hide RawCodewords, EccCodewordsPerBlock, NumErrorCorrectionBlocks, NumRawDataModules;
    TablesOk(ver, ecl);
    var e, b := EccCodewordsPerBlock(ecl, ver), NumErrorCorrectionBlocks(ecl, ver);
    RadixCode.Distribute(b, e, 1);
    assert b * e == e * b >= 0;
  }

  /** The segments can be stored in a symbol of this version and level. */
  ghost predicate Fits(segs: seq<QrSegment>, ver: Version, ecl: Ecc) {
    CountsFit(segs, ver) && TotalBits(segs, ver) <= Capacity(ver, ecl)
  }

  /** The two messages of the exception `data_too_long`. */
  ghost function TooLong(segs: seq<QrSegment>, ver: Version, ecl: Ecc): Error {
    if CountsFit(segs, ver) && TotalBits(segs, ver) <= INT_MAX
    then DataTooLong(TotalBits(segs, ver), Capacity(ver, ecl))
    else SegmentTooLong
  }

  datatype Choice = Choice(version: Version, usedBits: nat)

  /**
   * The version search of `QrCode::encodeSegments`: the smallest version in the range that fits,
   * although wider count fields can make a larger version fit less.
   */
  method ChooseVersion(segs: seq<QrSegment>, ecl: Ecc, minVersion: Version, maxVersion: Version)
    returns (r: Result<Choice>)
    requires minVersion <= maxVersion
    ensures r.Ok? <==> exists v: Version :: minVersion <= v <= maxVersion && Fits(segs, v, ecl)
    ensures r.Ok? ==>
              && minVersion <= r.value.version <= maxVersion && Fits(segs, r.value.version, ecl)
              && r.value.usedBits == TotalBits(segs, r.value.version)
              && forall v: Version :: minVersion <= v < r.value.version ==> !Fits(segs, v, ecl)
    ensures r.Err? ==> r.error == TooLong(segs, maxVersion, ecl)
  {
    hide CountsFit, TotalBits, Capacity;
    var version := minVersion;
    while true
      invariant minVersion <= version <= maxVersion
      invariant forall v: Version :: minVersion <= v < version ==> !Fits(segs, v, ecl)
      decreases maxVersion - version
    {
      CapacityRange(version, ecl);
      var dataCapacityBits := Capacity(version, ecl);
      var dataUsedBits := GetTotalBits(segs, version);
      if dataUsedBits != -1 && dataUsedBits <= dataCapacityBits {
        assert Fits(segs, version, ecl);
        return Ok(Choice(version, dataUsedBits));
      }
      assert !Fits(segs, version, ecl);
      if version >= maxVersion {
        if dataUsedBits == -1 {
          return Err(SegmentTooLong);
        } else {
          return Err(DataTooLong(dataUsedBits, dataCapacityBits));
        }
      }
      version := version + 1;
    }
  }

  /**
   * The error correction level search of `QrCode::encodeSegments`: the level never falls, the data
   * still fits, and no higher level would hold it.
   */
  method BoostEcl(ver: Version, ecl: Ecc, usedBits: nat, boostEcl: bool) returns (r: Ecc)
    requires usedBits <= Capacity(ver, ecl)
    ensures usedBits <= Capacity(ver, r)
    ensures r.Ordinal() >= ecl.Ordinal()
    ensures boostEcl ==> forall e: Ecc :: e.Ordinal() > r.Ordinal() ==> usedBits > Capacity(ver, e)
    ensures !boostEcl ==> r == ecl
  {
    hide Capacity;
    r := ecl;
    var levels := [Medium, Quartile, High];
    for k := 0 to |levels|
      invariant usedBits <= Capacity(ver, r)
      invariant !boostEcl ==> r == ecl
      invariant r == ecl || 0 < r.Ordinal() <= k
      invariant boostEcl ==> forall e: Ecc :: 0 < e.Ordinal() <= k && usedBits <= Capacity(ver, e) ==>
        e.Ordinal() <= r.Ordinal() || (r == ecl && k < ecl.Ordinal())
      invariant boostEcl && ecl.Ordinal() <= k ==> r.Ordinal() >= ecl.Ordinal()
    {
      var newEcl := levels[k];
      assert newEcl.Ordinal() == k + 1;
      if boostEcl && usedBits <= Capacity(ver, newEcl) {
        r := newEcl;
      }
    }
  }

  /** The stream, filled up to n bytes. */
  ghost function FilledStream(segs: seq<QrSegment>, ver: Version, n: nat): (b: seq<bool>)
    requires TotalBits(segs, ver) <= 8 * n
    ensures |b| == 8 * n
  {
    StreamLength(segs, ver);
    StreamBits(segs, ver) + Filling(TotalBits(segs, ver), n)
  }

  /** The data codewords of the segments. */
  ghost function DataCodewords(segs: seq<QrSegment>, ver: Version, n: nat): (c: seq<byte>)
    requires TotalBits(segs, ver) <= 8 * n
    ensures |c| == n
  {
    Pack(FilledStream(segs, ver, n), n)
  }

  /** Reading the codewords gives the segments. */
  lemma DataCodewordsParse(segs: seq<QrSegment>, ver: Version, n: nat)
    requires CountsFit(segs, ver) && TotalBits(segs, ver) <= 8 * n
    requires forall i :: 0 <= i < |segs| ==> Agrees(segs[i])
    ensures Parse(Unpack(DataCodewords(segs, ver, n)), ver) == Some(segs)
  {
    hide Parse, Unpack, Pack, Filling, StreamBits, Agrees, CountsFit;
    StreamLength(segs, ver);
    UnpackPack(FilledStream(segs, ver, n), n);
    ParseFilled(segs, ver, n);
  }

  /** Writes mode, count and data of every segment to one buffer. */
  method WriteSegments(segs: seq<QrSegment>, ver: Version) returns (bits: seq<bool>)
    requires CountsFit(segs, ver)
    ensures bits == StreamBits(segs, ver)
  {
    hide BitsOf, Pow2, StreamBits, CountsFit, Mode.ModeBits, Mode.NumCharCountBits;
    var bb := new BitBuffer();
    StreamNone(ver);
    assert segs[..0] == [];
    for k := 0 to |segs|
      invariant bb.bits == StreamBits(segs[..k], ver)
    {
      var seg := segs[k];
      HeaderFits(segs, k, ver);
      StreamAppend(segs, k, ver);
      var ok := bb.AppendBits(seg.mode.ModeBits(), 4);
      assert ok;
      ok := bb.AppendBits(seg.numChars, seg.mode.NumCharCountBits(ver));
      assert ok;
      bb.Append(seg.data);
    }
    assert segs[..|segs|] == segs;
    bits := bb.bits;
  }

  /** With m more bits the stream ends on a byte, and there are four of them, or as many as are left. */
  predicate Closes(used: nat, n: nat, m: nat) {
    (m >= 4 || used + m >= 8 * n) && (used + m) % 8 == 0
  }

  /** Adds the terminator and pads up to a byte: with the fewest zeros that do so. */
  method CloseStream(stream: seq<bool>, n: nat) returns (bits: seq<bool>)
    requires |stream| <= 8 * n
    ensures bits == stream + ZeroBits(8 * ClosedBytes(|stream|, n) - |stream|)
    ensures Closes(|stream|, n, |bits| - |stream|) && |bits| <= 8 * n
    ensures forall m: nat :: Closes(|stream|, n, m) ==> |bits| <= |stream| + m
  {
    hide BitsOf, Pow2;
    var capacity := 8 * n;
    var bb := new BitBuffer();
    bb.Append(stream);
    assert bb.bits == stream;
    ZeroFits();
    var t := if 4 <= capacity - |bb.bits| then 4 else capacity - |bb.bits|;
    var ok := bb.AppendBits(0, t);
    assert ok;
    UpToByte(|stream| + t, ClosedBytes(|stream|, n));
    var k := (8 - |bb.bits| % 8) % 8;
    ok := bb.AppendBits(0, k);
    assert ok;
    assert |bb.bits| % 8 == 0;
    BitsOfZero(t);
    BitsOfZero(k);
    bits := bb.bits;
    FewestZeros(|stream|, n);
  }

  lemma FewestZeros(used: nat, n: nat)
    requires used <= 8 * n
    ensures Closes(used, n, 8 * ClosedBytes(used, n) - used)
    ensures forall m: nat :: Closes(used, n, m) ==> 8 * ClosedBytes(used, n) <= used + m
  {
    forall m: nat | Closes(used, n, m)
      ensures 8 * ClosedBytes(used, n) <= used + m
    {
      var k := (used + m) / 8;
      assert used + m == 8 * k;
    }
  }

  /** Pads with alternating bytes until the data capacity of n bytes is reached. */
  method PadUp(closed: seq<bool>, ghost c: nat, n: nat) returns (bits: seq<bool>)
    requires |closed| == 8 * c && c <= n
    ensures bits == closed + PadBits(n - c, true)
  {
    hide BitsOf, Pow2, Xor, PadBits, PadByte;
    var capacity := 8 * n;
    var bb := new BitBuffer();
    bb.Append(closed);
    assert bb.bits == closed;
    var padByte := 0xEC;
    ghost var first, left: nat := true, n - c;
    PadNone();
    while |bb.bits| < capacity
      invariant padByte == PadByte(first)
      invariant |bb.bits| + 8 * left == capacity
      invariant bb.bits + PadBits(left, first) == closed + PadBits(n - c, true)
      decreases left
    {
      PadStep(left, first);
      ghost var before := bb.bits;
      var ok := bb.AppendBits(padByte, 8);
      assert ok;
      assert (before + BitsOf(padByte, 8)) + PadBits(left - 1, !first) == before + PadBits(left, first);
      padByte := Xor(padByte, Xor(0xEC, 0x11));
      first, left := !first, left - 1;
    }
    bits := bb.bits;
    assert bits + [] == bits;
  }

  lemma UpToByte(n: nat, c: nat)
    requires n <= 8 * c < n + 8
    ensures (8 - n % 8) % 8 == 8 * c - n
  {
  }

  /** The part of `QrCode::encodeSegments` that turns segments into data codewords. */
  method BuildCodewords(segs: seq<QrSegment>, ver: Version, n: nat, usedBits: nat) returns (codewords: seq<byte>)
    requires CountsFit(segs, ver) && TotalBits(segs, ver) <= 8 * n
    requires usedBits == TotalBits(segs, ver)
    ensures codewords == DataCodewords(segs, ver, n)
  {
    hide *;
    var bits := WriteSegments(segs, ver);
    StreamLength(segs, ver);
    assert |bits| == usedBits;
    bits := CloseStream(bits, n);
    bits := PadUp(bits, ClosedBytes(usedBits, n), n);
    FilledStreamParts(segs, ver, n);
    codewords := PackBits(bits, n);
    DataCodewordsPack(segs, ver, n);
  }

  lemma FilledStreamParts(segs: seq<QrSegment>, ver: Version, n: nat)
    requires TotalBits(segs, ver) <= 8 * n
    ensures FilledStream(segs, ver, n)
         == StreamBits(segs, ver) + ZeroBits(8 * ClosedBytes(TotalBits(segs, ver), n) - TotalBits(segs, ver))
            + PadBits(n - ClosedBytes(TotalBits(segs, ver), n), true)
  {
    hide PadBits, StreamBits, TotalBits;
  }

  lemma DataCodewordsPack(segs: seq<QrSegment>, ver: Version, n: nat)
    requires TotalBits(segs, ver) <= 8 * n
    ensures DataCodewords(segs, ver, n) == Pack(FilledStream(segs, ver, n), n)
  {
  }

  lemma StreamNone(ver: Version)
    ensures StreamBits([], ver) == []
  {
  }

  lemma StreamAppend(segs: seq<QrSegment>, k: nat, ver: Version)
    requires k < |segs|
    ensures StreamBits(segs[..k + 1], ver)
         == StreamBits(segs[..k], ver) + BitsOf(segs[k].mode.ModeBits(), 4)
            + BitsOf(segs[k].numChars, segs[k].mode.NumCharCountBits(ver)) + segs[k].data
  {
    hide BitsOf;
    assert segs[..k + 1][..k] == segs[..k];
  }

  lemma HeaderFits(segs: seq<QrSegment>, k: nat, ver: Version)
    requires k < |segs| && CountsFit(segs, ver)
    ensures segs[k].mode.ModeBits() < Pow2(4)
    ensures segs[k].numChars < Pow2(segs[k].mode.NumCharCountBits(ver))
  {
    hide Mode.NumCharCountBits;
    assert CountFits(segs[k], ver);
    Pow2Of4();
  }

  lemma ZeroFits()
    ensures forall n: nat :: 0 < Pow2(n)
  {
  }

  lemma {:induction false} BitsOfZero(n: nat)
    ensures BitsOf(0, n) == ZeroBits(n)
  {
    if n > 0 {
      BitsOfZero(n - 1);
    }
  }

  lemma PadNone()
    ensures PadBits(0, true) == [] && PadBits(0, false) == [] && PadByte(true) == 0xEC
  {
  }

  /** One padding byte, and the exclusive or that gives the next. */
  lemma PadStep(n: nat, first: bool)
    requires n > 0
    ensures PadByte(first) < Pow2(8)
    ensures PadBits(n, first) == BitsOf(PadByte(first), 8) + PadBits(n - 1, !first)
    ensures Xor(PadByte(first), Xor(0xEC, 0x11)) == PadByte(!first)
  {
    hide Xor, BitsOf, Pow2;
    Pow2Of8();
    XorZero(0);
    XorJoin4(0, 1, 1, 1, 0, 0, 0, 0, 0, 1);
    XorJoin4(14, 1, 1, 0, 0, 1, 0, 0, 0, 1);
    assert Xor(0xEC, 0x11) == 0xFD;
    XorJoin4(0, 1, 1, 1, 0, 0, 1, 1, 1, 1);
    XorJoin4(14, 1, 1, 0, 0, 15, 1, 1, 0, 1);
    XorJoin4(0, 0, 0, 0, 1, 0, 1, 1, 1, 1);
    XorJoin4(1, 0, 0, 0, 1, 15, 1, 1, 0, 1);
  }

  // ----- The padding bytes -----

  lemma {:induction false} PackAt(b: seq<bool>, n: nat, i: nat)
    requires |b| == 8 * n && i < n
    ensures Pack(b, n)[i] == ByteOf(b[8 * i..8 * i + 8])
    decreases n
  {
    hide ByteOf;
    if i > 0 {
      PackAt(b[8..], n - 1, i - 1);
      assert b[8..][8 * (i - 1)..8 * (i - 1) + 8] == b[8 * i..8 * i + 8];
    }
  }

  lemma {:induction false} PadBitsAt(n: nat, first: bool, i: nat)
    requires i < n
    ensures PadBits(n, first)[8 * i..8 * i + 8] == BitsOf(if first == (i % 2 == 0) then 0xEC else 0x11, 8)
    decreases n
  {
    hide BitsOf;
    if i == 0 {
      assert PadBits(n, first)[..8] == BitsOf(PadByte(first), 8);
    } else {
      PadBitsAt(n - 1, !first, i - 1);
      assert PadBits(n, first)[8 * i..8 * i + 8] == PadBits(n - 1, !first)[8 * (i - 1)..8 * (i - 1) + 8];
    }
  }

  /** Behind the closed stream, the codewords are 0xEC and 0x11 in turn. */
  lemma PaddingCodewords(segs: seq<QrSegment>, ver: Version, n: nat, i: nat)
    requires TotalBits(segs, ver) <= 8 * n && i < n
    requires ClosedBytes(TotalBits(segs, ver), n) <= i
    ensures DataCodewords(segs, ver, n)[i] == if (i - ClosedBytes(TotalBits(segs, ver), n)) % 2 == 0 then 0xEC else 0x11
  {
    hide BitsOf, ValueOf, Pow2, PadBits, StreamBits, TotalBits, ClosedBytes, FilledStream, Pack;
    var c := ClosedBytes(TotalBits(segs, ver), n);
    var b, k := FilledStream(segs, ver, n), i - c;
    DataCodewordsPack(segs, ver, n);
    PackAt(b, n, i);
    FilledStreamParts(segs, ver, n);
    StreamLength(segs, ver);
    PadBitsAt(n - c, true, k);
    assert b[8 * i..8 * i + 8] == PadBits(n - c, true)[8 * k..8 * k + 8];
    Pow2Of8();
    ValueOfBitsOf(if k % 2 == 0 then 0xEC else 0x11, 8);
  }
}
