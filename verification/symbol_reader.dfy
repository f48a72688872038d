/** What a finished symbol looks like, and how it is read. */
module SymbolReader {
  import opened BinaryPoly
  import opened Bits
  import opened BitStream
  import opened Encoder
  import opened FormatInfo
  import opened Geometry
  import opened Grid
  import opened Interleave
  import opened Masks
  import opened Patterns
  import opened Results
  import opened Segment
  import opened Tables
  import opened Zigzag

  // ----- The grids of a symbol -----

  /** The marks of the function modules. */
  ghost function MarkGrid(ver: Version): (g: Grid)
    ensures MarksVersion(g, ver)
  {
    seq(Size(ver), y requires 0 <= y < Size(ver) =>
      seq(Size(ver), x requires 0 <= x < Size(ver) => IsFunctionModule(ver, x, y)))
  }

  /** The function patterns alone. */
  ghost function PatternGrid(ver: Version, ecl: Ecc): (g: Grid)
    ensures Square(g, Size(ver))
    ensures forall t: Pos :: Inside(Size(ver), t) ==> At(g, Size(ver), t) == PatternColor(ver, ecl, t)
  {
    seq(Size(ver), y requires 0 <= y < Size(ver) =>
      seq(Size(ver), x requires 0 <= x < Size(ver) => PatternColor(ver, ecl, Pos(x, y))))
  }

  predicate PatternColor(ver: Version, ecl: Ecc, t: Pos) {
    LastAt(Patches(ver, FormatWord(ecl, 0), VersionWord(ver)), Size(ver), t) == Some(true)
  }

  /** Laying the function patterns on a blank canvas gives these two grids. */
  lemma LaidPatterns(c: Canvas, ver: Version, ecl: Ecc)
    requires LaidAll(c, Canvas(BlankGrid(Size(ver)), BlankGrid(Size(ver))), Size(ver),
                     Patches(ver, FormatWord(ecl, 0), VersionWord(ver)))
    ensures c.modules == PatternGrid(ver, ecl) && c.isFunction == MarkGrid(ver)
  {
    hide LastAt, Patches, FormatWord, VersionWord, IsFunctionModule, At, BlankGrid, PatternGrid, MarkGrid;
    var size := Size(ver);
    forall t: Pos | Inside(size, t)
      ensures At(c.modules, size, t) == At(PatternGrid(ver, ecl), size, t)
      ensures At(c.isFunction, size, t) == At(MarkGrid(ver), size, t)
    {
      PatchesMark(ver, FormatWord(ecl, 0), VersionWord(ver), t);
    }
    SameGrid(c.modules, PatternGrid(ver, ecl), size);
    SameGrid(c.isFunction, MarkGrid(ver), size);
  }

  /** All codewords of a symbol, data and error correction. */
  ghost function SymbolCodewords(ver: Version, ecl: Ecc, data: seq<byte>): (c: seq<byte>)
    requires |data| == NumDataCodewords(ver, ecl)
    ensures |c| == RawCodewords(ver)
  {
    SymbolLayoutTotals(ver, ecl);
    AllCodewords(data, SymbolLayout(ver, ecl))
  }

  lemma CodewordsFit(ver: Version)
    ensures 8 * RawCodewords(ver) <= |DataPositions(MarkGrid(ver), ver)|
    ensures Distinct(DataPositions(MarkGrid(ver), ver))
  {
    hide MarkGrid, NumRawDataModules, DataPositions;
    DataPositionsCount(MarkGrid(ver), ver);
  }

  /** The function patterns and the codewords, without a mask. */
  ghost function UnmaskedGrid(ver: Version, ecl: Ecc, data: seq<byte>): (g: Grid)
    requires |data| == NumDataCodewords(ver, ecl)
    ensures Square(g, Size(ver))
  {
    CodewordsFit(ver);
    var bits := Unpack(SymbolCodewords(ver, ecl, data));
    Drawn(PatternGrid(ver, ecl), Size(ver), DataPositions(MarkGrid(ver), ver), bits, |bits|)
  }

  /** The finished symbol with a mask: masked once, with format bits that name the level and the mask. */
  ghost function SymbolGrid(ver: Version, ecl: Ecc, data: seq<byte>, msk: nat): (g: Grid)
    requires |data| == NumDataCodewords(ver, ecl) && msk < 8
    ensures Square(g, Size(ver))
  {
    Candidate(UnmaskedGrid(ver, ecl, data), MarkGrid(ver), Size(ver), msk, FormatWord(ecl, msk))
  }

  // ----- Reading the format information -----

  /** Where the first copy has format bit i. */
  function FormatPos(i: int): Pos {
    if i <= 5 then Pos(8, i) else if i <= 7 then Pos(8, i + 1) else if i == 8 then Pos(7, 8) else Pos(14 - i, 8)
  }

  lemma FormatPosFacts(i: nat)
    requires i < 15
    ensures FormatFirst(FormatPos(i)) == Some(i) && Inside(9, FormatPos(i))
  {
  }

  /** The positions of the first copy, highest bit first. */
  function FormatPositions(): (d: seq<Pos>)
    ensures |d| == 15 && forall k :: 0 <= k < 15 ==> d[k] == FormatPos(14 - k)
  {
    seq(15, k => FormatPos(14 - k))
  }

  lemma FormatPositionsInside(size: int)
    requires size > 8
    ensures forall t :: t in FormatPositions() ==> Inside(size, t)
  {
    hide FormatPositions, FormatPos, FormatFirst;
    forall k | 0 <= k < 15
      ensures Inside(size, FormatPositions()[k])
    {
      FormatPosFacts(14 - k);
    }
  }

  function ReadFormatBits(g: Grid, ghost size: int): (b: seq<bool>)
    requires Square(g, size) && size > 8
    ensures |b| == 15
  {
    FormatPositionsInside(size);
    ReadModules(g, size, FormatPositions())
  }

  function ReadFormatWord(g: Grid, ghost size: int): nat
    requires Square(g, size) && size > 8
  {
    ValueOf(ReadFormatBits(g, size))
  }

  lemma Pow2Of15()
    ensures Pow2(15) == 32768
  {
    CodesValid();
  }

  lemma FormatWordRead(g: Grid, size: int, word: nat)
    requires Square(g, size) && size > 8 && word < 32768
    requires forall i: nat :: i < 15 ==> Inside(size, FormatPos(i)) && At(g, size, FormatPos(i)) == GetBit(word, i)
    ensures ReadFormatBits(g, size) == BitsOf(word, 15)
    ensures ReadFormatWord(g, size) == word
  {
    hide BitsOf, ValueOf, GetBit, At, FormatPos, Pow2, FormatFirst, FormatPositions;
    FormatPositionsInside(size);
    var read := ReadFormatBits(g, size);
    forall k: nat | k < 15
      ensures read[k] == BitsOf(word, 15)[k]
    {
      var i: nat := 14 - k;
      assert Inside(size, FormatPos(i)) && At(g, size, FormatPos(i)) == GetBit(word, i);
      GetBitOfBits(word, 15, k);
    }
    Pow2Of15();
    ValueOfBitsOf(word, 15);
  }

  function EclOf(formatBits: nat): Ecc {
    match formatBits
    case 1 => Low
    case 0 => Medium
    case 3 => Quartile
    case _ => High
  }

  // ----- Reading a symbol -----

  ghost function ReadCodewords(g: Grid, ver: Version, msk: nat): (c: seq<byte>)
    requires Square(g, Size(ver)) && msk < 8
    ensures |c| == RawCodewords(ver)
  {
    CodewordsFit(ver);
    RawDataModulesRange(ver);
    var unmasked := Masked(g, MarkGrid(ver), Size(ver), msk);
    var bits := ReadModules(unmasked, Size(ver), DataPositions(MarkGrid(ver), ver));
    Pack(bits[..8 * RawCodewords(ver)], RawCodewords(ver))
  }

  /** The data codewords of a symbol whose level and mask are known. */
  ghost function ReadDataCodewords(g: Grid, ver: Version, ecl: Ecc, msk: nat): seq<byte>
    requires Square(g, Size(ver)) && msk < 8
  {
    SymbolLayoutTotals(ver, ecl);
    ReadData(ReadCodewords(g, ver, msk), SymbolLayout(ver, ecl), 0)
  }

  function VersionOf(size: nat): Option<Version> {
    if 21 <= size <= 177 && size % 4 == 1 then Some((size - 17) / 4) else None
  }

  /** What a reader gets from a grid. */
  datatype Symbol = Symbol(version: Version, ecl: Ecc, mask: nat, segs: seq<QrSegment>)

  /** The symbol that a grid shows, read without error correction. */
  ghost function ReadSymbol(g: Grid): Option<Symbol> {
    match VersionOf(|g|)
    case None => None
    case Some(ver) =>
      if !Square(g, Size(ver)) then None
      else
        var format := ReadFormatData(ReadFormatWord(g, Size(ver)));
        var ecl, msk := EclOf(format / 8), format % 8;
        match Parse(Unpack(ReadDataCodewords(g, ver, ecl, msk)), ver)
        case None => None
        case Some(segs) => Some(Symbol(ver, ecl, msk, segs))
  }

  /** Segments that a symbol of this version and level can store. */
  ghost predicate Storable(segs: seq<QrSegment>, ver: Version, ecl: Ecc) {
    && CountsFit(segs, ver) && TotalBits(segs, ver) <= 8 * NumDataCodewords(ver, ecl)
    && forall i :: 0 <= i < |segs| ==> Agrees(segs[i])
  }

  /** The finished symbol of segments. */
  ghost function Finished(segs: seq<QrSegment>, ver: Version, ecl: Ecc, msk: nat): (g: Grid)
    requires msk < 8 && Storable(segs, ver, ecl)
    ensures Square(g, Size(ver))
  {
    SymbolGrid(ver, ecl, DataCodewords(segs, ver, NumDataCodewords(ver, ecl)), msk)
  }

  // ----- A symbol is read back -----

  lemma {:induction false} PackUnpack(bytes: seq<byte>)
    ensures Pack(Unpack(bytes), |bytes|) == bytes
  {
    hide BitsOf, ValueOf;
    if |bytes| > 0 {
      PackUnpack(bytes[1..]);
      var b := Unpack(bytes);
      assert b[..8] == BitsOf(bytes[0], 8) && b[8..] == Unpack(bytes[1..]);
      Pow2Of8();
      ValueOfBitsOf(bytes[0], 8);
    }
  }

  /** The format bits of a finished symbol name its level and mask. */
  lemma SymbolFormat(ver: Version, ecl: Ecc, data: seq<byte>, msk: nat)
    requires |data| == NumDataCodewords(ver, ecl) && msk < 8
    ensures ReadFormatBits(SymbolGrid(ver, ecl, data, msk), Size(ver)) == BitsOf(FormatWord(ecl, msk), 15)
    ensures ReadFormatData(ReadFormatWord(SymbolGrid(ver, ecl, data, msk), Size(ver))) == FormatData(ecl, msk)
  {
    hide UnmaskedGrid, MarkGrid, At, GetBit, FormatWord, ReadFormatWord, ReadFormatBits, BitsOf, LaidGrid, Masked, NumDataCodewords,
         FormatPos;
    var g, word := SymbolGrid(ver, ecl, data, msk), FormatWord(ecl, msk);
    forall i: nat | i < 15
      ensures Inside(Size(ver), FormatPos(i)) && At(g, Size(ver), FormatPos(i)) == GetBit(word, i)
    {
      FormatPosFacts(i);
      assert Covers(FormatPatch(word), Size(ver), FormatPos(i));
    }
    FormatWordBound(ecl, msk);
    FormatWordRead(g, Size(ver), word);
    FormatReadsBack(ecl, msk);
  }

  lemma MarksFormat(ver: Version)
    ensures FormatMarked(MarkGrid(ver), Size(ver))
  {
    hide MarkGrid, At, InAlignment;
  }

  /** Reading the modules under the mask gives the codewords that were drawn. */
  lemma SymbolCodewordsRead(ver: Version, ecl: Ecc, data: seq<byte>, msk: nat)
    requires |data| == NumDataCodewords(ver, ecl) && msk < 8
    ensures ReadCodewords(SymbolGrid(ver, ecl, data, msk), ver, msk) == SymbolCodewords(ver, ecl, data)
  {
    hide MarkGrid, PatternGrid, SymbolCodewords, DataPositions, Unpack, Pack, FormatWord, Masked, LaidGrid, Drawn, At,
         RawCodewords, NumDataCodewords, Candidate, FormatBitAt;
    var size, marks := Size(ver), MarkGrid(ver);
    var d, codewords := DataPositions(marks, ver), SymbolCodewords(ver, ecl, data);
    var bits, unmasked := Unpack(codewords), UnmaskedGrid(ver, ecl, data);
    var format := FormatPatch(FormatWord(ecl, msk));
    CodewordsFit(ver);
    MarksFormat(ver);
    TrialUndone(unmasked, marks, size, msk, FormatWord(ecl, msk));
    var laid := LaidGrid(unmasked, size, format);
    forall i | 0 <= i < |d|
      ensures ReadModules(laid, size, d)[i] == ReadModules(unmasked, size, d)[i]
    {
      assert d[i] in d;
    }
    DrawnReadsBack(PatternGrid(ver, ecl), size, d, bits);
    assert ReadModules(laid, size, d) == ReadModules(unmasked, size, d);
    PackUnpack(codewords);
  }

  /** A finished symbol shows its version, level and mask, and holds the segments it was made from. */
  lemma SymbolReadsBack(segs: seq<QrSegment>, ver: Version, ecl: Ecc, msk: nat)
    requires msk < 8 && Storable(segs, ver, ecl)
    ensures ReadSymbol(Finished(segs, ver, ecl, msk)) == Some(Symbol(ver, ecl, msk, segs))
  {
    hide SymbolGrid, Parse, Unpack, ReadFormatWord, ReadFormatBits, ReadFormatData, BitsOf, ReadCodewords, SymbolCodewords, DataCodewords,
         NumDataCodewords, CountsFit, TotalBits, Agrees, ReadDataCodewords, EclOf, VersionOf, FormatData;
    SizeVersion(ver);
    var n := NumDataCodewords(ver, ecl);
    var data := DataCodewords(segs, ver, n);
    var g := SymbolGrid(ver, ecl, data, msk);
    SymbolFormat(ver, ecl, data, msk);
    FormatDataParts(ecl, msk);
    SymbolDataRead(ver, ecl, data, msk);
    DataCodewordsParse(segs, ver, n);
  }

  lemma SymbolDataRead(ver: Version, ecl: Ecc, data: seq<byte>, msk: nat)
    requires |data| == NumDataCodewords(ver, ecl) && msk < 8
    ensures ReadDataCodewords(SymbolGrid(ver, ecl, data, msk), ver, ecl, msk) == data
  {
    hide SymbolGrid, ReadCodewords, NumDataCodewords, AllCodewords, ReadData, SymbolLayout, Layout.DataFrom, Layout.RowStart;
    SymbolCodewordsRead(ver, ecl, data, msk);
    SymbolLayoutTotals(ver, ecl);
    DataReadsBack(data, SymbolLayout(ver, ecl));
  }

  lemma SizeVersion(ver: Version)
    ensures VersionOf(Size(ver)) == Some(ver)
  {
  }

  lemma FormatDataParts(ecl: Ecc, msk: nat)
    requires msk < 8
    ensures EclOf(FormatData(ecl, msk) / 8) == ecl && FormatData(ecl, msk) % 8 == msk
  {
  }
}
