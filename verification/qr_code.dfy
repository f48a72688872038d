/** The QR Code symbol and its construction. */
module QrSymbol {
  import opened BinaryPoly
  import opened BitStream
  import opened FormatInfo
  import opened Geometry
  import opened Grid
  import opened Interleave
  import opened Masks
  import opened Patterns
  import opened Penalty
  import opened Results
  import opened SymbolReader
  import opened Tables
  import opened Zigzag

  class QrCode {
    var version: Version
    var size: nat
    var errorCorrectionLevel: Ecc
    var mask: int
    var modules: Grid
    var isFunction: Grid

    ghost predicate Valid()
      reads this
    {
      size == Size(version) && Square(modules, size) && Square(isFunction, size)
    }

    ghost function View(): Canvas
      reads this
    {
      Canvas(modules, isFunction)
    }

    lemma ValidMeans()
      requires Valid()
      ensures size == Size(version) && Square(modules, size) && Square(isFunction, size) && View().Valid(size)
    {
    }

    lemma StillValid()
      requires size == Size(version) && Square(modules, size) && Square(isFunction, size)
      ensures Valid()
    {
    }

    /** A symbol with all modules white and none of them marked. */
    constructor Blank(ver: Version, ecl: Ecc)
      ensures Valid() && version == ver && errorCorrectionLevel == ecl
      ensures modules == BlankGrid(Size(ver)) && isFunction == BlankGrid(Size(ver))
    {
      version := ver;
      errorCorrectionLevel := ecl;
      size := ver * 4 + 17;
      mask := 0;
      modules := BlankGrid(ver * 4 + 17);
      isFunction := BlankGrid(ver * 4 + 17);
    }

    /** `QrCode::setFunctionModule`. */
    method SetFunctionModule(x: int, y: int, isBlack: bool)
      requires Valid() && Inside(size, Pos(x, y))
      modifies this`modules, this`isFunction
      ensures Valid()
      ensures modules == Set(old(modules), size, Pos(x, y), isBlack)
      ensures isFunction == Set(old(isFunction), size, Pos(x, y), true)
    {
      modules := Set(modules, size, Pos(x, y), isBlack);
      isFunction := Set(isFunction, size, Pos(x, y), true);
    }

    /** The timing patterns of `QrCode::drawFunctionPatterns`. */
    method DrawTiming()
      requires Valid()
      modifies this`modules, this`isFunction
      ensures Valid() && Laid(View(), old(View()), size, TimingPatch)
    {
      hide Set, At;
      ghost var c0 := View();
      for i := 0 to size
        invariant Valid()
        invariant forall t: Pos :: Inside(size, t) ==>
          MarkedAt(View(), c0, size, t,
                   if (t.x == 6 && t.y < i) || (t.y == 6 && t.x < i) then Some((t.x + t.y) % 2 == 0) else None)
      {
        SetFunctionModule(6, i, i % 2 == 0);
        SetFunctionModule(i, 6, i % 2 == 0);
      }
    }

    /** `QrCode::drawFinderPattern`. */
    method DrawFinderPattern(x: int, y: int)
      requires Valid()
      modifies this`modules, this`isFunction
      ensures Valid() && Laid(View(), old(View()), size, FinderPatch(x, y))
    {
      hide Set, At;
      ghost var c0 := View();
      for dy := -4 to 5
        invariant Valid()
        invariant forall t: Pos :: Inside(size, t) ==>
          MarkedAt(View(), c0, size, t, if t.y - y < dy then PatchAt(FinderPatch(x, y), size, t) else None)
      {
        for dx := -4 to 5
          invariant Valid()
          invariant forall t: Pos :: Inside(size, t) ==>
            MarkedAt(View(), c0, size, t,
                     if t.y - y < dy || (t.y - y == dy && t.x - x < dx) then PatchAt(FinderPatch(x, y), size, t) else None)
        {
          var dist := Dist(dx, dy);
          var xx, yy := x + dx, y + dy;
          if 0 <= xx < size && 0 <= yy < size {
            SetFunctionModule(xx, yy, dist != 2 && dist != 4);
          }
        }
      }
    }

    /** `QrCode::drawAlignmentPattern`, for centers two or more modules from the edge. */
    method DrawAlignmentPattern(x: int, y: int)
      requires Valid() && 2 <= x < size - 2 && 2 <= y < size - 2
      modifies this`modules, this`isFunction
      ensures Valid() && Laid(View(), old(View()), size, AlignmentPatch(x, y))
    {
      hide Set, At;
      ghost var c0 := View();
      for dy := -2 to 3
        invariant Valid()
        invariant forall t: Pos :: Inside(size, t) ==>
          MarkedAt(View(), c0, size, t, if t.y - y < dy then PatchAt(AlignmentPatch(x, y), size, t) else None)
      {
        for dx := -2 to 3
          invariant Valid()
          invariant forall t: Pos :: Inside(size, t) ==>
            MarkedAt(View(), c0, size, t,
                     if t.y - y < dy || (t.y - y == dy && t.x - x < dx) then PatchAt(AlignmentPatch(x, y), size, t) else None)
        {
          SetFunctionModule(x + dx, y + dy, Dist(dx, dy) != 1);
        }
      }
    }
  
    /** `QrCode::getAlignmentPatternPositions`. */
    method GetAlignmentPatternPositions() returns (result: seq<int>)
      requires Valid()
      ensures result == AlignPositions(version)
    {
      hide AlignPos, AlignStep;
      if version == 1 {
        return [];
      }
      var numAlign := version / 7 + 2;
      var step := ComputeAlignStep(version, numAlign);
      result := [];
      var pos := size - 7;
      AlignNumbers(version);
      for i := 0 to numAlign - 1
        invariant |result| == i && pos == AlignPos(version, numAlign - 1 - i)
        invariant forall k :: 0 <= k < i ==> result[k] == AlignPos(version, numAlign - i + k)
      {
        AlignPosStep(version, numAlign - 2 - i);
        result := [pos] + result;
        pos := pos - step;
      }
      result := [6] + result;
    }

    static method ComputeAlignStep(ver: Version, numAlign: int) returns (step: int)
      requires numAlign == NumAlign(ver)
      ensures step == AlignStep(ver)
    {
      step := if ver == 32 then 26 else (ver * 4 + numAlign * 2 + 1) / (numAlign * 2 - 2) * 2;
    }

    /** `QrCode::drawFormatBits`. */
    method DrawFormatBits(msk: nat)
      requires Valid() && msk < 8
      modifies this`modules, this`isFunction
      ensures Valid() && Laid(View(), old(View()), size, FormatPatch(FormatWord(errorCorrectionLevel, msk)))
    {
      hide Set, At, GetBit, FormatWord;
      ghost var c0 := View();
      var bits := ComputeFormatBits(errorCorrectionLevel, msk);
      DrawFirstFormat(bits);
      DrawSecondFormat(bits);
    }

    /** Draws the first copy of the format bits. */
    method DrawFirstFormat(bits: nat)
      requires Valid()
      modifies this`modules, this`isFunction
      ensures Valid()
      ensures forall t: Pos :: Inside(size, t) ==>
                MarkedAt(View(), old(View()), size, t, BitMark(bits, FormatFirst(t), 15))
    {
      hide Set, At, GetBit;
      ghost var c0 := View();
      for i := 0 to 6
        invariant Valid()
        invariant forall t: Pos :: Inside(size, t) ==>
          MarkedAt(View(), c0, size, t, BitMark(bits, FormatFirst(t), i))
      {
        SetFunctionModule(8, i, GetBit(bits, i));
      }
      SetFunctionModule(8, 7, GetBit(bits, 6));
      SetFunctionModule(8, 8, GetBit(bits, 7));
      SetFunctionModule(7, 8, GetBit(bits, 8));
      for i := 9 to 15
        invariant Valid()
        invariant forall t: Pos :: Inside(size, t) ==>
          MarkedAt(View(), c0, size, t, BitMark(bits, FormatFirst(t), i))
      {
        SetFunctionModule(14 - i, 8, GetBit(bits, i));
      }
    }

    /** Draws the second copy of the format bits, and the module that is always black. */
    method DrawSecondFormat(bits: nat)
      requires Valid()
      modifies this`modules, this`isFunction
      ensures Valid()
      ensures forall t: Pos :: Inside(size, t) ==>
                MarkedAt(View(), old(View()), size, t,
                         if FormatSecond(size, t) == Some(15) then Some(true) else BitMark(bits, FormatSecond(size, t), 15))
    {
      hide Set, At, GetBit;
      ghost var c0 := View();
      for i := 0 to 8
        invariant Valid()
        invariant forall t: Pos :: Inside(size, t) ==>
          MarkedAt(View(), c0, size, t, BitMark(bits, FormatSecond(size, t), i))
      {
        SetFunctionModule(size - 1 - i, 8, GetBit(bits, i));
      }
      for i := 8 to 15
        invariant Valid()
        invariant forall t: Pos :: Inside(size, t) ==>
          MarkedAt(View(), c0, size, t, BitMark(bits, FormatSecond(size, t), i))
      {
        SetFunctionModule(8, size - 15 + i, GetBit(bits, i));
      }
      SetFunctionModule(8, size - 8, true);
    }

    /** `QrCode::drawVersion`. */
    method DrawVersion()
      requires Valid()
      modifies this`modules, this`isFunction
      ensures Valid()
      ensures version < 7 ==> View() == old(View())
      ensures version >= 7 ==> Laid(View(), old(View()), size, VersionPatch(VersionWord(version)))
    {
      hide Set, At, GetBit, VersionWord, VersionBitAt;
      if version < 7 {
        return;
      }
      ghost var c0 := View();
      var bits := ComputeVersionBits(version);
      for i := 0 to 18
        invariant Valid()
        invariant forall t: Pos :: Inside(size, t) ==>
          MarkedAt(View(), c0, size, t, BitMark(bits, VersionBitAt(size, t), i))
      {
        var bit := GetBit(bits, i);
        var a := size - 11 + i % 3;
        var b := i / 3;
        SetFunctionModule(a, b, bit);
        SetFunctionModule(b, a, bit);
        forall t: Pos | Inside(size, t)
          ensures VersionBitAt(size, t) == Some(i) <==> t == Pos(a, b) || t == Pos(b, a)
        {
          VersionBitPlaces(size, t, i);
        }
      }
      VersionBitRange(size);
    }

    /** Timing patterns and finder patterns, the first part of `QrCode::drawFunctionPatterns`. */
    method DrawFixedPatterns()
      requires Valid()
      modifies this`modules, this`isFunction
      ensures Valid() && LaidAll(View(), old(View()), size, FixedPatches(size))
    {
      hide Valid, Laid, LaidAll;
      ghost var c0, c1, ps: seq<Patch> := View(), View(), [];
      ValidMeans();
      LaidNone(c0, size);
      DrawTiming();
      LaidOneMore(View(), c1, c0, size, ps, TimingPatch);
      c1, ps := View(), ps + [TimingPatch];
      DrawFinderPattern(3, 3);
      LaidOneMore(View(), c1, c0, size, ps, FinderPatch(3, 3));
      c1, ps := View(), ps + [FinderPatch(3, 3)];
      DrawFinderPattern(size - 4, 3);
      LaidOneMore(View(), c1, c0, size, ps, FinderPatch(size - 4, 3));
      c1, ps := View(), ps + [FinderPatch(size - 4, 3)];
      DrawFinderPattern(3, size - 4);
      LaidOneMore(View(), c1, c0, size, ps, FinderPatch(3, size - 4));
      assert ps + [FinderPatch(3, size - 4)] == FixedPatches(size);
    }

    /** The alignment patterns of `QrCode::drawFunctionPatterns`. */
    method DrawAlignmentPatterns(ghost c0: Canvas, ghost ps: seq<Patch>)
      requires Valid() && LaidAll(View(), c0, size, ps)
      modifies this`modules, this`isFunction
      ensures Valid()
      ensures LaidAll(View(), c0, size, ps + AlignmentPatches(AlignPositions(version), |AlignPositions(version)|))
    {
      hide Valid, Laid, LaidAll, OnFinder, AlignmentPatches, AlignmentColumn, AlignPositions;
      ValidMeans();
      var alignPatPos := GetAlignmentPatternPositions();
      var numAlign := |alignPatPos|;
      ghost var qs := ps;
      AlignmentPatchesNone(alignPatPos);
      for i := 0 to numAlign
        invariant Valid() && qs == ps + AlignmentPatches(alignPatPos, i)
        invariant LaidAll(View(), c0, size, qs)
      {
        ghost var before := qs;
        AlignmentColumnNone(alignPatPos, i);
        for j := 0 to numAlign
          invariant Valid() && qs == before + AlignmentColumn(alignPatPos, i, j)
          invariant LaidAll(View(), c0, size, qs)
        {
          AlignmentColumnStep(alignPatPos, i, j);
          // Three of the crossings lie in finder patterns
          if !OnFinder(i, j, numAlign) {
            AlignmentInBounds(version, i);
            AlignmentInBounds(version, j);
            ValidMeans();
            ghost var c1 := View();
            DrawAlignmentPattern(alignPatPos[i], alignPatPos[j]);
            LaidOneMore(View(), c1, c0, size, qs, AlignmentPatch(alignPatPos[i], alignPatPos[j]));
            qs := qs + [AlignmentPatch(alignPatPos[i], alignPatPos[j])];
          }
        }
        AlignmentPatchesStep(alignPatPos, i);
      }
    }

    /** `QrCode::drawFunctionPatterns`. */
    method DrawFunctionPatterns()
      requires Valid()
      modifies this`modules, this`isFunction
      ensures Valid()
      ensures LaidAll(View(), old(View()), size,
                      Patches(version, FormatWord(errorCorrectionLevel, 0), VersionWord(version)))
    {
      hide Valid, Laid, LaidAll, FormatWord, VersionWord, FixedPatches, AlignmentPatches;
      ghost var c0 := View();
      ValidMeans();
      DrawFixedPatterns();
      ghost var ps := FixedPatches(size);
      DrawAlignmentPatterns(c0, ps);
      ps := ps + AlignmentPatches(AlignPositions(version), |AlignPositions(version)|);
      ghost var c1 := View();
      DrawFormatBits(0);
      ghost var format := FormatPatch(FormatWord(errorCorrectionLevel, 0));
      LaidOneMore(View(), c1, c0, size, ps, format);
      c1, ps := View(), ps + [format];
      DrawVersion();
      ValidMeans();
      if version >= 7 {
        LaidOneMore(View(), c1, c0, size, ps, VersionPatch(VersionWord(version)));
      } else {
        assert ps + [] == ps;
      }
    }

    /** One column pair of `QrCode::drawCodewords`; i counts the bits drawn so far. */
    method DrawColumnPair(right: int, data: seq<byte>, start: nat, ghost k: nat, ghost s0: seq<Pos>, ghost g0: Grid)
      returns (i: nat)
      requires Valid() && Square(g0, size) && size % 2 == 1
      requires k < (size - 1) / 2 && right == RightColumn(size, k) && (forall t :: t in s0 ==> Inside(size, t))
      requires DrawnAlong(modules, g0, isFunction, size, s0, Unpack(data), start)
      modifies this`modules
      ensures Valid()
      ensures forall t :: t in s0 + PairScan(size, k, size) ==> Inside(size, t)
      ensures DrawnAlong(modules, g0, isFunction, size, s0 + PairScan(size, k, size), Unpack(data), i)
    {
      hide Drawn, DrawnAlong, Unpack, PairScan, ScanPos, GetBit, Set, At, RightColumn, StepOf, SideOf, PairOf;
      ghost var s, bits := s0, Unpack(data);
      i := start;
      PairScanNone(size, k);
      for vert := 0 to size
        invariant Valid()
        invariant s == s0 + PairScan(size, k, vert) && (forall t :: t in s ==> Inside(size, t))
        invariant DrawnAlong(modules, g0, isFunction, size, s, bits, i)
      {
        ghost var before := s;
        PairScanStep(size, k, vert);
        for j := 0 to 2
          invariant Valid()
          invariant s == before + [ScanPos(size, k, vert, 0), ScanPos(size, k, vert, 1)][..j]
          invariant forall t :: t in s ==> Inside(size, t)
          invariant DrawnAlong(modules, g0, isFunction, size, s, bits, i)
        {
          var x := right - j;
          var upward := (right + 1) / 2 % 2 == 0;
          var y := if upward then size - 1 - vert else vert;
          ScanPosMeans(size, k, vert, j);
          ScanPosInverse(size, k, vert, j);
          DrawnAlongStep(modules, g0, isFunction, size, s, Pos(x, y), bits, i);
          if !At(isFunction, size, Pos(x, y)) && i < |data| * 8 {
            UnpackAt(data, i);
            modules := Set(modules, size, Pos(x, y), GetBit(data[i / 8], 7 - i % 8));
            i := i + 1;
          }
          s := s + [Pos(x, y)];
        }
      }
    }

    /**
     * `QrCode::drawCodewords`, for a grid whose function modules are marked. The codewords fill the
     * data modules in the order of the scan; no other module changes.
     */
    method DrawCodewords(data: seq<byte>) returns (r: Result<()>)
      requires Valid() && MarksVersion(isFunction, version)
      modifies this`modules
      ensures Valid()
      ensures r == if |data| == RawCodewords(version) then Ok(()) else Err(InvalidArgument)
      ensures r.Err? ==> modules == old(modules)
      ensures r.Ok? ==> |Unpack(data)| <= |DataPositions(isFunction, version)|
      ensures r.Ok? ==> modules == Drawn(old(modules), size, DataPositions(isFunction, version), Unpack(data), |Unpack(data)|)
    {
      hide Drawn, DrawnAlong, Unpack, MarksVersion, RawCodewords, DataPositions, Scan, PairScan, RightColumn, AtColumn;
      if |data| != RawCodewords(version) {
        return Err(InvalidArgument);
      }
      ghost var g0, bits := modules, Unpack(data);
      ghost var k := 0;
      DrawnAlongNone(g0, isFunction, size, bits);
      ScanNone(size);
      RightColumnStart(size);
      var i := 0;
      var right := size - 1;
      while right >= 1
        invariant Valid()
        invariant 0 <= k <= (size - 1) / 2 && AtColumn(size, k, right)
        invariant forall t :: t in Scan(size, k) ==> Inside(size, t)
        invariant DrawnAlong(modules, g0, isFunction, size, Scan(size, k), bits, i)
        decreases right
      {
        if right == 6 {
          right := 5;
        }
        ColumnReached(size, k, right);
        ScanStep(size, k);
        i := DrawColumnPair(right, data, i, k, Scan(size, k), g0);
        NextColumn(size, k, right);
        right := right - 2;
        k := k + 1;
      }
      LastColumn(size, k, right);
      AllDrawn(modules, g0, isFunction, version, bits, i);
      assert i == |data| * 8;
      r := Ok(());
    }

    /** `QrCode::applyMask`; `ok` is false where the source throws `std::domain_error`. */
    method ApplyMask(msk: int) returns (ok: bool)
      requires Valid()
      modifies this`modules
      ensures Valid()
      ensures ok <==> 0 <= msk <= 7
      ensures ok ==> modules == Masked(old(modules), isFunction, size, msk)
      ensures !ok ==> modules == old(modules)
    {
      hide Inverts, Masked, Set, At;
      if msk < 0 || msk > 7 {
        return false;
      }
      ghost var g0 := modules;
      for y := 0 to size
        invariant Valid()
        invariant forall t: Pos :: Inside(size, t) ==>
          At(modules, size, t) == At(if t.y < y then Masked(g0, isFunction, size, msk) else g0, size, t)
      {
        for x := 0 to size
          invariant Valid()
          invariant forall t: Pos :: Inside(size, t) ==>
            At(modules, size, t) == At(if Before(t, Pos(x, y)) then Masked(g0, isFunction, size, msk) else g0, size, t)
        {
          var t := Pos(x, y);
          InvertsCases(msk, x, y);
          var invert := false;
          match msk {
            case 0 => invert := (x + y) % 2 == 0;
            case 1 => invert := y % 2 == 0;
            case 2 => invert := x % 3 == 0;
            case 3 => invert := (x + y) % 3 == 0;
            case 4 => invert := (x / 3 + y / 2) % 2 == 0;
            case 5 => invert := x * y % 2 + x * y % 3 == 0;
            case 6 => invert := (x * y % 2 + x * y % 3) % 2 == 0;
            case 7 => invert := ((x + y) % 2 + x * y % 3) % 2 == 0;
            case _ => assert false;
          }
          modules := Set(modules, size, t, At(modules, size, t) != (invert && !At(isFunction, size, t)));
        }
      }
      SameGrid(modules, Masked(g0, isFunction, size, msk), size);
      ok := true;
    }

    /** Draws format bits over those of an earlier trial; the marks stay as they are. */
    method RedrawFormatBits(msk: nat)
      requires Valid() && msk < 8 && FormatMarked(isFunction, size)
      modifies this`modules, this`isFunction
      ensures Valid() && isFunction == old(isFunction)
      ensures modules == LaidGrid(old(modules), size, FormatPatch(FormatWord(errorCorrectionLevel, msk)))
    {
      hide LaidGrid, Laid, FormatWord;
      ghost var c0 := View();
      DrawFormatBits(msk);
      LaidFormat(View(), c0, size, FormatWord(errorCorrectionLevel, msk));
    }

    /**
     * The automatic mask choice of the constructor. Each trial leaves no trace but its format bits,
     * and the mask that is found has the lowest penalty of all eight, the first such if there are several.
     */
    method ChooseMask() returns (msk: nat)
      requires Valid() && FormatMarked(isFunction, size)
      modifies this`modules, this`isFunction
      ensures Valid() && isFunction == old(isFunction)
      ensures msk < 8
      ensures exists e: nat :: modules == LaidGrid(old(modules), size, FormatPatch(e))
      ensures forall m: nat :: m < 8 ==>
                Score(old(modules), isFunction, size, errorCorrectionLevel, msk)
                <= Score(old(modules), isFunction, size, errorCorrectionLevel, m)
      ensures forall m: nat :: m < msk ==>
                Score(old(modules), isFunction, size, errorCorrectionLevel, msk)
                < Score(old(modules), isFunction, size, errorCorrectionLevel, m)
    {
      hide Masked, LaidGrid, Candidate, Laid, FormatWord, PenaltyScore, FormatMarked;
      ghost var g0, marks, ecl := modules, isFunction, errorCorrectionLevel;
      ghost var e: Option<nat> := None;
      var best := -1;
      var minPenalty := 0x7FFF_FFFF;
      for i := 0 to 8
        invariant Valid() && isFunction == marks && -1 <= best < i
        invariant e == None <==> i == 0
        invariant modules == if e == None then g0 else LaidGrid(g0, size, FormatPatch(e.value))
        invariant best == -1 ==> i == 0
        invariant best >= 0 ==> minPenalty == Score(g0, marks, size, ecl, best)
        invariant forall m: nat :: m < i ==> minPenalty <= Score(g0, marks, size, ecl, m)
        invariant forall m: nat :: m < best ==> minPenalty < Score(g0, marks, size, ecl, m)
        invariant best == -1 ==> minPenalty == 0x7FFF_FFFF
      {
        var ok := ApplyMask(i);
        RedrawFormatBits(i);
        TrialGrid(g0, marks, size, i, e, FormatWord(ecl, i));
        var penalty := GetPenaltyScore(modules, size);
        ScoreMeans(g0, marks, size, ecl, i);
        PenaltyScoreBound(modules, size);
        if penalty < minPenalty {
          best := i;
          minPenalty := penalty;
        }
        ok := ApplyMask(i);
        TrialUndone(g0, marks, size, i, FormatWord(ecl, i));
        e := Some(FormatWord(ecl, i));
      }
      msk := best;
    }

    /** This object is the symbol for the given data codewords, with some mask. */
    ghost predicate IsSymbol(ver: Version, ecl: Ecc, data: seq<byte>)
      requires |data| == NumDataCodewords(ver, ecl)
      reads this
    {
      && version == ver && size == Size(ver) && errorCorrectionLevel == ecl && 0 <= mask < 8
      && modules == SymbolGrid(ver, ecl, data, mask) && isFunction == []
    }

    /** The part of the constructor that computes error correction and draws modules. */
    static method MakeUnmasked(ver: Version, ecl: Ecc, dataCodewords: seq<byte>) returns (r: Result<QrCode>)
      ensures |dataCodewords| != NumDataCodewords(ver, ecl) ==> r == Err(InvalidArgument)
      ensures |dataCodewords| == NumDataCodewords(ver, ecl) ==>
                r.Ok? && fresh(r.value) && r.value.Valid()
                && r.value.version == ver && r.value.errorCorrectionLevel == ecl
                && r.value.modules == UnmaskedGrid(ver, ecl, dataCodewords) && r.value.isFunction == MarkGrid(ver)
    {
      hide *;
      var qr := new QrCode.Blank(ver, ecl);
      qr.ValidMeans();
      ghost var c0 := qr.View();
      qr.ViewMeans();
      qr.DrawFunctionPatterns();
      LaidPatterns(qr.View(), ver, ecl);
      qr.ViewMeans();
      var allCodewords := AddEccAndInterleave(dataCodewords, ver, ecl);
      if allCodewords.Err? {
        return Err(allCodewords.error);
      }
      var drawn := qr.DrawCodewords(allCodewords.value);
      qr.ValidMeans();
      UnmaskedGridMeans(ver, ecl, dataCodewords);
      r := Ok(qr);
    }

    lemma ViewMeans()
      ensures View() == Canvas(modules, isFunction)
    {
    }

    /** The part of the constructor that does the masking. */
    method DoMasking(msk: int, ghost data: seq<byte>)
      requires Valid() && -1 <= msk <= 7
      requires |data| == NumDataCodewords(version, errorCorrectionLevel)
      requires modules == UnmaskedGrid(version, errorCorrectionLevel, data) && isFunction == MarkGrid(version)
      modifies this`modules, this`isFunction, this`mask
      ensures IsSymbol(version, errorCorrectionLevel, data)
      ensures msk != -1 ==> mask == msk
      ensures msk == -1 ==> BestMask(version, errorCorrectionLevel, data, mask)
    {
      hide *;
      ValidMeans();
      ghost var g0 := modules;
      MarksFormat(version);
      var chosen := msk;
      ghost var e: Option<nat> := None;
      if msk == -1 {
        chosen := ChooseMask();
        ghost var w: nat :| modules == LaidGrid(g0, size, FormatPatch(w));
        e := Some(w);
        BestMaskFound(version, errorCorrectionLevel, data, chosen);
      }
      assert 0 <= chosen <= 7;
      ValidMeans();
      mask := chosen;
      StillValid();
      TrialGrid(g0, isFunction, size, chosen, e, FormatWord(errorCorrectionLevel, chosen));
      var ok := ApplyMask(chosen);
      RedrawFormatBits(chosen);
      SymbolGridMeans(version, errorCorrectionLevel, data, chosen);
      ValidMeans();
      isFunction := [];
      IsSymbolMeans(version, errorCorrectionLevel, data);
    }

    lemma IsSymbolMeans(ver: Version, ecl: Ecc, data: seq<byte>)
      requires |data| == NumDataCodewords(ver, ecl)
      requires version == ver && size == Size(ver) && errorCorrectionLevel == ecl && 0 <= mask < 8
      requires modules == SymbolGrid(ver, ecl, data, mask) && isFunction == []
      ensures IsSymbol(ver, ecl, data)
    {
    }

    /**
     * The constructor `QrCode::QrCode`. A forced mask is used, and an automatic one has the lowest
     * penalty of all eight.
     */
    static method Create(ver: int, ecl: Ecc, dataCodewords: seq<byte>, msk: int) returns (r: Result<QrCode>)
      ensures !(1 <= ver <= 40 && -1 <= msk <= 7) ==> r == Err(DomainError)
      ensures 1 <= ver <= 40 && -1 <= msk <= 7 && |dataCodewords| != NumDataCodewords(ver, ecl) ==> r == Err(InvalidArgument)
      ensures 1 <= ver <= 40 && -1 <= msk <= 7 && |dataCodewords| == NumDataCodewords(ver, ecl) ==>
                r.Ok? && fresh(r.value) && r.value.IsSymbol(ver, ecl, dataCodewords)
                && (msk != -1 ==> r.value.mask == msk)
                && (msk == -1 ==> BestMask(ver, ecl, dataCodewords, r.value.mask))
    {
      hide NumDataCodewords, BestMask, SymbolGrid, UnmaskedGrid, MarkGrid, QrCode.IsSymbol, QrCode.Valid;
      if ver < MIN_VERSION || ver > MAX_VERSION {
        return Err(DomainError);
      }
      if msk < -1 || msk > 7 {
        return Err(DomainError);
      }
      r := MakeUnmasked(ver, ecl, dataCodewords);
      if r.Ok? {
        r.value.DoMasking(msk, dataCodewords);
      }
    }
  }

  lemma UnmaskedGridMeans(ver: Version, ecl: Ecc, data: seq<byte>)
    requires |data| == NumDataCodewords(ver, ecl)
    ensures |data| == SymbolLayout(ver, ecl).DataFrom(0)
    ensures |Unpack(AllCodewords(data, SymbolLayout(ver, ecl)))| <= |DataPositions(MarkGrid(ver), ver)|
    ensures UnmaskedGrid(ver, ecl, data)
         == var bits := Unpack(AllCodewords(data, SymbolLayout(ver, ecl)));
            Drawn(PatternGrid(ver, ecl), Size(ver), DataPositions(MarkGrid(ver), ver), bits, |bits|)
  {
    hide MarkGrid, PatternGrid, Drawn, Unpack, AllCodewords, DataPositions, RawCodewords, NumDataCodewords, SymbolLayout,
         Layout.DataFrom, Layout.RowStart;
    SymbolLayoutTotals(ver, ecl);
    CodewordsFit(ver);
  }

  /** No mask gives the symbol a lower penalty, and no earlier one the same. */
  ghost predicate BestMask(ver: Version, ecl: Ecc, data: seq<byte>, msk: int)
    requires |data| == NumDataCodewords(ver, ecl)
  {
    && 0 <= msk < 8
    && forall m: nat :: m < 8 ==>
         var p, q := PenaltyScore(SymbolGrid(ver, ecl, data, msk), Size(ver)), PenaltyScore(SymbolGrid(ver, ecl, data, m), Size(ver));
         p <= q && (m < msk ==> p < q)
  }

  lemma SymbolGridMeans(ver: Version, ecl: Ecc, data: seq<byte>, msk: nat)
    requires |data| == NumDataCodewords(ver, ecl) && msk < 8
    ensures SymbolGrid(ver, ecl, data, msk)
         == Candidate(UnmaskedGrid(ver, ecl, data), MarkGrid(ver), Size(ver), msk, FormatWord(ecl, msk))
  {
  }

  lemma BestMaskFound(ver: Version, ecl: Ecc, data: seq<byte>, msk: nat)
    requires |data| == NumDataCodewords(ver, ecl) && msk < 8
    requires forall m: nat :: m < 8 ==>
               Score(UnmaskedGrid(ver, ecl, data), MarkGrid(ver), Size(ver), ecl, msk)
               <= Score(UnmaskedGrid(ver, ecl, data), MarkGrid(ver), Size(ver), ecl, m)
    requires forall m: nat :: m < msk ==>
               Score(UnmaskedGrid(ver, ecl, data), MarkGrid(ver), Size(ver), ecl, msk)
               < Score(UnmaskedGrid(ver, ecl, data), MarkGrid(ver), Size(ver), ecl, m)
    ensures BestMask(ver, ecl, data, msk)
  {
    hide UnmaskedGrid, MarkGrid, Candidate, FormatWord, PenaltyScore, NumDataCodewords;
    forall m: nat | m < 8
      ensures Score(UnmaskedGrid(ver, ecl, data), MarkGrid(ver), Size(ver), ecl, m)
           == PenaltyScore(SymbolGrid(ver, ecl, data, m), Size(ver))
    {
      SymbolGridMeans(ver, ecl, data, m);
    }
  }

  /** The penalty of the symbol that a mask would give. */
  ghost function Score(g: Grid, isFunction: Grid, size: nat, ecl: Ecc, msk: nat): int
    requires Square(g, size) && Square(isFunction, size) && size > 0 && msk < 8
  {
    PenaltyScore(Candidate(g, isFunction, size, msk, FormatWord(ecl, msk)), size)
  }

  lemma ScoreMeans(g: Grid, isFunction: Grid, size: nat, ecl: Ecc, msk: nat)
    requires Square(g, size) && Square(isFunction, size) && size > 0 && msk < 8
    ensures Score(g, isFunction, size, ecl, msk)
         == PenaltyScore(Candidate(g, isFunction, size, msk, FormatWord(ecl, msk)), size)
  {
  }

  lemma LaidFormat(c: Canvas, c0: Canvas, size: nat, word: nat)
    requires Laid(c, c0, size, FormatPatch(word)) && FormatMarked(c0.isFunction, size)
    ensures c.modules == LaidGrid(c0.modules, size, FormatPatch(word)) && c.isFunction == c0.isFunction
  {
    hide At, LaidGrid, FormatBitAt, GetBit;
    SameGrid(c.modules, LaidGrid(c0.modules, size, FormatPatch(word)), size);
    SameGrid(c.isFunction, c0.isFunction, size);
  }

  /** A trial after none or one of the earlier trials. */
  lemma TrialGrid(g: Grid, isFunction: Grid, size: nat, msk: nat, earlier: Option<nat>, format: nat)
    requires Square(g, size) && FormatMarked(isFunction, size) && msk < 8
    ensures var current := if earlier == None then g else LaidGrid(g, size, FormatPatch(earlier.value));
            LaidGrid(Masked(current, isFunction, size, msk), size, FormatPatch(format))
            == Candidate(g, isFunction, size, msk, format)
  {
    hide Masked, LaidGrid;
    if earlier.Some? {
      TrialForgets(g, isFunction, size, msk, earlier.value, format);
    }
  }

  // ----- Steps of the drawing loop -----

  /** The loop is at column pair k, before it steps over the timing column. */
  ghost predicate AtColumn(size: int, k: int, right: int) {
    right == RightColumn(size, k) || (right == 6 && RightColumn(size, k) == 5)
  }

  lemma RightColumnStart(size: int)
    requires size > 7
    ensures AtColumn(size, 0, size - 1)
  {
  }

  lemma ColumnReached(size: int, k: int, right: int)
    requires size % 2 == 1 && 0 <= k <= (size - 1) / 2 && right >= 1
    requires AtColumn(size, k, right) || (right == 5 && AtColumn(size, k, 6))
    requires right != 6
    ensures k < (size - 1) / 2 && right == RightColumn(size, k)
  {
  }

  lemma NextColumn(size: int, k: int, right: int)
    requires size % 2 == 1 && right == RightColumn(size, k)
    ensures AtColumn(size, k + 1, right - 2)
  {
  }

  lemma LastColumn(size: int, k: int, right: int)
    requires size % 2 == 1 && 0 <= k <= (size - 1) / 2 && AtColumn(size, k, right) && right < 1
    ensures k == (size - 1) / 2
  {
  }

  lemma ScanNone(size: nat)
    ensures Scan(size, 0) == []
  {
  }

  lemma ScanStep(size: nat, k: nat)
    ensures Scan(size, k + 1) == Scan(size, k) + PairScan(size, k, size)
  {
  }

  lemma PairScanNone(size: int, k: int)
    ensures PairScan(size, k, 0) == []
  {
  }

  lemma PairScanStep(size: int, k: int, v: nat)
    ensures PairScan(size, k, v + 1) == PairScan(size, k, v) + [ScanPos(size, k, v, 0), ScanPos(size, k, v, 1)]
  {
  }

  lemma ScanPosMeans(size: int, k: int, vert: int, j: int)
    ensures ScanPos(size, k, vert, j)
         == Pos(RightColumn(size, k) - j, if (RightColumn(size, k) + 1) / 2 % 2 == 0 then size - 1 - vert else vert)
  {
  }

  /** The data modules are enough for all bits, so none is left over. */
  lemma AllDrawn(g: Grid, g0: Grid, isFunction: Grid, ver: Version, bits: seq<bool>, i: nat)
    requires Square(g0, Size(ver)) && MarksVersion(isFunction, ver) && Square(isFunction, Size(ver))
    requires |bits| == 8 * RawCodewords(ver)
    requires forall t :: t in Scan(Size(ver), (Size(ver) - 1) / 2) ==> Inside(Size(ver), t)
    requires DrawnAlong(g, g0, isFunction, Size(ver), Scan(Size(ver), (Size(ver) - 1) / 2), bits, i)
    ensures i == |bits| <= |DataPositions(isFunction, ver)|
    ensures g == Drawn(g0, Size(ver), DataPositions(isFunction, ver), bits, |bits|)
  {
    hide Drawn, MarksVersion, NumRawDataModules, Scan;
    DataPositionsCount(isFunction, ver);
  }

  lemma AlignmentPatchesNone(ps: seq<int>)
    ensures AlignmentPatches(ps, 0) == []
  {
  }

  lemma AlignmentColumnNone(ps: seq<int>, i: nat)
    requires i < |ps|
    ensures AlignmentColumn(ps, i, 0) == []
  {
  }

  lemma AlignmentColumnStep(ps: seq<int>, i: nat, j: nat)
    requires i < |ps| && j < |ps|
    ensures AlignmentColumn(ps, i, j + 1)
         == AlignmentColumn(ps, i, j) + if OnFinder(i, j, |ps|) then [] else [AlignmentPatch(ps[i], ps[j])]
  {
  }

  lemma AlignmentPatchesStep(ps: seq<int>, i: nat)
    requires i < |ps|
    ensures AlignmentPatches(ps, i + 1) == AlignmentPatches(ps, i) + AlignmentColumn(ps, i, |ps|)
  {
  }

  lemma AlignmentInBounds(ver: Version, k: nat)
    requires k < |AlignPositions(ver)|
    ensures 2 <= AlignPositions(ver)[k] < Size(ver) - 2
  {
    hide AlignPos, AlignStep;
    AlignNumbers(ver);
    if k > 0 {
      AlignPosOrder(ver, 1, k);
      AlignPosOrder(ver, k, NumAlign(ver) - 1);
    }
  }

  /** The mark of one of the first n bits. */
  function BitMark(bits: nat, number: Option<nat>, n: nat): Option<bool> {
    match number
    case Some(i) => if i < n then Some(GetBit(bits, i)) else None
    case None => None
  }
}
