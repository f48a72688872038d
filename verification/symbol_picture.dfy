/** What a finished symbol looks like, module by module, apart from its codewords. */
module SymbolPicture {
  import opened BinaryPoly
  import opened Bits
  import opened BitStream
  import opened FinderLike
  import opened FormatInfo
  import opened Geometry
  import opened Grid
  import opened LineRuns
  import opened Masks
  import opened Patterns
  import opened Results
  import opened SymbolReader
  import opened Tables
  import opened Zigzag
  import Penalty

  // ----- Function modules keep the color of the last pattern -----

  /** Neither codewords nor masks change a function module, and only format bits are drawn again. */
  lemma FunctionColor(ver: Version, ecl: Ecc, data: seq<byte>, msk: nat, t: Pos)
    requires |data| == NumDataCodewords(ver, ecl) && msk < 8 && Inside(Size(ver), t)
    requires IsFunctionModule(ver, t.x, t.y) && FormatBitAt(Size(ver), t).None?
    ensures At(SymbolGrid(ver, ecl, data, msk), Size(ver), t) == PatternColor(ver, ecl, t)
  {
    hide NumDataCodewords, SymbolCodewords, DataPositions, Unpack, Drawn, Masked, LaidGrid, Inverts, At, PatternColor, FormatWord,
         PatternGrid, MarkGrid, FormatBitAt, IsFunctionModule;
    var size, marks := Size(ver), MarkGrid(ver);
    CodewordsFit(ver);
    var bits, d := Unpack(SymbolCodewords(ver, ecl, data)), DataPositions(marks, ver);
    DrawnAt(PatternGrid(ver, ecl), size, d, bits, |bits|, t);
    MarkedHere(ver, t);
    assert t !in d;
  }

  lemma MarkedHere(ver: Version, t: Pos)
    requires Inside(Size(ver), t) && IsFunctionModule(ver, t.x, t.y)
    ensures At(MarkGrid(ver), Size(ver), t)
  {
  }

  /** Which of the patterns is on top. */
  lemma TopPattern(ver: Version, format: nat, versionBits: nat, t: Pos)
    ensures var size, ps := Size(ver), AlignPositions(ver);
            LastAt(Patches(ver, format, versionBits), size, t)
            == if ver >= 7 && Covers(VersionPatch(versionBits), size, t) then PatchAt(VersionPatch(versionBits), size, t)
               else if Covers(FormatPatch(format), size, t) then PatchAt(FormatPatch(format), size, t)
               else if LastAt(AlignmentPatches(ps, |ps|), size, t).Some? then LastAt(AlignmentPatches(ps, |ps|), size, t)
               else LastAt(FixedPatches(size), size, t)
  {
    hide LastAt, AlignmentPatches, Covers, Color, FixedPatches;
    var size, ps := Size(ver), AlignPositions(ver);
    var fixed, align := FixedPatches(size), AlignmentPatches(ps, |ps|);
    var tail := if ver < 7 then [] else [VersionPatch(versionBits)];
    LastAtAppend(fixed + align + [FormatPatch(format)], tail, size, t);
    LastAtAppend(fixed + align, [FormatPatch(format)], size, t);
    LastAtAppend(fixed, align, size, t);
    LastAtOne(FormatPatch(format), size, t);
    LastAtOne(VersionPatch(versionBits), size, t);
    LastAtNone(size, t);
  }

  lemma TopOfFixed(size: int, t: Pos)
    ensures LastAt(FixedPatches(size), size, t)
         == if Covers(FinderPatch(3, size - 4), size, t) then PatchAt(FinderPatch(3, size - 4), size, t)
            else if Covers(FinderPatch(size - 4, 3), size, t) then PatchAt(FinderPatch(size - 4, 3), size, t)
            else if Covers(FinderPatch(3, 3), size, t) then PatchAt(FinderPatch(3, 3), size, t)
            else PatchAt(TimingPatch, size, t)
  {
    hide LastAt, Covers, Color;
    var a, b, c, d := TimingPatch, FinderPatch(3, 3), FinderPatch(size - 4, 3), FinderPatch(3, size - 4);
    LastAtAppend([a, b, c], [d], size, t);
    LastAtAppend([a, b], [c], size, t);
    LastAtAppend([a], [b], size, t);
    LastAtOne(a, size, t);
    LastAtOne(b, size, t);
    LastAtOne(c, size, t);
    LastAtOne(d, size, t);
    assert FixedPatches(size) == [a, b, c] + [d] && [a, b, c] == [a, b] + [c] && [a, b] == [a] + [b];
  }

  /** Alignment patterns stay clear of the corners and of the version bits. */
  lemma AlignmentElsewhere(ver: Version, t: Pos)
    requires Inside(Size(ver), t) && (InCorners(Size(ver), t.x, t.y) || InVersionInfo(ver, t.x, t.y))
    ensures var ps := AlignPositions(ver); LastAt(AlignmentPatches(ps, |ps|), Size(ver), t).None?
  {
    hide LastAt, AlignmentPatches, CoveredByColumn, AlignmentModules, CornerModules, VersionModules, TimingModules, InAlignment;
    var ps := AlignPositions(ver);
    AlignmentPatchesCover(ps, |ps|, Size(ver), t);
    AlignmentCoverage(ver, t);
    if ver >= 2 {
      AlignmentMembers(ver, t);
      AlignmentClear(ver);
      CornerMembers(ver, t);
    } else {
      NoAlignment(ver, t.x, t.y);
    }
  }

  lemma CornerMembers(ver: Version, t: Pos)
    requires Inside(Size(ver), t)
    ensures InCorners(Size(ver), t.x, t.y) ==> t in CornerModules(Size(ver))
    ensures InVersionInfo(ver, t.x, t.y) ==> t in VersionModules(Size(ver))
  {
    hide Product, Interval;
  }

  // ----- Finder patterns -----

  /** A dark frame of seven modules, a light one of five and a dark square of three, by its top left corner. */
  predicate FrameIsBlack(i: int, j: int) {
    i == 0 || i == 6 || j == 0 || j == 6 || (2 <= i <= 4 && 2 <= j <= 4)
  }

  /** The modules of a finder pattern with its top left corner at o, and the light modules around it. */
  ghost predicate FinderAt(g: Grid, size: int, o: Pos)
    requires Square(g, size)
  {
    forall t: Pos :: Inside(size, t) && -1 <= t.x - o.x <= 7 && -1 <= t.y - o.y <= 7 ==>
      At(g, size, t) == (0 <= t.x - o.x <= 6 && 0 <= t.y - o.y <= 6 && FrameIsBlack(t.x - o.x, t.y - o.y))
  }

  ghost predicate IsCorner(size: int, o: Pos) {
    o == Pos(0, 0) || o == Pos(size - 7, 0) || o == Pos(0, size - 7)
  }

  lemma FinderModule(ver: Version, ecl: Ecc, o: Pos, i: int, j: int)
    requires IsCorner(Size(ver), o) && -1 <= i <= 7 && -1 <= j <= 7 && Inside(Size(ver), Pos(o.x + i, o.y + j))
    ensures InCorners(Size(ver), o.x + i, o.y + j) && FormatBitAt(Size(ver), Pos(o.x + i, o.y + j)).None?
    ensures PatternColor(ver, ecl, Pos(o.x + i, o.y + j)) == (0 <= i <= 6 && 0 <= j <= 6 && FrameIsBlack(i, j))
  {
    hide LastAt, FormatWord, VersionWord, Patches, AlignPositions, GetBit;
    var size, t := Size(ver), Pos(o.x + i, o.y + j);
    FinderCover(size, o, i, j);
    TopPattern(ver, FormatWord(ecl, 0), VersionWord(ver), t);
    AlignmentElsewhere(ver, t);
    TopOfFixed(size, t);
  }

  lemma FinderCover(size: int, o: Pos, i: int, j: int)
    requires size >= 21 && IsCorner(size, o) && -1 <= i <= 7 && -1 <= j <= 7 && Inside(size, Pos(o.x + i, o.y + j))
    ensures var t, p := Pos(o.x + i, o.y + j), FinderPatch(o.x + 3, o.y + 3);
            && InCorners(size, t.x, t.y) && FormatBitAt(size, t).None? && VersionBitAt(size, t).None?
            && Covers(p, size, t) && Color(p, size, t) == (0 <= i <= 6 && 0 <= j <= 6 && FrameIsBlack(i, j))
            && (p == FinderPatch(3, 3) || p == FinderPatch(size - 4, 3) || p == FinderPatch(3, size - 4))
            && (p != FinderPatch(3, 3) ==> !Covers(FinderPatch(3, 3), size, t))
            && (p != FinderPatch(size - 4, 3) ==> !Covers(FinderPatch(size - 4, 3), size, t))
            && (p != FinderPatch(3, size - 4) ==> !Covers(FinderPatch(3, size - 4), size, t))
  {
    hide FrameIsBlack, Color, Covers, FormatBitAt, VersionBitAt;
    var t := Pos(o.x + i, o.y + j);
    FrameColors(size, o, i, j);
    FinderClear(size, t);
    CornerClear(size, o, i, j);
  }

  /** The rings around the center make the frames. */
  lemma FrameColors(size: int, o: Pos, i: int, j: int)
    requires -1 <= i <= 7 && -1 <= j <= 7
    ensures var t, p := Pos(o.x + i, o.y + j), FinderPatch(o.x + 3, o.y + 3);
            Covers(p, size, t) && Color(p, size, t) == (0 <= i <= 6 && 0 <= j <= 6 && FrameIsBlack(i, j))
  {
    RingColors(i - 3, j - 3);
  }

  lemma RingColors(dx: int, dy: int)
    requires -4 <= dx <= 4 && -4 <= dy <= 4
    ensures Dist(dx, dy) <= 4
    ensures (Dist(dx, dy) != 2 && Dist(dx, dy) != 4)
         == (-3 <= dx <= 3 && -3 <= dy <= 3 && FrameIsBlack(dx + 3, dy + 3))
  {
  }

  /** The finder patterns do not meet. */
  lemma FinderClear(size: int, t: Pos)
    requires size >= 21
    ensures Covers(FinderPatch(3, 3), size, t) ==> t.x <= 7 && t.y <= 7
    ensures Covers(FinderPatch(size - 4, 3), size, t) ==> t.x >= size - 8 && t.y <= 7
    ensures Covers(FinderPatch(3, size - 4), size, t) ==> t.x <= 7 && t.y >= size - 8
  {
  }

  lemma CornerClear(size: int, o: Pos, i: int, j: int)
    requires size >= 21 && IsCorner(size, o) && -1 <= i <= 7 && -1 <= j <= 7 && Inside(size, Pos(o.x + i, o.y + j))
    ensures var t := Pos(o.x + i, o.y + j);
            && InCorners(size, t.x, t.y) && FormatBitAt(size, t).None? && VersionBitAt(size, t).None?
  {
  }

  /** A finished symbol has a finder pattern in each of three corners. */
  lemma ThreeFinders(ver: Version, ecl: Ecc, data: seq<byte>, msk: nat, o: Pos)
    requires |data| == NumDataCodewords(ver, ecl) && msk < 8 && IsCorner(Size(ver), o)
    ensures FinderAt(SymbolGrid(ver, ecl, data, msk), Size(ver), o)
  {
    hide NumDataCodewords, SymbolGrid, At, PatternColor, FormatBitAt, FrameIsBlack, InAlignment;
    var size := Size(ver);
    forall t: Pos | Inside(size, t) && -1 <= t.x - o.x <= 7 && -1 <= t.y - o.y <= 7
      ensures At(SymbolGrid(ver, ecl, data, msk), size, t)
           == (0 <= t.x - o.x <= 6 && 0 <= t.y - o.y <= 6 && FrameIsBlack(t.x - o.x, t.y - o.y))
    {
      FinderModule(ver, ecl, o, t.x - o.x, t.y - o.y);
      assert Pos(o.x + (t.x - o.x), o.y + (t.y - o.y)) == t;
      FunctionColor(ver, ecl, data, msk, t);
    }
  }

  // ----- What a scanner looks for -----

  /** The row or column that crosses the middle of a finder pattern, starting at p, reads as one. */
  lemma CrossReads(line: Line, p: nat, wideAfter: bool)
    requires |line| >= 21 && (if wideAfter then p == |line| - 7 else p == 0)
    requires forall x :: p <= x < p + 7 ==> line[x] == (x != p + 1 && x != p + 5)
    requires if wideAfter then !line[p - 1] else !line[p + 7]
    ensures Reads(ZeroBits(|line|) + line + ZeroBits(|line|), Finder(|line| + p, 1, wideAfter))
  {
    var n := |line|;
    var s := ZeroBits(n) + line + ZeroBits(n);
    assert forall x :: n <= x < 2 * n ==> s[x] == line[x - n];
    assert forall x :: 0 <= x < n || 2 * n <= x < 3 * n ==> !s[x];
  }

  /** Three rows and three columns of every finder pattern read dark and light 1:1:3:1:1 between white borders. */
  lemma FinderLines(g: Grid, size: nat, o: Pos, k: nat)
    requires size >= 21 && Square(g, size) && IsCorner(size, o) && FinderAt(g, size, o) && 2 <= k <= 4
    ensures Reads(ZeroBits(size) + Penalty.Row(g, size, o.y + k) + ZeroBits(size), Finder(size + o.x, 1, o.x > 0))
    ensures Reads(ZeroBits(size) + Penalty.Column(g, size, o.x + k) + ZeroBits(size), Finder(size + o.y, 1, o.y > 0))
  {
    hide Reads, At;
    FinderRow(g, size, o, k);
    FinderColumn(g, size, o, k);
    CrossReads(Penalty.Row(g, size, o.y + k), o.x, o.x > 0);
    CrossReads(Penalty.Column(g, size, o.x + k), o.y, o.y > 0);
  }

  lemma FinderRow(g: Grid, size: nat, o: Pos, k: nat)
    requires size >= 21 && Square(g, size) && IsCorner(size, o) && FinderAt(g, size, o) && 2 <= k <= 4
    ensures var row := Penalty.Row(g, size, o.y + k);
            && (forall x :: o.x <= x < o.x + 7 ==> row[x] == (x != o.x + 1 && x != o.x + 5))
            && (if o.x > 0 then !row[o.x - 1] else !row[o.x + 7])
  {
    hide At;
    var row := Penalty.Row(g, size, o.y + k);
    forall x | o.x - 1 <= x <= o.x + 7 && 0 <= x < size
      ensures row[x] == (0 <= x - o.x <= 6 && FrameIsBlack(x - o.x, k))
    {
      assert Inside(size, Pos(x, o.y + k));
    }
  }

  lemma FinderColumn(g: Grid, size: nat, o: Pos, k: nat)
    requires size >= 21 && Square(g, size) && IsCorner(size, o) && FinderAt(g, size, o) && 2 <= k <= 4
    ensures var column := Penalty.Column(g, size, o.x + k);
            && (forall y :: o.y <= y < o.y + 7 ==> column[y] == (y != o.y + 1 && y != o.y + 5))
            && (if o.y > 0 then !column[o.y - 1] else !column[o.y + 7])
  {
    hide At;
    var column := Penalty.Column(g, size, o.x + k);
    forall y | o.y - 1 <= y <= o.y + 7 && 0 <= y < size
      ensures column[y] == (0 <= y - o.y <= 6 && FrameIsBlack(k, y - o.y))
    {
      assert Inside(size, Pos(o.x + k, y));
    }
  }

  // ----- Alignment patterns -----

  /** The color that the patches give a module is the color of one of them. */
  lemma {:induction false} LastAtSource(ps: seq<Patch>, size: int, t: Pos) returns (k: nat)
    requires LastAt(ps, size, t).Some?
    ensures k < |ps| && Covers(ps[k], size, t) && LastAt(ps, size, t) == Some(Color(ps[k], size, t))
    decreases |ps|
  {
    hide Covers, Color;
    k := |ps| - 1;
    if !Covers(ps[k], size, t) {
      k := LastAtSource(ps[..k], size, t);
    }
  }

  lemma {:induction false} ColumnElement(ps: seq<int>, i: nat, n: nat, k: nat) returns (j: nat)
    requires i < |ps| && n <= |ps| && k < |AlignmentColumn(ps, i, n)|
    ensures j < n && !OnFinder(i, j, |ps|) && AlignmentColumn(ps, i, n)[k] == AlignmentPatch(ps[i], ps[j])
    decreases n
  {
    hide OnFinder;
    if k < |AlignmentColumn(ps, i, n - 1)| {
      j := ColumnElement(ps, i, n - 1, k);
    } else {
      j := n - 1;
    }
  }

  lemma {:induction false} AlignmentElement(ps: seq<int>, n: nat, k: nat) returns (i: nat, j: nat)
    requires n <= |ps| && k < |AlignmentPatches(ps, n)|
    ensures i < n && j < |ps| && !OnFinder(i, j, |ps|) && AlignmentPatches(ps, n)[k] == AlignmentPatch(ps[i], ps[j])
    decreases n
  {
    hide OnFinder, AlignmentColumn;
    var before := |AlignmentPatches(ps, n - 1)|;
    if k < before {
      i, j := AlignmentElement(ps, n - 1, k);
    } else {
      i := n - 1;
      j := ColumnElement(ps, i, |ps|, k - before);
    }
  }

  /** A dark center, eight light modules around it and sixteen dark ones around these, by the distance to the center. */
  predicate SquareIsBlack(dx: int, dy: int) {
    (dx == 0 && dy == 0) || dx == -2 || dx == 2 || dy == -2 || dy == 2
  }

  /** Near a crossing without a finder pattern, the alignment pattern of this crossing is drawn. */
  lemma AlignmentTop(ver: Version, i: nat, j: nat, t: Pos)
    requires var ps := AlignPositions(ver);
             i < |ps| && j < |ps| && !OnFinder(i, j, |ps|) && Near(ps[i], t.x) && Near(ps[j], t.y)
    ensures var ps := AlignPositions(ver);
            LastAt(AlignmentPatches(ps, |ps|), Size(ver), t) == Some(SquareIsBlack(t.x - ps[i], t.y - ps[j]))
  {
    hide LastAt, AlignmentPatches, AlignPositions, OnFinder, Covers, Color, SquareIsBlack;
    var ps, size := AlignPositions(ver), Size(ver);
    AlignmentPatchesCover(ps, |ps|, size, t);
    assert CoveredByColumn(ps, i, |ps|, t);
    var k := LastAtSource(AlignmentPatches(ps, |ps|), size, t);
    var i', j' := AlignmentElement(ps, |ps|, k);
    SquareColors(ps[i'], ps[j'], size, t);
    AlignPositionsAscend(ver);
    NearOnce(ps, i, i', t.x);
    NearOnce(ps, j, j', t.y);
  }

  lemma SquareColors(cx: int, cy: int, size: int, t: Pos)
    requires Covers(AlignmentPatch(cx, cy), size, t)
    ensures Near(cx, t.x) && Near(cy, t.y)
    ensures Color(AlignmentPatch(cx, cy), size, t) == SquareIsBlack(t.x - cx, t.y - cy)
  {
  }

  lemma NearOnce(ps: seq<int>, i: nat, k: nat, x: int)
    requires forall i, k :: 0 <= i < k < |ps| ==> ps[i] + 12 * (k - i) <= ps[k]
    requires i < |ps| && k < |ps| && Near(ps[i], x) && Near(ps[k], x)
    ensures i == k
  {
  }

  lemma AlignmentMarked(ver: Version, i: nat, j: nat, t: Pos)
    requires var ps := AlignPositions(ver);
             i < |ps| && j < |ps| && !OnFinder(i, j, |ps|) && Near(ps[i], t.x) && Near(ps[j], t.y)
    ensures Inside(Size(ver), t) && InAlignment(ver, t.x, t.y)
    ensures FormatBitAt(Size(ver), t).None? && (ver >= 7 ==> VersionBitAt(Size(ver), t).None?)
  {
    hide LastAt, AlignmentPatches, AlignPositions, OnFinder, InAlignment;
    var ps, size := AlignPositions(ver), Size(ver);
    AlignPositionsAscend(ver);
    AlignmentCoverage(ver, t);
    assert CoveredByColumn(ps, i, |ps|, t);
    AlignmentTop(ver, i, j, t);
    if InCorners(size, t.x, t.y) || InVersionInfo(ver, t.x, t.y) {
      AlignmentElsewhere(ver, t);
    }
  }

  /** A finished symbol has an alignment pattern at every crossing of alignment positions but the three with finder patterns. */
  lemma AlignmentSquares(ver: Version, ecl: Ecc, data: seq<byte>, msk: nat, i: nat, j: nat, t: Pos)
    requires |data| == NumDataCodewords(ver, ecl) && msk < 8
    requires var ps := AlignPositions(ver);
             i < |ps| && j < |ps| && !OnFinder(i, j, |ps|) && Near(ps[i], t.x) && Near(ps[j], t.y)
    ensures Inside(Size(ver), t)
    ensures At(SymbolGrid(ver, ecl, data, msk), Size(ver), t)
         == SquareIsBlack(t.x - AlignPositions(ver)[i], t.y - AlignPositions(ver)[j])
  {
    hide NumDataCodewords, SymbolGrid, At, LastAt, AlignmentPatches, AlignPositions, OnFinder, InAlignment, FormatWord, VersionWord,
         Patches, FormatBitAt, VersionBitAt, GetBit;
    AlignmentMarked(ver, i, j, t);
    AlignmentTop(ver, i, j, t);
    TopPattern(ver, FormatWord(ecl, 0), VersionWord(ver), t);
    FunctionColor(ver, ecl, data, msk, t);
  }

  // ----- Timing patterns -----

  /** Alignment positions are even. */
  lemma AlignEven(ver: Version, k: nat)
    requires k < |AlignPositions(ver)|
    ensures AlignPositions(ver)[k] % 2 == 0
  {
    hide AlignStep, NumAlign;
    if k > 0 {
      StepEven(ver);
      var half := AlignStep(ver) / 2;
      var m := NumAlign(ver) - 1 - k;
      assert m * AlignStep(ver) == 2 * (m * half);
    }
  }

  lemma StepEven(ver: Version)
    ensures AlignStep(ver) == 2 * (AlignStep(ver) / 2)
  {
  }

  /** The color of the timing row, where an alignment pattern covers it or not. */
  lemma TimingTop(ver: Version, ecl: Ecc, t: Pos)
    requires var size := Size(ver); (t.y == 6 && 8 <= t.x < size - 8) || (t.x == 6 && 8 <= t.y < size - 8)
    ensures Inside(Size(ver), t) && IsFunctionModule(ver, t.x, t.y) && FormatBitAt(Size(ver), t).None?
    ensures PatternColor(ver, ecl, t) == ((t.x + t.y) % 2 == 0)
  {
    hide LastAt, AlignmentPatches, AlignPositions, InAlignment, FormatWord, VersionWord, Patches, GetBit, OnFinder, CoveredByColumn;
    var ps, size := AlignPositions(ver), Size(ver);
    TopPattern(ver, FormatWord(ecl, 0), VersionWord(ver), t);
    TopOfFixed(size, t);
    FinderClear(size, t);
    AlignmentPatchesCover(ps, |ps|, size, t);
    if LastAt(AlignmentPatches(ps, |ps|), size, t).Some? {
      TimingUnderAlignment(ver, t);
    }
  }

  lemma TimingUnderAlignment(ver: Version, t: Pos)
    requires t.x == 6 || t.y == 6
    requires var ps := AlignPositions(ver); LastAt(AlignmentPatches(ps, |ps|), Size(ver), t).Some?
    ensures var ps := AlignPositions(ver);
            LastAt(AlignmentPatches(ps, |ps|), Size(ver), t) == Some((t.x + t.y) % 2 == 0)
  {
    hide LastAt, AlignmentPatches, AlignPositions, OnFinder, Covers, Color, SquareIsBlack;
    var ps, size := AlignPositions(ver), Size(ver);
    var k := LastAtSource(AlignmentPatches(ps, |ps|), size, t);
    var i, j := AlignmentElement(ps, |ps|, k);
    SquareColors(ps[i], ps[j], size, t);
    AlignEven(ver, i);
    AlignEven(ver, j);
    NearSix(ver, i, t.x);
    NearSix(ver, j, t.y);
    EvenSquare(t.x - ps[i], t.y - ps[j]);
    SameParity(t.x, t.y, ps[i], ps[j]);
  }

  lemma SameParity(x: int, y: int, cx: int, cy: int)
    requires cx % 2 == 0 && cy % 2 == 0
    ensures ((x - cx) + (y - cy)) % 2 == (x + y) % 2
  {
    var a, b := cx / 2, cy / 2;
    assert x + y == (x - cx) + (y - cy) + 2 * (a + b);
  }

  lemma NearSix(ver: Version, k: nat, x: int)
    requires k < |AlignPositions(ver)| && Near(AlignPositions(ver)[k], x)
    ensures x == 6 ==> AlignPositions(ver)[k] == 6
  {
    hide AlignPos;
    AlignPositionsAscend(ver);
  }

  /** Through the center, the colors of the square alternate. */
  lemma EvenSquare(dx: int, dy: int)
    requires -2 <= dx <= 2 && -2 <= dy <= 2 && (dx == 0 || dy == 0)
    ensures SquareIsBlack(dx, dy) == ((dx + dy) % 2 == 0)
  {
  }

  /** Between the finder patterns, row 6 and column 6 of a finished symbol alternate, dark at even places. */
  lemma TimingLines(ver: Version, ecl: Ecc, data: seq<byte>, msk: nat, k: int)
    requires |data| == NumDataCodewords(ver, ecl) && msk < 8 && 8 <= k < Size(ver) - 8
    ensures At(SymbolGrid(ver, ecl, data, msk), Size(ver), Pos(k, 6)) == (k % 2 == 0)
    ensures At(SymbolGrid(ver, ecl, data, msk), Size(ver), Pos(6, k)) == (k % 2 == 0)
  {
    hide NumDataCodewords, SymbolGrid, At, PatternColor, IsFunctionModule, FormatBitAt;
    TimingTop(ver, ecl, Pos(k, 6));
    TimingTop(ver, ecl, Pos(6, k));
    FunctionColor(ver, ecl, data, msk, Pos(k, 6));
    FunctionColor(ver, ecl, data, msk, Pos(6, k));
  }

  // ----- Format bits -----

  /** Where the second copy has format bit i: below the top right finder pattern and beside the bottom left one. */
  function SecondFormatPos(size: int, i: int): Pos {
    if i < 8 then Pos(size - 1 - i, 8) else Pos(8, size - 15 + i)
  }

  /** The positions of the second copy, highest bit first. */
  function SecondFormatPositions(size: int): (d: seq<Pos>)
    ensures |d| == 15 && forall k :: 0 <= k < 15 ==> d[k] == SecondFormatPos(size, 14 - k)
  {
    seq(15, k => SecondFormatPos(size, 14 - k))
  }

  lemma SecondFormatPlaces(size: int, i: nat)
    requires size >= 21 && i < 15
    ensures var t := SecondFormatPos(size, i); Inside(size, t) && FormatBitAt(size, t) == Some(i)
  {
  }

  /** The format patch decides the modules that it covers. */
  lemma FormatColor(ver: Version, ecl: Ecc, data: seq<byte>, msk: nat, t: Pos)
    requires |data| == NumDataCodewords(ver, ecl) && msk < 8 && Inside(Size(ver), t) && FormatBitAt(Size(ver), t).Some?
    ensures var i := FormatBitAt(Size(ver), t).value;
            At(SymbolGrid(ver, ecl, data, msk), Size(ver), t) == (i == 15 || GetBit(FormatWord(ecl, msk), i))
  {
    hide UnmaskedGrid, MarkGrid, At, GetBit, FormatWord, LaidGrid, Masked, NumDataCodewords, FormatBitAt;
  }

  lemma SecondPositionsInside(size: int)
    requires size >= 21
    ensures forall t :: t in SecondFormatPositions(size) ==> Inside(size, t)
  {
    hide SecondFormatPositions, SecondFormatPos, FormatBitAt;
    var d := SecondFormatPositions(size);
    forall k | 0 <= k < 15
      ensures Inside(size, d[k])
    {
      SecondFormatPlaces(size, 14 - k);
    }
  }

  /** Both copies of the format bits are the format word, and the module beside the second one is dark. */
  lemma FormatCopies(ver: Version, ecl: Ecc, data: seq<byte>, msk: nat)
    requires |data| == NumDataCodewords(ver, ecl) && msk < 8
    ensures forall t :: t in SecondFormatPositions(Size(ver)) ==> Inside(Size(ver), t)
    ensures var g, size := SymbolGrid(ver, ecl, data, msk), Size(ver);
            && ReadFormatBits(g, size) == BitsOf(FormatWord(ecl, msk), 15)
            && ReadModules(g, size, SecondFormatPositions(size)) == BitsOf(FormatWord(ecl, msk), 15)
            && At(g, size, Pos(8, size - 8))
  {
    hide SymbolGrid, At, GetBit, FormatWord, NumDataCodewords, FormatBitAt, BitsOf, SecondFormatPositions, SecondFormatPos,
         ReadFormatBits;
    var g, size, word := SymbolGrid(ver, ecl, data, msk), Size(ver), FormatWord(ecl, msk);
    SymbolFormat(ver, ecl, data, msk);
    SecondPositionsInside(size);
    forall k: nat | k < 15
      ensures ReadModules(g, size, SecondFormatPositions(size))[k] == BitsOf(word, 15)[k]
    {
      SecondFormatPlaces(size, 14 - k);
      FormatColor(ver, ecl, data, msk, SecondFormatPos(size, 14 - k));
      GetBitOfBits(word, 15, k);
    }
    DarkModule(size);
    FormatColor(ver, ecl, data, msk, Pos(8, size - 8));
  }

  lemma DarkModule(size: int)
    requires size >= 21
    ensures FormatBitAt(size, Pos(8, size - 8)) == Some(15)
  {
  }

  // ----- Version bits -----

  /** Where the two copies have version bit i: in three columns beside the top right finder pattern, and mirrored. */
  function VersionPos(size: int, mirrored: bool, i: int): Pos {
    if mirrored then Pos(i / 3, size - 11 + i % 3) else Pos(size - 11 + i % 3, i / 3)
  }

  function VersionPositions(size: int, mirrored: bool): (d: seq<Pos>)
    ensures |d| == 18 && forall k :: 0 <= k < 18 ==> d[k] == VersionPos(size, mirrored, 17 - k)
  {
    seq(18, k => VersionPos(size, mirrored, 17 - k))
  }

  lemma VersionModule(ver: Version, ecl: Ecc, mirrored: bool, i: nat)
    requires ver >= 7 && i < 18
    ensures var t := VersionPos(Size(ver), mirrored, i);
            && Inside(Size(ver), t) && IsFunctionModule(ver, t.x, t.y) && FormatBitAt(Size(ver), t).None?
            && PatternColor(ver, ecl, t) == GetBit(VersionWord(ver), i)
  {
    hide LastAt, AlignmentPatches, AlignPositions, InAlignment, FormatWord, VersionWord, Patches, GetBit, VersionBitAt;
    var t, size := VersionPos(Size(ver), mirrored, i), Size(ver);
    VersionBitPlaces(size, t, i);
    VersionPlace(ver, mirrored, i);
    TopPattern(ver, FormatWord(ecl, 0), VersionWord(ver), t);
  }

  lemma VersionPlace(ver: Version, mirrored: bool, i: nat)
    requires ver >= 7 && i < 18
    ensures var t := VersionPos(Size(ver), mirrored, i);
            Inside(Size(ver), t) && InVersionInfo(ver, t.x, t.y) && FormatBitAt(Size(ver), t).None?
  {
  }

  /** From version 7 on, both copies of the version bits are the version word, whose upper six bits are the version. */
  lemma VersionCopies(ver: Version, ecl: Ecc, data: seq<byte>, msk: nat, mirrored: bool)
    requires |data| == NumDataCodewords(ver, ecl) && msk < 8 && ver >= 7
    ensures forall t :: t in VersionPositions(Size(ver), mirrored) ==> Inside(Size(ver), t)
    ensures var bits := ReadModules(SymbolGrid(ver, ecl, data, msk), Size(ver), VersionPositions(Size(ver), mirrored));
            bits == BitsOf(VersionWord(ver), 18) && ValueOf(bits) / 4096 == ver
  {
    hide SymbolGrid, At, GetBit, VersionWord, NumDataCodewords, FormatBitAt, BitsOf, VersionPositions, VersionPos, PatternColor,
         IsFunctionModule, ValueOf;
    var g, size, word, d := SymbolGrid(ver, ecl, data, msk), Size(ver), VersionWord(ver), VersionPositions(Size(ver), mirrored);
    forall k | 0 <= k < 18
      ensures Inside(size, d[k])
    {
      VersionModule(ver, ecl, mirrored, 17 - k);
    }
    var bits := ReadModules(g, size, d);
    forall k: nat | k < 18
      ensures bits[k] == BitsOf(word, 18)[k]
    {
      VersionModule(ver, ecl, mirrored, 17 - k);
      FunctionColor(ver, ecl, data, msk, d[k]);
      GetBitOfBits(word, 18, k);
    }
    VersionWordRange(ver);
    ValueOfBitsOf(word, 18);
  }

  lemma VersionWordRange(ver: Version)
    ensures VersionWord(ver) < Pow2(18) && VersionWord(ver) / 4096 == ver
  {
    hide CodeWord, Pow2;
    CodesValid();
    CodeWordMultiple(ver, VERSION_CODE);
    PowerOf18();
  }

  lemma PowerOf18()
    ensures Pow2(18) == 262144
  {
    hide Pow2;
    CodesValid();
    PowerSteps(15);
  }

  lemma PowerSteps(n: nat)
    ensures Pow2(n + 3) == 8 * Pow2(n)
  {
    assert Pow2(n + 3) == 2 * Pow2(n + 2) == 4 * Pow2(n + 1);
  }
}
