/** Damaged symbols, and why no more than one symbol can explain a lightly damaged one. */
module SymbolDamage {
  import opened BinaryPoly
  import opened Bits
  import opened BitStream
  import opened Encoder
  import opened FormatDistance
  import opened FormatInfo
  import opened Geometry
  import opened Grid
  import opened Hamming
  import opened Interleave
  import opened Masks
  import opened Segment
  import opened SymbolReader
  import opened Tables
  import opened Zigzag

  /**
   * At most three of the fifteen format bits are wrong, and in every block at most half as many
   * codewords as it has check bytes.
   */
  ghost predicate LightlyDamagedSymbol(g: Grid, segs: seq<QrSegment>, ver: Version, ecl: Ecc, msk: nat)
    requires Square(g, Size(ver)) && msk < 8 && Storable(segs, ver, ecl)
  {
    SymbolLayoutTotals(ver, ecl);
    var data := DataCodewords(segs, ver, NumDataCodewords(ver, ecl));
    && Distance(BitsOf(FormatWord(ecl, msk), 15), ReadFormatBits(g, Size(ver))) <= 3
    && LightlyDamaged(SymbolCodewords(ver, ecl, data), ReadCodewords(g, ver, msk), SymbolLayout(ver, ecl))
  }

  lemma SameVersion(g: Grid, ver: Version, ver': Version)
    requires Square(g, Size(ver)) && Square(g, Size(ver'))
    ensures ver == ver'
  {
  }

  /** A lightly damaged grid comes from one version, level, mask and list of segments only. */
  lemma DamagedSymbolUnambiguous(g: Grid, segs: seq<QrSegment>, ver: Version, ecl: Ecc, msk: nat,
                                 segs': seq<QrSegment>, ver': Version, ecl': Ecc, msk': nat)
    requires Square(g, Size(ver)) && msk < 8 && Storable(segs, ver, ecl)
    requires Square(g, Size(ver')) && msk' < 8 && Storable(segs', ver', ecl')
    requires LightlyDamagedSymbol(g, segs, ver, ecl, msk)
    requires LightlyDamagedSymbol(g, segs', ver', ecl', msk')
    ensures Symbol(ver', ecl', msk', segs') == Symbol(ver, ecl, msk, segs)
  {
    hide NumDataCodewords, RawCodewords, DataCodewords, SymbolLayout, AllCodewords, LightlyDamaged, ReadCodewords, ReadFormatBits,
         FormatWord, BitsOf, Distance, Layout.DataFrom, Layout.RowStart, Layout.BlockLen, CountsFit, TotalBits, Agrees, Parse, Unpack;
    SameVersion(g, ver, ver');
    FormatCorrection(ReadFormatBits(g, Size(ver)), ecl, msk, ecl', msk');
    var n := NumDataCodewords(ver, ecl);
    SymbolLayoutTotals(ver, ecl);
    DamageTolerated(DataCodewords(segs, ver, n), DataCodewords(segs', ver, n), ReadCodewords(g, ver, msk), SymbolLayout(ver, ecl));
    DataCodewordsParse(segs, ver, n);
    DataCodewordsParse(segs', ver, n);
  }

  // ----- Wrong modules -----

  /** The modules in which two grids differ. */
  ghost function Wrong(g: Grid, h: Grid, size: nat): (w: set<Pos>)
    requires Square(g, size) && Square(h, size)
    ensures forall t: Pos :: t in w <==> Inside(size, t) && At(g, size, t) != At(h, size, t)
  {
    set t: Pos | t in Product(Interval(0, size), Interval(0, size)) && At(g, size, t) != At(h, size, t)
  }

  /** Along distinct positions there are no more differences than wrong modules. */
  lemma WrongAlong(g: Grid, h: Grid, size: nat, d: seq<Pos>)
    requires Square(g, size) && Square(h, size) && Distinct(d) && forall t :: t in d ==> Inside(size, t)
    ensures Distance(ReadModules(g, size, d), ReadModules(h, size, d)) <= |Wrong(g, h, size)|
  {
    hide At, Distance, Distinct, ReadModules, Wrong, Square;
    var w := WrongPositions(g, h, size, d);
    SubsetSize(w, Wrong(g, h, size));
  }

  lemma {:induction false} WrongPositions(g: Grid, h: Grid, size: nat, d: seq<Pos>) returns (w: set<Pos>)
    requires Square(g, size) && Square(h, size) && Distinct(d) && forall t :: t in d ==> Inside(size, t)
    ensures |w| == Distance(ReadModules(g, size, d), ReadModules(h, size, d))
    ensures forall t :: t in w ==> t in d && At(g, size, t) != At(h, size, t)
    decreases |d|
  {
    hide At, Square;
    w := {};
    if |d| > 0 {
      var n := |d| - 1;
      w := WrongPositions(g, h, size, d[..n]);
      assert ReadModules(g, size, d)[..n] == ReadModules(g, size, d[..n]);
      assert ReadModules(h, size, d)[..n] == ReadModules(h, size, d[..n]);
      if At(g, size, d[n]) != At(h, size, d[n]) {
        assert d[n] !in d[..n];
        w := w + {d[n]};
      }
    }
  }

  lemma MaskedWrong(g: Grid, h: Grid, isFunction: Grid, size: nat, msk: int)
    requires Square(g, size) && Square(h, size) && Square(isFunction, size) && 0 <= msk < 8
    ensures Wrong(Masked(g, isFunction, size, msk), Masked(h, isFunction, size, msk), size) == Wrong(g, h, size)
  {
    hide At, Square, Inverts;
  }

  // ----- Wrong codewords -----

  /** A wrong byte has a wrong bit. */
  lemma {:induction false} UnpackDistance(a: seq<byte>, b: seq<byte>)
    requires |a| == |b|
    ensures Distance(a, b) <= Distance(Unpack(a), Unpack(b))
  {
    hide BitsOf, Distance;
    if |a| == 0 {
      assert a == b;
      DistanceSelf(a);
    } else {
      UnpackDistance(a[1..], b[1..]);
      DistanceJoin([a[0]], a[1..], [b[0]], b[1..]);
      assert a == [a[0]] + a[1..] && b == [b[0]] + b[1..];
      DistanceJoin(BitsOf(a[0], 8), Unpack(a[1..]), BitsOf(b[0], 8), Unpack(b[1..]));
      ByteDistance(a[0], b[0]);
    }
  }

  lemma ByteDistance(x: byte, y: byte)
    ensures Distance([x], [y]) <= Distance(BitsOf(x, 8), BitsOf(y, 8))
  {
    hide BitsOf, Pow2, ValueOf;
    assert [x][..0] == [y][..0] == [];
    if Distance(BitsOf(x, 8), BitsOf(y, 8)) == 0 {
      DistanceZero(BitsOf(x, 8), BitsOf(y, 8));
      Pow2Of8();
      ValueOfBitsOf(x, 8);
      ValueOfBitsOf(y, 8);
    }
  }

  /** There are no more wrong codewords than wrong modules. */
  lemma WrongCodewords(g: Grid, h: Grid, ver: Version, msk: nat)
    requires Square(g, Size(ver)) && Square(h, Size(ver)) && msk < 8
    ensures Distance(ReadCodewords(g, ver, msk), ReadCodewords(h, ver, msk)) <= |Wrong(g, h, Size(ver))|
  {
    hide MarkGrid, Masked, At, Square, DataPositions, RawCodewords, Pack, Unpack, Distance, Distinct, Wrong, ReadModules;
    var size, marks, n := Size(ver), MarkGrid(ver), RawCodewords(ver);
    var d := DataPositions(marks, ver);
    MarksSquare(marks, ver);
    CodewordsFit(ver);
    RawDataModulesRange(ver);
    NonNegative(ver);
    var g', h' := Masked(g, marks, size, msk), Masked(h, marks, size, msk);
    var a, b := ReadModules(g', size, d), ReadModules(h', size, d);
    UnpackDistance(ReadCodewords(g, ver, msk), ReadCodewords(h, ver, msk));
    UnpackPack(a[..8 * n], n);
    UnpackPack(b[..8 * n], n);
    DistanceOfPart(a, b, 0, 8 * n);
    assert a[0..8 * n] == a[..8 * n] && b[0..8 * n] == b[..8 * n];
    WrongAlong(g', h', size, d);
    MaskedWrong(g, h, marks, size, msk);
  }

  lemma NonNegative(ver: Version)
    ensures RawCodewords(ver) >= 0
  {
    hide NumRawDataModules;
    RawDataModulesRange(ver);
  }

  /** A block has no more wrong bytes than the whole sequence. */
  lemma WrongInBlock(a: seq<byte>, b: seq<byte>, l: Layout, j: nat)
    requires l.Valid() && j < l.blocks && |a| == |b| == l.RowStart(l.BlockLen())
    ensures Distance(ReadBlock(a, l, j), ReadBlock(b, l, j)) <= Distance(a, b)
  {
    hide Distance, Layout.RowStart, ReadAt;
    var m := l.BlockLen();
    var c, d := ReadPadded(a, l, j), ReadPadded(b, l, j);
    DistanceWithout(c, d, l.DataLen(j), l.shortData + 1);
    WrongInRows(a, b, l, j, m);
    assert c[..m] == c && d[..m] == d && a[..l.RowStart(m)] == a && b[..l.RowStart(m)] == b;
  }

  lemma {:induction false} WrongInRows(a: seq<byte>, b: seq<byte>, l: Layout, j: nat, i: nat)
    requires l.Valid() && j < l.blocks && |a| == |b| == l.RowStart(l.BlockLen()) && i <= l.BlockLen()
    ensures l.RowStart(i) <= |a|
    ensures Distance(ReadPadded(a, l, j)[..i], ReadPadded(b, l, j)[..i]) <= Distance(a[..l.RowStart(i)], b[..l.RowStart(i)])
  {
    hide Distance, Layout.RowStart, ReadAt;
    RowStartMonotone(l, i, l.BlockLen());
    var c, d := ReadPadded(a, l, j), ReadPadded(b, l, j);
    if i == 0 {
      DistanceSelf(c[..0]);
      assert c[..0] == d[..0];
    } else {
      var k := i - 1;
      WrongInRows(a, b, l, j, k);
      DistanceOfPart(c, d, k, i);
      RowStartNext(l, k);
      DistanceOfPart(a, b, l.RowStart(k), l.RowStart(i));
      WrongInRow(a, b, l, j, k);
      assert c[k..i] == [ReadAt(a, l, k, j)] && d[k..i] == [ReadAt(b, l, k, j)];
    }
  }

  lemma RowStartNext(l: Layout, k: nat)
    requires l.short <= l.blocks
    ensures l.RowStart(k + 1) == l.RowStart(k) + l.blocks - l.RowFirst(k)
  {
  }

  lemma WrongInRow(a: seq<byte>, b: seq<byte>, l: Layout, j: nat, k: nat)
    requires l.Valid() && j < l.blocks && |a| == |b| == l.RowStart(l.BlockLen()) && k < l.BlockLen()
    requires l.RowStart(k) <= l.RowStart(k + 1) <= |a|
    ensures Distance([ReadAt(a, l, k, j)], [ReadAt(b, l, k, j)])
         <= Distance(a[l.RowStart(k)..l.RowStart(k + 1)], b[l.RowStart(k)..l.RowStart(k + 1)])
  {
    hide Distance, Layout.RowStart;
    RowStartNext(l, k);
    var r, s := l.RowStart(k), l.RowStart(k + 1);
    OneByte(ReadAt(a, l, k, j), ReadAt(b, l, k, j));
    if j >= l.RowFirst(k) {
      var p := j - l.RowFirst(k);
      WrongAt(a[r..s], b[r..s], p);
      assert a[r..s][p] == a[r + p] && b[r..s][p] == b[r + p];
    }
  }

  lemma OneByte(x: byte, y: byte)
    ensures Distance([x], [y]) == if x == y then 0 else 1
  {
    assert [x][..0] == [y][..0] == [];
  }

  lemma WrongAt(a: seq<byte>, b: seq<byte>, p: nat)
    requires |a| == |b| && p < |a|
    ensures a[p] != b[p] ==> Distance(a, b) >= 1
  {
    hide Distance;
    if Distance(a, b) == 0 {
      DistanceZero(a, b);
    }
  }

  /** Up to three wrong modules, anywhere in a finished symbol, are light damage. */
  lemma FewWrongModules(g: Grid, segs: seq<QrSegment>, ver: Version, ecl: Ecc, msk: nat)
    requires Square(g, Size(ver)) && msk < 8 && Storable(segs, ver, ecl)
    requires |Wrong(Finished(segs, ver, ecl, msk), g, Size(ver))| <= 3
    ensures LightlyDamagedSymbol(g, segs, ver, ecl, msk)
  {
    hide NumDataCodewords, RawCodewords, DataCodewords, SymbolLayout, AllCodewords, ReadBlock, ReadCodewords, ReadFormatBits,
         FormatWord, BitsOf, Distance, Layout.DataFrom, Layout.RowStart, Layout.BlockLen, CountsFit, TotalBits, Agrees, Wrong,
         SymbolGrid, Layout.Valid, Square;
    var size, data := Size(ver), DataCodewords(segs, ver, NumDataCodewords(ver, ecl));
    var f := Finished(segs, ver, ecl, msk);
    SymbolFormat(ver, ecl, data, msk);
    WrongFormat(f, g, size);
    SymbolCodewordsRead(ver, ecl, data, msk);
    WrongCodewords(f, g, ver, msk);
    var l, raw, received := SymbolLayout(ver, ecl), SymbolCodewords(ver, ecl, data), ReadCodewords(g, ver, msk);
    SymbolLayoutTotals(ver, ecl);
    SymbolLayoutChecks(ver, ecl);
    forall j | 0 <= j < l.blocks
      ensures 2 * Distance(ReadBlock(raw, l, j), ReadBlock(received, l, j)) <= l.ecc
    {
      WrongInBlock(raw, received, l, j);
    }
  }

  lemma SymbolLayoutChecks(ver: Version, ecl: Ecc)
    ensures SymbolLayout(ver, ecl).ecc >= 7
  {
    hide RawCodewords;
    TablesOk(ver, ecl);
  }

  lemma WrongFormat(g: Grid, h: Grid, size: nat)
    requires Square(g, size) && Square(h, size) && size > 8
    ensures Distance(ReadFormatBits(g, size), ReadFormatBits(h, size)) <= |Wrong(g, h, size)|
  {
    hide Distance, Wrong, Distinct, ReadModules, FormatPositions, At, Square;
    FormatPositionsInside(size);
    FormatPositionsDistinct();
    WrongAlong(g, h, size, FormatPositions());
  }

  lemma FormatPositionsDistinct()
    ensures Distinct(FormatPositions())
  {
    hide FormatPos, FormatPositions;
    var d := FormatPositions();
    forall i, j | 0 <= i < j < |d|
      ensures d[i] != d[j]
    {
      FormatPosFacts(14 - i);
      FormatPosFacts(14 - j);
    }
  }

  /** No grid is within three modules of two different symbols. */
  lemma ThreeWrongModules(g: Grid, segs: seq<QrSegment>, ver: Version, ecl: Ecc, msk: nat,
                          segs': seq<QrSegment>, ver': Version, ecl': Ecc, msk': nat)
    requires Square(g, Size(ver)) && msk < 8 && Storable(segs, ver, ecl)
    requires Square(g, Size(ver')) && msk' < 8 && Storable(segs', ver', ecl')
    requires |Wrong(Finished(segs, ver, ecl, msk), g, Size(ver))| <= 3
    requires |Wrong(Finished(segs', ver', ecl', msk'), g, Size(ver'))| <= 3
    ensures Symbol(ver', ecl', msk', segs') == Symbol(ver, ecl, msk, segs)
  {
    hide Wrong, Finished, LightlyDamagedSymbol, Storable, Square;
    FewWrongModules(g, segs, ver, ecl, msk);
    FewWrongModules(g, segs', ver', ecl', msk');
    DamagedSymbolUnambiguous(g, segs, ver, ecl, msk, segs', ver', ecl', msk');
  }
}
