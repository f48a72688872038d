/** Which modules of a symbol are function modules, and how many are left for data. */
module Geometry {
  import opened Tables
  import RadixCode

  function Size(ver: Version): (s: int)
    ensures s >= 21
  {
    ver * 4 + 17
  }

  // ----- Alignment pattern positions -----

  /** The distance between alignment patterns. */
  function AlignStep(ver: Version): int {
    if ver == 32 then 26 else (ver * 4 + NumAlign(ver) * 2 + 1) / (NumAlign(ver) * 2 - 2) * 2
  }

  /** The k-th alignment position, for 1 <= k < NumAlign(ver); position 0 is 6. */
  function AlignPos(ver: Version, k: int): int {
    Size(ver) - 7 - (NumAlign(ver) - 1 - k) * AlignStep(ver)
  }

  function AlignPositions(ver: Version): (ps: seq<int>)
    ensures |ps| == if ver == 1 then 0 else NumAlign(ver)
    ensures ver > 1 ==> ps[0] == 6 && forall k :: 1 <= k < |ps| ==> ps[k] == AlignPos(ver, k)
  {
    if ver == 1 then [] else seq(NumAlign(ver), k => if k == 0 then 6 else AlignPos(ver, k))
  }

  lemma AlignNumbersSmall(ver: Version)
    requires 2 <= ver <= 6
    ensures NumAlign(ver) == 2 && AlignStep(ver) >= 12 && AlignPos(ver, 1) == Size(ver) - 7 >= 18
  {
  }

  predicate Spaced(ver: Version) {
    AlignStep(ver) >= 16 && AlignPos(ver, 1) >= 22
  }

  lemma SpacedFrom7(ver: Version)
    requires 7 <= ver <= 20
    ensures Spaced(ver)
  {
    if ver <= 13 {
      assert NumAlign(ver) == 3;
    } else {
      assert NumAlign(ver) == 4;
    }
  }

  lemma SpacedFrom21(ver: Version)
    requires 21 <= ver <= 34
    ensures Spaced(ver)
  {
    if ver <= 27 {
      assert NumAlign(ver) == 5;
    } else {
      assert NumAlign(ver) == 6;
    }
  }

  lemma SpacedFrom35(ver: Version)
    requires 35 <= ver <= 40
    ensures Spaced(ver)
  {
    assert NumAlign(ver) == 7;
    assert ver == 35 || ver == 36 || ver == 37 || ver == 38 || ver == 39 || ver == 40;
  }

  /** Neighbouring alignment patterns, and the finder patterns, keep clear of each other. */
  lemma AlignNumbers(ver: Version)
    requires ver >= 2
    ensures NumAlign(ver) >= 2 && AlignStep(ver) >= 12 && AlignPos(ver, 1) >= 18
    ensures AlignPos(ver, NumAlign(ver) - 1) == Size(ver) - 7
    ensures NumAlign(ver) >= 3 ==> ver >= 7 && AlignStep(ver) >= 16 && AlignPos(ver, 1) >= 22
  {
    hide AlignStep, Spaced;
    if ver <= 6 {
      AlignNumbersSmall(ver);
    } else if ver <= 20 {
      SpacedFrom7(ver);
      SpacedMeaning(ver);
    } else if ver <= 34 {
      SpacedFrom21(ver);
      SpacedMeaning(ver);
    } else {
      SpacedFrom35(ver);
      SpacedMeaning(ver);
    }
  }

  lemma SpacedMeaning(ver: Version)
    requires Spaced(ver)
    ensures AlignStep(ver) >= 16 && AlignPos(ver, 1) >= 22
  {
  }

  lemma AlignPosStep(ver: Version, k: int)
    ensures AlignPos(ver, k + 1) == AlignPos(ver, k) + AlignStep(ver)
  {
    hide AlignStep;
  }

  lemma {:induction false} AlignPosOrder(ver: Version, i: int, k: int)
    requires ver >= 2 && i <= k
    ensures AlignPos(ver, i) + 12 * (k - i) <= AlignPos(ver, k)
    decreases k - i
  {
    hide AlignStep, AlignPos;
    AlignNumbers(ver);
    if i < k {
      AlignPosOrder(ver, i, k - 1);
      AlignPosStep(ver, k - 1);
    }
  }

  /** The alignment positions ascend, twelve or more apart, from 6 to seven before the far edge. */
  lemma AlignPositionsAscend(ver: Version)
    ensures var ps := AlignPositions(ver);
            && (forall i, k :: 0 <= i < k < |ps| ==> ps[i] + 12 * (k - i) <= ps[k])
            && (forall k :: 0 <= k < |ps| ==> 6 <= ps[k] <= Size(ver) - 7 < 177)
  {
    hide AlignPositions, AlignPos, AlignStep, NumAlign;
    var ps := AlignPositions(ver);
    if ver > 1 {
      AlignNumbers(ver);
      forall i, k | 0 <= i < k < |ps|
        ensures ps[i] + 12 * (k - i) <= ps[k]
      {
        AlignPosOrder(ver, if i == 0 then 1 else i, k);
      }
      forall k | 0 <= k < |ps|
        ensures 6 <= ps[k] <= Size(ver) - 7
      {
        if k > 0 {
          AlignPosOrder(ver, 1, k);
          AlignPosOrder(ver, k, NumAlign(ver) - 1);
        }
      }
    }
  }

  // ----- Coordinates covered by alignment patterns -----

  /** The second alignment position that table E.1 of ISO/IEC 18004:2015 lists, for versions from 7 up. */
  function SecondPosition(ver: Version): int {
    match ver
      case 7 => 22 case 8 => 24 case 9 => 26 case 10 => 28 case 11 => 30 case 12 => 32 case 13 => 34 case 14 => 26
      case 15 => 26 case 16 => 26 case 17 => 30 case 18 => 30 case 19 => 30 case 20 => 34 case 21 => 28 case 22 => 26
      case 23 => 30 case 24 => 28 case 25 => 32 case 26 => 30 case 27 => 34 case 28 => 26 case 29 => 30 case 30 => 26
      case 31 => 30 case 32 => 34 case 33 => 30 case 34 => 34 case 35 => 30 case 36 => 24 case 37 => 28 case 38 => 32
      case 39 => 26 case _ => 30
  }

  /** The distance between alignment patterns, for n positions. */
  lemma AlignStepIs(ver: Version, n: int, step: int)
    requires ver != 32 && NumAlign(ver) == n >= 2 && step >= 0
    requires var d := n * 2 - 2; d * (step / 2) <= ver * 4 + n * 2 + 1 < d * (step / 2) + d && step % 2 == 0
    ensures AlignStep(ver) == step
  {
    var d, q := n * 2 - 2, step / 2;
    RadixCode.DivModUnique(d, q, ver * 4 + n * 2 + 1 - d * q);
  }

  lemma SecondFrom7(ver: Version)
    requires 7 <= ver <= 13
    ensures AlignPos(ver, 1) == SecondPosition(ver)
  {
    hide AlignStep;
    if ver == 7 {
      AlignStepIs(7, 3, 16);
    } else if ver == 8 {
      AlignStepIs(8, 3, 18);
    } else if ver == 9 {
      AlignStepIs(9, 3, 20);
    } else if ver == 10 {
      AlignStepIs(10, 3, 22);
    } else if ver == 11 {
      AlignStepIs(11, 3, 24);
    } else if ver == 12 {
      AlignStepIs(12, 3, 26);
    } else {
      AlignStepIs(13, 3, 28);
    }
  }

  lemma SecondFrom14(ver: Version)
    requires 14 <= ver <= 20
    ensures AlignPos(ver, 1) == SecondPosition(ver)
  {
    hide AlignStep;
    if ver == 14 {
      AlignStepIs(14, 4, 20);
    } else if ver == 15 {
      AlignStepIs(15, 4, 22);
    } else if ver == 16 {
      AlignStepIs(16, 4, 24);
    } else if ver == 17 {
      AlignStepIs(17, 4, 24);
    } else if ver == 18 {
      AlignStepIs(18, 4, 26);
    } else if ver == 19 {
      AlignStepIs(19, 4, 28);
    } else {
      AlignStepIs(20, 4, 28);
    }
  }

  lemma SecondFrom21(ver: Version)
    requires 21 <= ver <= 27
    ensures AlignPos(ver, 1) == SecondPosition(ver)
  {
    hide AlignStep;
    if ver == 21 {
      AlignStepIs(21, 5, 22);
    } else if ver == 22 {
      AlignStepIs(22, 5, 24);
    } else if ver == 23 {
      AlignStepIs(23, 5, 24);
    } else if ver == 24 {
      AlignStepIs(24, 5, 26);
    } else if ver == 25 {
      AlignStepIs(25, 5, 26);
    } else if ver == 26 {
      AlignStepIs(26, 5, 28);
    } else {
      AlignStepIs(27, 5, 28);
    }
  }

  lemma SecondFrom28(ver: Version)
    requires 28 <= ver <= 34
    ensures AlignPos(ver, 1) == SecondPosition(ver)
  {
    hide AlignStep;
    if ver == 28 {
      AlignStepIs(28, 6, 24);
    } else if ver == 29 {
      AlignStepIs(29, 6, 24);
    } else if ver == 30 {
      AlignStepIs(30, 6, 26);
    } else if ver == 31 {
      AlignStepIs(31, 6, 26);
    } else if ver == 32 {
      SpecialStep();
    } else if ver == 33 {
      AlignStepIs(33, 6, 28);
    } else {
      AlignStepIs(34, 6, 28);
    }
  }

  lemma SecondFrom35(ver: Version)
    requires 35 <= ver <= 40
    ensures AlignPos(ver, 1) == SecondPosition(ver)
  {
    hide AlignStep;
    if ver == 35 {
      AlignStepIs(35, 7, 24);
    } else if ver == 36 {
      AlignStepIs(36, 7, 26);
    } else if ver == 37 {
      AlignStepIs(37, 7, 26);
    } else if ver == 38 {
      AlignStepIs(38, 7, 26);
    } else if ver == 39 {
      AlignStepIs(39, 7, 28);
    } else {
      AlignStepIs(40, 7, 28);
    }
  }

  lemma SpecialStep()
    ensures AlignStep(32) == 26
  {
  }

  /** From version 7 on, the alignment positions after the first are equally spaced between the listed second one and size - 7. */
  lemma AlignPositionsListed(ver: Version, k: nat)
    requires ver >= 7 && 1 <= k < |AlignPositions(ver)|
    ensures var ps := AlignPositions(ver);
            && |ps| == ver / 7 + 2 && ps[0] == 6 && ps[1] == SecondPosition(ver) && ps[|ps| - 1] == Size(ver) - 7
            && (k + 1 < |ps| ==> ps[k + 1] - ps[k] == ps[2] - ps[1])
  {
    hide AlignStep, SecondPosition;
    if ver <= 13 {
      SecondFrom7(ver);
    } else if ver <= 20 {
      SecondFrom14(ver);
    } else if ver <= 27 {
      SecondFrom21(ver);
    } else if ver <= 34 {
      SecondFrom28(ver);
    } else {
      SecondFrom35(ver);
    }
    AlignPosStep(ver, 1);
    AlignPosStep(ver, k);
  }

  ghost function Interval(a: int, b: int): (s: set<int>)
    ensures forall x :: x in s <==> a <= x < b
    decreases b - a
  {
    if b <= a then {} else Interval(a, b - 1) + {b - 1}
  }

  lemma {:induction false} IntervalSize(a: int, b: int)
    requires a <= b
    ensures |Interval(a, b)| == b - a
    decreases b - a
  {
    if a < b {
      IntervalSize(a, b - 1);
      assert b - 1 !in Interval(a, b - 1);
    }
  }

  /** The coordinates within 2 of one of the alignment positions 1 to k. */
  ghost function Bands(ver: Version, k: nat): set<int> {
    if k == 0 then {} else Bands(ver, k - 1) + Interval(AlignPos(ver, k) - 2, AlignPos(ver, k) + 3)
  }

  ghost predicate NearPosition(ver: Version, k: nat, x: int) {
    exists i :: 1 <= i <= k && AlignPos(ver, i) - 2 <= x <= AlignPos(ver, i) + 2
  }

  lemma {:induction false} BandsMembers(ver: Version, k: nat, x: int)
    ensures x in Bands(ver, k) <==> NearPosition(ver, k, x)
  {
    hide AlignPos, Interval;
    if k > 0 {
      BandsMembers(ver, k - 1, x);
    }
  }

  lemma {:induction false} BandsSize(ver: Version, k: nat)
    requires ver >= 2
    ensures |Bands(ver, k)| == 5 * k
    ensures forall x :: x in Bands(ver, k) ==> AlignPos(ver, 1) - 2 <= x <= AlignPos(ver, k) + 2
  {
    hide AlignPos, Interval;
    if k > 0 {
      BandsSize(ver, k - 1);
      var p := AlignPos(ver, k);
      AlignPosOrder(ver, k - 1, k);
      AlignPosOrder(ver, 1, k);
      IntervalSize(p - 2, p + 3);
      assert Bands(ver, k - 1) !! Interval(p - 2, p + 3);
    }
  }

  // ----- The function modules -----

  datatype Pos = Pos(x: int, y: int)

  predicate InCorners(size: int, x: int, y: int) {
    (x <= 8 && y <= 8) || (x >= size - 8 && y <= 8) || (x <= 8 && y >= size - 8)
  }

  predicate InTiming(size: int, x: int, y: int) {
    (y == 6 && 9 <= x < size - 8) || (x == 6 && 9 <= y < size - 8)
  }

  predicate InVersionInfo(ver: Version, x: int, y: int) {
    var size := Size(ver);
    ver >= 7 && ((size - 11 <= x < size - 8 && y < 6) || (x < 6 && size - 11 <= y < size - 8))
  }

  ghost predicate InAlignment(ver: Version, x: int, y: int) {
    ver >= 2 &&
    var n := NumAlign(ver);
    || (NearPosition(ver, n - 1, x) && NearPosition(ver, n - 1, y))
    || (4 <= y <= 8 && NearPosition(ver, n - 2, x))
    || (4 <= x <= 8 && NearPosition(ver, n - 2, y))
  }

  /** The modules that `drawFunctionPatterns` marks. */
  ghost predicate IsFunctionModule(ver: Version, x: int, y: int) {
    InCorners(Size(ver), x, y) || InTiming(Size(ver), x, y) || InVersionInfo(ver, x, y) || InAlignment(ver, x, y)
  }

  // ----- Counting -----

  ghost function Product(xs: set<int>, ys: set<int>): (p: set<Pos>)
    ensures forall t: Pos :: t in p <==> t.x in xs && t.y in ys
  {
    set x, y | x in xs && y in ys :: Pos(x, y)
  }

  lemma Pick<T>(s: set<T>) returns (x: T)
    requires s != {}
    ensures x in s
  {
    x :| x in s;
  }

  lemma SubsetSize<T>(a: set<T>, b: set<T>)
    requires a <= b
    ensures |a| <= |b|
  {
    assert b == a + (b - a);
  }

  lemma {:induction false} ProductSize(xs: set<int>, ys: set<int>)
    ensures |Product(xs, ys)| == |xs| * |ys|
    decreases |xs|
  {
    hide Product;
    if xs == {} {
      assert Product(xs, ys) == {};
    } else {
      var x := Pick(xs);
      var rest := xs - {x};
      ProductSize(rest, ys);
      ColumnSize(x, ys);
      assert Product(xs, ys) == Product(rest, ys) + Product({x}, ys);
      assert Product(rest, ys) !! Product({x}, ys);
      assert |xs| * |ys| == |rest| * |ys| + |ys|;
    }
  }

  lemma {:induction false} ColumnSize(x: int, ys: set<int>)
    ensures |Product({x}, ys)| == |ys|
    decreases |ys|
  {
    hide Product;
    if ys == {} {
      assert Product({x}, ys) == {};
    } else {
      var y := Pick(ys);
      ColumnSize(x, ys - {y});
      assert Product({x}, ys) == Product({x}, ys - {y}) + {Pos(x, y)};
    }
  }

  lemma RectangleSize(a: int, b: int, c: int, d: int)
    requires a <= b && c <= d
    ensures |Product(Interval(a, b), Interval(c, d))| == (b - a) * (d - c)
  {
    hide Interval, Product;
    IntervalSize(a, b);
    IntervalSize(c, d);
    ProductSize(Interval(a, b), Interval(c, d));
  }

  ghost function CornerModules(size: int): set<Pos> {
    Product(Interval(0, 9), Interval(0, 9)) + Product(Interval(size - 8, size), Interval(0, 9))
    + Product(Interval(0, 9), Interval(size - 8, size))
  }

  lemma CornerModulesSize(size: int)
    requires size >= 21
    ensures |CornerModules(size)| == 225
  {
    hide Interval, Product;
    RectangleSize(0, 9, 0, 9);
    RectangleSize(size - 8, size, 0, 9);
    RectangleSize(0, 9, size - 8, size);
    var a := Product(Interval(0, 9), Interval(0, 9));
    var b := Product(Interval(size - 8, size), Interval(0, 9));
    var c := Product(Interval(0, 9), Interval(size - 8, size));
    assert a !! b;
    assert a + b !! c;
  }

  ghost function TimingModules(size: int): set<Pos> {
    Product(Interval(9, size - 8), Interval(6, 7)) + Product(Interval(6, 7), Interval(9, size - 8))
  }

  lemma TimingModulesSize(size: int)
    requires size >= 21
    ensures |TimingModules(size)| == 2 * size - 34
    ensures TimingModules(size) !! CornerModules(size)
  {
    hide Interval, Product;
    RectangleSize(9, size - 8, 6, 7);
    RectangleSize(6, 7, 9, size - 8);
    var d := Product(Interval(9, size - 8), Interval(6, 7));
    var e := Product(Interval(6, 7), Interval(9, size - 8));
    assert d !! e;
  }

  ghost function VersionModules(size: int): set<Pos> {
    Product(Interval(size - 11, size - 8), Interval(0, 6)) + Product(Interval(0, 6), Interval(size - 11, size - 8))
  }

  lemma VersionModulesSize(size: int)
    requires size >= 21
    ensures |VersionModules(size)| == 36
    ensures size >= 45 ==> VersionModules(size) !! CornerModules(size) && VersionModules(size) !! TimingModules(size)
  {
    hide Interval, Product;
    RectangleSize(size - 11, size - 8, 0, 6);
    RectangleSize(0, 6, size - 11, size - 8);
    assert Product(Interval(size - 11, size - 8), Interval(0, 6)) !! Product(Interval(0, 6), Interval(size - 11, size - 8));
  }

  /** The coordinates of alignment patterns at position 6, without the timing pattern itself. */
  ghost const BESIDE_TIMING: set<int> := {4, 5, 7, 8}

  lemma BesideTimingFacts()
    ensures |BESIDE_TIMING| == 4 && forall x :: x in BESIDE_TIMING <==> 4 <= x <= 8 && x != 6
  {
  }

  ghost function AllBands(ver: Version): set<int> {
    Bands(ver, NumAlign(ver) - 1)
  }

  /** The bands between the first and the last. */
  ghost function MidBands(ver: Version): set<int> {
    Bands(ver, NumAlign(ver) - 2)
  }

  ghost function AlignmentModules(ver: Version): set<Pos>
    requires ver >= 2
  {
    var all, mid := AllBands(ver), MidBands(ver);
    Product(all, all) + Product(mid, BESIDE_TIMING) + Product(BESIDE_TIMING, mid)
  }

  lemma CrossSize(all: set<int>, mid: set<int>, low: set<int>, a: nat, m: nat)
    requires |low| == 4 && forall x :: x in low ==> x !in all && x !in mid
    requires |all| == 5 * a && |mid| == 5 * m
    ensures |Product(all, all) + Product(mid, low) + Product(low, mid)| == 25 * (a * a) + 40 * m
  {
    hide Product;
    ProductSize(all, all);
    ProductSize(mid, low);
    ProductSize(low, mid);
    var p, q, r := Product(all, all), Product(mid, low), Product(low, mid);
    assert p !! q;
    assert p + q !! r;
    assert (5 * a) * (5 * a) == 25 * (a * a);
  }

  lemma AlignmentArithmetic(n: int)
    ensures 25 * ((n - 1) * (n - 1)) + 40 * (n - 2) == (25 * n - 10) * n - 55
  {
  }

  lemma AlignmentModulesSize(ver: Version)
    requires ver >= 2
    ensures |AlignmentModules(ver)| == (25 * NumAlign(ver) - 10) * NumAlign(ver) - 55
  {
    hide Interval, Product, Bands, AlignPos, AlignStep, NumAlign, BESIDE_TIMING;
    var n := NumAlign(ver);
    AlignNumbers(ver);
    var all, mid := AllBands(ver), MidBands(ver);
    BandsSize(ver, n - 1);
    BandsSize(ver, n - 2);
    BesideTimingFacts();
    CrossSize(all, mid, BESIDE_TIMING, n - 1, n - 2);
    AlignmentArithmetic(n);
  }

  /** Where the alignment patterns lie: clear of the corners, the timing patterns and the version information. */
  lemma AlignRange(ver: Version)
    requires ver >= 2
    ensures NumAlign(ver) >= 2
    ensures forall x :: x in AllBands(ver) ==> 16 <= x <= Size(ver) - 5
    ensures forall x :: x in MidBands(ver) ==> 20 <= x <= Size(ver) - 21
  {
    hide Bands, AlignPos, AlignStep, NumAlign;
    var n := NumAlign(ver);
    AlignNumbers(ver);
    BandsSize(ver, n - 1);
    BandsSize(ver, n - 2);
    AlignPosStep(ver, n - 2);
    if n == 2 {
      NoBands(ver);
    }
  }

  lemma NoBands(ver: Version)
    ensures Bands(ver, 0) == {}
  {
  }

  ghost function FunctionModules(ver: Version): set<Pos> {
    CornerModules(Size(ver)) + TimingModules(Size(ver))
    + (if ver >= 7 then VersionModules(Size(ver)) else {})
    + (if ver >= 2 then AlignmentModules(ver) else {})
  }

  lemma AlignmentClear(ver: Version)
    requires ver >= 2
    ensures AlignmentModules(ver) !! CornerModules(Size(ver))
    ensures AlignmentModules(ver) !! TimingModules(Size(ver))
    ensures AlignmentModules(ver) !! VersionModules(Size(ver))
  {
    hide Product, AllBands, MidBands, Interval, NumAlign, BESIDE_TIMING;
    AlignRange(ver);
    BesideTimingFacts();
  }

  lemma FunctionModulesArithmetic(v: int, align: int)
    ensures (4 * v + 17) * (4 * v + 17) - (225 + (2 * (4 * v + 17) - 34) + align) == (16 * v + 128) * v + 64 - align
  {
  }

  /** The modules left for data are as many as `getNumRawDataModules` says. */
  lemma FunctionModulesSize(ver: Version)
    ensures Size(ver) * Size(ver) - |FunctionModules(ver)| == NumRawDataModules(ver)
  {
    hide CornerModules, TimingModules, VersionModules, AlignmentModules, NumAlign;
    var size := Size(ver);
    CornerModulesSize(size);
    TimingModulesSize(size);
    VersionModulesSize(size);
    var align := 0;
    if ver >= 2 {
      AlignmentModulesSize(ver);
      AlignmentClear(ver);
      align := (25 * NumAlign(ver) - 10) * NumAlign(ver) - 55;
    }
    FunctionModulesArithmetic(ver, align + if ver >= 7 then 36 else 0);
  }

  ghost predicate Inside(size: int, t: Pos) {
    0 <= t.x < size && 0 <= t.y < size
  }

  lemma AlignmentMembers(ver: Version, t: Pos)
    requires ver >= 2
    ensures t in AlignmentModules(ver) ==> Inside(Size(ver), t) && InAlignment(ver, t.x, t.y)
    ensures Inside(Size(ver), t) && InAlignment(ver, t.x, t.y) ==>
              t in AlignmentModules(ver) || InTiming(Size(ver), t.x, t.y)
  {
    hide Product, Bands, NearPosition, AlignPos, AlignStep, BESIDE_TIMING;
    AlignRange(ver);
    BesideTimingFacts();
    BandsMembers(ver, NumAlign(ver) - 1, t.x);
    BandsMembers(ver, NumAlign(ver) - 1, t.y);
    BandsMembers(ver, NumAlign(ver) - 2, t.x);
    BandsMembers(ver, NumAlign(ver) - 2, t.y);
  }

  lemma FunctionModulesMembers(ver: Version, t: Pos)
    ensures t in FunctionModules(ver) <==> Inside(Size(ver), t) && IsFunctionModule(ver, t.x, t.y)
  {
    hide Product, Interval, InAlignment, AlignmentModules;
    if ver >= 2 {
      AlignmentMembers(ver, t);
    } else {
      NoAlignment(ver, t.x, t.y);
    }
  }

  lemma NoAlignment(ver: Version, x: int, y: int)
    requires ver == 1
    ensures !InAlignment(ver, x, y)
  {
  }
}
