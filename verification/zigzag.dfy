/** The zigzag scan that places codewords, and what it writes and reads. */
module Zigzag {
  import opened Tables
  import opened Geometry
  import opened Grid

  // ----- The scan -----

  /** The right column of the k-th column pair; the vertical timing pattern is stepped over. */
  function RightColumn(size: int, k: int): int {
    var right := size - 1 - 2 * k;
    if right <= 6 then right - 1 else right
  }

  predicate Upward(right: int) {
    (right + 1) / 2 % 2 == 0
  }

  /** The j-th module of the pair at the given vertical step. */
  function ScanPos(size: int, k: int, vert: int, j: int): Pos {
    var right := RightColumn(size, k);
    Pos(right - j, if Upward(right) then size - 1 - vert else vert)
  }

  /** The first `v` vertical steps in column pair k. */
  function PairScan(size: int, k: int, v: nat): (s: seq<Pos>)
    ensures |s| == 2 * v
  {
    if v == 0 then [] else PairScan(size, k, v - 1) + [ScanPos(size, k, v - 1, 0), ScanPos(size, k, v - 1, 1)]
  }

  /** The first k column pairs. */
  function Scan(size: nat, k: nat): seq<Pos> {
    if k == 0 then [] else Scan(size, k - 1) + PairScan(size, k - 1, size)
  }

  // ----- Every module outside the timing column is visited exactly once -----

  /** The column pair in which x lies. */
  function PairOf(size: int, x: int): int {
    (size - 1 - if x < 6 then x + 1 else x) / 2
  }

  /** The vertical step at which t is visited. */
  function StepOf(size: int, t: Pos): int {
    if Upward(RightColumn(size, PairOf(size, t.x))) then size - 1 - t.y else t.y
  }

  function SideOf(size: int, x: int): int {
    RightColumn(size, PairOf(size, x)) - x
  }

  lemma ScanPosInverse(size: int, k: int, vert: int, j: int)
    requires size % 2 == 1 && 0 <= k < (size - 1) / 2 && 0 <= vert < size && 0 <= j < 2
    ensures var t := ScanPos(size, k, vert, j);
            && Inside(size, t) && t.x != 6
            && PairOf(size, t.x) == k && StepOf(size, t) == vert && SideOf(size, t.x) == j
  {
  }

  lemma InverseScanPos(size: int, t: Pos)
    requires size % 2 == 1 && size > 7 && Inside(size, t) && t.x != 6
    ensures 0 <= PairOf(size, t.x) < (size - 1) / 2 && 0 <= StepOf(size, t) < size && 0 <= SideOf(size, t.x) < 2
    ensures ScanPos(size, PairOf(size, t.x), StepOf(size, t), SideOf(size, t.x)) == t
  {
  }

  ghost predicate Distinct(s: seq<Pos>) {
    forall i, j :: 0 <= i < j < |s| ==> s[i] != s[j]
  }

  lemma {:induction false} PairScanFacts(size: int, k: int, v: nat)
    requires size % 2 == 1 && 0 <= k < (size - 1) / 2 && v <= size
    ensures Distinct(PairScan(size, k, v))
    ensures forall t :: t in PairScan(size, k, v) ==>
              Inside(size, t) && t.x != 6 && PairOf(size, t.x) == k && 0 <= StepOf(size, t) < v
  {
    hide ScanPos, PairOf, StepOf, SideOf;
    if v > 0 {
      PairScanFacts(size, k, v - 1);
      ScanPosInverse(size, k, v - 1, 0);
      ScanPosInverse(size, k, v - 1, 1);
    }
  }

  lemma {:induction false} ScanFacts(size: nat, k: nat)
    requires size % 2 == 1 && k <= (size - 1) / 2
    ensures Distinct(Scan(size, k))
    ensures forall t :: t in Scan(size, k) ==> Inside(size, t) && t.x != 6 && PairOf(size, t.x) < k
  {
    hide PairScan, PairOf, StepOf, SideOf;
    if k > 0 {
      ScanFacts(size, k - 1);
      PairScanFacts(size, k - 1, size);
    }
  }

  lemma {:induction false} PairScanCovers(size: int, k: int, v: nat, vert: int, j: int)
    requires 0 <= vert < v && 0 <= j < 2
    ensures ScanPos(size, k, vert, j) in PairScan(size, k, v)
  {
    hide ScanPos;
    if vert < v - 1 {
      PairScanCovers(size, k, v - 1, vert, j);
    } else {
      var s := PairScan(size, k, v);
      assert s[2 * v - 2] == ScanPos(size, k, v - 1, 0) && s[2 * v - 1] == ScanPos(size, k, v - 1, 1);
    }
  }

  lemma {:induction false} ScanCovers(size: nat, k: nat, t: Pos)
    requires size % 2 == 1 && size > 7 && Inside(size, t) && t.x != 6 && PairOf(size, t.x) < k
    ensures t in Scan(size, k)
  {
    hide ScanPos, PairScan, PairOf, StepOf, SideOf;
    InverseScanPos(size, t);
    if PairOf(size, t.x) < k - 1 {
      ScanCovers(size, k - 1, t);
    } else {
      PairScanCovers(size, k - 1, size, StepOf(size, t), SideOf(size, t.x));
    }
  }

  function WholeScan(size: nat): seq<Pos>
    requires size > 0
  {
    Scan(size, (size - 1) / 2)
  }

  /** The scan visits each module outside the vertical timing column exactly once, and no other. */
  lemma ScanIsBijective(ver: Version)
    ensures Distinct(WholeScan(Size(ver)))
    ensures forall t: Pos :: t in WholeScan(Size(ver)) <==> Inside(Size(ver), t) && t.x != 6
  {
    hide Scan, PairOf;
    var size := Size(ver);
    ScanFacts(size, (size - 1) / 2);
    forall t: Pos | Inside(size, t) && t.x != 6
      ensures t in WholeScan(size)
    {
      InverseScanPos(size, t);
      ScanCovers(size, (size - 1) / 2, t);
    }
  }

  // ----- The order of the scan -----

  /** From a module the scan goes left in its row, or to the right module of the next row, or to the next column pair in the same row. */
  predicate Follows(t: Pos, u: Pos) {
    || u == Pos(t.x - 1, t.y)
    || u == Pos(t.x + 1, t.y - 1) || u == Pos(t.x + 1, t.y + 1)
    || (t.x == 7 && u == Pos(5, t.y))
  }

  ghost predicate Connected(s: seq<Pos>) {
    forall n :: 0 < n < |s| ==> Follows(s[n - 1], s[n])
  }

  lemma ConnectedJoin(s: seq<Pos>, t: seq<Pos>)
    requires Connected(s) && Connected(t) && (|s| > 0 && |t| > 0 ==> Follows(s[|s| - 1], t[0]))
    ensures Connected(s + t)
  {
    hide Follows;
    var u := s + t;
    forall n | 0 < n < |u|
      ensures Follows(u[n - 1], u[n])
    {
      if n > |s| {
        assert u[n - 1] == t[n - 1 - |s|] && u[n] == t[n - |s|];
      }
    }
  }

  /** Within a column pair the scan goes straight up or down. */
  lemma {:induction false} PairConnected(size: int, k: int, v: nat)
    requires v > 0
    ensures var s := PairScan(size, k, v);
            Connected(s) && s[0] == ScanPos(size, k, 0, 0) && s[|s| - 1] == ScanPos(size, k, v - 1, 1)
  {
    hide ScanPos, Follows;
    var last := [ScanPos(size, k, v - 1, 0), ScanPos(size, k, v - 1, 1)];
    NextRow(size, k, v - 2);
    NextRow(size, k, v - 1);
    assert Connected(last);
    if v > 1 {
      PairConnected(size, k, v - 1);
      ConnectedJoin(PairScan(size, k, v - 1), last);
    } else {
      assert PairScan(size, k, 0) + last == last;
    }
  }

  lemma NextRow(size: int, k: int, vert: int)
    ensures Follows(ScanPos(size, k, vert, 0), ScanPos(size, k, vert, 1))
    ensures Follows(ScanPos(size, k, vert, 1), ScanPos(size, k, vert + 1, 0))
  {
  }

  /** Column pairs are scanned upward and downward in turn. */
  lemma UpwardInTurn(size: int, k: int)
    requires size % 2 == 1
    ensures Upward(RightColumn(size, k)) == (((size - 1) / 2 - k) % 2 == 0)
  {
    var m := (size - 1) / 2 - k;
    assert size - 1 - 2 * k == 2 * m;
  }

  lemma NextPair(size: int, k: int)
    requires size % 2 == 1 && 0 <= k
    ensures Follows(ScanPos(size, k, size - 1, 1), ScanPos(size, k + 1, 0, 0))
  {
    hide Upward;
    UpwardInTurn(size, k);
    UpwardInTurn(size, k + 1);
  }

  lemma {:induction false} ScanConnected(size: nat, k: nat)
    requires size % 2 == 1 && k > 0
    ensures var s := Scan(size, k);
            |s| > 0 && Connected(s) && s[0] == ScanPos(size, 0, 0, 0) && s[|s| - 1] == ScanPos(size, k - 1, size - 1, 1)
  {
    hide ScanPos, Follows, PairScan, Connected;
    PairConnected(size, k - 1, size);
    if k == 1 {
      assert Scan(size, 0) == [];
      assert Scan(size, 1) == PairScan(size, 0, size);
    } else {
      ScanConnected(size, k - 1);
      NextPair(size, k - 2);
      ConnectedJoin(Scan(size, k - 1), PairScan(size, k - 1, size));
    }
  }

  /** The scan starts at the bottom right and goes on without a jump. */
  lemma ScanOrder(ver: Version)
    ensures var s := WholeScan(Size(ver));
            |s| > 0 && s[0] == Pos(Size(ver) - 1, Size(ver) - 1) && Connected(s)
  {
    hide Scan, Connected;
    ScanConnected(Size(ver), (Size(ver) - 1) / 2);
    FirstPos(ver);
  }

  lemma FirstPos(ver: Version)
    ensures ScanPos(Size(ver), 0, 0, 0) == Pos(Size(ver) - 1, Size(ver) - 1)
  {
  }

  // ----- The modules that hold data -----

  /** The positions of s that are not marked as function modules, in order. */
  function Unmarked(s: seq<Pos>, isFunction: Grid, ghost size: int): (d: seq<Pos>)
    requires Square(isFunction, size) && forall t :: t in s ==> Inside(size, t)
    ensures |d| <= |s|
    ensures forall t :: t in d <==> t in s && !At(isFunction, size, t)
    decreases |s|
  {
    if |s| == 0 then []
    else
      var last := s[|s| - 1];
      Unmarked(s[..|s| - 1], isFunction, size) + if At(isFunction, size, last) then [] else [last]
  }

  lemma {:induction false} UnmarkedDistinct(s: seq<Pos>, isFunction: Grid, size: int)
    requires Square(isFunction, size) && forall t :: t in s ==> Inside(size, t)
    requires Distinct(s)
    ensures Distinct(Unmarked(s, isFunction, size))
    decreases |s|
  {
    if |s| > 0 {
      UnmarkedDistinct(s[..|s| - 1], isFunction, size);
      assert s[|s| - 1] !in s[..|s| - 1];
    }
  }

  ghost function Elements(s: seq<Pos>): (e: set<Pos>)
    ensures forall t :: t in e <==> t in s
  {
    if |s| == 0 then {} else Elements(s[..|s| - 1]) + {s[|s| - 1]}
  }

  lemma {:induction false} ElementsSize(s: seq<Pos>)
    requires Distinct(s)
    ensures |Elements(s)| == |s|
    decreases |s|
  {
    if |s| > 0 {
      ElementsSize(s[..|s| - 1]);
      assert s[|s| - 1] !in Elements(s[..|s| - 1]);
    }
  }

  /** The marks are those of the function modules of the version. */
  ghost predicate MarksVersion(isFunction: Grid, ver: Version) {
    && Square(isFunction, Size(ver))
    && forall t: Pos :: Inside(Size(ver), t) ==> (At(isFunction, Size(ver), t) <==> IsFunctionModule(ver, t.x, t.y))
  }

  /** The positions of the data modules in the order of the scan. */
  function DataPositions(isFunction: Grid, ver: Version): (d: seq<Pos>)
    requires Square(isFunction, Size(ver))
    ensures forall t :: t in d ==> Inside(Size(ver), t) && !At(isFunction, Size(ver), t)
  {
    ScanIsBijective(ver);
    Unmarked(WholeScan(Size(ver)), isFunction, Size(ver))
  }

  lemma DataPositionsMember(isFunction: Grid, ver: Version, t: Pos)
    requires MarksVersion(isFunction, ver)
    ensures t in DataPositions(isFunction, ver) <==> Inside(Size(ver), t) && t !in FunctionModules(ver)
  {
    hide WholeScan, IsFunctionModule, FunctionModules;
    ScanIsBijective(ver);
    FunctionModulesMembers(ver, t);
    if Inside(Size(ver), t) && t.x == 6 {
      TimingColumn(ver, t);
    }
  }

  lemma ComplementSize(d: set<Pos>, marked: set<Pos>, size: nat)
    requires forall t: Pos :: t in d <==> Inside(size, t) && t !in marked
    requires forall t: Pos :: t in marked ==> Inside(size, t)
    ensures |d| == size * size - |marked|
  {
    hide Interval, Product;
    RectangleSize(0, size, 0, size);
    var all := Product(Interval(0, size), Interval(0, size));
    assert all == d + marked;
    assert d !! marked;
  }

  /** The data modules are visited once each, and there are as many as the version provides. */
  lemma DataPositionsCount(isFunction: Grid, ver: Version)
    requires MarksVersion(isFunction, ver)
    ensures Distinct(DataPositions(isFunction, ver))
    ensures |DataPositions(isFunction, ver)| == NumRawDataModules(ver)
  {
    hide WholeScan, IsFunctionModule, NumRawDataModules, FunctionModules, MarksVersion, Distinct, Inside;
    assert Square(isFunction, Size(ver)) by { MarksSquare(isFunction, ver); }
    var d := DataPositions(isFunction, ver);
    assert Distinct(d) by {
      ScanIsBijective(ver);
      UnmarkedDistinct(WholeScan(Size(ver)), isFunction, Size(ver));
    }
    ElementsSize(d);
    forall t: Pos
      ensures t in Elements(d) <==> Inside(Size(ver), t) && t !in FunctionModules(ver)
      ensures t in FunctionModules(ver) ==> Inside(Size(ver), t)
    {
      DataPositionsMember(isFunction, ver, t);
      FunctionModulesMembers(ver, t);
    }
    ComplementSize(Elements(d), FunctionModules(ver), Size(ver));
    FunctionModulesSize(ver);
  }

  lemma MarksSquare(isFunction: Grid, ver: Version)
    requires MarksVersion(isFunction, ver)
    ensures Square(isFunction, Size(ver))
  {
  }

  /** Every module of the vertical timing column is a function module. */
  lemma TimingColumn(ver: Version, t: Pos)
    requires Inside(Size(ver), t) && t.x == 6
    ensures IsFunctionModule(ver, t.x, t.y)
  {
  }

  // ----- Writing and reading data modules -----

  /** The grid after the first n bits have been written to the first n positions. */
  function Drawn(g: Grid, ghost size: int, d: seq<Pos>, bits: seq<bool>, n: nat): (g': Grid)
    requires Square(g, size) && n <= |d| && n <= |bits| && forall t :: t in d ==> Inside(size, t)
    ensures Square(g', size)
  {
    if n == 0 then g else Set(Drawn(g, size, d, bits, n - 1), size, d[n - 1], bits[n - 1])
  }

  /** The modules at the positions d. */
  function ReadModules(g: Grid, ghost size: int, d: seq<Pos>): (bits: seq<bool>)
    requires Square(g, size) && forall t :: t in d ==> Inside(size, t)
    ensures |bits| == |d| && forall i :: 0 <= i < |d| ==> bits[i] == At(g, size, d[i])
  {
    seq(|d|, i requires 0 <= i < |d| => At(g, size, d[i]))
  }

  /** Each of the first n positions holds its bit, and every other module is as before. */
  lemma {:induction false} DrawnAt(g: Grid, size: int, d: seq<Pos>, bits: seq<bool>, n: nat, t: Pos)
    requires Square(g, size) && n <= |d| && n <= |bits| && Distinct(d) && Inside(size, t)
    requires forall u :: u in d ==> Inside(size, u)
    ensures forall i :: 0 <= i < n && d[i] == t ==> At(Drawn(g, size, d, bits, n), size, t) == bits[i]
    ensures t !in d[..n] ==> At(Drawn(g, size, d, bits, n), size, t) == At(g, size, t)
  {
    hide At, Set;
    if n > 0 {
      DrawnAt(g, size, d, bits, n - 1, t);
      assert t in d[..n - 1] ==> t in d[..n];
      assert d[n - 1] in d[..n];
    }
  }

  /** What was drawn is read back. */
  lemma DrawnReadsBack(g: Grid, size: int, d: seq<Pos>, bits: seq<bool>)
    requires Square(g, size) && |bits| <= |d| && Distinct(d) && forall u :: u in d ==> Inside(size, u)
    ensures ReadModules(Drawn(g, size, d, bits, |bits|), size, d)[..|bits|] == bits
  {
    hide At, Drawn, Distinct, Square;
    var g' := Drawn(g, size, d, bits, |bits|);
    forall i | 0 <= i < |bits|
      ensures ReadModules(g', size, d)[i] == bits[i]
    {
      DrawnAt(g, size, d, bits, |bits|, d[i]);
    }
  }

  // Drawing along a prefix of the scan only involves the unmarked positions of that prefix.
  lemma {:induction false} DrawnPrefix(g: Grid, size: int, d: seq<Pos>, e: seq<Pos>, bits: seq<bool>, n: nat)
    requires Square(g, size) && n <= |d| && n <= |e| && n <= |bits|
    requires (forall t :: t in d ==> Inside(size, t)) && (forall t :: t in e ==> Inside(size, t))
    requires forall i :: 0 <= i < n ==> d[i] == e[i]
    ensures Drawn(g, size, d, bits, n) == Drawn(g, size, e, bits, n)
  {
    if n > 0 {
      DrawnPrefix(g, size, d, e, bits, n - 1);
    }
  }

  /** The state of the drawing loop once the positions s have been visited. */
  ghost predicate DrawnAlong(g: Grid, g0: Grid, isFunction: Grid, size: int, s: seq<Pos>, bits: seq<bool>, i: nat)
    requires Square(g0, size) && Square(isFunction, size) && forall t :: t in s ==> Inside(size, t)
  {
    var d := Unmarked(s, isFunction, size);
    i == (if |d| < |bits| then |d| else |bits|) && g == Drawn(g0, size, d, bits, i)
  }

  lemma DrawnAlongNone(g0: Grid, isFunction: Grid, size: int, bits: seq<bool>)
    requires Square(g0, size) && Square(isFunction, size)
    ensures DrawnAlong(g0, g0, isFunction, size, [], bits, 0)
  {
  }

  /** One more position is visited: it takes the next bit, unless it is marked or no bits are left. */
  lemma DrawnAlongStep(g: Grid, g0: Grid, isFunction: Grid, size: int, s: seq<Pos>, t: Pos, bits: seq<bool>, i: nat)
    requires Square(g0, size) && Square(isFunction, size) && (forall u :: u in s ==> Inside(size, u)) && Inside(size, t)
    requires DrawnAlong(g, g0, isFunction, size, s, bits, i)
    ensures Square(g, size)
    ensures if !At(isFunction, size, t) && i < |bits|
            then DrawnAlong(Set(g, size, t, bits[i]), g0, isFunction, size, s + [t], bits, i + 1)
            else DrawnAlong(g, g0, isFunction, size, s + [t], bits, i)
  {
    hide At, Set;
    var d := Unmarked(s, isFunction, size);
    assert (s + [t])[..|s|] == s;
    if !At(isFunction, size, t) {
      assert Unmarked(s + [t], isFunction, size) == d + [t];
      DrawnPrefix(g0, size, d, d + [t], bits, i);
    } else {
      assert Unmarked(s + [t], isFunction, size) == d;
    }
  }
}
