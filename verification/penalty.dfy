/** The penalty score by which the automatic mask choice compares grids. */
module Penalty {
  import opened Bits
  import opened FinderLike
  import opened Geometry
  import opened Grid
  import opened LineRuns
  import opened RadixCode

  const PENALTY_N1 := 3
  const PENALTY_N2 := 3
  const PENALTY_N3 := 40
  const PENALTY_N4 := 10

  /** A run of five costs PENALTY_N1, and each further module 1. */
  function RunCost(len: nat): nat {
    if len < 5 then 0 else PENALTY_N1 + (len - 5)
  }

  function RunCosts(r: seq<nat>): nat {
    if |r| == 0 then 0 else RunCosts(r[..|r| - 1]) + RunCost(r[|r| - 1])
  }

  /** The costs of all runs, and of all finder-like patterns between white borders as long as the line. */
  ghost function LinePenalty(line: Line): nat {
    RunCosts(Runs(line)) + |Finders(ZeroBits(|line|) + line + ZeroBits(|line|))| * PENALTY_N3
  }

  lemma LinePenaltyInRuns(line: Line)
    ensures var r := Runs(ZeroBits(|line|) + line + ZeroBits(|line|));
            LinePenalty(line) == RunCosts(Runs(line)) + PatternsTo(r, |r|) * PENALTY_N3
  {
    hide Runs, RunCosts, PatternsTo, Finders;
    PatternsAreFinders(ZeroBits(|line|) + line + ZeroBits(|line|));
  }

  lemma RunCostsAppend(r: seq<nat>, len: nat)
    ensures RunCosts(r + [len]) == RunCosts(r) + RunCost(len)
  {
    assert (r + [len])[..|r|] == r;
  }

  lemma RunCostsGrow(r: seq<nat>, len: nat)
    requires |r| > 0
    ensures RunCosts(r[|r| - 1 := len]) == RunCosts(r) - RunCost(r[|r| - 1]) + RunCost(len)
  {
    assert r[|r| - 1 := len][..|r| - 1] == r[..|r| - 1];
  }

  // ----- The run history -----

  /** The history when a run is added in front; the first run gets the white border. */
  function Pushed(h: seq<int>, run: int, size: int): (h': seq<int>)
    requires |h| == 7
    ensures |h'| == 7
  {
    [if h[0] == 0 then run + size else run] + h[..6]
  }

  /** `QrCode::finderPenaltyAddHistory`. */
  method AddHistory(currentRunLength: int, runHistory: array<int>, size: int)
    requires runHistory.Length == 7
    modifies runHistory
    ensures runHistory[..] == Pushed(old(runHistory[..]), currentRunLength, size)
  {
    var run := currentRunLength;
    if runHistory[0] == 0 {
      run := run + size;
    }
    var i := 6;
    while i > 0
      invariant 0 <= i <= 6
      invariant forall k :: i < k < 7 ==> runHistory[k] == old(runHistory[k - 1])
      invariant forall k :: 0 <= k <= i ==> runHistory[k] == old(runHistory[k])
    {
      runHistory[i] := runHistory[i - 1];
      i := i - 1;
    }
    runHistory[0] := run;
  }

  /** `QrCode::finderPenaltyCountPatterns`. */
  method CountPatterns(runHistory: array<int>, size: int) returns (c: nat)
    requires runHistory.Length == 7 && runHistory[1] <= size * 3
    ensures c == PatternCount(runHistory[..])
    ensures AreLengths(runHistory[..]) ==> c == |Finders(Spelled(runHistory[..]))|
  {
    hide Finders, Spelled;
    if forall i :: 0 <= i < 7 ==> runHistory[i] >= 0 {
      PatternCountMeans(runHistory[..]);
    }
    var n := runHistory[1];
    assert n <= size * 3;
    var core := n > 0 && runHistory[2] == n && runHistory[3] == n * 3 && runHistory[4] == n && runHistory[5] == n;
    c := (if core && runHistory[0] >= n * 4 && runHistory[6] >= n then 1 else 0)
       + (if core && runHistory[6] >= n * 4 && runHistory[0] >= n then 1 else 0);
  }

  /** Adding run k to the history of the runs before it. */
  lemma PushedWindow(r: seq<nat>, k: nat, size: nat)
    requires k < |r| && (k > 0 ==> r[k - 1] > 0) && (k == 0 ==> r[0] >= size)
    ensures Pushed(Window(r, k - 1), if k == 0 then r[0] - size else r[k], size) == Window(r, k)
  {
  }

  /** The history after any number of pushes. */
  function History(pushes: seq<int>, size: int): (h: seq<int>)
    ensures |h| == 7
  {
    if pushes == [] then [0, 0, 0, 0, 0, 0, 0]
    else Pushed(History(pushes[..|pushes| - 1], size), pushes[|pushes| - 1], size)
  }

  /** The history holds the latest seven runs, newest first, and zeros where there were fewer. */
  lemma {:induction false} HistoryIsWindow(r: seq<nat>, k: nat, size: nat)
    requires k <= |r| && 0 < |r| && 0 < size <= r[0] && forall i :: 0 < i < |r| ==> r[i] > 0
    ensures History(([r[0] - size] + r[1..])[..k], size) == Window(r, k - 1)
  {
    var pushes := [r[0] - size] + r[1..];
    if k > 0 {
      HistoryIsWindow(r, k - 1, size);
      assert pushes[..k][..k - 1] == pushes[..k - 1];
      PushedWindow(r, k - 1, size);
    }
  }

  // ----- Scoring a line -----

  /** The runs of the first x modules of a line, behind its white border. */
  function BorderedRuns(line: Line, x: nat): (r: seq<nat>)
    requires x <= |line|
    ensures |r| > 0
  {
    Runs(ZeroBits(|line|) + line[..x])
  }

  lemma BorderedFacts(line: Line, x: nat)
    requires x <= |line|
    ensures var r := BorderedRuns(line, x);
            && r[0] >= |line|
            && (forall i :: 0 < i < |r| ==> r[i] > 0)
            && (forall i :: 0 <= i < |r| ==> r[i] <= 2 * |line|)
            && Runs(line[..x]) == r[0 := r[0] - |line|]
  {
    hide Runs;
    RunsAfterWhite(|line|, line[..x]);
    RunsPositive(ZeroBits(|line|) + line[..x]);
  }

  lemma BorderedStep(line: Line, x: nat)
    requires x < |line|
    ensures BorderedRuns(line, x + 1) == Extended(BorderedRuns(line, x), line[x])
    ensures Runs(line[..x + 1]) == Extended(Runs(line[..x]), line[x])
  {
    hide Runs;
    assert line[..x + 1] == line[..x] + [line[x]];
    RunsAppend(line[..x], line[x]);
    assert ZeroBits(|line|) + line[..x + 1] == (ZeroBits(|line|) + line[..x]) + [line[x]];
    RunsAppend(ZeroBits(|line|) + line[..x], line[x]);
  }

  /** The state of the loop over a line after x modules. */
  ghost predicate LineState(line: Line, x: nat, runColor: bool, runX: int, h: seq<int>, result: int)
    requires x <= |line|
  {
    var r := BorderedRuns(line, x);
    var k := |r| - 1;
    && runColor == (k % 2 == 1)
    && runX == (if k == 0 then r[0] - |line| else r[k])
    && h == Window(r, k - 1)
    && result == RunCosts(Runs(line[..x])) + PatternsTo(r, k) * PENALTY_N3
  }

  lemma LineStateStart(line: Line)
    ensures LineState(line, 0, false, 0, [0, 0, 0, 0, 0, 0, 0], 0)
  {
    RunsOfWhite(|line|);
    assert ZeroBits(|line|) + line[..0] == ZeroBits(|line|);
    assert RunCosts([0][..0]) == 0;
  }

  /** The module continues the current run. */
  lemma LineStateSame(line: Line, x: nat, runColor: bool, runX: int, h: seq<int>, result: int)
    requires x < |line| && LineState(line, x, runColor, runX, h, result) && line[x] == runColor
    ensures LineState(line, x + 1, runColor, runX + 1, h,
                      result + if runX + 1 == 5 then PENALTY_N1 else if runX + 1 > 5 then 1 else 0)
  {
    hide Runs, BorderedRuns, RunCosts, PatternsTo;
    BorderedStep(line, x);
    BorderedFacts(line, x);
    var r, s := BorderedRuns(line, x), Runs(line[..x]);
    var k := |r| - 1;
    RunCostsGrow(s, s[k] + 1);
    PatternsToPrefix(r, BorderedRuns(line, x + 1), k);
    assert Window(BorderedRuns(line, x + 1), k - 1) == Window(r, k - 1);
  }

  /** The module starts a new run, and the run before it enters the history. */
  lemma LineStateNew(line: Line, x: nat, runColor: bool, runX: int, h: seq<int>, result: int)
    requires x < |line| && LineState(line, x, runColor, runX, h, result) && line[x] != runColor
    ensures |h| == 7 && Pushed(h, runX, |line|)[1] <= |line| * 3
    ensures LineState(line, x + 1, !runColor, 1, Pushed(h, runX, |line|),
                      result + if runColor then 0 else PatternCount(Pushed(h, runX, |line|)) * PENALTY_N3)
  {
    hide Runs, BorderedRuns, RunCosts, PatternCount;
    BorderedStep(line, x);
    BorderedFacts(line, x);
    var r, s := BorderedRuns(line, x), Runs(line[..x]);
    var k := |r| - 1;
    PushedWindow(r, k, |line|);
    RunCostsAppend(s, 1);
    PatternsToPrefix(r, r + [1], k);
    assert Window(r + [1], k) == Window(r, k);
  }

  /** The end of a line that ends black, with the white border behind it. */
  lemma LineEndBlack(line: Line, runX: int, h: seq<int>, result: int)
    requires |line| > 0 && LineState(line, |line|, true, runX, h, result)
    ensures |h| == 7
    ensures var h' := Pushed(Pushed(h, runX, |line|), |line|, |line|);
            h'[1] <= |line| * 3 && result + PatternCount(h') * PENALTY_N3 == LinePenalty(line)
  {
    hide Runs, BorderedRuns, RunCosts, PatternCount, LinePenalty;
    var n := |line|;
    BorderedFacts(line, n);
    assert line[..n] == line;
    var r := BorderedRuns(line, n);
    var k := |r| - 1;
    LinePenaltyInRuns(line);
    LineEndRuns(line);
    var full := r + [n];
    PatternsToPrefix(r, full, k);
    assert Window(full, k - 1) == Window(r, k - 1);
    PushedWindow(full, k, n);
    PushedWindow(full, k + 1, n);
    assert PatternsTo(full, k + 1) == PatternsTo(full, k);
    assert PatternsTo(full, k + 2) == PatternsTo(full, k + 1) + PatternCount(Window(full, k + 1));
  }

  /** The end of a line that ends white: the border makes the last run longer. */
  lemma LineEndWhite(line: Line, runX: int, h: seq<int>, result: int)
    requires |line| > 0 && LineState(line, |line|, false, runX, h, result)
    ensures |h| == 7
    ensures var h' := Pushed(h, runX + |line|, |line|);
            h'[1] <= |line| * 3 && result + PatternCount(h') * PENALTY_N3 == LinePenalty(line)
  {
    hide Runs, BorderedRuns, RunCosts, PatternCount, LinePenalty;
    var n := |line|;
    BorderedFacts(line, n);
    assert line[..n] == line;
    var r := BorderedRuns(line, n);
    var k := |r| - 1;
    LinePenaltyInRuns(line);
    LineEndRuns(line);
    var full := r[k := r[k] + n];
    PatternsToPrefix(r, full, k);
    assert Window(full, k - 1) == Window(r, k - 1);
    PushedWindow(full, k, n);
  }

  lemma LineEndRuns(line: Line)
    requires |line| > 0
    ensures var r := BorderedRuns(line, |line|); var k := |r| - 1; var n := |line|;
            Runs(ZeroBits(n) + line + ZeroBits(n)) == if k % 2 == 0 then r[k := r[k] + n] else r + [n]
  {
    hide Runs;
    assert line[..|line|] == line;
    RunsThenWhite(ZeroBits(|line|) + line, |line|);
  }

  /** The history at the end of a line: a black run enters it, and the white border does, with the last white run if any. */
  function Terminated(runColor: bool, runLength: int, h: seq<int>, size: int): (h': seq<int>)
    requires |h| == 7
    ensures |h'| == 7
  {
    if runColor then Pushed(Pushed(h, runLength, size), size, size) else Pushed(h, runLength + size, size)
  }

  /** `QrCode::finderPenaltyTerminateAndCount`. */
  method TerminateAndCount(currentRunColor: bool, currentRunLength: int, runHistory: array<int>, size: int)
    returns (c: nat)
    requires runHistory.Length == 7
    requires Terminated(currentRunColor, currentRunLength, runHistory[..], size)[1] <= size * 3
    modifies runHistory
    ensures runHistory[..] == Terminated(currentRunColor, currentRunLength, old(runHistory[..]), size)
    ensures c == PatternCount(runHistory[..])
    ensures AreLengths(runHistory[..]) ==> c == |Finders(Spelled(runHistory[..]))|
  {
    hide PatternCount, Finders, Spelled;
    var run := currentRunLength;
    if currentRunColor {
      AddHistory(run, runHistory, size);
      run := 0;
    }
    run := run + size;
    AddHistory(run, runHistory, size);
    c := CountPatterns(runHistory, size);
  }

  /** The loop of `QrCode::getPenaltyScore` over the modules of a row or of a column. */
  method ScoreLine(line: Line) returns (result: nat)
    requires |line| > 0
    ensures result == LinePenalty(line)
  {
    hide LineState, LinePenalty, PatternCount, Pushed;
    result := 0;
    var size := |line|;
    var runColor := false;
    var runX := 0;
    var runHistory := new int[7](i => 0);
    assert runHistory[..] == [0, 0, 0, 0, 0, 0, 0];
    LineStateStart(line);
    for x := 0 to size
      invariant fresh(runHistory)
      invariant LineState(line, x, runColor, runX, runHistory[..], result)
    {
      if line[x] == runColor {
        LineStateSame(line, x, runColor, runX, runHistory[..], result);
        runX := runX + 1;
        if runX == 5 {
          result := result + PENALTY_N1;
        } else if runX > 5 {
          result := result + 1;
        }
      } else {
        LineStateNew(line, x, runColor, runX, runHistory[..], result);
        AddHistory(runX, runHistory, size);
        if !runColor {
          var c := CountPatterns(runHistory, size);
          result := result + c * PENALTY_N3;
        }
        runColor := line[x];
        runX := 1;
      }
    }
    if runColor {
      LineEndBlack(line, runX, runHistory[..], result);
    } else {
      LineEndWhite(line, runX, runHistory[..], result);
    }
    var c := TerminateAndCount(runColor, runX, runHistory, size);
    result := result + c * PENALTY_N3;
  }

  // ----- Scoring a grid -----

  function Row(g: Grid, size: nat, y: nat): (l: Line)
    requires Square(g, size) && y < size
    ensures |l| == size && forall x :: 0 <= x < size ==> l[x] == At(g, size, Pos(x, y))
  {
    g[y]
  }

  function Column(g: Grid, size: nat, x: nat): (l: Line)
    requires Square(g, size) && x < size
    ensures |l| == size && forall y :: 0 <= y < size ==> l[y] == At(g, size, Pos(x, y))
  {
    seq(size, y requires 0 <= y < size => g[y][x])
  }

  /** The penalties of the first n rows. */
  ghost function RowPenalties(g: Grid, size: nat, n: nat): nat
    requires Square(g, size) && n <= size
  {
    if n == 0 then 0 else RowPenalties(g, size, n - 1) + LinePenalty(Row(g, size, n - 1))
  }

  ghost function ColumnPenalties(g: Grid, size: nat, n: nat): nat
    requires Square(g, size) && n <= size
  {
    if n == 0 then 0 else ColumnPenalties(g, size, n - 1) + LinePenalty(Column(g, size, n - 1))
  }

  /** Every module of the square with its top left corner at t has the color. */
  ghost predicate HasColor(g: Grid, size: nat, t: Pos, black: bool)
    requires Square(g, size)
  {
    forall u: Pos :: Inside(size, u) && 0 <= u.x - t.x < 2 && 0 <= u.y - t.y < 2 ==> At(g, size, u) == black
  }

  /** The 2*2 block with its top left corner at t has one color. */
  ghost predicate OneColor(g: Grid, size: nat, t: Pos)
    requires Square(g, size)
  {
    HasColor(g, size, t, true) || HasColor(g, size, t, false)
  }

  lemma OneColorMeans(g: Grid, size: nat, x: int, y: int)
    requires Square(g, size) && Inside(size - 1, Pos(x, y))
    ensures var color := At(g, size, Pos(x, y));
            OneColor(g, size, Pos(x, y))
            <==> color == At(g, size, Pos(x + 1, y)) && color == At(g, size, Pos(x, y + 1)) && color == At(g, size, Pos(x + 1, y + 1))
  {
    hide At;
    assert forall u: Pos :: 0 <= u.x - x < 2 && 0 <= u.y - y < 2 ==>
        u == Pos(x, y) || u == Pos(x + 1, y) || u == Pos(x, y + 1) || u == Pos(x + 1, y + 1);
    var a, b, c, d := Pos(x, y), Pos(x + 1, y), Pos(x, y + 1), Pos(x + 1, y + 1);
    assert Inside(size, a) && Inside(size, b) && Inside(size, c) && Inside(size, d);
  }

  /** The positions that come before t in reading order, in a grid n wide. */
  predicate Before(u: Pos, t: Pos) {
    u.y < t.y || (u.y == t.y && u.x < t.x)
  }

  /** The one-colored blocks before t. */
  ghost function BlocksBefore(g: Grid, size: nat, t: Pos): (b: set<Pos>)
    requires Square(g, size)
    ensures forall u: Pos :: u in b <==> Inside(size - 1, u) && Before(u, t) && OneColor(g, size, u)
  {
    set u | u in Product(Interval(0, size - 1), Interval(0, size - 1)) && Before(u, t) && OneColor(g, size, u)
  }

  /** The black modules before t. */
  ghost function BlackBefore(g: Grid, size: nat, t: Pos): (b: set<Pos>)
    requires Square(g, size)
    ensures forall u: Pos :: u in b <==> Inside(size, u) && Before(u, t) && At(g, size, u)
  {
    set u | u in Product(Interval(0, size), Interval(0, size)) && Before(u, t) && At(g, size, u)
  }

  /** The number of one-colored blocks of the whole grid. */
  ghost function BlockCount(g: Grid, size: nat): nat
    requires Square(g, size)
  {
    |BlocksBefore(g, size, Pos(0, size))|
  }

  ghost function BlackCount(g: Grid, size: nat): nat
    requires Square(g, size)
  {
    |BlackBefore(g, size, Pos(0, size))|
  }

  lemma BlocksStep(g: Grid, size: nat, t: Pos)
    requires Square(g, size) && Inside(size - 1, t)
    ensures |BlocksBefore(g, size, Pos(t.x + 1, t.y))|
         == |BlocksBefore(g, size, t)| + if OneColor(g, size, t) then 1 else 0
  {
    hide BlocksBefore, OneColor;
    var before, after := BlocksBefore(g, size, t), BlocksBefore(g, size, Pos(t.x + 1, t.y));
    if OneColor(g, size, t) {
      assert after == before + {t};
    } else {
      assert after == before;
    }
  }

  lemma BlocksWrap(g: Grid, size: nat, y: int)
    requires Square(g, size)
    ensures BlocksBefore(g, size, Pos(size - 1, y)) == BlocksBefore(g, size, Pos(0, y + 1))
    ensures y == size - 1 ==> BlocksBefore(g, size, Pos(0, y)) == BlocksBefore(g, size, Pos(0, size))
    ensures BlocksBefore(g, size, Pos(0, 0)) == {}
  {
    hide BlocksBefore, OneColor;
  }

  lemma BlackStep(g: Grid, size: nat, t: Pos)
    requires Square(g, size) && Inside(size, t)
    ensures |BlackBefore(g, size, Pos(t.x + 1, t.y))| == |BlackBefore(g, size, t)| + if At(g, size, t) then 1 else 0
  {
    hide BlackBefore, At;
    var before, after := BlackBefore(g, size, t), BlackBefore(g, size, Pos(t.x + 1, t.y));
    if At(g, size, t) {
      assert after == before + {t};
    } else {
      assert after == before;
    }
  }

  lemma BlackWrap(g: Grid, size: nat, y: int)
    requires Square(g, size)
    ensures BlackBefore(g, size, Pos(size, y)) == BlackBefore(g, size, Pos(0, y + 1))
    ensures BlackBefore(g, size, Pos(0, 0)) == {}
  {
    hide BlackBefore, At;
  }

  /** The share of black is at least (45 - 5k)% and at most (55 + 5k)%. */
  predicate Balanced(black: int, total: int, k: int) {
    (45 - 5 * k) * total <= 100 * black <= (55 + 5 * k) * total
  }

  /** Twenty times the difference between the black modules and half of all. */
  function Gap(black: nat, total: nat): nat {
    if 20 * black < 10 * total then 10 * total - 20 * black else 20 * black - 10 * total
  }

  /** The smallest k >= 0 for which black and white are balanced up to k. */
  function Imbalance(black: nat, total: nat): int
    requires total > 0
  {
    (Gap(black, total) + total - 1) / total - 1
  }

  lemma BalancedMeans(black: nat, total: nat, k: int)
    ensures Balanced(black, total, k) <==> Gap(black, total) <= (k + 1) * total
  {
    var m := k * total;
    assert (45 - 5 * k) * total == 45 * total - 5 * m;
    assert (55 + 5 * k) * total == 55 * total + 5 * m;
    assert (k + 1) * total == m + total;
  }

  lemma CeilingBounds(d: nat, total: nat)
    requires d > 0 && total > 0
    ensures var q := (d + total - 1) / total; q >= 1 && (q - 1) * total < d <= q * total
  {
    var q := (d + total - 1) / total;
    assert d + total - 1 == total * q + (d + total - 1) % total;
    assert (q - 1) * total == q * total - total;
  }

  lemma MulMonotone(a: int, b: int, c: nat)
    requires a <= b
    ensures a * c <= b * c
  {
  }

  /** The formula finds the smallest such k, because a square of odd size is never balanced exactly. */
  lemma ImbalanceLeast(black: nat, total: nat)
    requires total % 2 == 1
    ensures Imbalance(black, total) >= 0
    ensures Balanced(black, total, Imbalance(black, total))
    ensures forall k :: 0 <= k < Imbalance(black, total) ==> !Balanced(black, total, k)
  {
    hide Balanced;
    var d, k := Gap(black, total), Imbalance(black, total);
    assert d > 0;
    CeilingBounds(d, total);
    BalancedMeans(black, total, k);
    forall j | 0 <= j < k
      ensures !Balanced(black, total, j)
    {
      BalancedMeans(black, total, j);
      MulMonotone(j + 1, k, total);
    }
  }

  function Area(size: nat): (a: nat)
    requires size > 0
    ensures a > 0
  {
    size * size
  }

  ghost function PenaltyScore(g: Grid, size: nat): int
    requires Square(g, size) && size > 0
  {
    RowPenalties(g, size, size) + ColumnPenalties(g, size, size)
    + BlockCount(g, size) * PENALTY_N2 + Imbalance(BlackCount(g, size), Area(size)) * PENALTY_N4
  }

  /** `QrCode::getPenaltyScore`. */
  method GetPenaltyScore(modules: Grid, size: nat) returns (result: int)
    requires Square(modules, size) && size > 0 && size % 2 == 1
    ensures result == PenaltyScore(modules, size)
  {
    hide LinePenalty, BlocksBefore, BlackBefore, Imbalance, RowPenalties, ColumnPenalties;
    result := 0;
    LinePenaltiesNone(modules, size);
    for y := 0 to size
      invariant result == RowPenalties(modules, size, y)
    {
      var c := ScoreLine(Row(modules, size, y));
      RowPenaltiesStep(modules, size, y);
      result := result + c;
    }
    ghost var rows := result;
    for x := 0 to size
      invariant result == rows + ColumnPenalties(modules, size, x)
    {
      var c := ScoreLine(Column(modules, size, x));
      ColumnPenaltiesStep(modules, size, x);
      result := result + c;
    }
    var blocks := ScoreBlocks(modules, size);
    result := result + blocks;
    var balance := ScoreBalance(modules, size);
    result := result + balance;
  }

  lemma LinePenaltiesNone(g: Grid, size: nat)
    requires Square(g, size)
    ensures RowPenalties(g, size, 0) == 0 && ColumnPenalties(g, size, 0) == 0
  {
  }

  lemma RowPenaltiesStep(g: Grid, size: nat, y: nat)
    requires Square(g, size) && y < size
    ensures RowPenalties(g, size, y + 1) == RowPenalties(g, size, y) + LinePenalty(Row(g, size, y))
  {
  }

  lemma ColumnPenaltiesStep(g: Grid, size: nat, x: nat)
    requires Square(g, size) && x < size
    ensures ColumnPenalties(g, size, x + 1) == ColumnPenalties(g, size, x) + LinePenalty(Column(g, size, x))
  {
  }

  /** The part of `QrCode::getPenaltyScore` for 2*2 blocks. */
  method ScoreBlocks(modules: Grid, size: nat) returns (result: int)
    requires Square(modules, size) && size > 0
    ensures result == BlockCount(modules, size) * PENALTY_N2
  {
    hide BlocksBefore, OneColor, At;
    result := 0;
    BlocksWrap(modules, size, size - 1);
    for y := 0 to size - 1
      invariant result == |BlocksBefore(modules, size, Pos(0, y))| * PENALTY_N2
    {
      for x := 0 to size - 1
        invariant result == |BlocksBefore(modules, size, Pos(x, y))| * PENALTY_N2
      {
        BlocksStep(modules, size, Pos(x, y));
        OneColorMeans(modules, size, x, y);
        var color := At(modules, size, Pos(x, y));
        if color == At(modules, size, Pos(x + 1, y)) && color == At(modules, size, Pos(x, y + 1))
          && color == At(modules, size, Pos(x + 1, y + 1))
        {
          result := result + PENALTY_N2;
        }
      }
      BlocksWrap(modules, size, y);
    }
  }

  /** The part of `QrCode::getPenaltyScore` that scores how far the number of black modules is from one half. */
  method ScoreBalance(modules: Grid, size: nat) returns (result: int)
    requires Square(modules, size) && size > 0
    ensures result == Imbalance(BlackCount(modules, size), Area(size)) * PENALTY_N4
  {
    hide BlackBefore;
    var black: nat := 0;
    BlackWrap(modules, size, 0);
    for y := 0 to size
      invariant black == |BlackBefore(modules, size, Pos(0, y))|
    {
      for x := 0 to size
        invariant black == |BlackBefore(modules, size, Pos(x, y))|
      {
        BlackStep(modules, size, Pos(x, y));
        if modules[y][x] {
          black := black + 1;
        }
      }
      BlackWrap(modules, size, y);
    }
    var total := Area(size);
    var difference := if black * 20 - total * 10 < 0 then total * 10 - black * 20 else black * 20 - total * 10;
    var k := (difference + total - 1) / total - 1;
    result := k * PENALTY_N4;
  }

  // ----- The score is small -----

  lemma {:induction false} RunCostsBound(s: Line)
    ensures RunCosts(Runs(s)) <= 3 * |s|
    ensures |Runs(s)| <= |s| + 1
    decreases |s|
  {
    if |s| == 0 {
      assert RunCosts([0][..0]) == 0;
    } else {
      var r := Runs(s[..|s| - 1]);
      RunCostsBound(s[..|s| - 1]);
      RunCostsGrow(r, r[|r| - 1] + 1);
      RunCostsAppend(r, 1);
    }
  }

  lemma {:induction false} PatternsToBound(r: seq<nat>, n: nat)
    requires n <= |r|
    ensures PatternsTo(r, n) <= 2 * n
  {
    hide PatternCount, Window;
    if n > 0 {
      PatternsToBound(r, n - 1);
    }
  }

  lemma LinePenaltyBound(line: Line)
    requires |line| <= 177
    ensures LinePenalty(line) <= 50000
  {
    hide Runs, RunCosts, PatternsTo, LinePenalty;
    LinePenaltyInRuns(line);
    RunCostsBound(line);
    var full := ZeroBits(|line|) + line + ZeroBits(|line|);
    RunCostsBound(full);
    PatternsToBound(Runs(full), |Runs(full)|);
  }

  lemma {:induction false} LinePenaltiesBound(g: Grid, size: nat, n: nat)
    requires Square(g, size) && n <= size <= 177
    ensures RowPenalties(g, size, n) <= 50000 * n && ColumnPenalties(g, size, n) <= 50000 * n
  {
    hide LinePenalty;
    if n > 0 {
      LinePenaltiesBound(g, size, n - 1);
      LinePenaltyBound(Row(g, size, n - 1));
      LinePenaltyBound(Column(g, size, n - 1));
    }
  }

  lemma CountsBound(g: Grid, size: nat)
    requires Square(g, size) && 0 < size
    ensures BlockCount(g, size) <= Area(size) && BlackCount(g, size) <= Area(size)
  {
    hide Interval, Product, BlocksBefore, BlackBefore;
    RectangleSize(0, size, 0, size);
    var all := Product(Interval(0, size), Interval(0, size));
    SubsetSize(BlocksBefore(g, size, Pos(0, size)), all);
    SubsetSize(BlackBefore(g, size, Pos(0, size)), all);
  }

  lemma ImbalanceBound(black: nat, total: nat)
    requires total > 0 && black <= total
    ensures -1 <= Imbalance(black, total) <= 10
  {
    var d := Gap(black, total);
    var q := (d + total - 1) / total;
    assert d + total - 1 == total * q + (d + total - 1) % total;
    if q > 11 {
      MulMonotone(12, q, total);
    }
  }

  /** Every score is below LONG_MAX, even where a long has 32 bits, so some mask is always chosen. */
  lemma PenaltyScoreBound(g: Grid, size: nat)
    requires Square(g, size) && 0 < size <= 177
    ensures PenaltyScore(g, size) < 0x7FFF_FFFF
  {
    hide RowPenalties, ColumnPenalties, BlockCount, BlackCount, Imbalance;
    LinePenaltiesBound(g, size, size);
    CountsBound(g, size);
    assert Area(size) <= 177 * 177 by {
      MulMonotone(size, 177, size);
      MulMonotone(size, 177, 177);
    }
    ImbalanceBound(BlackCount(g, size), Area(size));
  }

  // ----- The weights -----

  lemma OneRun(n: nat)
    ensures RunCosts([n]) == RunCost(n)
  {
    assert [n][..0] == [];
    assert RunCosts([n][..0]) == 0;
  }

  /** A white line of five or more modules costs three, and one for each module beyond the fifth. */
  lemma WhiteLine(n: nat)
    requires n >= 5
    ensures LinePenalty(ZeroBits(n)) == n - 2
  {
    hide Runs, RunCosts, PatternsTo, LinePenalty;
    var line := ZeroBits(n);
    LinePenaltyInRuns(line);
    RunsOfWhite(n);
    OneRun(n);
    assert ZeroBits(n) + line + ZeroBits(n) == ZeroBits(3 * n);
    RunsOfWhite(3 * n);
    FewRuns([3 * n], 1);
  }

  /** The bars of a finder pattern cost forty for the margin on each side. */
  lemma FinderLine()
    ensures LinePenalty([true, false, true, true, true, false, true]) == 80
  {
    hide Runs, RunCosts, PatternsTo, LinePenalty, Spell;
    var line := [true, false, true, true, true, false, true];
    LinePenaltyInRuns(line);
    FinderLineSpelled();
    RunsOfSpell([0, 1, 1, 3, 1, 1]);
    RunsOfSpell([7, 1, 1, 3, 1, 1, 7]);
    SevenRuns([7, 1, 1, 3, 1, 1, 7]);
    FinderLineRuns();
  }

  lemma FinderLineRuns()
    ensures RunCosts([0, 1, 1, 3, 1, 1]) == 0
    ensures PatternCount(Window([7, 1, 1, 3, 1, 1, 7], 6)) == 2
  {
    hide RunCosts;
    RunCostsAppend([0, 1, 1, 3, 1], 1);
    RunCostsAppend([0, 1, 1, 3], 1);
    RunCostsAppend([0, 1, 1], 3);
    RunCostsAppend([0, 1], 1);
    RunCostsAppend([0], 1);
    OneRun(0);
    assert [0, 1, 1, 3, 1] + [1] == [0, 1, 1, 3, 1, 1] && [0, 1, 1, 3] + [1] == [0, 1, 1, 3, 1] && [0, 1, 1] + [3] == [0, 1, 1, 3]
        && [0, 1] + [1] == [0, 1, 1] && [0] + [1] == [0, 1];
  }

  lemma FinderLineSpelled()
    ensures Spell([0, 1, 1, 3, 1, 1]) == [true, false, true, true, true, false, true]
    ensures Spell([7, 1, 1, 3, 1, 1, 7]) == ZeroBits(7) + [true, false, true, true, true, false, true] + ZeroBits(7)
  {
    hide Spell;
    CoreSpelled(0);
    CoreSpelled(7);
    assert ZeroBits(0) + [true, false, true, true, true, false, true] == [true, false, true, true, true, false, true];
    SpellStep([7, 1, 1, 3, 1, 1], 7);
    assert [7, 1, 1, 3, 1, 1] + [7] == [7, 1, 1, 3, 1, 1, 7];
    assert Block(false, 7) == ZeroBits(7);
  }

  lemma CoreSpelled(n: nat)
    ensures Spell([n, 1, 1, 3, 1, 1]) == ZeroBits(n) + [true, false, true, true, true, false, true]
  {
    hide Spell;
    SpellStart(n);
    SpellStep([n], 1);
    SpellStep([n, 1], 1);
    SpellStep([n, 1, 1], 3);
    SpellStep([n, 1, 1, 3], 1);
    SpellStep([n, 1, 1, 3, 1], 1);
    assert [n] + [1] == [n, 1] && [n, 1] + [1] == [n, 1, 1] && [n, 1, 1] + [3] == [n, 1, 1, 3]
        && [n, 1, 1, 3] + [1] == [n, 1, 1, 3, 1] && [n, 1, 1, 3, 1] + [1] == [n, 1, 1, 3, 1, 1];
    assert Block(true, 1) == [true] && Block(false, 1) == [false] && Block(true, 3) == [true, true, true];
    assert Spell([n, 1, 1]) == ZeroBits(n) + [true] + [false];
    assert Spell([n, 1, 1, 3, 1, 1]) == Spell([n, 1, 1]) + [true, true, true] + [false] + [true];
  }

  lemma SpellStart(n: nat)
    ensures Spell([n]) == ZeroBits(n)
  {
    assert [n][..0] == [];
    assert Spell([n][..0]) == [];
  }

  lemma SpellStep(r: seq<nat>, n: nat)
    ensures Spell(r + [n]) == Spell(r) + Block((|r| + 1) % 2 == 0, n)
  {
    assert (r + [n])[..|r|] == r;
  }

  lemma {:induction false} BlankLines(size: nat, n: nat)
    requires size >= 5 && n <= size
    ensures RowPenalties(BlankGrid(size), size, n) == n * (size - 2)
    ensures ColumnPenalties(BlankGrid(size), size, n) == n * (size - 2)
  {
    hide LinePenalty, BlankGrid, At;
    var g := BlankGrid(size);
    if n > 0 {
      BlankLines(size, n - 1);
      RowPenaltiesStep(g, size, n - 1);
      ColumnPenaltiesStep(g, size, n - 1);
      WhiteLine(size);
      BlankRow(size, n - 1);
      assert n * (size - 2) == (n - 1) * (size - 2) + (size - 2);
    } else {
      LinePenaltiesNone(g, size);
    }
  }

  lemma BlankRow(size: nat, k: nat)
    requires k < size
    ensures Row(BlankGrid(size), size, k) == ZeroBits(size) && Column(BlankGrid(size), size, k) == ZeroBits(size)
  {
    hide At, BlankGrid;
    assert forall x :: 0 <= x < size ==> Inside(size, Pos(x, k)) && Inside(size, Pos(k, x));
  }

  lemma BlankCounts(size: nat)
    requires size > 0
    ensures BlockCount(BlankGrid(size), size) == (size - 1) * (size - 1) && BlackCount(BlankGrid(size), size) == 0
  {
    hide At, BlankGrid, Product, Interval;
    var g, n := BlankGrid(size), size - 1;
    RectangleSize(0, n, 0, n);
    assert BlocksBefore(g, size, Pos(0, size)) == Product(Interval(0, n), Interval(0, n));
    assert BlackBefore(g, size, Pos(0, size)) == {};
  }

  /** The score of a white grid: three for each line of five and one for each further module, three for each block, and ten for each of nine steps. */
  lemma BlankScore(size: nat)
    requires size >= 5 && size % 2 == 1
    ensures PenaltyScore(BlankGrid(size), size) == 2 * (size * (size - 2)) + 3 * ((size - 1) * (size - 1)) + 90
  {
    hide RowPenalties, ColumnPenalties, BlockCount, BlackCount, BlankGrid, Imbalance;
    BlankLines(size, size);
    BlankCounts(size);
    BlankImbalance(Area(size));
  }

  lemma BlankImbalance(total: nat)
    requires total > 0
    ensures Imbalance(0, total) == 9
  {
    assert (10 * total + total - 1) / total == 10 by {
      var q := (10 * total + total - 1) / total;
      assert 10 * total + total - 1 == 10 * total + (total - 1);
      DivModUnique(total, 10, total - 1);
    }
  }
}
