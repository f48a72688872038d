/**
 * Patterns that look like a finder pattern: dark and light modules 1:1:3:1:1 with a light margin of
 * four on one side and of one on the other.
 */
module FinderLike {
  import opened LineRuns
  import opened Geometry

  // ----- The patterns of a line -----

  /** A pattern by its first dark module, the width of its narrow bars, and the side of its wide margin. */
  datatype Finder = Finder(start: int, unit: int, wideAfter: bool)

  predicate Colored(s: Line, a: int, b: int, black: bool) {
    0 <= a <= b <= |s| && forall x :: a <= x < b ==> s[x] == black
  }

  /** The modules of the line are those of the pattern. */
  predicate Reads(s: Line, f: Finder) {
    var p, n := f.start, f.unit;
    && n > 0
    && Colored(s, p - (if f.wideAfter then n else 4 * n), p, false)
    && Colored(s, p, p + n, true)
    && Colored(s, p + n, p + 2 * n, false)
    && Colored(s, p + 2 * n, p + 5 * n, true)
    && Colored(s, p + 5 * n, p + 6 * n, false)
    && Colored(s, p + 6 * n, p + 7 * n, true)
    && Colored(s, p + 7 * n, p + 7 * n + (if f.wideAfter then 4 * n else n), false)
  }

  /** All patterns of a line. */
  ghost function Finders(s: Line): (fs: set<Finder>)
    ensures forall f :: f in fs <==> Reads(s, f)
  {
    set p: int, n: int, w: bool | 0 <= p < |s| && 0 < n <= |s| && Reads(s, Finder(p, n, w)) :: Finder(p, n, w)
  }

  // ----- Patterns in runs -----

  /** The patterns in seven runs, the newest first. */
  function PatternCount(h: seq<int>): (c: nat)
    requires |h| == 7
    ensures c <= 2
  {
    var n := h[1];
    var core := n > 0 && h[2] == n && h[3] == n * 3 && h[4] == n && h[5] == n;
    (if core && h[0] >= n * 4 && h[6] >= n then 1 else 0) + (if core && h[6] >= n * 4 && h[0] >= n then 1 else 0)
  }

  /** The seven runs that end with run k, the newest first, with zeros before the first run. */
  function Window(r: seq<nat>, k: int): (h: seq<int>)
    requires k < |r|
    ensures |h| == 7
    ensures forall i :: 0 <= i < 7 ==> h[i] == if 0 <= k - i then r[k - i] else 0
  {
    seq(7, i requires 0 <= i < 7 => if 0 <= k - i then r[k - i] else 0)
  }

  /** The patterns that end with one of the first n runs; they end with a white run. */
  function PatternsTo(r: seq<nat>, n: nat): nat
    requires n <= |r|
  {
    if n == 0 then 0 else PatternsTo(r, n - 1) + if (n - 1) % 2 == 0 then PatternCount(Window(r, n - 1)) else 0
  }

  lemma {:induction false} PatternsToPrefix(r: seq<nat>, s: seq<nat>, n: nat)
    requires n <= |r| && n <= |s| && forall i :: 0 <= i < n ==> r[i] == s[i]
    ensures PatternsTo(r, n) == PatternsTo(s, n)
    decreases n
  {
    hide PatternCount;
    if n > 0 {
      PatternsToPrefix(r, s, n - 1);
      assert Window(r, n - 1) == Window(s, n - 1);
    }
  }

  // ----- Counting them -----

  /** A pattern by the white run behind it. */
  datatype Hit = Hit(k: int, wideAfter: bool)

  predicate IsHit(r: seq<nat>, h: Hit) {
    && 6 <= h.k < |r| && h.k % 2 == 0
    && var n := r[h.k - 1];
       && n > 0 && r[h.k - 2] == n && r[h.k - 3] == 3 * n && r[h.k - 4] == n && r[h.k - 5] == n
       && r[h.k] >= (if h.wideAfter then 4 * n else n)
       && r[h.k - 6] >= (if h.wideAfter then n else 4 * n)
  }

  ghost function HitsTo(r: seq<nat>, m: nat): (hs: set<Hit>)
    ensures forall h :: h in hs <==> h.k < m && IsHit(r, h)
  {
    set k: int, w: bool | 0 <= k < m && IsHit(r, Hit(k, w)) :: Hit(k, w)
  }

  /** The formula for one window counts its hits. */
  lemma WindowHits(r: seq<nat>, k: nat)
    requires k < |r| && k % 2 == 0
    ensures PatternCount(Window(r, k)) == (if IsHit(r, Hit(k, true)) then 1 else 0) + (if IsHit(r, Hit(k, false)) then 1 else 0)
  {
    var h := Window(r, k);
    if k < 6 {
      assert h[5] == 0 || h[6] == 0;
    }
  }

  lemma {:induction false} HitsCount(r: seq<nat>, m: nat)
    requires m <= |r|
    ensures |HitsTo(r, m)| == PatternsTo(r, m)
  {
    hide PatternCount, IsHit;
    if m == 0 {
      NoHits(r);
    } else {
      HitsCount(r, m - 1);
      HitsStep(r, m - 1);
      if (m - 1) % 2 == 0 {
        WindowHits(r, m - 1);
      } else {
        HitsEven(r, m - 1);
      }
    }
  }

  lemma NoHits(r: seq<nat>)
    ensures HitsTo(r, 0) == {}
  {
  }

  lemma HitsEven(r: seq<nat>, k: nat)
    requires k % 2 == 1
    ensures !IsHit(r, Hit(k, true)) && !IsHit(r, Hit(k, false))
  {
  }

  lemma HitsStep(r: seq<nat>, k: nat)
    requires k < |r|
    ensures |HitsTo(r, k + 1)|
         == |HitsTo(r, k)| + (if IsHit(r, Hit(k, true)) then 1 else 0) + (if IsHit(r, Hit(k, false)) then 1 else 0)
  {
    hide IsHit;
    var before, after, a, b := HitsTo(r, k), HitsTo(r, k + 1), Hit(k, true), Hit(k, false);
    var more := (if IsHit(r, a) then {a} else {}) + (if IsHit(r, b) then {b} else {});
    forall h
      ensures h in after <==> h in before + more
    {
      assert h.k == k ==> h == a || h == b;
    }
    assert after == before + more;
    assert |more| == (if IsHit(r, a) then 1 else 0) + (if IsHit(r, b) then 1 else 0);
  }

  // ----- Hits are patterns -----

  /** The pattern of a hit. */
  function FinderOf(r: seq<nat>, h: Hit): Finder
    requires IsHit(r, h)
  {
    Finder(Start(r, h.k - 5), r[h.k - 1], h.wideAfter)
  }

  /** A part of a run has the color of the run. */
  lemma PartOfRun(s: Line, i: nat, a: int, b: int)
    requires i < |Runs(s)| && Start(Runs(s), i) <= a <= b <= Start(Runs(s), i) + Runs(s)[i]
    ensures Colored(s, a, b, i % 2 == 1)
  {
    hide Runs, Start;
    RunInside(s, i);
    forall x | a <= x < b
      ensures s[x] == (i % 2 == 1)
    {
      RunColor(s, i, x);
    }
  }

  lemma HitStarts(r: seq<nat>, h: Hit)
    requires IsHit(r, h)
    ensures var p, n := Start(r, h.k - 5), r[h.k - 1];
            && Start(r, h.k - 6) + r[h.k - 6] == p && Start(r, h.k - 4) == p + n && Start(r, h.k - 3) == p + 2 * n
            && Start(r, h.k - 2) == p + 5 * n && Start(r, h.k - 1) == p + 6 * n && Start(r, h.k) == p + 7 * n
  {
    hide Start;
    StartStep(r, h.k - 6);
    StartStep(r, h.k - 5);
    StartStep(r, h.k - 4);
    StartStep(r, h.k - 3);
    StartStep(r, h.k - 2);
    StartStep(r, h.k - 1);
  }

  lemma HitDark(s: Line, h: Hit)
    requires IsHit(Runs(s), h)
    ensures var p, n := Start(Runs(s), h.k - 5), Runs(s)[h.k - 1];
            Colored(s, p, p + n, true) && Colored(s, p + 2 * n, p + 5 * n, true) && Colored(s, p + 6 * n, p + 7 * n, true)
  {
    hide Runs, Start, Colored;
    var r, k := Runs(s), h.k;
    var p, n := Start(r, k - 5), r[k - 1];
    HitStarts(r, h);
    PartOfRun(s, k - 5, p, p + n);
    PartOfRun(s, k - 3, p + 2 * n, p + 5 * n);
    PartOfRun(s, k - 1, p + 6 * n, p + 7 * n);
  }

  lemma HitLight(s: Line, h: Hit)
    requires IsHit(Runs(s), h)
    ensures var p, n := Start(Runs(s), h.k - 5), Runs(s)[h.k - 1]; Colored(s, p + n, p + 2 * n, false) && Colored(s, p + 5 * n, p + 6 * n, false)
  {
    hide Runs, Start, Colored;
    var r, k := Runs(s), h.k;
    var p, n := Start(r, k - 5), r[k - 1];
    HitStarts(r, h);
    PartOfRun(s, k - 4, p + n, p + 2 * n);
    PartOfRun(s, k - 2, p + 5 * n, p + 6 * n);
  }

  lemma HitMargins(s: Line, h: Hit)
    requires IsHit(Runs(s), h)
    ensures var p, n := Start(Runs(s), h.k - 5), Runs(s)[h.k - 1];
            && Colored(s, p - (if h.wideAfter then n else 4 * n), p, false)
            && Colored(s, p + 7 * n, p + 7 * n + (if h.wideAfter then 4 * n else n), false)
  {
    hide Runs, Start, Colored;
    var r, k := Runs(s), h.k;
    var p, n := Start(r, k - 5), r[k - 1];
    HitStarts(r, h);
    PartOfRun(s, k - 6, p - (if h.wideAfter then n else 4 * n), p);
    PartOfRun(s, k, p + 7 * n, p + 7 * n + (if h.wideAfter then 4 * n else n));
  }

  lemma HitReads(s: Line, h: Hit)
    requires IsHit(Runs(s), h)
    ensures Reads(s, FinderOf(Runs(s), h))
  {
    hide Runs, Start, Colored;
    HitDark(s, h);
    HitLight(s, h);
    HitMargins(s, h);
  }

  /** Different hits have different patterns. */
  lemma FinderOfInjective(s: Line, a: Hit, b: Hit)
    requires IsHit(Runs(s), a) && IsHit(Runs(s), b) && FinderOf(Runs(s), a) == FinderOf(Runs(s), b)
    ensures a == b
  {
    hide Runs, Start;
    var r := Runs(s);
    RunsPositive(s);
    if a.k < b.k {
      StartMonotone(r, a.k - 5, b.k - 5);
    } else if b.k < a.k {
      StartMonotone(r, b.k - 5, a.k - 5);
    }
  }

  // ----- Patterns are hits -----

  /** The run with the first dark module starts there. */
  lemma DarkRunStarts(s: Line, p: nat) returns (i: nat)
    requires 0 < p < |s| && s[p] && !s[p - 1]
    ensures 0 < i < |Runs(s)| && i % 2 == 1 && Start(Runs(s), i) == p
  {
    hide Runs, Start;
    var r := Runs(s);
    RunsTotal(s);
    i := FindRun(r, |r|, p);
    RunColor(s, i, p);
    if Start(r, i) < p {
      RunColor(s, i, p - 1);
    }
  }

  /** A bar of one color that starts with a run and is followed by the other color is the run. */
  lemma BarIsRun(s: Line, i: nat, b: int, black: bool)
    requires i < |Runs(s)| && black == (i % 2 == 1) && Start(Runs(s), i) < b < |s|
    requires Colored(s, Start(Runs(s), i), b, black) && s[b] != black
    ensures i + 1 < |Runs(s)| && Start(Runs(s), i + 1) == b && Runs(s)[i] == b - Start(Runs(s), i)
  {
    hide Runs, Start;
    RunExact(s, i, b);
    StartStep(Runs(s), i);
  }

  /** The colors change at the edges of the bars. */
  lemma Edges(s: Line, f: Finder)
    requires Reads(s, f)
    ensures var p, n := f.start, f.unit;
            && 0 < n <= p && p + 7 * n < |s| && !s[p - 1] && s[p] && !s[p + n] && s[p + 2 * n]
            && !s[p + 5 * n] && s[p + 6 * n] && !s[p + 7 * n]
  {
  }

  /** The five bars are five runs. */
  lemma BarsAreRuns(s: Line, f: Finder, i: nat)
    requires Reads(s, f) && i < |Runs(s)| && i % 2 == 1 && Start(Runs(s), i) == f.start
    ensures var r, n := Runs(s), f.unit;
            && i + 5 < |r| && Start(r, i + 5) == f.start + 7 * n
            && r[i] == n && r[i + 1] == n && r[i + 2] == 3 * n && r[i + 3] == n && r[i + 4] == n
  {
    hide Runs, Start, Colored;
    var p, n := f.start, f.unit;
    Edges(s, f);
    BarIsRun(s, i, p + n, true);
    BarIsRun(s, i + 1, p + 2 * n, false);
    BarIsRun(s, i + 2, p + 5 * n, true);
    BarIsRun(s, i + 3, p + 6 * n, false);
    BarIsRun(s, i + 4, p + 7 * n, true);
  }

  lemma ReadsIsHit(s: Line, f: Finder) returns (h: Hit)
    requires Reads(s, f)
    ensures IsHit(Runs(s), h) && FinderOf(Runs(s), h) == f
  {
    hide Runs, Start;
    var p, n := f.start, f.unit;
    Edges(s, f);
    var i := DarkRunStarts(s, p);
    BarsAreRuns(s, f, i);
    RunAtLeast(s, i + 5, p + 7 * n + (if f.wideAfter then 4 * n else n));
    RunBefore(s, i, p - (if f.wideAfter then n else 4 * n));
    h := Hit(i + 5, f.wideAfter);
  }

  // ----- The count -----

  ghost function Image(s: Line, hs: set<Hit>): (fs: set<Finder>)
    requires forall h :: h in hs ==> IsHit(Runs(s), h)
    ensures forall f :: f in fs <==> exists h :: h in hs && FinderOf(Runs(s), h) == f
  {
    set h | h in hs :: FinderOf(Runs(s), h)
  }

  lemma {:induction false} ImageSize(s: Line, hs: set<Hit>)
    requires forall h :: h in hs ==> IsHit(Runs(s), h)
    ensures |Image(s, hs)| == |hs|
    decreases |hs|
  {
    hide Runs, IsHit, FinderOf;
    if hs == {} {
      assert Image(s, hs) == {};
    } else {
      var h := Pick(hs);
      var rest := hs - {h};
      ImageSize(s, rest);
      var f := FinderOf(Runs(s), h);
      if f in Image(s, rest) {
        var other :| other in rest && FinderOf(Runs(s), other) == f;
        FinderOfInjective(s, h, other);
      }
      assert Image(s, hs) == Image(s, rest) + {f};
    }
  }

  /** Counting windows of runs counts exactly the patterns among the modules. */
  lemma PatternsAreFinders(s: Line)
    ensures PatternsTo(Runs(s), |Runs(s)|) == |Finders(s)|
  {
    hide Runs, Reads, IsHit, FinderOf, PatternsTo;
    var r := Runs(s);
    var hs := HitsTo(r, |r|);
    HitsCount(r, |r|);
    ImageSize(s, hs);
    forall f
      ensures f in Image(s, hs) <==> f in Finders(s)
    {
      if f in Image(s, hs) {
        var h :| h in hs && FinderOf(r, h) == f;
        HitReads(s, h);
      }
      if f in Finders(s) {
        var h := ReadsIsHit(s, f);
        HitBound(r, h);
      }
    }
    assert Image(s, hs) == Finders(s);
  }

  lemma HitBound(r: seq<nat>, h: Hit)
    requires IsHit(r, h)
    ensures h.k < |r|
  {
  }

  // ----- Seven runs -----

  ghost predicate AreLengths(h: seq<int>) {
    |h| == 7 && forall i :: 0 <= i < 7 ==> h[i] >= 0
  }

  /** The modules that the runs of a history spell, the oldest run first. */
  function Spelled(h: seq<int>): Line
    requires AreLengths(h)
  {
    Spell([h[6], h[5], h[4], h[3], h[2], h[1], h[0]])
  }

  /** The formula counts the patterns among the modules of seven runs, even when some are empty. */
  lemma PatternCountMeans(h: seq<int>)
    requires AreLengths(h)
    ensures PatternCount(h) == |Finders(Spelled(h))|
  {
    hide Spell, Runs, PatternsTo, Finders;
    var r: seq<nat> := [h[6], h[5], h[4], h[3], h[2], h[1], h[0]];
    var s := Spelled(h);
    PatternsAreFinders(s);
    if forall i :: 0 < i < 7 ==> r[i] > 0 {
      RunsOfSpell(r);
      SevenRuns(r);
      assert Window(r, 6) == h;
    } else {
      FewerRuns(r);
      FewRuns(Runs(s), |Runs(s)|);
    }
  }

  lemma SevenRuns(r: seq<nat>)
    requires |r| == 7
    ensures PatternsTo(r, 7) == PatternCount(Window(r, 6))
  {
    hide PatternCount, PatternsTo;
    FewRuns(r, 6);
    PatternsStep(r, 6);
  }

  lemma PatternsStep(r: seq<nat>, k: nat)
    requires k < |r|
    ensures PatternsTo(r, k + 1) == PatternsTo(r, k) + if k % 2 == 0 then PatternCount(Window(r, k)) else 0
  {
  }

  /** Six runs are too few for a pattern. */
  lemma {:induction false} FewRuns(r: seq<nat>, n: nat)
    requires n <= |r| && n <= 6
    ensures PatternsTo(r, n) == 0
  {
    if n > 0 {
      FewRuns(r, n - 1);
      assert n - 1 == 5 || Window(r, n - 1)[5] == 0;
    }
  }
}
