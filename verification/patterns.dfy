/** The function patterns as patches laid over a grid one after the other. */
module Patterns {
  import opened Results
  import opened Tables
  import opened Geometry
  import opened Grid
  import opened BitStream

  datatype Patch =
    | TimingPatch
    | FinderPatch(cx: int, cy: int)
    | AlignmentPatch(cx: int, cy: int)
    | FormatPatch(bits: nat)
    | VersionPatch(bits: nat)

  function Abs(n: int): nat {
    if n < 0 then -n else n
  }

  /** The Chebyshev distance. */
  function Dist(dx: int, dy: int): nat {
    if Abs(dx) < Abs(dy) then Abs(dy) else Abs(dx)
  }

  /** The number of the format bit that the first copy has at t. */
  function FormatFirst(t: Pos): Option<nat> {
    if t.x == 8 && 0 <= t.y <= 5 then Some(t.y)
    else if t.x == 8 && 7 <= t.y <= 8 then Some(t.y - 1)
    else if t.x == 7 && t.y == 8 then Some(8)
    else if 0 <= t.x <= 5 && t.y == 8 then Some(14 - t.x)
    else None
  }

  /** The number of the format bit that the second copy has at t; 15 for the module that is always black. */
  function FormatSecond(size: int, t: Pos): Option<nat> {
    if size - 8 <= t.x < size && t.y == 8 then Some(size - 1 - t.x)
    else if t.x == 8 && size - 7 <= t.y < size then Some(t.y - size + 15)
    else if t.x == 8 && t.y == size - 8 then Some(15)
    else None
  }

  function FormatBitAt(size: int, t: Pos): Option<nat> {
    if FormatFirst(t).Some? then FormatFirst(t) else FormatSecond(size, t)
  }

  /** The number of the version bit that stands at t. */
  function VersionBitAt(size: int, t: Pos): Option<nat> {
    if size - 11 <= t.x < size - 8 && 0 <= t.y < 6 then Some(3 * t.y + t.x - (size - 11))
    else if 0 <= t.x < 6 && size - 11 <= t.y < size - 8 then Some(3 * t.x + t.y - (size - 11))
    else None
  }

  /** Every version bit stands at two places. */
  lemma VersionBitPlaces(size: int, t: Pos, i: nat)
    requires size >= 21 && i < 18
    ensures VersionBitAt(size, t) == Some(i)
       <==> t == Pos(size - 11 + i % 3, i / 3) || t == Pos(i / 3, size - 11 + i % 3)
  {
  }

  lemma VersionBitRange(size: int)
    ensures forall t: Pos :: VersionBitAt(size, t).Some? ==> VersionBitAt(size, t).value < 18
  {
  }

  predicate Covers(p: Patch, size: int, t: Pos) {
    match p
    case TimingPatch => t.x == 6 || t.y == 6
    case FinderPatch(cx, cy) => Dist(t.x - cx, t.y - cy) <= 4
    case AlignmentPatch(cx, cy) => Dist(t.x - cx, t.y - cy) <= 2
    case FormatPatch(_) => FormatBitAt(size, t).Some?
    case VersionPatch(_) => VersionBitAt(size, t).Some?
  }

  /** Whether a covered module is black. */
  predicate Color(p: Patch, size: int, t: Pos)
    requires Covers(p, size, t)
  {
    match p
    case TimingPatch => (t.x + t.y) % 2 == 0
    case FinderPatch(cx, cy) => Dist(t.x - cx, t.y - cy) != 2 && Dist(t.x - cx, t.y - cy) != 4
    case AlignmentPatch(cx, cy) => Dist(t.x - cx, t.y - cy) != 1
    case FormatPatch(bits) => FormatBitAt(size, t).value == 15 || GetBit(bits, FormatBitAt(size, t).value)
    case VersionPatch(bits) => GetBit(bits, VersionBitAt(size, t).value)
  }

  // ----- Laying patches -----

  /** A grid of modules and its function module marks. */
  datatype Canvas = Canvas(modules: Grid, isFunction: Grid) {
    ghost predicate Valid(size: int) {
      Square(modules, size) && Square(isFunction, size)
    }
  }

  /** At t, the canvas c differs from c0 by a mark of the given color, or not at all. */
  ghost predicate MarkedAt(c: Canvas, c0: Canvas, size: int, t: Pos, mark: Option<bool>)
    requires c.Valid(size) && c0.Valid(size) && Inside(size, t)
  {
    && At(c.modules, size, t) == (if mark.Some? then mark.value else At(c0.modules, size, t))
    && At(c.isFunction, size, t) == (mark.Some? || At(c0.isFunction, size, t))
  }

  function PatchAt(p: Patch, size: int, t: Pos): Option<bool> {
    if Covers(p, size, t) then Some(Color(p, size, t)) else None
  }

  /** c is c0 with the patch p laid over it. */
  ghost predicate Laid(c: Canvas, c0: Canvas, size: int, p: Patch) {
    && c.Valid(size) && c0.Valid(size)
    && forall t: Pos :: Inside(size, t) ==> MarkedAt(c, c0, size, t, PatchAt(p, size, t))
  }

  /** What the last patch that covers t makes of it. */
  function LastAt(ps: seq<Patch>, size: int, t: Pos): Option<bool> {
    if |ps| == 0 then None
    else
      var p := ps[|ps| - 1];
      if Covers(p, size, t) then Some(Color(p, size, t)) else LastAt(ps[..|ps| - 1], size, t)
  }

  ghost predicate LaidAll(c: Canvas, c0: Canvas, size: int, ps: seq<Patch>) {
    && c.Valid(size) && c0.Valid(size)
    && forall t: Pos :: Inside(size, t) ==> MarkedAt(c, c0, size, t, LastAt(ps, size, t))
  }

  lemma LaidNone(c: Canvas, size: int)
    requires c.Valid(size)
    ensures LaidAll(c, c, size, [])
  {
  }

  lemma LaidOneMore(c: Canvas, c1: Canvas, c0: Canvas, size: int, ps: seq<Patch>, p: Patch)
    requires LaidAll(c1, c0, size, ps) && Laid(c, c1, size, p)
    ensures LaidAll(c, c0, size, ps + [p])
  {
    hide Covers, Color;
    assert (ps + [p])[..|ps|] == ps;
  }

  lemma {:induction false} LastAtMember(ps: seq<Patch>, size: int, t: Pos)
    ensures LastAt(ps, size, t).Some? <==> exists i :: 0 <= i < |ps| && Covers(ps[i], size, t)
    decreases |ps|
  {
    hide Covers, Color;
    if |ps| > 0 {
      LastAtMember(ps[..|ps| - 1], size, t);
    }
  }

  lemma {:induction false} LastAtAppend(ps: seq<Patch>, qs: seq<Patch>, size: int, t: Pos)
    ensures LastAt(ps + qs, size, t) == if LastAt(qs, size, t).Some? then LastAt(qs, size, t) else LastAt(ps, size, t)
    decreases |qs|
  {
    hide Covers, Color;
    if |qs| == 0 {
      assert ps + qs == ps;
    } else {
      LastAtAppend(ps, qs[..|qs| - 1], size, t);
      assert (ps + qs)[..|ps| + |qs| - 1] == ps + qs[..|qs| - 1];
    }
  }

  // ----- The patches of a version, in the order in which they are drawn -----

  /** Three of the crossings have a finder pattern instead of an alignment pattern. */
  predicate OnFinder(i: int, j: int, n: int) {
    (i == 0 && j == 0) || (i == 0 && j == n - 1) || (i == n - 1 && j == 0)
  }

  /** The first j alignment patterns of column i. */
  function AlignmentColumn(ps: seq<int>, i: nat, j: nat): seq<Patch>
    requires i < |ps| && j <= |ps|
    decreases j
  {
    if j == 0 then []
    else
      AlignmentColumn(ps, i, j - 1) + if OnFinder(i, j - 1, |ps|) then [] else [AlignmentPatch(ps[i], ps[j - 1])]
  }

  function AlignmentPatches(ps: seq<int>, i: nat): seq<Patch>
    requires i <= |ps|
    decreases i
  {
    if i == 0 then [] else AlignmentPatches(ps, i - 1) + AlignmentColumn(ps, i - 1, |ps|)
  }

  function FixedPatches(size: int): seq<Patch> {
    [TimingPatch, FinderPatch(3, 3), FinderPatch(size - 4, 3), FinderPatch(3, size - 4)]
  }

  function Patches(ver: Version, format: nat, versionBits: nat): seq<Patch> {
    FixedPatches(Size(ver)) + AlignmentPatches(AlignPositions(ver), |AlignPositions(ver)|)
    + [FormatPatch(format)] + if ver < 7 then [] else [VersionPatch(versionBits)]
  }

  // ----- What they cover -----

  predicate Near(p: int, x: int) {
    p - 2 <= x <= p + 2
  }

  ghost predicate CoveredByColumn(ps: seq<int>, i: nat, n: nat, t: Pos)
    requires i < |ps| && n <= |ps|
  {
    exists j :: 0 <= j < n && !OnFinder(i, j, |ps|) && Near(ps[i], t.x) && Near(ps[j], t.y)
  }

  lemma {:induction false} AlignmentColumnCovers(ps: seq<int>, i: nat, n: nat, size: int, t: Pos)
    requires i < |ps| && n <= |ps|
    ensures LastAt(AlignmentColumn(ps, i, n), size, t).Some? <==> CoveredByColumn(ps, i, n, t)
    decreases n
  {
    hide OnFinder;
    if n > 0 {
      AlignmentColumnCovers(ps, i, n - 1, size, t);
      if !OnFinder(i, n - 1, |ps|) {
        var before := AlignmentColumn(ps, i, n - 1);
        assert (before + [AlignmentPatch(ps[i], ps[n - 1])])[..|before|] == before;
      } else {
        assert AlignmentColumn(ps, i, n - 1) + [] == AlignmentColumn(ps, i, n - 1);
      }
    }
  }

  lemma {:induction false} AlignmentPatchesCover(ps: seq<int>, n: nat, size: int, t: Pos)
    requires n <= |ps|
    ensures LastAt(AlignmentPatches(ps, n), size, t).Some? <==> exists i :: 0 <= i < n && CoveredByColumn(ps, i, |ps|, t)
    decreases n
  {
    hide AlignmentColumn, CoveredByColumn, LastAt;
    if n == 0 {
      LastAtNone(size, t);
    } else {
      AlignmentPatchesCover(ps, n - 1, size, t);
      AlignmentColumnCovers(ps, n - 1, |ps|, size, t);
      LastAtAppend(AlignmentPatches(ps, n - 1), AlignmentColumn(ps, n - 1, |ps|), size, t);
    }
  }

  lemma LastAtOne(p: Patch, size: int, t: Pos)
    ensures LastAt([p], size, t) == PatchAt(p, size, t)
  {
    hide Covers, Color;
    assert LastAt([p][..0], size, t) == None;
  }

  lemma LastAtNone(size: int, t: Pos)
    ensures LastAt([], size, t) == None
  {
  }

  lemma AlignmentCoverage(ver: Version, t: Pos)
    ensures var ps := AlignPositions(ver);
            (exists i :: 0 <= i < |ps| && CoveredByColumn(ps, i, |ps|, t)) <==> InAlignment(ver, t.x, t.y)
  {
    hide AlignPos, AlignStep;
    var ps := AlignPositions(ver);
    var n := |ps|;
    if ver > 1 {
      if i, j :| 0 <= i < n && 0 <= j < n && !OnFinder(i, j, n) && Near(ps[i], t.x) && Near(ps[j], t.y) {
        assert InAlignment(ver, t.x, t.y);
      }
      if InAlignment(ver, t.x, t.y) {
        AlignmentFound(ver, t);
      }
    }
  }

  lemma AlignmentFound(ver: Version, t: Pos)
    requires InAlignment(ver, t.x, t.y)
    ensures var ps := AlignPositions(ver); exists i :: 0 <= i < |ps| && CoveredByColumn(ps, i, |ps|, t)
  {
    hide AlignPos, AlignStep;
    var ps := AlignPositions(ver);
    var n := |ps|;
    var i, j;
    if NearPosition(ver, n - 1, t.x) && NearPosition(ver, n - 1, t.y) {
      i :| 1 <= i <= n - 1 && AlignPos(ver, i) - 2 <= t.x <= AlignPos(ver, i) + 2;
      j :| 1 <= j <= n - 1 && AlignPos(ver, j) - 2 <= t.y <= AlignPos(ver, j) + 2;
    } else if 4 <= t.y <= 8 && NearPosition(ver, n - 2, t.x) {
      i :| 1 <= i <= n - 2 && AlignPos(ver, i) - 2 <= t.x <= AlignPos(ver, i) + 2;
      j := 0;
    } else {
      i := 0;
      j :| 1 <= j <= n - 2 && AlignPos(ver, j) - 2 <= t.y <= AlignPos(ver, j) + 2;
    }
    assert Near(ps[i], t.x) && Near(ps[j], t.y) && !OnFinder(i, j, n);
    assert CoveredByColumn(ps, i, n, t);
  }

  /** The patches mark exactly the function modules. */
  lemma PatchesMark(ver: Version, format: nat, versionBits: nat, t: Pos)
    requires Inside(Size(ver), t)
    ensures LastAt(Patches(ver, format, versionBits), Size(ver), t).Some? <==> IsFunctionModule(ver, t.x, t.y)
  {
    hide LastAt, AlignmentPatches, CoveredByColumn, InAlignment, Color;
    var size, ps := Size(ver), AlignPositions(ver);
    var fixed, align := FixedPatches(size), AlignmentPatches(ps, |ps|);
    var tail := if ver < 7 then [] else [VersionPatch(versionBits)];
    AlignmentPatchesCover(ps, |ps|, size, t);
    AlignmentCoverage(ver, t);
    LastAtAppend(fixed + align + [FormatPatch(format)], tail, size, t);
    LastAtAppend(fixed + align, [FormatPatch(format)], size, t);
    LastAtAppend(fixed, align, size, t);
    LastAtMember(fixed, size, t);
    LastAtOne(FormatPatch(format), size, t);
    LastAtOne(VersionPatch(versionBits), size, t);
    LastAtNone(size, t);
    FixedCoverage(ver, format, versionBits, t);
  }

  lemma FixedCoverage(ver: Version, format: nat, versionBits: nat, t: Pos)
    requires Inside(Size(ver), t)
    ensures var size, fixed := Size(ver), FixedPatches(Size(ver));
            (|| (exists i :: 0 <= i < |fixed| && Covers(fixed[i], size, t))
             || Covers(FormatPatch(format), size, t)
             || (ver >= 7 && Covers(VersionPatch(versionBits), size, t)))
            <==> InCorners(size, t.x, t.y) || InTiming(size, t.x, t.y) || InVersionInfo(ver, t.x, t.y)
  {
    var size, fixed := Size(ver), FixedPatches(Size(ver));
    assert fixed[0] == TimingPatch && fixed[1] == FinderPatch(3, 3) && fixed[2] == FinderPatch(size - 4, 3)
        && fixed[3] == FinderPatch(3, size - 4);
  }
}
