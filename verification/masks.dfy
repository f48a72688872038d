/** The eight mask patterns. */
module Masks {
  import opened Geometry
  import opened Grid
  import opened Patterns

  /** Whether mask pattern `msk` inverts the module at t. */
  predicate Inverts(msk: int, t: Pos)
    requires 0 <= msk < 8
  {
    var x, y := t.x, t.y;
    match msk
    case 0 => (x + y) % 2 == 0
    case 1 => y % 2 == 0
    case 2 => x % 3 == 0
    case 3 => (x + y) % 3 == 0
    case 4 => (x / 3 + y / 2) % 2 == 0
    case 5 => x * y % 2 + x * y % 3 == 0
    case 6 => (x * y % 2 + x * y % 3) % 2 == 0
    case _ => ((x + y) % 2 + x * y % 3) % 2 == 0
  }

  // ----- What the patterns look like -----

  /** Exactly one of three holds. */
  predicate OneOf(a: bool, b: bool, c: bool) {
    (a || b || c) && !(a && b) && !(a && c) && !(b && c)
  }

  /** Mask 0 is a checkerboard, and mask 1 has rows of one color in turn, both black at the origin. */
  lemma AlternatingMasks(x: int, y: int)
    ensures Inverts(0, Pos(0, 0)) && Inverts(1, Pos(0, 0))
    ensures Inverts(0, Pos(x + 1, y)) != Inverts(0, Pos(x, y)) && Inverts(0, Pos(x, y + 1)) != Inverts(0, Pos(x, y))
    ensures Inverts(1, Pos(x + 1, y)) == Inverts(1, Pos(x, y)) && Inverts(1, Pos(x, y + 1)) != Inverts(1, Pos(x, y))
  {
    hide Inverts;
    Neighbors(x + y);
    Neighbors(y);
    InvertsCases(0, 0, 0);
    InvertsCases(1, 0, 0);
    InvertsCases(0, x, y);
    InvertsCases(0, x + 1, y);
    InvertsCases(0, x, y + 1);
    InvertsCases(1, x, y);
    InvertsCases(1, x + 1, y);
    InvertsCases(1, x, y + 1);
    assert x + 1 + y == x + y + 1 && x + (y + 1) == x + y + 1;
  }

  lemma Neighbors(n: int)
    ensures (n % 2 == 0) != ((n + 1) % 2 == 0)
  {
  }

  /** Mask 2 holds in every third column, and mask 3 on every third antidiagonal, both starting at the origin. */
  lemma ThirdMasks(x: int, y: int)
    ensures Inverts(2, Pos(0, 0)) && Inverts(3, Pos(0, 0))
    ensures Inverts(2, Pos(x, y + 1)) == Inverts(2, Pos(x, y))
    ensures OneOf(Inverts(2, Pos(x, y)), Inverts(2, Pos(x + 1, y)), Inverts(2, Pos(x + 2, y)))
    ensures Inverts(3, Pos(x + 1, y)) == Inverts(3, Pos(x, y + 1))
    ensures OneOf(Inverts(3, Pos(x, y)), Inverts(3, Pos(x + 1, y)), Inverts(3, Pos(x + 2, y)))
  {
    Thirds(x);
    Thirds(x + y);
    assert x + 1 + y == x + y + 1 && x + 2 + y == x + y + 2;
  }

  lemma Thirds(n: int)
    ensures OneOf(n % 3 == 0, (n + 1) % 3 == 0, (n + 2) % 3 == 0)
  {
  }

  /** The formulas of `QrCode::applyMask`. */
  lemma InvertsCases(msk: int, x: int, y: int)
    requires 0 <= msk < 8
    ensures msk == 0 ==> Inverts(msk, Pos(x, y)) == ((x + y) % 2 == 0)
    ensures msk == 1 ==> Inverts(msk, Pos(x, y)) == (y % 2 == 0)
    ensures msk == 2 ==> Inverts(msk, Pos(x, y)) == (x % 3 == 0)
    ensures msk == 3 ==> Inverts(msk, Pos(x, y)) == ((x + y) % 3 == 0)
    ensures msk == 4 ==> Inverts(msk, Pos(x, y)) == ((x / 3 + y / 2) % 2 == 0)
    ensures msk == 5 ==> Inverts(msk, Pos(x, y)) == (x * y % 2 + x * y % 3 == 0)
    ensures msk == 6 ==> Inverts(msk, Pos(x, y)) == ((x * y % 2 + x * y % 3) % 2 == 0)
    ensures msk == 7 ==> Inverts(msk, Pos(x, y)) == (((x + y) % 2 + x * y % 3) % 2 == 0)
  {
  }

  /** Mask 4 is a checkerboard of blocks, three modules wide and two high. */
  lemma BlockMask(a: int, b: int, i: int, j: int)
    requires 0 <= i < 3 && 0 <= j < 2
    ensures Inverts(4, Pos(0, 0))
    ensures Inverts(4, Pos(3 * a + i, 2 * b + j)) == Inverts(4, Pos(3 * a, 2 * b))
    ensures Inverts(4, Pos(3 * (a + 1), 2 * b)) != Inverts(4, Pos(3 * a, 2 * b))
    ensures Inverts(4, Pos(3 * a, 2 * (b + 1))) != Inverts(4, Pos(3 * a, 2 * b))
  {
    hide Inverts;
    InBlock(0, 0, 0, 0);
    InBlock(a, b, i, j);
    InBlock(a, b, 0, 0);
    InBlock(a + 1, b, 0, 0);
    InBlock(a, b + 1, 0, 0);
    Neighbors(a + b);
    assert a + 1 + b == a + b + 1 && a + (b + 1) == a + b + 1;
  }

  lemma InBlock(a: int, b: int, i: int, j: int)
    requires 0 <= i < 3 && 0 <= j < 2
    ensures Inverts(4, Pos(3 * a + i, 2 * b + j)) == ((a + b) % 2 == 0)
  {
    hide Inverts;
    InvertsCases(4, 3 * a + i, 2 * b + j);
    Third(a, i);
    Half(b, j);
  }

  lemma Third(a: int, i: int)
    requires 0 <= i < 3
    ensures (3 * a + i) / 3 == a
  {
  }

  lemma Half(b: int, j: int)
    requires 0 <= j < 2
    ensures (2 * b + j) / 2 == b
  {
  }

  /** Masks 5 and 6 depend on the product of the coordinates modulo 6, and mask 7 is mask 0 inverted where it is 1 modulo 3. */
  lemma ProductMasks(x: int, y: int)
    ensures Inverts(5, Pos(x, y)) <==> x * y % 6 == 0
    ensures Inverts(6, Pos(x, y)) <==> x * y % 6 < 3
    ensures Inverts(7, Pos(x, y)) == (Inverts(0, Pos(x, y)) != (x * y % 3 == 1))
  {
    Residues(x * y);
  }

  lemma Residues(p: int)
    ensures p % 2 == p % 6 % 2 && p % 3 == p % 6 % 3
  {
    var q, r := p / 6, p % 6;
    assert p == 6 * q + r;
    Remainder(p, 2, 3 * q + r / 2, r % 2);
    Remainder(p, 3, 2 * q + r / 3, r % 3);
  }

  lemma Remainder(n: int, d: int, k: int, r: int)
    requires d in {2, 3} && n == d * k + r && 0 <= r < d
    ensures n % d == r
  {
    if d == 2 {
      assert (2 * k + r) % 2 == r;
    } else {
      assert (3 * k + r) % 3 == r;
    }
  }

  // ----- Applying masks -----

  /** The grid with the codeword modules exclusive-ored with the mask pattern. */
  function Masked(g: Grid, isFunction: Grid, size: nat, msk: int): (m: Grid)
    requires Square(g, size) && Square(isFunction, size) && 0 <= msk < 8
    ensures Square(m, size)
    ensures forall t: Pos :: Inside(size, t) ==>
              At(m, size, t) == (At(g, size, t) != (Inverts(msk, t) && !At(isFunction, size, t)))
  {
    seq(size, y requires 0 <= y < size =>
      seq(size, x requires 0 <= x < size => g[y][x] != (Inverts(msk, Pos(x, y)) && !isFunction[y][x])))
  }

  /** A second application of a mask undoes it. */
  lemma MaskTwice(g: Grid, isFunction: Grid, size: nat, msk: int)
    requires Square(g, size) && Square(isFunction, size) && 0 <= msk < 8
    ensures Masked(Masked(g, isFunction, size, msk), isFunction, size, msk) == g
  {
    hide Masked, Inverts;
    SameGrid(Masked(Masked(g, isFunction, size, msk), isFunction, size, msk), g, size);
  }

  /** Masks commute. */
  lemma MasksCommute(g: Grid, isFunction: Grid, size: nat, m: int, n: int)
    requires Square(g, size) && Square(isFunction, size) && 0 <= m < 8 && 0 <= n < 8
    ensures Masked(Masked(g, isFunction, size, m), isFunction, size, n)
         == Masked(Masked(g, isFunction, size, n), isFunction, size, m)
  {
    hide Masked, Inverts;
    SameGrid(Masked(Masked(g, isFunction, size, m), isFunction, size, n),
             Masked(Masked(g, isFunction, size, n), isFunction, size, m), size);
  }

  /** The masks ms applied in turn. */
  function MaskedAll(g: Grid, isFunction: Grid, size: nat, ms: seq<int>): (m: Grid)
    requires Square(g, size) && Square(isFunction, size) && forall i :: 0 <= i < |ms| ==> 0 <= ms[i] < 8
    ensures Square(m, size)
    decreases |ms|
  {
    if |ms| == 0 then g else Masked(MaskedAll(g, isFunction, size, ms[..|ms| - 1]), isFunction, size, ms[|ms| - 1])
  }

  /** No sequence of masks changes a function module. */
  lemma {:induction false} MasksKeepFunctionModules(g: Grid, isFunction: Grid, size: nat, ms: seq<int>, t: Pos)
    requires Square(g, size) && Square(isFunction, size) && forall i :: 0 <= i < |ms| ==> 0 <= ms[i] < 8
    requires Inside(size, t) && At(isFunction, size, t)
    ensures At(MaskedAll(g, isFunction, size, ms), size, t) == At(g, size, t)
    decreases |ms|
  {
    hide Masked, Inverts;
    if |ms| > 0 {
      MasksKeepFunctionModules(g, isFunction, size, ms[..|ms| - 1], t);
    }
  }

  // ----- Masks and patches -----

  /** The modules after a patch is laid over them. */
  function LaidGrid(g: Grid, size: nat, p: Patch): (m: Grid)
    requires Square(g, size)
    ensures Square(m, size)
    ensures forall t: Pos :: Inside(size, t) ==>
              At(m, size, t) == if Covers(p, size, t) then Color(p, size, t) else At(g, size, t)
  {
    seq(size, y requires 0 <= y < size =>
      seq(size, x requires 0 <= x < size =>
        if Covers(p, size, Pos(x, y)) then Color(p, size, Pos(x, y)) else g[y][x]))
  }

  /** The grid that is scored for a mask: masked, with format bits that say so. */
  function Candidate(g: Grid, isFunction: Grid, size: nat, msk: int, format: nat): (m: Grid)
    requires Square(g, size) && Square(isFunction, size) && 0 <= msk < 8
    ensures Square(m, size)
  {
    LaidGrid(Masked(g, isFunction, size, msk), size, FormatPatch(format))
  }

  ghost predicate FormatMarked(isFunction: Grid, size: nat) {
    Square(isFunction, size) && forall t: Pos :: Inside(size, t) && FormatBitAt(size, t).Some? ==> At(isFunction, size, t)
  }

  /** Format bits of an earlier trial leave no trace in the next. */
  lemma TrialForgets(g: Grid, isFunction: Grid, size: nat, msk: int, earlier: nat, format: nat)
    requires Square(g, size) && FormatMarked(isFunction, size) && 0 <= msk < 8
    ensures LaidGrid(Masked(LaidGrid(g, size, FormatPatch(earlier)), isFunction, size, msk), size, FormatPatch(format))
         == Candidate(g, isFunction, size, msk, format)
  {
    hide Masked, LaidGrid, Inverts, FormatBitAt;
    SameGrid(LaidGrid(Masked(LaidGrid(g, size, FormatPatch(earlier)), isFunction, size, msk), size, FormatPatch(format)),
             Candidate(g, isFunction, size, msk, format), size);
  }

  /** Taking the mask off a trial leaves the unmasked grid with the trial's format bits. */
  lemma TrialUndone(g: Grid, isFunction: Grid, size: nat, msk: int, format: nat)
    requires Square(g, size) && FormatMarked(isFunction, size) && 0 <= msk < 8
    ensures Masked(Candidate(g, isFunction, size, msk, format), isFunction, size, msk)
         == LaidGrid(g, size, FormatPatch(format))
  {
    hide Masked, LaidGrid, Inverts, FormatBitAt;
    SameGrid(Masked(Candidate(g, isFunction, size, msk, format), isFunction, size, msk),
             LaidGrid(g, size, FormatPatch(format)), size);
  }
}
