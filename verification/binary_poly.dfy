/** Polynomials over GF(2), written as the natural number whose bits are the coefficients. */
module BinaryPoly {

  type byte = x: int | 0 <= x < 256

  /** Bitwise exclusive or, which is addition of polynomials over GF(2). */
  function Xor(a: nat, b: nat): nat
    decreases a
  {
    if a == 0 then b
    else if b == 0 then a
    else 2 * Xor(a / 2, b / 2) + (if a % 2 == b % 2 then 0 else 1)
  }

  /** Two to the power n. */
  function Pow2(n: nat): (p: nat)
    ensures p >= 1
  {
    if n == 0 then 1 else 2 * Pow2(n - 1)
  }

  /** One step of `Xor`, with no case for zero operands. */
  lemma XorStep(a: nat, b: nat)
    ensures Xor(a, b) / 2 == Xor(a / 2, b / 2)
    ensures Xor(a, b) % 2 == if a % 2 == b % 2 then 0 else 1
  {
  }

  lemma XorZero(a: nat)
    ensures Xor(a, 0) == a == Xor(0, a)
  {
  }

  lemma {:induction false} XorCommutative(a: nat, b: nat)
    ensures Xor(a, b) == Xor(b, a)
  {
    if a != 0 && b != 0 {
      XorCommutative(a / 2, b / 2);
    }
  }

  lemma {:induction false} XorSelf(a: nat)
    ensures Xor(a, a) == 0
  {
    if a != 0 {
      XorSelf(a / 2);
    }
  }

  lemma {:induction false} XorAssociative(a: nat, b: nat, c: nat)
    ensures Xor(Xor(a, b), c) == Xor(a, Xor(b, c))
  {
    if a != 0 && b != 0 && c != 0 {
      XorAssociative(a / 2, b / 2, c / 2);
      XorStep(a, b);
      XorStep(b, c);
      XorStep(Xor(a, b), c);
      XorStep(a, Xor(b, c));
    }
  }

  lemma {:induction false} XorBound(a: nat, b: nat, k: nat)
    requires a < Pow2(k) && b < Pow2(k)
    ensures Xor(a, b) < Pow2(k)
  {
    if a != 0 && b != 0 {
      XorBound(a / 2, b / 2, k - 1);
    }
  }

  /** Multiplication by X distributes over addition. */
  lemma XorDouble(a: nat, b: nat)
    ensures Xor(2 * a, 2 * b) == 2 * Xor(a, b)
  {
    XorStep(2 * a, 2 * b);
  }

  /** The number a with its k lowest bits dropped. */
  function Shr(a: nat, k: nat): nat {
    if k == 0 then a else Shr(a / 2, k - 1)
  }

  lemma {:induction false} XorShr(a: nat, b: nat, k: nat)
    ensures Shr(Xor(a, b), k) == Xor(Shr(a, k), Shr(b, k))
  {
    if k != 0 {
      XorStep(a, b);
      XorShr(a / 2, b / 2, k - 1);
    }
  }

  lemma {:induction false} ShrStep(a: nat, k: nat)
    ensures Shr(a, k) / 2 == Shr(a, k + 1)
  {
    if k != 0 {
      ShrStep(a / 2, k - 1);
    }
  }

  lemma {:induction false} ShrBound(a: nat, k: nat)
    ensures Shr(a, k) <= a
  {
    if k != 0 {
      ShrBound(a / 2, k - 1);
    }
  }

  /** Multiplication of polynomials over GF(2), the carry-less product. */
  function ClMul(x: nat, y: nat): nat
    decreases y
  {
    if y == 0 then 0
    else Xor(2 * ClMul(x, y / 2), if y % 2 == 1 then x else 0)
  }

  /** Sums may be regrouped pairwise. */
  lemma XorRegroup(a: nat, b: nat, c: nat, d: nat)
    ensures Xor(Xor(a, b), Xor(c, d)) == Xor(Xor(a, c), Xor(b, d))
  {
    XorAssociative(a, b, Xor(c, d));
    XorAssociative(b, c, d);
    XorCommutative(b, c);
    XorAssociative(c, b, d);
    XorAssociative(a, c, Xor(b, d));
  }

  lemma {:induction false} ClMulLinearRight(x: nat, y: nat, z: nat)
    ensures ClMul(x, Xor(y, z)) == Xor(ClMul(x, y), ClMul(x, z))
  {
    if y != 0 && z != 0 {
      XorStep(y, z);
      ClMulLinearRight(x, y / 2, z / 2);
      XorDouble(ClMul(x, y / 2), ClMul(x, z / 2));
      XorRegroup(2 * ClMul(x, y / 2), if y % 2 == 1 then x else 0, 2 * ClMul(x, z / 2), if z % 2 == 1 then x else 0);
      XorSelf(x);
    }
  }

  // ----- `Xor` of numbers given by their bits -----

  type bit = x: int | 0 <= x < 2

  function Differ(i: bit, j: bit): bit {
    if i == j then 0 else 1
  }

  lemma XorJoin(a: nat, i: bit, b: nat, j: bit)
    ensures Xor(2 * a + i, 2 * b + j) == 2 * Xor(a, b) + Differ(i, j)
  {
    hide Xor;
    XorStep(2 * a + i, 2 * b + j);
    assert (2 * a + i) / 2 == a && (2 * b + j) / 2 == b;
  }

  lemma XorJoin2(a: nat, i1: bit, i0: bit, b: nat, j1: bit, j0: bit)
    ensures Xor(4 * a + 2 * i1 + i0, 4 * b + 2 * j1 + j0) == 4 * Xor(a, b) + 2 * Differ(i1, j1) + Differ(i0, j0)
  {
    hide Xor, Differ;
    XorJoin(a, i1, b, j1);
    XorJoin(2 * a + i1, i0, 2 * b + j1, j0);
    assert 2 * (2 * a + i1) + i0 == 4 * a + 2 * i1 + i0;
    assert 2 * (2 * b + j1) + j0 == 4 * b + 2 * j1 + j0;
  }

  lemma XorJoin4(a: nat, i3: bit, i2: bit, i1: bit, i0: bit, b: nat, j3: bit, j2: bit, j1: bit, j0: bit)
    ensures Xor(16 * a + 8 * i3 + 4 * i2 + 2 * i1 + i0, 16 * b + 8 * j3 + 4 * j2 + 2 * j1 + j0)
         == 16 * Xor(a, b) + 8 * Differ(i3, j3) + 4 * Differ(i2, j2) + 2 * Differ(i1, j1) + Differ(i0, j0)
  {
    hide Xor, Differ;
    var c, d := 4 * a + 2 * i3 + i2, 4 * b + 2 * j3 + j2;
    XorJoin2(a, i3, i2, b, j3, j2);
    XorJoin2(c, i1, i0, d, j1, j0);
    assert 4 * c + 2 * i1 + i0 == 16 * a + 8 * i3 + 4 * i2 + 2 * i1 + i0;
    assert 4 * d + 2 * j1 + j0 == 16 * b + 8 * j3 + 4 * j2 + 2 * j1 + j0;
  }
}
