/** The field GF(2^8/0x11D) in which the Reed-Solomon codes of QR Codes are computed. */
module Gf256 {
  import opened BinaryPoly

  /** The field polynomial x^8 + x^4 + x^3 + x^2 + 1. */
  const MODULUS: nat := 0x11D

  lemma XorHighBit(a: nat, b: nat)
    ensures Xor(a, b) / 128 == Xor(a / 128, b / 128)
  {
    XorShr(a, b, 7);
    Shr7(a);
    Shr7(b);
    Shr7(Xor(a, b));
  }

  lemma Shr4(a: nat)
    ensures Shr(a, 4) == a / 16
  {
    var b := a / 2 / 2;
    assert Shr(a, 4) == Shr(a / 2, 3) == Shr(b, 2) == Shr(b / 2, 1) == b / 2 / 2;
  }

  lemma Shr7(a: nat)
    ensures Shr(a, 7) == a / 128
  {
    var b := a / 2 / 2 / 2;
    assert Shr(a, 7) == Shr(a / 2, 6) == Shr(a / 2 / 2, 5) == Shr(b, 4);
    Shr4(b);
    assert b == a / 8;
  }

  lemma XorByte(a: byte, b: byte)
    ensures Xor(a, b) < 256
  {
    assert Pow2(8) == 256;
    XorBound(a, b, 8);
  }

  /** What multiplication by X must add to cancel the bit that leaves the byte. */
  function Reduction(a: byte): nat {
    if a < 128 then 0 else MODULUS
  }

  lemma TimesXBound(a: byte)
    ensures Xor(2 * a, Reduction(a)) < 256
  {
    hide Xor;
    var r := Reduction(a) / 2;
    XorStep(2 * a, Reduction(a));
    XorHighBit(a, r);
    XorSelf(a / 128);
  }

  /** Field addition. */
  function Add(a: byte, b: byte): byte {
    XorByte(a, b);
    Xor(a, b)
  }

  /** Multiplication by the field element 0x02. */
  function TimesX(a: byte): byte {
    TimesXBound(a);
    Xor(2 * a, Reduction(a))
  }

  /** Field multiplication. */
  function Mul(x: byte, y: byte): byte
    decreases y
  {
    if y == 0 then 0
    else Add(TimesX(Mul(x, y / 2)), if y % 2 == 1 then x else 0)
  }

  lemma ReductionLinear(a: byte, b: byte)
    ensures Xor(Reduction(a), Reduction(b)) == Reduction(Add(a, b))
  {
    XorHighBit(a, b);
    XorSelf(MODULUS);
  }

  lemma TimesXLinear(a: byte, b: byte)
    ensures TimesX(Add(a, b)) == Add(TimesX(a), TimesX(b))
  {
    XorRegroup(2 * a, Reduction(a), 2 * b, Reduction(b));
    XorDouble(a, b);
    ReductionLinear(a, b);
  }

  lemma {:induction false} MulLinearLeft(x: byte, w: byte, y: byte)
    ensures Mul(Add(x, w), y) == Add(Mul(x, y), Mul(w, y))
    decreases y
  {
    if y != 0 {
      MulLinearLeft(x, w, y / 2);
      TimesXLinear(Mul(x, y / 2), Mul(w, y / 2));
      XorRegroup(TimesX(Mul(x, y / 2)), if y % 2 == 1 then x else 0, TimesX(Mul(w, y / 2)), if y % 2 == 1 then w else 0);
    }
  }

  lemma {:induction false} MulTimesXLeft(x: byte, y: byte)
    ensures Mul(TimesX(x), y) == TimesX(Mul(x, y))
    decreases y
  {
    if y != 0 {
      MulTimesXLeft(x, y / 2);
      TimesXLinear(TimesX(Mul(x, y / 2)), if y % 2 == 1 then x else 0);
    }
  }

  /** A byte is X times its upper seven bits plus its lowest bit. */
  lemma SplitLowBit(y: byte)
    ensures y == Add(TimesX(y / 2), y % 2)
  {
    XorStep(2 * (y / 2), y % 2);
  }

  lemma {:induction false} MulOneLeft(y: byte)
    ensures Mul(1, y) == y
    decreases y
  {
    if y != 0 {
      MulOneLeft(y / 2);
      SplitLowBit(y);
    }
  }

  lemma {:induction false} MulZeroLeft(y: byte)
    ensures Mul(0, y) == 0
    decreases y
  {
    if y != 0 {
      MulZeroLeft(y / 2);
    }
  }

  lemma {:induction false} MulCommutative(x: byte, y: byte)
    ensures Mul(x, y) == Mul(y, x)
    decreases y
  {
    if y == 0 {
      MulZeroLeft(x);
    } else {
      var h, b: byte := y / 2, y % 2;
      SplitLowBit(y);
      MulLinearLeft(TimesX(h), b, x);
      MulTimesXLeft(h, x);
      MulCommutative(x, h);
      MulOneLeft(x);
      MulZeroLeft(x);
    }
  }

  lemma MulLinearRight(x: byte, y: byte, z: byte)
    ensures Mul(x, Add(y, z)) == Add(Mul(x, y), Mul(x, z))
  {
    MulCommutative(x, Add(y, z));
    MulCommutative(x, y);
    MulCommutative(x, z);
    MulLinearLeft(y, z, x);
  }

  lemma MulTimesXRight(x: byte, y: byte)
    ensures Mul(x, TimesX(y)) == TimesX(Mul(x, y))
  {
    MulCommutative(x, TimesX(y));
    MulCommutative(x, y);
    MulTimesXLeft(y, x);
  }

  lemma {:induction false} MulAssociative(x: byte, y: byte, z: byte)
    ensures Mul(Mul(x, y), z) == Mul(x, Mul(y, z))
    decreases z
  {
    if z != 0 {
      var h: byte, b := z / 2, if z % 2 == 1 then y else 0;
      MulAssociative(x, y, h);
      MulLinearRight(x, TimesX(Mul(y, h)), b);
      MulTimesXRight(x, Mul(y, h));
    }
  }

  // ----- Meaning: the product of polynomials over GF(2), modulo 0x11D -----

  /** The quotient when the product of x and y is divided by the field polynomial. */
  function FieldQuotient(x: byte, y: byte): nat
    decreases y
  {
    if y == 0 then 0 else 2 * FieldQuotient(x, y / 2) + Mul(x, y / 2) / 128
  }

  // Doubling and adding `low`, with the reduction moved into the multiple c of the modulus.
  lemma ShiftReduction(c: nat, m: byte, low: byte)
    ensures Xor(2 * Xor(c, m), low) == Xor(Xor(2 * c, Reduction(m)), Add(TimesX(m), low))
  {
    XorDouble(c, m);
    XorRegroup(2 * c, Reduction(m), 2 * m, Reduction(m));
    XorSelf(Reduction(m));
    XorAssociative(Xor(2 * c, Reduction(m)), TimesX(m), low);
  }

  lemma QuotientStep(q: nat, m: byte)
    ensures ClMul(MODULUS, 2 * q + m / 128) == Xor(2 * ClMul(MODULUS, q), Reduction(m))
  {
    assert (2 * q + m / 128) / 2 == q;
  }

  lemma {:induction false} MulIsProductModulo(x: byte, y: byte)
    ensures ClMul(x, y) == Xor(ClMul(MODULUS, FieldQuotient(x, y)), Mul(x, y))
    decreases y
  {
    hide Xor, Reduction;
    if y == 0 {
      XorZero(0);
    } else {
      var q, m := FieldQuotient(x, y / 2), Mul(x, y / 2);
      MulIsProductModulo(x, y / 2);
      ShiftReduction(ClMul(MODULUS, q), m, if y % 2 == 1 then x else 0);
      QuotientStep(q, m);
    }
  }

  // Adding a number below 512 leaves the bits from 512 up alone.
  lemma ClMulModulusLarge(q: nat)
    requires q > 0
    ensures ClMul(MODULUS, q) >= 256
  {
    if q > 1 {
      ClMulModulusLarge(q / 2);
      var c, d := 2 * ClMul(MODULUS, q / 2), if q % 2 == 1 then MODULUS else 0;
      XorHighBit(c, d);
      XorStep(c / 128, d / 128);
      XorStep(c / 256, d / 256);
    }
  }

  /** The remainder modulo the field polynomial is unique, so the previous lemma determines `Mul`. */
  lemma ModuloUnique(q: nat, r: byte, q': nat, r': byte)
    requires Xor(ClMul(MODULUS, q), r) == Xor(ClMul(MODULUS, q'), r')
    ensures r == r'
  {
    var c, c' := ClMul(MODULUS, q), ClMul(MODULUS, q');
    calc {
      0;
      { XorSelf(Xor(c, r)); }
      Xor(Xor(c, r), Xor(c', r'));
      { XorRegroup(c, r, c', r'); ClMulLinearRight(MODULUS, q, q'); }
      Xor(ClMul(MODULUS, Xor(q, q')), Xor(r, r'));
    }
    XorZeroMeansEqual(ClMul(MODULUS, Xor(q, q')), Xor(r, r'));
    XorByte(r, r');
    if Xor(q, q') > 0 {
      ClMulModulusLarge(Xor(q, q'));
    }
    XorZeroMeansEqual(r, r');
  }

  lemma XorZeroMeansEqual(a: nat, b: nat)
    requires Xor(a, b) == 0
    ensures a == b
  {
    XorAssociative(a, b, b);
    XorSelf(b);
  }

  // One turn of the multiplication loop, for the bits of y from position i up.
  lemma PeasantStep(x: byte, y: byte, i: nat)
    requires Shr(y, i) < 256 && Shr(y, i + 1) < 256
    ensures Mul(x, Shr(y, i)) == Add(TimesX(Mul(x, Shr(y, i + 1))), if Shr(y, i) % 2 == 1 then x else 0)
  {
    ShrStep(y, i);
  }

  /** `QrCode::reedSolomonMultiply`. */
  method Multiply(x: byte, y: byte) returns (r: byte)
    ensures r == Mul(x, y)
    ensures ClMul(x, y) == Xor(ClMul(MODULUS, FieldQuotient(x, y)), r)
  {
    hide Xor;
    var z: nat := 0;
    var i := 7;
    assert Shr(y, 8) == 0 by { Shr7(y); ShrStep(y, 7); }
    while i >= 0
      invariant -1 <= i <= 7
      invariant Shr(y, i + 1) < 256 && z == Mul(x, Shr(y, i + 1))
    {
      ShrBound(y, i);
      PeasantStep(x, y, i);
      assert (z / 128) * 0x11D == Reduction(z);
      z := Xor(2 * z, (z / 128) * 0x11D);
      assert (Shr(y, i) % 2) * x == if Shr(y, i) % 2 == 1 then x else 0;
      z := Xor(z, (Shr(y, i) % 2) * x);
      i := i - 1;
    }
    assert z / 256 == 0;
    MulIsProductModulo(x, y);
    r := z;
  }

  // ----- Powers of the generator element -----

  /** The n-th power of b. */
  function Pow(b: byte, n: nat): byte {
    if n == 0 then 1 else Mul(Pow(b, n - 1), b)
  }

  lemma {:induction false} PowAdd(b: byte, m: nat, n: nat)
    ensures Pow(b, m + n) == Mul(Pow(b, m), Pow(b, n))
  {
    hide Mul;
    if n == 0 {
      MulOneRight(Pow(b, m));
    } else {
      PowAdd(b, m, n - 1);
      MulAssociative(Pow(b, m), Pow(b, n - 1), b);
    }
  }

  lemma MulOneRight(x: byte)
    ensures Mul(x, 1) == x
  {
    MulCommutative(x, 1);
    MulOneLeft(x);
  }

  lemma MulTwo(x: byte)
    ensures Mul(x, 2) == TimesX(x)
  {
    assert Mul(x, 2) == TimesX(Mul(x, 1));
    MulOneRight(x);
  }

  lemma PowTwoStep(n: nat)
    ensures Pow(2, n + 1) == TimesX(Pow(2, n))
  {
    MulTwo(Pow(2, n));
  }

  lemma TimesXNonzero(a: byte)
    requires a != 0
    ensures TimesX(a) != 0
  {
    if TimesX(a) == 0 {
      XorZeroMeansEqual(2 * a, Reduction(a));
    }
  }

  lemma {:induction false} PowTwoNonzero(n: nat)
    ensures Pow(2, n) != 0
  {
    hide Pow, TimesX;
    PowZero(2);
    if n != 0 {
      PowTwoNonzero(n - 1);
      PowTwoStep(n - 1);
      TimesXNonzero(Pow(2, n - 1));
    }
  }

  // The next lemmas carry out multiplications on known numbers, one step in each line.

  lemma TimesXLow(a: byte)
    requires a < 128
    ensures TimesX(a) == 2 * a
  {
  }

  lemma DifferConstant()
    ensures forall i: bit :: Differ(i, 0) == i && Differ(i, 1) == 1 - i
  {
  }

  lemma TimesXHigh(a6: bit, a5: bit, a4: bit, a3: bit, a2: bit, a1: bit, a0: bit)
    ensures TimesX(128 + 64 * a6 + 32 * a5 + 16 * a4 + 8 * a3 + 4 * a2 + 2 * a1 + a0)
         == 128 * a6 + 64 * a5 + 32 * a4 + 16 * (1 - a3) + 8 * (1 - a2) + 4 * (1 - a1) + 2 * a0 + 1
  {
    hide Xor, Differ;
    DifferConstant();
    var h := 16 + 8 * a6 + 4 * a5 + 2 * a4 + a3;
    XorSelf(1);
    XorJoin4(1, a6, a5, a4, a3, 1, 0, 0, 0, 1);
    XorJoin4(h, a2, a1, a0, 0, 17, 1, 1, 0, 1);
    var a := 128 + 64 * a6 + 32 * a5 + 16 * a4 + 8 * a3 + 4 * a2 + 2 * a1 + a0;
    assert 2 * a == 16 * h + 8 * a2 + 4 * a1 + 2 * a0 + 0;
    assert Reduction(a) == 16 * 17 + 8 * 1 + 4 * 1 + 2 * 0 + 1;
  }

  lemma MulEven(x: byte, h: byte)
    requires 0 < h < 128
    ensures Mul(x, 2 * h) == TimesX(Mul(x, h))
  {
    hide Xor;
    XorZero(TimesX(Mul(x, h)));
  }

  lemma MulOdd(x: byte, h: byte)
    requires h < 128
    ensures Mul(x, 2 * h + 1) == Add(TimesX(Mul(x, h)), x)
  {
    hide Xor;
  }

  lemma PowZero(b: byte)
    ensures Pow(b, 0) == 1
  {
  }

  lemma SmallPowersOfTwo()
    ensures Pow(2, 1) == 2 && Pow(2, 3) == 8 && Pow(2, 5) == 32 && Pow(2, 15) == 38 && Pow(2, 17) == 152
  {
    hide Pow, TimesX;
    PowZero(2);
    PowTwoStep(0); TimesXLow(1);
    PowTwoStep(1); TimesXLow(2);
    PowTwoStep(2); TimesXLow(4);
    PowTwoStep(3); TimesXLow(8);
    PowTwoStep(4); TimesXLow(16);
    PowTwoStep(5); TimesXLow(32);
    PowTwoStep(6); TimesXLow(64);
    PowTwoStep(7); TimesXHigh(0,0,0,0,0,0,0);
    PowTwoStep(8); TimesXLow(29);
    PowTwoStep(9); TimesXLow(58);
    PowTwoStep(10); TimesXLow(116);
    PowTwoStep(11); TimesXHigh(1,1,0,1,0,0,0);
    PowTwoStep(12); TimesXHigh(1,0,0,1,1,0,1);
    PowTwoStep(13); TimesXHigh(0,0,0,0,1,1,1);
    PowTwoStep(14); TimesXLow(19);
    PowTwoStep(15); TimesXLow(38);
    PowTwoStep(16); TimesXLow(76);
  }

  lemma PowerOfTwo34()
    ensures Pow(2, 34) == 78
  {
    hide Pow, Mul, Xor, TimesX;
    XorZero(0);
    SmallPowersOfTwo();
    PowAdd(2, 17, 17);
    MulOneRight(152);
    MulEven(152, 1); TimesXHigh(0,0,1,1,0,0,0);
    MulEven(152, 2); TimesXLow(45);
    MulOdd(152, 4); TimesXLow(90); XorJoin4(0, 1,0,1,1, 0, 1,0,0,1); XorJoin4(11, 0,1,0,0, 9, 1,0,0,0);
    MulOdd(152, 9); TimesXLow(44); XorJoin4(0, 0,1,0,1, 0, 1,0,0,1); XorJoin4(5, 1,0,0,0, 9, 1,0,0,0);
    MulEven(152, 19); TimesXHigh(1,0,0,0,0,0,0);
    MulEven(152, 38); TimesXHigh(0,0,1,1,1,0,1);
    MulEven(152, 76); TimesXLow(39);
  }

  lemma PowerOfTwo51()
    ensures Pow(2, 51) == 10
  {
    hide Pow, Mul, Xor, TimesX;
    XorZero(0);
    SmallPowersOfTwo();
    PowerOfTwo34();
    PowAdd(2, 34, 17);
    MulOneRight(78);
    MulEven(78, 1); TimesXLow(78);
    MulEven(78, 2); TimesXHigh(0,0,1,1,1,0,0);
    MulOdd(78, 4); TimesXLow(37); XorJoin4(0, 0,1,0,0, 0, 0,1,0,0); XorJoin4(4, 1,0,1,0, 4, 1,1,1,0);
    MulOdd(78, 9); TimesXLow(4); XorJoin4(0, 0,0,0,0, 0, 0,1,0,0); XorJoin4(0, 1,0,0,0, 4, 1,1,1,0);
    MulEven(78, 19); TimesXLow(70);
    MulEven(78, 38); TimesXHigh(0,0,0,1,1,0,0);
    MulEven(78, 76); TimesXLow(5);
  }

  lemma PowerOfTwo85()
    ensures Pow(2, 85) == 214
  {
    hide Pow, Mul, Xor, TimesX;
    XorZero(0);
    PowerOfTwo34();
    PowerOfTwo51();
    PowAdd(2, 34, 51);
    MulOneRight(78);
    MulEven(78, 1); TimesXLow(78);
    MulOdd(78, 2); TimesXHigh(0,0,1,1,1,0,0); XorJoin4(0, 0,0,1,0, 0, 0,1,0,0); XorJoin4(2, 0,1,0,1, 4, 1,1,1,0);
    MulEven(78, 5); TimesXLow(107);
  }

  lemma PowerOfTwo170()
    ensures Pow(2, 170) == 215
  {
    hide Pow, Mul, Xor, TimesX;
    XorZero(0);
    PowerOfTwo85();
    PowAdd(2, 85, 85);
    MulOneRight(214);
    MulOdd(214, 1); TimesXHigh(1,0,1,0,1,1,0); XorJoin4(0, 1,0,1,1, 0, 1,1,0,1); XorJoin4(11, 0,0,0,1, 13, 0,1,1,0);
    MulEven(214, 3); TimesXLow(103);
    MulOdd(214, 6); TimesXHigh(1,0,0,1,1,1,0); XorJoin4(0, 1,0,0,0, 0, 1,1,0,1); XorJoin4(8, 0,0,0,1, 13, 0,1,1,0);
    MulEven(214, 13); TimesXLow(87);
    MulOdd(214, 26); TimesXHigh(0,1,0,1,1,1,0); XorJoin4(0, 0,1,0,0, 0, 1,1,0,1); XorJoin4(4, 0,0,0,1, 13, 0,1,1,0);
    MulOdd(214, 53); TimesXHigh(0,0,1,0,1,1,1); XorJoin4(0, 0,0,1,1, 0, 1,1,0,1); XorJoin4(3, 0,0,1,1, 13, 0,1,1,0);
    MulEven(214, 107); TimesXHigh(1,1,0,0,1,0,1);
  }

  lemma PowerOfTwo255()
    ensures Pow(2, 255) == 1
  {
    hide Pow, Mul, Xor, TimesX;
    XorZero(0);
    PowerOfTwo85();
    PowerOfTwo170();
    PowAdd(2, 170, 85);
    MulOneRight(215);
    MulOdd(215, 1); TimesXHigh(1,0,1,0,1,1,1); XorJoin4(0, 1,0,1,1, 0, 1,1,0,1); XorJoin4(11, 0,0,1,1, 13, 0,1,1,1);
    MulEven(215, 3); TimesXLow(100);
    MulOdd(215, 6); TimesXHigh(1,0,0,1,0,0,0); XorJoin4(0, 1,0,0,0, 0, 1,1,0,1); XorJoin4(8, 1,1,0,1, 13, 0,1,1,1);
    MulEven(215, 13); TimesXLow(90);
    MulOdd(215, 26); TimesXHigh(0,1,1,0,1,0,0); XorJoin4(0, 0,1,1,1, 0, 1,1,0,1); XorJoin4(7, 0,1,0,1, 13, 0,1,1,1);
    MulOdd(215, 53); TimesXHigh(0,1,0,0,0,1,0); XorJoin4(0, 0,1,0,1, 0, 1,1,0,1); XorJoin4(5, 1,0,0,1, 13, 0,1,1,1);
    MulEven(215, 107); TimesXHigh(0,0,0,1,1,1,0);
  }

  // ----- The generator element has order 255, so the field has no zero divisors -----

  /** Two exponents at which the power is 1 have a common divisor at which it is 1. */
  lemma {:induction false} PowOneDivisor(a: nat, b: nat) returns (g: nat, i: nat, j: nat)
    requires 0 < a && 0 < b && Pow(2, a) == 1 == Pow(2, b)
    ensures 0 < g && Pow(2, g) == 1 && a == g * i && b == g * j
    decreases a + b
  {
    hide Pow, Mul;
    if a == b {
      g, i, j := a, 1, 1;
    } else if a > b {
      PowAdd(2, a - b, b);
      MulOneRight(Pow(2, a - b));
      g, i, j := PowOneDivisor(a - b, b);
      i := i + j;
    } else {
      PowAdd(2, b - a, a);
      MulOneRight(Pow(2, b - a));
      g, i, j := PowOneDivisor(a, b - a);
      j := i + j;
    }
  }

  lemma SmallDivisorOf255(g: nat, k: nat)
    requires g * k == 255 && g <= 15
    ensures g == 1 || g == 3 || g == 5 || g == 15
  {
    assert g != 0 && g != 2 && g != 4 && g != 6 && g != 7 && g != 8 && g != 9 && g != 10;
    assert g != 11 && g != 12 && g != 13 && g != 14;
  }

  lemma MulAtLeast(a: nat, b: nat, m: nat, n: nat)
    requires m <= a && n <= b
    ensures m * n <= a * b
  {
    assert m * n <= a * n <= a * b;
  }

  lemma DivisorOf255(g: nat, k: nat)
    requires g * k == 255
    ensures g == 1 || g == 3 || g == 5 || g == 15 || g == 17 || g == 51 || g == 85 || g == 255
  {
    if g <= 15 {
      SmallDivisorOf255(g, k);
    } else {
      if k > 15 {
        MulAtLeast(g, k, 16, 16);
      }
      SmallDivisorOf255(k, g);
    }
  }

  lemma OrderOfTwo(m: nat)
    requires 0 < m < 255
    ensures Pow(2, m) != 1
  {
    hide Pow;
    if Pow(2, m) == 1 {
      PowerOfTwo255();
      var g, i, j := PowOneDivisor(255, m);
      MulAtLeast(g, j, g, 1);
      DivisorOf255(g, i);
      SmallPowersOfTwo();
      PowerOfTwo51();
      PowerOfTwo85();
    }
  }

  lemma PowersDistinct(i: nat, j: nat)
    requires i < j < i + 255
    ensures Pow(2, i) != Pow(2, j)
  {
    hide Pow;
    if Pow(2, i) == Pow(2, j) {
      PowCancel(i, j - i);
      OrderOfTwo(j - i);
    }
  }

  lemma {:induction false} PowCancel(i: nat, m: nat)
    requires Pow(2, i) == Pow(2, i + m)
    ensures Pow(2, m) == 1
  {
    hide Pow, TimesX;
    PowZero(2);
    if i > 0 {
      PowTwoStep(i - 1);
      PowTwoStep(i - 1 + m);
      TimesXInjective(Pow(2, i - 1), Pow(2, i - 1 + m));
      PowCancel(i - 1, m);
    }
  }

  lemma TimesXInjective(a: byte, b: byte)
    requires TimesX(a) == TimesX(b)
    ensures a == b
  {
    TimesXLinear(a, b);
    XorSelf(TimesX(a));
    if Add(a, b) != 0 {
      TimesXNonzero(Add(a, b));
    }
    XorZeroMeansEqual(a, b);
  }

  ghost function FirstPowers(n: nat): set<byte> {
    if n == 0 then {} else FirstPowers(n - 1) + {Pow(2, n - 1)}
  }

  lemma {:induction false} FirstPowersMember(n: nat, x: byte) returns (k: nat)
    requires x in FirstPowers(n)
    ensures k < n && x == Pow(2, k)
  {
    hide Pow;
    if x == Pow(2, n - 1) {
      k := n - 1;
    } else {
      k := FirstPowersMember(n - 1, x);
    }
  }

  lemma {:induction false} FirstPowersCount(n: nat)
    requires n <= 255
    ensures |FirstPowers(n)| == n
    ensures 0 !in FirstPowers(n)
  {
    hide Pow;
    if n > 0 {
      FirstPowersCount(n - 1);
      PowTwoNonzero(n - 1);
      if Pow(2, n - 1) in FirstPowers(n - 1) {
        var k := FirstPowersMember(n - 1, Pow(2, n - 1));
        PowersDistinct(k, n - 1);
      }
    }
  }

  ghost function BytesFrom1(n: nat): set<byte>
    requires n <= 255
  {
    if n == 0 then {} else BytesFrom1(n - 1) + {n}
  }

  lemma {:induction false} BytesFrom1Count(n: nat)
    requires n <= 255
    ensures |BytesFrom1(n)| == n
    ensures forall x: byte :: x in BytesFrom1(n) <==> 1 <= x <= n
  {
    if n > 0 {
      BytesFrom1Count(n - 1);
    }
  }

  /** Every nonzero field element is a power of 0x02. */
  lemma Logarithm(x: byte) returns (k: nat)
    requires x != 0
    ensures k < 255 && x == Pow(2, k)
  {
    hide Pow, FirstPowers, BytesFrom1;
    FirstPowersCount(255);
    BytesFrom1Count(255);
    assert FirstPowers(255) <= BytesFrom1(255);
    SubsetOfSameSize(FirstPowers(255), BytesFrom1(255));
    k := FirstPowersMember(255, x);
  }

  lemma SubsetOfSameSize<T>(a: set<T>, b: set<T>)
    requires a <= b && |a| == |b|
    ensures a == b
  {
    assert b == a + (b - a);
  }

  lemma NoZeroDivisors(x: byte, y: byte)
    requires Mul(x, y) == 0
    ensures x == 0 || y == 0
  {
    hide Pow, Mul;
    if x != 0 && y != 0 {
      var i := Logarithm(x);
      var j := Logarithm(y);
      PowAdd(2, i, j);
      PowTwoNonzero(i + j);
    }
  }
}
