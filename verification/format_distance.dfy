/** How far apart the format words are: any two differ in at least seven of their fifteen bits. */
module FormatDistance {
  import opened BinaryPoly
  import opened Bits
  import opened FormatInfo
  import opened Hamming
  import opened Tables
  import Gf256

  // ----- Counting bits -----

  /** Bit i of x. */
  function BitAt(x: nat, i: nat): bit {
    Shr(x, i) % 2
  }

  /** The number of ones among the n low-order bits. */
  function Ones(x: nat, n: nat): nat {
    if n == 0 then 0 else x % 2 + Ones(x / 2, n - 1)
  }

  /** Two numbers differ where their sum has ones. */
  lemma {:induction false} DistanceIsOnes(a: nat, b: nat, n: nat)
    ensures Distance(BitsOf(a, n), BitsOf(b, n)) == Ones(Xor(a, b), n)
    decreases n
  {
    hide Xor;
    if n > 0 {
      DistanceIsOnes(a / 2, b / 2, n - 1);
      XorStep(a, b);
      assert BitsOf(a, n)[..n - 1] == BitsOf(a / 2, n - 1) && BitsOf(b, n)[..n - 1] == BitsOf(b / 2, n - 1);
    }
  }

  lemma OnesStep(x: nat, i: nat, n: nat)
    ensures Ones(Shr(x, i), n + 1) == BitAt(x, i) + Ones(Shr(x, i + 1), n)
  {
    ShrStep(x, i);
  }

  lemma OnesFive(x: nat, i: nat, n: nat)
    ensures Ones(Shr(x, i), n + 5)
         == BitAt(x, i) + BitAt(x, i + 1) + BitAt(x, i + 2) + BitAt(x, i + 3) + BitAt(x, i + 4) + Ones(Shr(x, i + 5), n)
  {
    hide Ones, BitAt, Shr;
    OnesStep(x, i, n + 4);
    OnesStep(x, i + 1, n + 3);
    OnesStep(x, i + 2, n + 2);
    OnesStep(x, i + 3, n + 1);
    OnesStep(x, i + 4, n);
  }

  // ----- Multiples of the generator -----

  predicate IsSet(x: nat, i: nat) {
    BitAt(x, i) == 1
  }

  lemma BitOfSum(a: nat, b: nat, i: nat)
    ensures IsSet(Xor(a, b), i) == (IsSet(a, i) != IsSet(b, i))
  {
    hide Xor;
    XorShr(a, b, i);
    XorStep(Shr(a, i), Shr(b, i));
  }

  lemma BitOfDouble(a: nat, i: nat)
    ensures IsSet(2 * a, i) == (i > 0 && IsSet(a, i - 1))
  {
  }

  /** Bit i of the generator of the format code. */
  predicate GeneratorBit(i: int) {
    i == 0 || i == 1 || i == 2 || i == 4 || i == 5 || i == 8 || i == 10
  }

  /** The generator without its i low-order bits. */
  function Shifted(i: nat): nat {
    match i
    case 0 => 0x537
    case 1 => 0x29B
    case 2 => 0x14D
    case 3 => 0xA6
    case 4 => 0x53
    case 5 => 0x29
    case 6 => 0x14
    case 7 => 0xA
    case 8 => 5
    case 9 => 2
    case 10 => 1
    case _ => 0
  }

  lemma {:induction false} ShiftedMeans(i: nat)
    ensures Shr(0x537, i) == Shifted(i)
  {
    hide Shr;
    if i == 0 {
      ShrNone(0x537);
    } else {
      ShiftedMeans(i - 1);
      ShrStep(0x537, i - 1);
    }
  }

  lemma GeneratorBits(i: nat)
    ensures IsSet(0x537, i) == GeneratorBit(i)
  {
    hide Shr;
    ShiftedMeans(i);
  }

  lemma ShrNone(x: nat)
    ensures Shr(x, 0) == x
  {
  }

  /** Bit i of q times a generator. */
  predicate MultipleBit(g: nat, q: nat, i: int) {
    i >= 0 && IsSet(ClMul(g, q), i)
  }

  function One(b: bool): bit {
    if b then 1 else 0
  }

  /** One more bit of the factor: the product moves up, and the generator is added if the bit is set. */
  lemma MultipleStep(g: nat, q: nat, b: bool, i: int)
    ensures MultipleBit(g, 2 * q + One(b), i) == (MultipleBit(g, q, i - 1) != (i >= 0 && b && IsSet(g, i)))
  {
    hide Xor, ClMul, IsSet;
    if i >= 0 {
      ClMulStep(g, q, One(b));
      var p := ClMul(g, q);
      BitOfSum(2 * p, if b then g else 0, i);
      BitOfDouble(p, i);
      BitOfZero(i);
    }
  }

  lemma {:induction false} BitOfZero(i: nat)
    ensures !IsSet(0, i)
  {
    if i > 0 {
      BitOfZero(i - 1);
    }
  }

  /** Bit i of the generator times a factor of five bits. */
  predicate ProductBit(b4: bool, b3: bool, b2: bool, b1: bool, b0: bool, i: int) {
    ((((b4 && GeneratorBit(i - 4)) != (b3 && GeneratorBit(i - 3))) != (b2 && GeneratorBit(i - 2)))
     != (b1 && GeneratorBit(i - 1))) != (b0 && GeneratorBit(i))
  }

  function Factor(b4: bool, b3: bool, b2: bool, b1: bool, b0: bool): nat {
    16 * One(b4) + 8 * One(b3) + 4 * One(b2) + 2 * One(b1) + One(b0)
  }

  lemma ProductBits(b4: bool, b3: bool, b2: bool, b1: bool, b0: bool, i: int)
    ensures MultipleBit(0x537, Factor(b4, b3, b2, b1, b0), i) == ProductBit(b4, b3, b2, b1, b0, i)
  {
    hide MultipleBit, GeneratorBit, One, IsSet;
    var q4: nat := One(b4);
    var q3: nat := 2 * q4 + One(b3);
    var q2: nat := 2 * q3 + One(b2);
    var q1: nat := 2 * q2 + One(b1);
    MultipleOfNothing(0x537, i - 5);
    FormatStep(0, b4, i - 4);
    FormatStep(q4, b3, i - 3);
    FormatStep(q3, b2, i - 2);
    FormatStep(q2, b1, i - 1);
    FormatStep(q1, b0, i);
    assert 2 * q1 + One(b0) == Factor(b4, b3, b2, b1, b0);
  }

  lemma FormatStep(q: nat, b: bool, i: int)
    ensures MultipleBit(0x537, 2 * q + One(b), i) == (MultipleBit(0x537, q, i - 1) != (b && GeneratorBit(i)))
  {
    hide MultipleBit, One, IsSet;
    MultipleStep(0x537, q, b, i);
    if i >= 0 {
      GeneratorBits(i);
    }
  }

  lemma MultipleOfNothing(g: nat, i: int)
    ensures !MultipleBit(g, 0, i)
  {
    if i >= 0 {
      BitOfZero(i);
    }
  }

  /** Seven of the fifteen bits are set, unless the factor is zero. */
  lemma SevenBits(b4: bool, b3: bool, b2: bool, b1: bool, b0: bool)
    requires b4 || b3 || b2 || b1 || b0
    ensures var p := (i: int) => One(ProductBit(b4, b3, b2, b1, b0, i));
            p(0) + p(1) + p(2) + p(3) + p(4) + (p(5) + p(6) + p(7) + p(8) + p(9))
            + (p(10) + p(11) + p(12) + p(13) + p(14)) >= 7
  {
  }

  lemma FiveBits(q: nat) returns (b4: bool, b3: bool, b2: bool, b1: bool, b0: bool)
    requires q < 32
    ensures q == Factor(b4, b3, b2, b1, b0)
  {
    var h1 := q / 2;
    var h2 := h1 / 2;
    var h3 := h2 / 2;
    b4, b3, b2, b1, b0 := h3 / 2 == 1, h3 % 2 == 1, h2 % 2 == 1, h1 % 2 == 1, q % 2 == 1;
  }

  /** A multiple of the generator with a factor of up to five bits has at least seven ones, or none. */
  lemma MultipleWeight(q: nat)
    requires 0 < q < 32
    ensures Ones(ClMul(0x537, q), 15) >= 7
  {
    hide ClMul, Shr, Ones, ProductBit, BitAt;
    var b4, b3, b2, b1, b0 := FiveBits(q);
    var x := ClMul(0x537, q);
    OnesFifteen(x);
    forall i: nat
      ensures BitAt(x, i) == One(ProductBit(b4, b3, b2, b1, b0, i))
    {
      ProductBits(b4, b3, b2, b1, b0, i);
    }
    SevenBits(b4, b3, b2, b1, b0);
  }

  lemma OnesFifteen(x: nat)
    ensures Ones(x, 15)
         == BitAt(x, 0) + BitAt(x, 1) + BitAt(x, 2) + BitAt(x, 3) + BitAt(x, 4)
            + (BitAt(x, 5) + BitAt(x, 6) + BitAt(x, 7) + BitAt(x, 8) + BitAt(x, 9))
            + (BitAt(x, 10) + BitAt(x, 11) + BitAt(x, 12) + BitAt(x, 13) + BitAt(x, 14))
  {
    hide Ones, Shr, BitAt;
    ShrNone(x);
    OnesFive(x, 0, 10);
    OnesFive(x, 5, 5);
    OnesFive(x, 10, 0);
    OnesNone(Shr(x, 15));
  }

  lemma OnesNone(x: nat)
    ensures Ones(x, 0) == 0
  {
  }

  // ----- Format words -----

  lemma QuotientStep(data: nat, c: BchCode, i: nat)
    ensures CheckQuotient(data, c, i + 1) <= 2 * CheckQuotient(data, c, i) + 1
  {
  }

  /** The first five steps only shift the data. */
  lemma {:induction false} FirstSteps(data: nat, i: nat)
    requires data < 32 && i <= 5
    ensures CheckBits(data, FORMAT_CODE, i) == data * Pow2(i) && CheckQuotient(data, FORMAT_CODE, i) == 0
  {
    hide Xor, Pow2;
    SmallPowers();
    if i > 0 {
      FirstSteps(data, i - 1);
      var r := CheckBits(data, FORMAT_CODE, i - 1);
      assert 2 * r == data * Pow2(i) by { PowerStep(data, i); }
      assert data * Pow2(i) <= 31 * 32 by { Gf256.MulAtLeast(31, 32, data, Pow2(i)); }
      XorZero(2 * r);
    } else {
      assert data * 1 == data;
    }
  }

  lemma SmallPowers()
    ensures Pow2(0) == 1 && Pow2(10) == 1024
    ensures forall i: nat :: i <= 5 ==> Pow2(i) <= 32
  {
    CodesValid();
    assert Pow2(1) == 2 && Pow2(2) == 4 && Pow2(3) == 8 && Pow2(4) == 16 && Pow2(5) == 32;
    forall i: nat | i <= 5
      ensures Pow2(i) <= 32
    {
      assert i == 0 || i == 1 || i == 2 || i == 3 || i == 4 || i == 5;
    }
  }

  lemma PowerStep(data: nat, i: nat)
    requires i > 0
    ensures 2 * (data * Pow2(i - 1)) == data * Pow2(i)
  {
  }

  lemma QuotientBound(data: nat)
    requires data < 32
    ensures CheckQuotient(data, FORMAT_CODE, 10) < 32
  {
    hide CheckQuotient, CheckBits;
    FirstSteps(data, 5);
    QuotientStep(data, FORMAT_CODE, 5);
    QuotientStep(data, FORMAT_CODE, 6);
    QuotientStep(data, FORMAT_CODE, 7);
    QuotientStep(data, FORMAT_CODE, 8);
    QuotientStep(data, FORMAT_CODE, 9);
  }

  /** The words of different data differ in at least seven bits, whatever is added to both. */
  lemma CodeWordDistance(a: nat, b: nat, mask: nat)
    requires a < 32 && b < 32 && a != b
    ensures Distance(BitsOf(Xor(CodeWord(a, FORMAT_CODE), mask), 15), BitsOf(Xor(CodeWord(b, FORMAT_CODE), mask), 15)) >= 7
  {
    hide Xor, ClMul, CheckQuotient, CodeWord, Pow2, Ones, Distance, BitsOf;
    CodesValid();
    var v, w := CodeWord(a, FORMAT_CODE), CodeWord(b, FORMAT_CODE);
    var p, q := CheckQuotient(a, FORMAT_CODE, 10), CheckQuotient(b, FORMAT_CODE, 10);
    CodeWordMultiple(a, FORMAT_CODE);
    CodeWordMultiple(b, FORMAT_CODE);
    QuotientBound(a);
    QuotientBound(b);
    ClMulLinearRight(0x537, p, q);
    PowerOf5();
    XorBound(p, q, 5);
    if Xor(p, q) == 0 {
      Gf256.XorZeroMeansEqual(p, q);
      assert false;
    }
    MultipleWeight(Xor(p, q));
    DistanceIsOnes(Xor(v, mask), Xor(w, mask), 15);
    XorRegroup(v, mask, w, mask);
    XorSelf(mask);
    XorZero(Xor(v, w));
  }

  lemma PowerOf5()
    ensures Pow2(5) == 32
  {
    assert Pow2(5) == 2 * Pow2(4) == 4 * Pow2(3);
  }

  /** The format words of two different pairs of level and mask differ in at least seven of fifteen bits. */
  lemma FormatWordsDistance(ecl: Ecc, msk: nat, ecl': Ecc, msk': nat)
    requires msk < 8 && msk' < 8 && (ecl != ecl' || msk != msk')
    ensures Distance(BitsOf(FormatWord(ecl, msk), 15), BitsOf(FormatWord(ecl', msk'), 15)) >= 7
  {
    hide Xor, CodeWord, Distance, BitsOf;
    CodeWordDistance(FormatData(ecl, msk), FormatData(ecl', msk'), 0x5412);
  }

  /** A received word with up to three wrong bits belongs to one level and mask only. */
  lemma FormatCorrection(received: seq<bool>, ecl: Ecc, msk: nat, ecl': Ecc, msk': nat)
    requires |received| == 15 && msk < 8 && msk' < 8
    requires Distance(BitsOf(FormatWord(ecl, msk), 15), received) <= 3
    requires Distance(BitsOf(FormatWord(ecl', msk'), 15), received) <= 3
    ensures ecl == ecl' && msk == msk'
  {
    hide Distance, BitsOf, FormatWord;
    var v, w := BitsOf(FormatWord(ecl, msk), 15), BitsOf(FormatWord(ecl', msk'), 15);
    DistanceSymmetric(w, received);
    TriangleInequality(v, received, w);
    if ecl != ecl' || msk != msk' {
      FormatWordsDistance(ecl, msk, ecl', msk');
    }
  }

  // ----- Words of the standard -----

  /** A nonzero multiple of the generator is no shorter than the generator. */
  lemma MultipleLarge(q: nat)
    requires 0 < q < 32
    ensures ClMul(0x537, q) >= 1024
  {
    hide ClMul, Xor;
    var x := ClMul(0x537, q);
    var b4, b3, b2, b1, b0 := FiveBits(q);
    forall i: nat | 10 <= i < 15
      ensures ProductBit(b4, b3, b2, b1, b0, i) ==> x >= 1024
    {
      ProductBits(b4, b3, b2, b1, b0, i);
      if x < 1024 {
        HighBitsClear(x, i);
      }
    }
    HighBitSet(b4, b3, b2, b1, b0);
  }

  lemma HighBitSet(b4: bool, b3: bool, b2: bool, b1: bool, b0: bool)
    requires b4 || b3 || b2 || b1 || b0
    ensures var p := (i: int) => ProductBit(b4, b3, b2, b1, b0, i); p(10) || p(11) || p(12) || p(13) || p(14)
  {
  }

  lemma HighBitsClear(x: nat, i: nat)
    requires x < 1024 && i >= 10
    ensures !IsSet(x, i)
  {
    hide Shr, Pow2;
    CodesValid();
    PowGrows(10, i);
    ShrZero(x, i);
  }

  lemma {:induction false} PowGrows(k: nat, n: nat)
    requires k <= n
    ensures Pow2(k) <= Pow2(n)
    decreases n
  {
    if k < n {
      PowGrows(k, n - 1);
    }
  }

  /** The multiple of the generator that starts with the data bits is the word of the data. */
  lemma WordIs(data: nat, q: nat)
    requires data < 32 && q < 32 && data * 1024 <= ClMul(0x537, q) < (data + 1) * 1024
    ensures CodeWord(data, FORMAT_CODE) == ClMul(0x537, q)
  {
    hide ClMul, Xor, CodeWord, CheckQuotient, Pow2;
    CodesValid();
    CodeWordMultiple(data, FORMAT_CODE);
    QuotientBound(data);
    var p := CheckQuotient(data, FORMAT_CODE, 10);
    ClMulLinearRight(0x537, p, q);
    PowerOf5();
    XorBound(p, q, 5);
    SameTop(ClMul(0x537, p), ClMul(0x537, q), data);
    if Xor(p, q) > 0 {
      MultipleLarge(Xor(p, q));
    } else {
      Gf256.XorZeroMeansEqual(p, q);
    }
  }

  lemma SameTop(a: nat, b: nat, top: nat)
    requires top * 1024 <= a < (top + 1) * 1024 && top * 1024 <= b < (top + 1) * 1024
    ensures Xor(a, b) < 1024
  {
    hide Xor, Pow2;
    CodesValid();
    var x, y := a - top * 1024, b - top * 1024;
    XorDisjoint(top, x, 10);
    XorDisjoint(top, y, 10);
    XorRegroup(top * 1024, x, top * 1024, y);
    XorSelf(top * 1024);
    XorZero(Xor(x, y));
    XorBound(x, y, 10);
  }

  /** Multiples of the generator by 1, 10 and 21. */
  lemma SomeMultiples()
    ensures ClMul(0x537, 1) == 0x537 && ClMul(0x537, 10) == 0x23D6 && ClMul(0x537, 21) == 0x429B
  {
    hide ClMul, Xor;
    ClMulNone();
    ClMulStep(0x537, 0, 1);
    XorZero(0x537);
    ClMulStep(0x537, 1, 0);
    ClMulStep(0x537, 2, 1);
    ClMulStep(0x537, 5, 0);
    ClMulStep(0x537, 10, 1);
    XorZero(2 * 0x537);
    XorZero(2 * 0x11EB);
    FirstXors();
  }

  lemma ClMulNone()
    ensures ClMul(0x537, 0) == 0
  {
  }

  lemma FirstXors()
    ensures Xor(0x14DC, 0x537) == 0x11EB && Xor(0x47AC, 0x537) == 0x429B
  {
    hide Xor;
    XorZero(0x1);
    XorZero(0x4);
    XorJoin4(0x1, 0, 1, 0, 0, 0, 0, 1, 0, 1);
    XorJoin4(0x14, 1, 1, 0, 1, 0x5, 0, 0, 1, 1);
    XorJoin4(0x14D, 1, 1, 0, 0, 0x53, 0, 1, 1, 1);
    XorJoin4(0x4, 0, 1, 1, 1, 0, 0, 1, 0, 1);
    XorJoin4(0x47, 1, 0, 1, 0, 0x5, 0, 0, 1, 1);
    XorJoin4(0x47A, 1, 1, 0, 0, 0x53, 0, 1, 1, 1);
  }

  /** Words of table C.1 of ISO/IEC 18004:2015: the first ones of three levels, and the second one of the medium level. */
  lemma FormatWordsListed()
    ensures FormatWord(Low, 0) == 0x77C4 && FormatWord(Medium, 0) == 0x5412
    ensures FormatWord(High, 0) == 0x1689 && FormatWord(Medium, 1) == 0x5125
  {
    hide ClMul, Xor, CodeWord;
    BlankFormat();
    SomeMultiples();
    WordIs(8, 10);
    WordIs(16, 21);
    WordIs(1, 1);
    MaskXors();
  }

  lemma MaskXors()
    ensures Xor(0x23D6, 0x5412) == 0x77C4 && Xor(0x429B, 0x5412) == 0x1689 && Xor(0x537, 0x5412) == 0x5125
  {
    hide Xor;
    SmallXors();
    XorJoin4(0x2, 0, 0, 1, 1, 0x5, 0, 1, 0, 0);
    XorJoin4(0x23, 1, 1, 0, 1, 0x54, 0, 0, 0, 1);
    XorJoin4(0x23D, 0, 1, 1, 0, 0x541, 0, 0, 1, 0);
    XorJoin4(0x4, 0, 0, 1, 0, 0x5, 0, 1, 0, 0);
    XorJoin4(0x42, 1, 0, 0, 1, 0x54, 0, 0, 0, 1);
    XorJoin4(0x429, 1, 0, 1, 1, 0x541, 0, 0, 1, 0);
    XorJoin4(0x0, 0, 1, 0, 1, 0x5, 0, 1, 0, 0);
    XorJoin4(0x5, 0, 0, 1, 1, 0x54, 0, 0, 0, 1);
    XorJoin4(0x53, 0, 1, 1, 1, 0x541, 0, 0, 1, 0);
  }

  lemma SmallXors()
    ensures Xor(2, 5) == 7 && Xor(4, 5) == 1 && Xor(0, 5) == 5
  {
  }
}
