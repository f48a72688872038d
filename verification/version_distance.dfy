/** How far apart the version words are: any two differ in at least eight of their eighteen bits. */
module VersionDistance {
  import opened BinaryPoly
  import opened Bits
  import opened FormatDistance
  import opened FormatInfo
  import opened Hamming
  import opened Tables
  import Gf256

  // ----- Multiples of the generator -----

  /** Bit i of the generator of the version code. */
  predicate GolayBit(i: int) {
    i == 0 || i == 2 || i == 5 || i == 8 || i == 9 || i == 10 || i == 11 || i == 12
  }

  /** The generator without its i low-order bits. */
  function GolayShifted(i: nat): nat {
    match i
    case 0 => 0x1F25
    case 1 => 0xF92
    case 2 => 0x7C9
    case 3 => 0x3E4
    case 4 => 0x1F2
    case 5 => 0xF9
    case 6 => 0x7C
    case 7 => 0x3E
    case 8 => 0x1F
    case 9 => 0xF
    case 10 => 7
    case 11 => 3
    case 12 => 1
    case _ => 0
  }

  lemma {:induction false} GolayShiftedMeans(i: nat)
    ensures Shr(0x1F25, i) == GolayShifted(i)
  {
    hide Shr;
    if i == 0 {
      ShrNone(0x1F25);
    } else {
      GolayShiftedMeans(i - 1);
      ShrStep(0x1F25, i - 1);
    }
  }

  lemma GolayBits(i: nat)
    ensures IsSet(0x1F25, i) == GolayBit(i)
  {
    hide Shr;
    GolayShiftedMeans(i);
  }

  lemma VersionStep(q: nat, b: bool, i: int)
    ensures MultipleBit(0x1F25, 2 * q + One(b), i) == (MultipleBit(0x1F25, q, i - 1) != (b && GolayBit(i)))
  {
    hide MultipleBit, One, IsSet;
    MultipleStep(0x1F25, q, b, i);
    if i >= 0 {
      GolayBits(i);
    }
  }

  /** Bit i of the generator times a factor of six bits. */
  predicate WideProductBit(b5: bool, b4: bool, b3: bool, b2: bool, b1: bool, b0: bool, i: int) {
    (((((b5 && GolayBit(i - 5)) != (b4 && GolayBit(i - 4))) != (b3 && GolayBit(i - 3))) != (b2 && GolayBit(i - 2)))
     != (b1 && GolayBit(i - 1))) != (b0 && GolayBit(i))
  }

  function WideFactor(b5: bool, b4: bool, b3: bool, b2: bool, b1: bool, b0: bool): nat {
    32 * One(b5) + Factor(b4, b3, b2, b1, b0)
  }

  lemma WideProductBits(b5: bool, b4: bool, b3: bool, b2: bool, b1: bool, b0: bool, i: int)
    ensures MultipleBit(0x1F25, WideFactor(b5, b4, b3, b2, b1, b0), i) == WideProductBit(b5, b4, b3, b2, b1, b0, i)
  {
    hide MultipleBit, GolayBit, One;
    var q5: nat := One(b5);
    var q4: nat := 2 * q5 + One(b4);
    var q3: nat := 2 * q4 + One(b3);
    var q2: nat := 2 * q3 + One(b2);
    var q1: nat := 2 * q2 + One(b1);
    MultipleOfNothing(0x1F25, i - 6);
    VersionStep(0, b5, i - 5);
    VersionStep(q5, b4, i - 4);
    VersionStep(q4, b3, i - 3);
    VersionStep(q3, b2, i - 2);
    VersionStep(q2, b1, i - 1);
    VersionStep(q1, b0, i);
    assert 2 * q1 + One(b0) == WideFactor(b5, b4, b3, b2, b1, b0);
  }

  /** Eight of the eighteen bits are set, unless the factor is zero. */
  lemma EightBits(b5: bool, b4: bool, b3: bool, b2: bool, b1: bool, b0: bool)
    requires b5 || b4 || b3 || b2 || b1 || b0
    ensures var p := (i: int) => One(WideProductBit(b5, b4, b3, b2, b1, b0, i));
            p(0) + p(1) + p(2) + p(3) + p(4) + (p(5) + p(6) + p(7) + p(8) + p(9))
            + (p(10) + p(11) + p(12) + p(13) + p(14)) + (p(15) + p(16) + p(17)) >= 8
  {
  }

  lemma SixBits(q: nat) returns (b5: bool, b4: bool, b3: bool, b2: bool, b1: bool, b0: bool)
    requires q < 64
    ensures q == WideFactor(b5, b4, b3, b2, b1, b0)
  {
    hide Factor;
    b5 := q >= 32;
    b4, b3, b2, b1, b0 := FiveBits(if b5 then q - 32 else q);
  }

  lemma OnesEighteen(x: nat)
    ensures Ones(x, 18)
         == BitAt(x, 0) + BitAt(x, 1) + BitAt(x, 2) + BitAt(x, 3) + BitAt(x, 4)
            + (BitAt(x, 5) + BitAt(x, 6) + BitAt(x, 7) + BitAt(x, 8) + BitAt(x, 9))
            + (BitAt(x, 10) + BitAt(x, 11) + BitAt(x, 12) + BitAt(x, 13) + BitAt(x, 14))
            + (BitAt(x, 15) + BitAt(x, 16) + BitAt(x, 17))
  {
    hide Ones, Shr, BitAt;
    ShrNone(x);
    OnesFive(x, 0, 13);
    OnesFive(x, 5, 8);
    OnesFive(x, 10, 3);
    OnesStep(x, 15, 2);
    OnesStep(x, 16, 1);
    OnesStep(x, 17, 0);
    OnesNone(Shr(x, 18));
  }

  /** A multiple of the generator with a factor of up to six bits has at least eight ones, or none. */
  lemma WideMultipleWeight(q: nat)
    requires 0 < q < 64
    ensures Ones(ClMul(0x1F25, q), 18) >= 8
  {
    hide ClMul, Shr, Ones, WideProductBit, BitAt;
    var b5, b4, b3, b2, b1, b0 := SixBits(q);
    var x := ClMul(0x1F25, q);
    OnesEighteen(x);
    forall i: nat
      ensures BitAt(x, i) == One(WideProductBit(b5, b4, b3, b2, b1, b0, i))
    {
      WideProductBits(b5, b4, b3, b2, b1, b0, i);
    }
    EightBits(b5, b4, b3, b2, b1, b0);
  }

  // ----- Version words -----

  /** The first six steps only shift the data. */
  lemma {:induction false} FirstVersionSteps(data: nat, i: nat)
    requires data < 64 && i <= 6
    ensures CheckBits(data, VERSION_CODE, i) == data * Pow2(i) && CheckQuotient(data, VERSION_CODE, i) == 0
  {
    hide Xor, Pow2;
    VersionPowers();
    if i > 0 {
      FirstVersionSteps(data, i - 1);
      var r := CheckBits(data, VERSION_CODE, i - 1);
      assert 2 * r == data * Pow2(i) by { PowerStep(data, i); }
      assert data * Pow2(i) <= 63 * 64 by { Gf256.MulAtLeast(63, 64, data, Pow2(i)); }
      XorZero(2 * r);
    } else {
      assert data * 1 == data;
    }
  }

  lemma VersionPowers()
    ensures Pow2(0) == 1 && Pow2(6) == 64 && Pow2(12) == 4096
    ensures forall i: nat :: i <= 6 ==> Pow2(i) <= 64
  {
    hide Pow2;
    CodesValid();
    SmallPowers();
    SixthPower();
  }

  lemma SixthPower()
    ensures Pow2(6) == 64
  {
    assert Pow2(6) == 2 * Pow2(5) == 4 * Pow2(4) && Pow2(4) == 16;
  }

  lemma VersionQuotientBound(data: nat)
    requires data < 64
    ensures CheckQuotient(data, VERSION_CODE, 12) < 64
  {
    hide CheckQuotient, CheckBits;
    FirstVersionSteps(data, 6);
    QuotientStep(data, VERSION_CODE, 6);
    QuotientStep(data, VERSION_CODE, 7);
    QuotientStep(data, VERSION_CODE, 8);
    QuotientStep(data, VERSION_CODE, 9);
    QuotientStep(data, VERSION_CODE, 10);
    QuotientStep(data, VERSION_CODE, 11);
  }

  /** The words of two different versions differ in at least eight of eighteen bits. */
  lemma VersionWordsDistance(a: Version, b: Version)
    requires a != b
    ensures Distance(BitsOf(VersionWord(a), 18), BitsOf(VersionWord(b), 18)) >= 8
  {
    hide Xor, ClMul, CheckQuotient, CodeWord, Pow2, Ones, Distance, BitsOf;
    CodesValid();
    VersionPowers();
    var p, q := CheckQuotient(a, VERSION_CODE, 12), CheckQuotient(b, VERSION_CODE, 12);
    CodeWordMultiple(a, VERSION_CODE);
    CodeWordMultiple(b, VERSION_CODE);
    VersionQuotientBound(a);
    VersionQuotientBound(b);
    ClMulLinearRight(0x1F25, p, q);
    XorBound(p, q, 6);
    if Xor(p, q) == 0 {
      Gf256.XorZeroMeansEqual(p, q);
      assert false;
    }
    WideMultipleWeight(Xor(p, q));
    DistanceIsOnes(VersionWord(a), VersionWord(b), 18);
  }
}
