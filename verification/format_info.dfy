/** The format and version information words, with their BCH check bits. */
module FormatInfo {
  import opened BinaryPoly
  import opened Tables

  /** A code with `width` check bits and the given generator polynomial of that degree. */
  datatype BchCode = BchCode(width: nat, generator: nat) {
    ghost predicate Valid() {
      width > 0 && Pow2(width) <= generator < 2 * Pow2(width)
    }
  }

  const FORMAT_CODE := BchCode(10, 0x537)
  const VERSION_CODE := BchCode(12, 0x1F25)

  lemma CodesValid()
    ensures FORMAT_CODE.Valid() && VERSION_CODE.Valid()
    ensures Pow2(10) == 1024 && Pow2(12) == 4096 && Pow2(9) == 512 && Pow2(11) == 2048 && Pow2(15) == 32768
  {
    assert Pow2(10) == 2 * Pow2(9) == 4 * Pow2(8) == 8 * Pow2(7) && Pow2(7) == 128;
    assert Pow2(12) == 2 * Pow2(11) == 4 * Pow2(10);
    assert Pow2(15) == 2 * Pow2(14) == 4 * Pow2(13) == 8 * Pow2(12);
  }

  /** One step of the check bit computation: a shift, and the generator if a bit falls out. */
  function CheckStep(rem: nat, c: BchCode): nat {
    Xor(2 * rem, if 2 * rem < Pow2(c.width) then 0 else c.generator)
  }

  /** The check bits after i steps. */
  function CheckBits(data: nat, c: BchCode, i: nat): nat {
    if i == 0 then data else CheckStep(CheckBits(data, c, i - 1), c)
  }

  function CheckQuotient(data: nat, c: BchCode, i: nat): nat {
    if i == 0 then 0
    else 2 * CheckQuotient(data, c, i - 1) + if 2 * CheckBits(data, c, i - 1) < Pow2(c.width) then 0 else 1
  }

  lemma {:induction false} XorTopCancels(a: nat, b: nat, k: nat)
    requires Pow2(k) <= a < 2 * Pow2(k) && Pow2(k) <= b < 2 * Pow2(k)
    ensures Xor(a, b) < Pow2(k)
  {
    if k > 0 {
      XorTopCancels(a / 2, b / 2, k - 1);
      XorStep(a, b);
    }
  }

  lemma {:induction false} CheckBitsBound(data: nat, c: BchCode, i: nat)
    requires c.Valid() && data < Pow2(c.width)
    ensures CheckBits(data, c, i) < Pow2(c.width)
  {
    hide Xor, Pow2;
    if i > 0 {
      CheckBitsBound(data, c, i - 1);
      var r := CheckBits(data, c, i - 1);
      if 2 * r < Pow2(c.width) {
        XorZero(2 * r);
      } else {
        XorTopCancels(2 * r, c.generator, c.width);
      }
    }
  }

  lemma CheckStepMultiple(d: nat, r: nat, q: nat, c: BchCode)
    requires Xor(d, r) == ClMul(c.generator, q)
    ensures Xor(2 * d, CheckStep(r, c)) == ClMul(c.generator, 2 * q + if 2 * r < Pow2(c.width) then 0 else 1)
  {
    hide Xor, Pow2;
    var g := if 2 * r < Pow2(c.width) then 0 else c.generator;
    XorAssociative(2 * d, 2 * r, g);
    XorDouble(d, r);
    ClMulStep(c.generator, q, if 2 * r < Pow2(c.width) then 0 else 1);
  }

  lemma ClMulStep(x: nat, q: nat, b: nat)
    requires b < 2
    ensures ClMul(x, 2 * q + b) == Xor(2 * ClMul(x, q), if b == 1 then x else 0)
  {
    assert (2 * q + b) / 2 == q;
  }

  /** Data and check bits together are a multiple of the generator polynomial. */
  lemma {:induction false} CheckBitsMultiple(data: nat, c: BchCode, i: nat)
    ensures Xor(data * Pow2(i), CheckBits(data, c, i)) == ClMul(c.generator, CheckQuotient(data, c, i))
  {
    hide Xor, CheckStep;
    if i == 0 {
      XorSelf(data);
    } else {
      CheckBitsMultiple(data, c, i - 1);
      var d := data * Pow2(i - 1);
      assert data * Pow2(i) == 2 * d;
      CheckStepMultiple(d, CheckBits(data, c, i - 1), CheckQuotient(data, c, i - 1), c);
    }
  }

  lemma {:induction false} XorDisjoint(a: nat, b: nat, k: nat)
    requires b < Pow2(k)
    ensures Xor(a * Pow2(k), b) == a * Pow2(k) + b
  {
    hide Xor;
    if k == 0 {
      XorZero(a);
      assert a * Pow2(0) == a;
    } else {
      var m := a * Pow2(k - 1);
      assert a * Pow2(k) == 2 * m;
      XorDisjoint(a, b / 2, k - 1);
      XorEven(m, b);
    }
  }

  lemma XorEven(m: nat, b: nat)
    requires Xor(m, b / 2) == m + b / 2
    ensures Xor(2 * m, b) == 2 * m + b
  {
    hide Xor;
    XorStep(2 * m, b);
  }

  /** The word that carries data and its check bits. */
  function CodeWord(data: nat, c: BchCode): nat {
    data * Pow2(c.width) + CheckBits(data, c, c.width)
  }

  lemma CodeWordMultiple(data: nat, c: BchCode)
    requires c.Valid() && data < Pow2(c.width)
    ensures CodeWord(data, c) == ClMul(c.generator, CheckQuotient(data, c, c.width))
    ensures data * Pow2(c.width) <= CodeWord(data, c) < (data + 1) * Pow2(c.width)
  {
    hide Xor, CheckBits, CheckQuotient, Pow2;
    CheckBitsBound(data, c, c.width);
    CheckBitsMultiple(data, c, c.width);
    XorDisjoint(data, CheckBits(data, c, c.width), c.width);
    assert (data + 1) * Pow2(c.width) == data * Pow2(c.width) + Pow2(c.width);
  }

  // ----- Format information -----

  /** The five data bits: two for the error correction level and three for the mask. */
  function FormatData(ecl: Ecc, mask: nat): nat {
    8 * ecl.FormatBits() + mask
  }

  /** The fifteen bits that are drawn. */
  function FormatWord(ecl: Ecc, mask: nat): nat {
    Xor(CodeWord(FormatData(ecl, mask), FORMAT_CODE), 0x5412)
  }

  lemma FormatWordBound(ecl: Ecc, mask: nat)
    requires mask < 8
    ensures FormatWord(ecl, mask) < 32768
  {
    hide Xor, CodeWord, Pow2;
    CodesValid();
    CodeWordMultiple(FormatData(ecl, mask), FORMAT_CODE);
    XorBound(CodeWord(FormatData(ecl, mask), FORMAT_CODE), 0x5412, 15);
  }

  /** Without data bits the word is the mask pattern of the standard, so that no word is blank. */
  lemma BlankFormat()
    ensures FormatWord(Medium, 0) == 0x5412
  {
    hide Xor, ClMul, Pow2;
    NoCheckBits(FORMAT_CODE, 10);
    XorZero(0x5412);
  }

  lemma {:induction false} NoCheckBits(c: BchCode, i: nat)
    ensures CheckBits(0, c, i) == 0
  {
    hide Xor;
    if i > 0 {
      NoCheckBits(c, i - 1);
      PowPositive(c.width);
      XorZero(0);
    }
  }

  lemma PowPositive(n: nat)
    ensures Pow2(n) > 0
  {
  }

  /** The data bits of a received format word. */
  function ReadFormatData(word: nat): nat {
    Xor(word, 0x5412) / 1024
  }

  /** The format word determines level and mask. */
  lemma FormatReadsBack(ecl: Ecc, mask: nat)
    requires mask < 8
    ensures ReadFormatData(FormatWord(ecl, mask)) == FormatData(ecl, mask)
  {
    hide Xor, CodeWord, Pow2;
    CodesValid();
    var word := CodeWord(FormatData(ecl, mask), FORMAT_CODE);
    CodeWordMultiple(FormatData(ecl, mask), FORMAT_CODE);
    XorAssociative(word, 0x5412, 0x5412);
    XorSelf(0x5412);
    XorZero(word);
  }

  /** The part of `QrCode::drawFormatBits` that computes the bits. */
  method ComputeFormatBits(ecl: Ecc, mask: nat) returns (bits: nat)
    requires mask < 8
    ensures bits == FormatWord(ecl, mask)
    ensures bits < 32768
  {
    hide Xor, Pow2, CheckBits;
    CodesValid();
    var data := ecl.FormatBits() * 8 + mask;
    var rem := data;
    CheckBitsStart(data, FORMAT_CODE);
    for i := 0 to 10
      invariant rem == CheckBits(data, FORMAT_CODE, i) && rem < 1024
    {
      CheckBitsNext(data, FORMAT_CODE, i);
      CheckBitsBound(data, FORMAT_CODE, i + 1);
      assert (rem / 512) * 0x537 == if 2 * rem < 1024 then 0 else 0x537;
      rem := Xor(2 * rem, (rem / 512) * 0x537);
    }
    bits := Xor(data * 1024 + rem, 0x5412);
    FormatWordBound(ecl, mask);
    assert bits / 32768 == 0;
  }

  lemma CheckBitsStart(data: nat, c: BchCode)
    ensures CheckBits(data, c, 0) == data
  {
  }

  lemma CheckBitsNext(data: nat, c: BchCode, i: nat)
    ensures CheckBits(data, c, i + 1) == CheckStep(CheckBits(data, c, i), c)
  {
  }

  // ----- Version information -----

  function VersionWord(ver: Version): nat {
    CodeWord(ver, VERSION_CODE)
  }

  /** The part of `QrCode::drawVersion` that computes the bits. */
  method ComputeVersionBits(ver: Version) returns (bits: nat)
    ensures bits == VersionWord(ver)
    ensures bits / 4096 == ver && bits < 262144
  {
    hide Xor, Pow2, CheckBits;
    CodesValid();
    var rem: nat := ver;
    CheckBitsStart(ver, VERSION_CODE);
    for i := 0 to 12
      invariant rem == CheckBits(ver, VERSION_CODE, i) && rem < 4096
    {
      CheckBitsNext(ver, VERSION_CODE, i);
      CheckBitsBound(ver, VERSION_CODE, i + 1);
      assert (rem / 2048) * 0x1F25 == if 2 * rem < 4096 then 0 else 0x1F25;
      rem := Xor(2 * rem, (rem / 2048) * 0x1F25);
    }
    bits := ver * 4096 + rem;
    assert bits / 262144 == 0;
  }
}
