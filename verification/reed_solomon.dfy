/** Reed-Solomon generator polynomials and remainders, as QR Codes compute them. */
module ReedSolomon {
  import opened BinaryPoly
  import opened Gf256
  import opened Polynomial
  import opened Results

  // ----- The generator polynomial -----

  /** The product of p and the linear polynomial x - r. */
  function TimesLinear(p: Poly, r: byte): (q: Poly)
    ensures |q| == |p| + 1
  {
    Sum(p + [0], [0] + Scale(p, r))
  }

  /** The product (x - 2^0) (x - 2^1) ... (x - 2^(n-1)), with its leading coefficient. */
  function Generator(n: nat): (g: Poly)
    ensures |g| == n + 1
  {
    if n == 0 then [1] else TimesLinear(Generator(n - 1), Pow(2, n - 1))
  }

  lemma {:induction false} GeneratorMonic(n: nat)
    ensures Generator(n)[0] == 1
  {
    hide Add, Mul;
    if n > 0 {
      GeneratorMonic(n - 1);
      AddZero(1);
    }
  }

  lemma EvalTimesLinear(p: Poly, r: byte, z: byte)
    ensures Eval(TimesLinear(p, r), z) == Mul(Eval(p, z), Add(z, r))
  {
    hide Add, Mul;
    var v := Eval(p, z);
    calc {
      Eval(TimesLinear(p, r), z);
      { EvalSum(p + [0], [0] + Scale(p, r), z); EvalAppend(p, 0, z); AddZero(Mul(v, z)); }
      Add(Mul(v, z), Eval([0] + Scale(p, r), z));
      { assert [0] + Scale(p, r) == Zeros(1) + Scale(p, r); EvalLeadingZeros(1, Scale(p, r), z); EvalScale(p, r, z); }
      Add(Mul(v, z), Mul(r, v));
      { MulCommutative(r, v); MulLinearRight(v, z, r); }
      Mul(v, Add(z, r));
    }
  }

  ghost predicate AmongPowers(n: nat, z: byte) {
    exists k: nat :: k < n && z == Pow(2, k)
  }

  lemma NoPowers(z: byte)
    ensures !AmongPowers(0, z)
  {
  }

  lemma AmongPowersStep(n: nat, z: byte)
    ensures AmongPowers(n + 1, z) <==> AmongPowers(n, z) || z == Pow(2, n)
  {
    hide Pow;
  }

  /** The roots of the generator polynomial of degree n are exactly 2^0, ..., 2^(n-1). */
  lemma {:induction false} GeneratorRoots(n: nat, z: byte)
    ensures Eval(Generator(n), z) == 0 <==> AmongPowers(n, z)
  {
    hide Add, Mul, Pow, AmongPowers, TimesLinear;
    if n == 0 {
      EvalConstant(1, z);
      NoPowers(z);
    } else {
      var v, r := Eval(Generator(n - 1), z), Pow(2, n - 1);
      AmongPowersStep(n - 1, z);
      GeneratorRoots(n - 1, z);
      EvalTimesLinear(Generator(n - 1), r, z);
      ZeroProduct(v, Add(z, r));
      ZeroSum(z, r);
    }
  }

  lemma ZeroProduct(a: byte, b: byte)
    ensures Mul(a, b) == 0 <==> a == 0 || b == 0
  {
    hide Mul;
    MulZero(a);
    MulZero(b);
    if Mul(a, b) == 0 {
      NoZeroDivisors(a, b);
    }
  }

  lemma ZeroSum(a: byte, b: byte)
    ensures Add(a, b) == 0 <==> a == b
  {
    AddSelf(a);
    if Add(a, b) == 0 {
      XorZeroMeansEqual(a, b);
    }
  }

  lemma EvalConstant(c: byte, z: byte)
    ensures Eval([c], z) == c
  {
    hide Add, Mul;
    assert Eval([], z) == 0;
    EvalAppend([], c, z);
    assert [] + [c] == [c];
    MulZero(z);
    AddZero(c);
  }

  /**
   * The state of the divisor after i of the rounds that build it: the last `degree`
   * coefficients of the product of the first i factors.
   */
  ghost function DivisorRound(degree: nat, i: nat): (p: Poly)
    requires i <= degree
    ensures |p| == degree
  {
    (Zeros(degree - i) + Generator(i))[1..]
  }

  lemma DivisorRoundEntry(degree: nat, i: nat, j: nat)
    requires i <= degree && j < degree
    ensures DivisorRound(degree, i)[j] == if j + 1 < degree - i then 0 else Generator(i)[j + 1 - (degree - i)]
  {
    hide Generator;
  }

  lemma TimesLinearEntry(p: Poly, r: byte, k: nat)
    requires k <= |p|
    ensures TimesLinear(p, r)[k] == Add(if k == 0 then 0 else Mul(p[k - 1], r), if k < |p| then p[k] else 0)
  {
    hide Add, Mul;
    var a, b := if k < |p| then p[k] else 0, if k == 0 then 0 else Mul(p[k - 1], r);
    assert TimesLinear(p, r)[k] == Add(a, b);
    AddCommutative(a, b);
  }

  /** One round of the loop multiplies by one more factor. */
  lemma DivisorRoundStep(degree: nat, i: nat, j: nat)
    requires i < degree && j < degree
    ensures DivisorRound(degree, i + 1)[j]
         == Add(Mul(DivisorRound(degree, i)[j], Pow(2, i)), if j + 1 < degree then DivisorRound(degree, i)[j + 1] else 0)
  {
    hide Add, Mul, Pow, DivisorRound, TimesLinear;
    DivisorRoundEntry(degree, i + 1, j);
    DivisorRoundEntry(degree, i, j);
    if j + 1 < degree {
      DivisorRoundEntry(degree, i, j + 1);
    }
    MulZero(Pow(2, i));
    AddZero(0);
    var k := j + 2 - degree + i;
    if k >= 0 {
      TimesLinearEntry(Generator(i), Pow(2, i), k);
    }
  }

  lemma DivisorRoundStart(degree: nat)
    requires degree > 0
    ensures DivisorRound(degree, 0) == Zeros(degree)[degree - 1 := 1]
  {
  }

  lemma DivisorRoundEnd(degree: nat)
    ensures [1] + DivisorRound(degree, degree) == Generator(degree)
  {
    GeneratorMonic(degree);
  }

  lemma PowStep(b: byte, n: nat)
    ensures Pow(b, n + 1) == Mul(Pow(b, n), b)
  {
  }

  /** `QrCode::reedSolomonComputeDivisor`. */
  method ComputeDivisor(degree: int) returns (r: Result<Poly>)
    ensures r.Err? <==> degree < 1 || degree > 255
    ensures r.Err? ==> r.error == DomainError
    ensures r.Ok? ==> [1] + r.value == Generator(degree)
  {
    hide *;
    if degree < 1 || degree > 255 {
      return Err(DomainError);
    }
    var result := Zeros(degree);
    result := result[degree - 1 := 1];
    DivisorRoundStart(degree);
    PowZero(2);

    var root: byte := 1;
    var i := 0;
    while i < degree
      invariant 0 <= i <= degree
      invariant result == DivisorRound(degree, i)
      invariant root == Pow(2, i)
    {
      ghost var before := result;
      var j := 0;
      while j < |result|
        invariant 0 <= j <= |result| == degree
        invariant forall k :: 0 <= k < j ==> result[k] == DivisorRound(degree, i + 1)[k]
        invariant forall k :: j <= k < degree ==> result[k] == before[k]
      {
        var product := Multiply(result[j], root);
        result := result[j := product];
        if j + 1 < |result| {
          result := result[j := Add(result[j], result[j + 1])];
        }
        DivisorRoundStep(degree, i, j);
        AddZero(product);
        j := j + 1;
      }
      PowStep(2, i);
      root := Multiply(root, 0x02);
      i := i + 1;
    }
    DivisorRoundEnd(degree);
    r := Ok(result);
  }

  lemma AddCommutative(a: byte, b: byte)
    ensures Add(a, b) == Add(b, a)
  {
    XorCommutative(a, b);
  }

  // ----- The remainder -----

  /** One step of the shift register: byte b enters, and a multiple of the divisor is taken away. */
  function RemainderStep(r: Poly, b: byte, divisor: Poly): (r': Poly)
    requires |r| == |divisor| > 0
    ensures |r'| == |divisor|
  {
    Sum(r[1..] + [0], Scale(divisor, Add(b, r[0])))
  }

  function Remainder(data: Poly, divisor: Poly): (r: Poly)
    requires |divisor| > 0
    ensures |r| == |divisor|
    decreases |data|
  {
    if |data| == 0 then Zeros(|divisor|)
    else RemainderStep(Remainder(data[..|data| - 1], divisor), data[|data| - 1], divisor)
  }

  /** The factors by which the divisor was multiplied, which are the coefficients of the quotient. */
  function Quotient(data: Poly, divisor: Poly): (q: Poly)
    requires |divisor| > 0
    ensures |q| == |data|
    decreases |data|
  {
    if |data| == 0 then []
    else
      var prefix := data[..|data| - 1];
      Quotient(prefix, divisor) + [Add(data[|data| - 1], Remainder(prefix, divisor)[0])]
  }

  // Adding the next multiple of the divisor brings in the byte b and shifts the register.
  lemma DivisionStep(prefix: Poly, r: Poly, b: byte, divisor: Poly)
    requires |r| == |divisor| > 0
    ensures Sum((prefix + r) + [0], Zeros(|prefix|) + Scale([1] + divisor, Add(b, r[0])))
         == (prefix + [b]) + RemainderStep(r, b, divisor)
  {
    hide Add, Mul;
    var m, f := |prefix|, Add(b, r[0]);
    var sum := Sum((prefix + r) + [0], Zeros(m) + Scale([1] + divisor, f));
    forall i | 0 <= i < m + 1 + |divisor|
      ensures sum[i] == ((prefix + [b]) + RemainderStep(r, b, divisor))[i]
    {
      if i < m {
        AddZero(prefix[i]);
      } else if i == m {
        MulOneLeft(f);
        AddCancel(r[0], b);
      }
    }
  }

  /**
   * Data followed by its remainder is an exact multiple of the divisor, leading
   * coefficient included.
   */
  lemma {:induction false} DivisionExact(data: Poly, divisor: Poly)
    requires |divisor| > 0
    ensures data + Remainder(data, divisor) == Product(Quotient(data, divisor), [1] + divisor)
    decreases |data|
  {
    hide Add, Mul, RemainderStep, Sum, Scale;
    if |data| == 0 {
      assert data + Remainder(data, divisor) == Zeros(|divisor|);
    } else {
      var m := |data| - 1;
      var prefix := data[..m];
      DivisionExact(prefix, divisor);
      assert Quotient(data, divisor)[..m] == Quotient(prefix, divisor);
      DivisionStep(prefix, Remainder(prefix, divisor), data[m], divisor);
      assert prefix + [data[m]] == data;
    }
  }

  lemma ProductStep(q: Poly, g: Poly)
    requires |q| > 0 && |g| > 0
    ensures Product(q, g) == Sum(Product(q[..|q| - 1], g) + [0], Zeros(|q| - 1) + Scale(g, q[|q| - 1]))
  {
  }

  /** Whatever quotient and remainder long division could give, these are the ones that the register computes. */
  lemma {:induction false} DivisionUnique(data: Poly, check: Poly, q: Poly, divisor: Poly)
    requires |check| == |divisor| > 0 && |q| == |data|
    requires data + check == Product(q, [1] + divisor)
    ensures q == Quotient(data, divisor) && check == Remainder(data, divisor)
    decreases |q|
  {
    hide Add, Mul, RemainderStep, Sum, Scale, Product;
    var g := [1] + divisor;
    if |q| == 0 {
      assert Product(q, g) == Zeros(|divisor|) by { ProductNone(g); }
      assert data + check == check;
    } else {
      var m := |q| - 1;
      var p := Product(q[..m], g);
      var prefix, r := p[..m], p[m..];
      assert p == prefix + r;
      DivisionUnique(prefix, r, q[..m], divisor);
      ProductStep(q, g);
      LeadingTerms(p, q[m], divisor, m);
      var b := data[m];
      assert data[..m] == (data + check)[..m] == prefix;
      assert b == (data + check)[m] == Add(r[0], q[m]);
      SumTurned(r[0], q[m], b);
      DivisionStep(prefix, r, b, divisor);
      assert prefix + [b] == data;
      assert data + check == data + RemainderStep(r, b, divisor);
      assert check == (data + check)[|data|..] == RemainderStep(r, b, divisor);
      assert q == q[..m] + [q[m]];
    }
  }

  lemma ProductNone(g: Poly)
    requires |g| > 0
    ensures forall q: Poly :: |q| == 0 ==> Product(q, g) == Zeros(|g| - 1)
  {
  }

  // The next multiple of the divisor leaves the terms before it, and its leading one meets coefficient m.
  lemma LeadingTerms(p: Poly, f: byte, divisor: Poly, m: nat)
    requires |p| == m + |divisor| && |divisor| > 0
    ensures var sum := Sum(p + [0], Zeros(m) + Scale([1] + divisor, f)); sum[..m] == p[..m] && sum[m] == Add(p[m], f)
  {
    hide Add, Mul;
    forall i | 0 <= i < m
      ensures Sum(p + [0], Zeros(m) + Scale([1] + divisor, f))[i] == p[i]
    {
      AddZero(p[i]);
    }
    MulOneLeft(f);
  }

  lemma SumTurned(a: byte, f: byte, b: byte)
    requires b == Add(a, f)
    ensures f == Add(b, a)
  {
    hide Add;
    AddCommutative(a, f);
    AddCommutative(b, a);
    AddCancel(a, f);
  }

  /** The remainder vanishes together with the divisor: a codeword is zero at each root of the divisor. */
  lemma CodewordVanishes(data: Poly, divisor: Poly, z: byte)
    requires |divisor| > 0
    requires Eval([1] + divisor, z) == 0
    ensures Eval(data + Remainder(data, divisor), z) == 0
  {
    hide Mul, Product;
    DivisionExact(data, divisor);
    EvalProduct(Quotient(data, divisor), [1] + divisor, z);
    MulZero(Eval(Quotient(data, divisor), z));
  }

  // ----- Linearity -----

  lemma {:induction false} RemainderLinear(a: Poly, b: Poly, divisor: Poly)
    requires |a| == |b| && |divisor| > 0
    ensures Remainder(Sum(a, b), divisor) == Sum(Remainder(a, divisor), Remainder(b, divisor))
    decreases |a|
  {
    hide Add, Mul, RemainderStep;
    if |a| == 0 {
      AddZero(0);
    } else {
      var m := |a| - 1;
      var a', b' := a[..m], b[..m];
      var r, s := Remainder(a', divisor), Remainder(b', divisor);
      assert Sum(a, b)[..m] == Sum(a', b');
      RemainderLinear(a', b', divisor);
      RemainderStepLinear(r, a[m], s, b[m], divisor);
    }
  }

  lemma RemainderStepLinear(r: Poly, a: byte, s: Poly, b: byte, divisor: Poly)
    requires |r| == |s| == |divisor| > 0
    ensures RemainderStep(Sum(r, s), Add(a, b), divisor) == Sum(RemainderStep(r, a, divisor), RemainderStep(s, b, divisor))
  {
    hide Add, Mul;
    var f, g := Add(a, r[0]), Add(b, s[0]);
    AddRegroup(a, b, r[0], s[0]);
    forall i | 0 <= i < |divisor|
      ensures RemainderStep(Sum(r, s), Add(a, b), divisor)[i]
           == Sum(RemainderStep(r, a, divisor), RemainderStep(s, b, divisor))[i]
    {
      MulLinearRight(divisor[i], f, g);
      var x, y := (r[1..] + [0])[i], (s[1..] + [0])[i];
      AddZero(0);
      AddRegroup(x, y, Mul(divisor[i], f), Mul(divisor[i], g));
    }
  }

  /** `QrCode::reedSolomonComputeRemainder`. Without a divisor it can only handle empty data. */
  method ComputeRemainder(data: Poly, divisor: Poly) returns (r: Result<Poly>)
    ensures |divisor| > 0 ==> r == Ok(Remainder(data, divisor))
    ensures |divisor| == 0 ==> r == if |data| == 0 then Ok([]) else Err(OutOfRange)
  {
    hide *;
    var result := Zeros(|divisor|);
    if |divisor| > 0 {
      RemainderEmpty(divisor);
    }
    for k := 0 to |data|
      invariant |result| == |divisor| && (k > 0 ==> |divisor| > 0)
      invariant |divisor| > 0 ==> result == Remainder(data[..k], divisor)
    {
      if |result| == 0 {
        return Err(OutOfRange);
      }
      var b := data[k];
      ghost var before := result;
      var factor := Add(b, result[0]);
      result := result[1..];
      result := result + [0];
      ghost var shifted := result;
      RemainderAppend(data, k, divisor);
      for i := 0 to |result|
        invariant |result| == |divisor|
        invariant forall j :: 0 <= j < i ==> result[j] == RemainderStep(before, b, divisor)[j]
        invariant forall j :: i <= j < |divisor| ==> result[j] == shifted[j]
      {
        var product := Multiply(divisor[i], factor);
        RemainderStepEntry(before, b, divisor, i);
        result := result[i := Add(result[i], product)];
      }
    }
    assert data[..|data|] == data;
    r := Ok(result);
  }

  lemma RemainderEmpty(divisor: Poly)
    requires |divisor| > 0
    ensures forall data: Poly :: |data| == 0 ==> Remainder(data, divisor) == Zeros(|divisor|)
  {
  }

  lemma RemainderAppend(data: Poly, k: nat, divisor: Poly)
    requires k < |data| && |divisor| > 0
    ensures Remainder(data[..k + 1], divisor) == RemainderStep(Remainder(data[..k], divisor), data[k], divisor)
  {
    assert data[..k + 1][..k] == data[..k];
  }

  lemma RemainderStepEntry(r: Poly, b: byte, divisor: Poly, i: nat)
    requires |r| == |divisor| > i
    ensures RemainderStep(r, b, divisor)[i] == Add((r[1..] + [0])[i], Mul(divisor[i], Add(b, r[0])))
  {
  }
}
