/**
 * How much damage the Reed-Solomon codewords withstand: two different codewords of the same
 * length differ in more places than there are error correction bytes.
 */
module RsDistance {
  import opened BinaryPoly
  import opened Gf256
  import opened Hamming
  import opened Polynomial
  import opened ReedSolomon

  // ----- Powers -----

  lemma {:induction false} PowProduct(a: byte, b: byte, k: nat)
    ensures Pow(Mul(a, b), k) == Mul(Pow(a, k), Pow(b, k))
  {
    hide Mul, Pow;
    if k == 0 {
      PowZero(a);
      PowZero(b);
      PowZero(Mul(a, b));
      MulOneLeft(1);
    } else {
      var x, y := Pow(a, k - 1), Pow(b, k - 1);
      PowProduct(a, b, k - 1);
      PowStep(a, k - 1);
      PowStep(b, k - 1);
      PowStep(Mul(a, b), k - 1);
      MulRegroup(x, y, a, b);
    }
  }

  lemma MulRegroup(x: byte, y: byte, a: byte, b: byte)
    ensures Mul(Mul(x, y), Mul(a, b)) == Mul(Mul(x, a), Mul(y, b))
  {
    hide Mul;
    MulAssociative(x, y, Mul(a, b));
    MulAssociative(y, a, b);
    MulCommutative(y, a);
    MulAssociative(a, y, b);
    MulAssociative(x, a, Mul(y, b));
  }

  lemma {:induction false} PowOfOne(k: nat)
    ensures Pow(1, k) == 1
  {
    if k > 0 {
      PowOfOne(k - 1);
      MulOneLeft(1);
    }
  }

  lemma {:induction false} PowOfPow(i: nat, k: nat)
    ensures Pow(Pow(2, i), k) == Pow(Pow(2, k), i)
  {
    hide Mul, Pow;
    if i == 0 {
      PowZero(2);
      PowOfOne(k);
      PowZero(Pow(2, k));
    } else {
      PowStep(2, i - 1);
      PowProduct(Pow(2, i - 1), 2, k);
      PowOfPow(i - 1, k);
      PowStep(Pow(2, k), i - 1);
    }
  }

  // ----- Weighted sums of powers -----

  /** The sum over i of cs[i] * xs[i]^k. */
  function PowerSum(cs: Poly, xs: Poly, k: nat): byte
    requires |cs| == |xs|
    decreases |cs|
  {
    if |cs| == 0 then 0
    else
      var n := |cs| - 1;
      Add(PowerSum(cs[..n], xs[..n], k), Mul(cs[n], Pow(xs[n], k)))
  }

  /** The number of nonzero coefficients. */
  function Weight(cs: Poly): nat {
    if |cs| == 0 then 0 else Weight(cs[..|cs| - 1]) + if cs[|cs| - 1] == 0 then 0 else 1
  }

  lemma {:induction false} WeightZero(cs: Poly)
    requires Weight(cs) == 0
    ensures forall i :: 0 <= i < |cs| ==> cs[i] == 0
    decreases |cs|
  {
    if |cs| > 0 {
      var init := cs[..|cs| - 1];
      WeightZero(init);
      assert forall i :: 0 <= i < |init| ==> cs[i] == init[i];
    }
  }

  lemma {:induction false} WeightMonotone(ds: Poly, cs: Poly)
    requires |ds| == |cs|
    requires forall i :: 0 <= i < |cs| && cs[i] == 0 ==> ds[i] == 0
    ensures Weight(ds) <= Weight(cs)
    ensures (exists m :: 0 <= m < |cs| && cs[m] != 0 && ds[m] == 0) ==> Weight(ds) < Weight(cs)
    decreases |cs|
  {
    if |cs| > 0 {
      WeightMonotone(ds[..|cs| - 1], cs[..|cs| - 1]);
      if m :| 0 <= m < |cs| && cs[m] != 0 && ds[m] == 0 {
        if m < |cs| - 1 {
          assert cs[..|cs| - 1][m] != 0 && ds[..|cs| - 1][m] == 0;
        }
      }
    }
  }

  /** The coefficients with which the terms of xs[m] cancel between two consecutive power sums. */
  function Cancelled(cs: Poly, xs: Poly, x: byte): (ds: Poly)
    requires |cs| == |xs|
    ensures |ds| == |cs| && forall i :: 0 <= i < |cs| ==> ds[i] == Mul(cs[i], Add(xs[i], x))
  {
    seq(|cs|, i requires 0 <= i < |cs| => Mul(cs[i], Add(xs[i], x)))
  }

  lemma {:induction false} CancelledSum(cs: Poly, xs: Poly, x: byte, k: nat)
    requires |cs| == |xs|
    ensures PowerSum(Cancelled(cs, xs, x), xs, k) == Add(PowerSum(cs, xs, k + 1), Mul(x, PowerSum(cs, xs, k)))
    decreases |cs|
  {
    hide Add, Mul, Pow;
    if |cs| == 0 {
      MulZero(x);
      AddZero(0);
    } else {
      var n := |cs| - 1;
      var cs', xs' := cs[..n], xs[..n];
      var c, y, p := cs[n], xs[n], Pow(xs[n], k);
      assert Cancelled(cs, xs, x)[..n] == Cancelled(cs', xs', x);
      CancelledSum(cs', xs', x, k);
      assert Mul(Mul(c, Add(y, x)), p) == Add(Mul(c, Pow(y, k + 1)), Mul(x, Mul(c, p))) by {
        CancelledTerm(c, y, x, k);
      }
      MulLinearRight(x, PowerSum(cs', xs', k), Mul(c, p));
      AddRegroup(PowerSum(cs', xs', k + 1), Mul(x, PowerSum(cs', xs', k)), Mul(c, Pow(y, k + 1)), Mul(x, Mul(c, p)));
    }
  }

  lemma CancelledTerm(c: byte, y: byte, x: byte, k: nat)
    ensures Mul(Mul(c, Add(y, x)), Pow(y, k)) == Add(Mul(c, Pow(y, k + 1)), Mul(x, Mul(c, Pow(y, k))))
  {
    hide Add, Mul, Pow;
    var p := Pow(y, k);
    calc {
      Mul(Mul(c, Add(y, x)), p);
      { MulLinearRight(c, y, x); MulLinearLeft(Mul(c, y), Mul(c, x), p); }
      Add(Mul(Mul(c, y), p), Mul(Mul(c, x), p));
      { MulAssociative(c, y, p); MulCommutative(y, p); PowStep(y, k); }
      Add(Mul(c, Pow(y, k + 1)), Mul(Mul(c, x), p));
      { MulCommutative(c, x); MulAssociative(x, c, p); }
      Add(Mul(c, Pow(y, k + 1)), Mul(x, Mul(c, p)));
    }
  }

  lemma {:induction false} SingleTermSum(cs: Poly, xs: Poly, m: nat)
    requires |cs| == |xs| && m < |cs|
    requires forall i :: 0 <= i < |cs| && i != m ==> cs[i] == 0
    ensures PowerSum(cs, xs, 0) == cs[m]
    decreases |cs|
  {
    hide Add, Mul, Pow;
    var n := |cs| - 1;
    PowZero(xs[n]);
    MulOneRight(cs[n]);
    if m == n {
      AllZeroSum(cs[..n], xs[..n]);
      AddZero(cs[n]);
    } else {
      SingleTermSum(cs[..n], xs[..n], m);
      AddZero(cs[m]);
    }
  }

  lemma {:induction false} AllZeroSum(cs: Poly, xs: Poly)
    requires |cs| == |xs|
    requires forall i :: 0 <= i < |cs| ==> cs[i] == 0
    ensures PowerSum(cs, xs, 0) == 0
    decreases |cs|
  {
    hide Add, Mul, Pow;
    if |cs| > 0 {
      var n := |cs| - 1;
      AllZeroSum(cs[..n], xs[..n]);
      MulZero(Pow(xs[n], 0));
      AddZero(0);
    }
  }

  ghost predicate Distinct(xs: Poly) {
    forall i, j :: 0 <= i < j < |xs| ==> xs[i] != xs[j]
  }

  /**
   * No nonzero combination of at most d distinct field elements has its first d power sums
   * zero. Cancelling one term between consecutive power sums leaves one term and one sum less.
   */
  lemma {:induction false} Vandermonde(cs: Poly, xs: Poly, d: nat)
    requires |cs| == |xs| && Distinct(xs)
    requires forall k: nat :: k < d ==> PowerSum(cs, xs, k) == 0
    requires Weight(cs) <= d
    ensures forall i :: 0 <= i < |cs| ==> cs[i] == 0
    decreases d
  {
    hide Add, Mul, Pow, PowerSum, Weight;
    if m :| 0 <= m < |cs| && cs[m] != 0 {
      if d == 0 {
        WeightZero(cs);
      } else {
        var ds := Cancelled(cs, xs, xs[m]);
        forall k: nat | k < d - 1
          ensures PowerSum(ds, xs, k) == 0
        {
          CancelledSum(cs, xs, xs[m], k);
          MulZero(xs[m]);
          AddZero(0);
        }
        CancelledZero(cs, xs, m);
        WeightMonotone(ds, cs);
        Vandermonde(ds, xs, d - 1);
        SingleTermSum(cs, xs, m);
      }
    }
  }

  lemma CancelledZero(cs: Poly, xs: Poly, m: nat)
    requires |cs| == |xs| && m < |cs| && Distinct(xs)
    ensures forall i :: 0 <= i < |cs| ==> (Cancelled(cs, xs, xs[m])[i] == 0 <==> cs[i] == 0 || i == m)
  {
    hide Add, Mul;
    forall i | 0 <= i < |cs|
      ensures Cancelled(cs, xs, xs[m])[i] == 0 <==> cs[i] == 0 || i == m
    {
      ZeroProduct(cs[i], Add(xs[i], xs[m]));
      ZeroSum(xs[i], xs[m]);
    }
  }

  // ----- Codewords -----

  /** The field elements that stand for the n positions of a word, times 2^s. */
  function Locators(n: nat, s: nat): (xs: Poly)
    ensures |xs| == n && forall i :: 0 <= i < n ==> xs[i] == Pow(2, n - 1 - i + s)
  {
    seq(n, i requires 0 <= i < n => Pow(2, n - 1 - i + s))
  }

  lemma {:induction false} PowerSumIsValue(c: Poly, s: nat, k: nat)
    ensures PowerSum(c, Locators(|c|, s), k) == Mul(Eval(c, Pow(2, k)), Pow(Pow(2, k), s))
    decreases |c|
  {
    hide Add, Mul, Pow;
    var z := Pow(2, k);
    if |c| == 0 {
      MulZero(Pow(z, s));
    } else {
      var n := |c| - 1;
      var c', v, p := c[..n], Eval(c[..n], z), Pow(z, s);
      assert Locators(|c|, s)[..n] == Locators(n, s + 1);
      PowerSumIsValue(c', s + 1, k);
      PowOfPow(s, k);
      PowStep(z, s);
      MulCommutative(p, z);
      MulAssociative(v, z, p);
      MulLinearLeft(Mul(v, z), c[n], p);
    }
  }

  lemma LocatorsDistinct(n: nat)
    requires n <= 255
    ensures Distinct(Locators(n, 0))
  {
    hide Pow;
    forall i, j | 0 <= i < j < n
      ensures Locators(n, 0)[i] != Locators(n, 0)[j]
    {
      PowersDistinct(n - 1 - j, n - 1 - i);
    }
  }

  /** A word is a codeword with `degree` check bytes when all its syndromes are zero. */
  ghost predicate IsCodeword(c: Poly, degree: nat) {
    forall k: nat :: k < degree ==> Eval(c, Pow(2, k)) == 0
  }

  lemma {:induction false} DistanceIsWeight(a: Poly, b: Poly)
    requires |a| == |b|
    ensures Weight(Sum(a, b)) == Distance(a, b)
    decreases |a|
  {
    hide Add;
    if |a| > 0 {
      var n := |a| - 1;
      DistanceIsWeight(a[..n], b[..n]);
      assert Sum(a, b)[..n] == Sum(a[..n], b[..n]);
      ZeroSum(a[n], b[n]);
    }
  }

  /** Two different codewords of equal length differ in more positions than there are check bytes. */
  lemma MinimumDistance(a: Poly, b: Poly, degree: nat)
    requires |a| == |b| <= 255
    requires IsCodeword(a, degree) && IsCodeword(b, degree)
    requires a != b
    ensures Distance(a, b) > degree
  {
    hide Add, Mul, Pow, PowerSum, Weight, Distance, Eval;
    if Distance(a, b) <= degree {
      var c, xs := Sum(a, b), Locators(|a|, 0);
      forall k: nat | k < degree
        ensures PowerSum(c, xs, k) == 0
      {
        EvalSum(a, b, Pow(2, k));
        AddZero(0);
        PowerSumIsValue(c, 0, k);
        MulZero(Pow(Pow(2, k), 0));
      }
      LocatorsDistinct(|a|);
      DistanceIsWeight(a, b);
      Vandermonde(c, xs, degree);
      forall i | 0 <= i < |a|
        ensures a[i] == b[i]
      {
        ZeroSum(a[i], b[i]);
      }
    }
  }

  /**
   * A received word with no more than t damaged positions, where 2 * t is at most the number of
   * check bytes, lies that close to one codeword only: the one that was sent.
   */
  lemma UniqueCorrection(sent: Poly, received: Poly, other: Poly, degree: nat, t: nat)
    requires |sent| == |received| == |other| <= 255
    requires IsCodeword(sent, degree) && IsCodeword(other, degree)
    requires 2 * t <= degree
    requires Distance(sent, received) <= t && Distance(received, other) <= t
    ensures other == sent
  {
    if other != sent {
      TriangleInequality(sent, received, other);
      MinimumDistance(sent, other, degree);
    }
  }

  /** Appending the remainder gives a codeword. */
  lemma EncodedIsCodeword(data: Poly, degree: nat)
    requires degree > 0
    ensures IsCodeword(data + Remainder(data, Generator(degree)[1..]), degree)
  {
    hide Pow, Generator, Eval, Remainder;
    var divisor := Generator(degree)[1..];
    GeneratorMonic(degree);
    assert [1] + divisor == Generator(degree);
    forall k: nat | k < degree
      ensures Eval(data + Remainder(data, divisor), Pow(2, k)) == 0
    {
      GeneratorRoots(degree, Pow(2, k));
      CodewordVanishes(data, divisor, Pow(2, k));
    }
  }

  lemma {:induction false} WeightBound(cs: Poly)
    ensures Weight(cs) <= |cs|
    decreases |cs|
  {
    if |cs| > 0 {
      WeightBound(cs[..|cs| - 1]);
    }
  }

  /** The common data of two words cancels in their sum. */
  lemma SamePrefixSum(data: Poly, a: Poly, b: Poly, z: byte)
    requires |a| == |b|
    ensures Add(Eval(data + a, z), Eval(data + b, z)) == Eval(Sum(a, b), z)
  {
    hide Add, Eval;
    EvalSum(data + a, data + b, z);
    forall i | 0 <= i < |data|
      ensures Add(data[i], data[i]) == 0
    {
      AddSelf(data[i]);
    }
    assert Sum(data + a, data + b) == Zeros(|data|) + Sum(a, b);
    EvalLeadingZeros(|data|, Sum(a, b), z);
  }

  /** Check bytes that vanish where the generator does can only be zero. */
  lemma ZeroCheck(e: Poly)
    requires |e| <= 255 && IsCodeword(e, |e|)
    ensures forall i :: 0 <= i < |e| ==> e[i] == 0
  {
    hide Mul, Pow, PowerSum, Weight, Eval;
    forall k: nat | k < |e|
      ensures PowerSum(e, Locators(|e|, 0), k) == 0
    {
      PowerSumIsValue(e, 0, k);
      MulZero(Pow(Pow(2, k), 0));
    }
    LocatorsDistinct(|e|);
    WeightBound(e);
    Vandermonde(e, Locators(|e|, 0), |e|);
  }

  /** The codewords are exactly the words that the encoder produces, however long the data. */
  lemma CodewordIffEncoded(data: Poly, check: Poly)
    requires 0 < |check| <= 255
    ensures IsCodeword(data + check, |check|) <==> check == Remainder(data, Generator(|check|)[1..])
  {
    hide Add, Pow, Generator, Eval, Remainder;
    var degree := |check|;
    var r := Remainder(data, Generator(degree)[1..]);
    EncodedIsCodeword(data, degree);
    if IsCodeword(data + check, degree) {
      var e := Sum(check, r);
      forall k: nat | k < degree
        ensures Eval(e, Pow(2, k)) == 0
      {
        SamePrefixSum(data, check, r, Pow(2, k));
        AddZero(0);
      }
      ZeroCheck(e);
      forall i | 0 <= i < degree
        ensures check[i] == r[i]
      {
        ZeroSum(check[i], r[i]);
      }
    }
  }
}
