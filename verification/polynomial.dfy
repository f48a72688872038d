/** Polynomials over GF(2^8/0x11D), with the coefficient of the highest power first. */
module Polynomial {
  import opened BinaryPoly
  import opened Gf256

  type Poly = seq<byte>

  function Zeros(n: nat): (p: Poly)
    ensures |p| == n && forall i :: 0 <= i < n ==> p[i] == 0
  {
    seq(n, i => 0)
  }

  /** The sum of two polynomials of equal length. */
  function Sum(p: Poly, q: Poly): (r: Poly)
    requires |p| == |q|
    ensures |r| == |p| && forall i :: 0 <= i < |p| ==> r[i] == Add(p[i], q[i])
  {
    seq(|p|, i requires 0 <= i < |p| => Add(p[i], q[i]))
  }

  function Scale(p: Poly, c: byte): (r: Poly)
    ensures |r| == |p| && forall i :: 0 <= i < |p| ==> r[i] == Mul(p[i], c)
  {
    seq(|p|, i requires 0 <= i < |p| => Mul(p[i], c))
  }

  /** The value of p at z, by Horner's rule. */
  function Eval(p: Poly, z: byte): byte {
    if |p| == 0 then 0 else Add(Mul(Eval(p[..|p| - 1], z), z), p[|p| - 1])
  }

  /** The product of q and g. */
  function Product(q: Poly, g: Poly): (r: Poly)
    requires |g| > 0
    ensures |r| == |q| + |g| - 1
    decreases |q|
  {
    if |q| == 0 then Zeros(|g| - 1)
    else Sum(Product(q[..|q| - 1], g) + [0], Zeros(|q| - 1) + Scale(g, q[|q| - 1]))
  }

  // ----- Addition -----

  lemma AddZero(a: byte)
    ensures Add(a, 0) == a == Add(0, a)
  {
    XorZero(a);
  }

  lemma AddSelf(a: byte)
    ensures Add(a, a) == 0
  {
    XorSelf(a);
  }

  lemma AddRegroup(a: byte, b: byte, c: byte, d: byte)
    ensures Add(Add(a, b), Add(c, d)) == Add(Add(a, c), Add(b, d))
  {
    XorRegroup(a, b, c, d);
  }

  lemma AddCancel(a: byte, b: byte)
    ensures Add(a, Add(b, a)) == b
  {
    hide Xor;
    XorCommutative(b, a);
    XorAssociative(a, a, b);
    XorSelf(a);
    XorZero(b);
  }

  // ----- Values of polynomials -----

  lemma EvalAppend(p: Poly, c: byte, z: byte)
    ensures Eval(p + [c], z) == Add(Mul(Eval(p, z), z), c)
  {
    assert (p + [c])[..|p|] == p;
  }

  lemma {:induction false} EvalZeros(n: nat, z: byte)
    ensures Eval(Zeros(n), z) == 0
  {
    if n > 0 {
      EvalZeros(n - 1, z);
      assert Zeros(n)[..n - 1] == Zeros(n - 1);
      MulZeroLeft(z);
      AddZero(0);
    }
  }

  lemma {:induction false} EvalSum(p: Poly, q: Poly, z: byte)
    requires |p| == |q|
    ensures Eval(Sum(p, q), z) == Add(Eval(p, z), Eval(q, z))
    decreases |p|
  {
    hide Add, Mul;
    if |p| == 0 {
      AddZero(0);
    } else {
      var n := |p| - 1;
      var p', q' := p[..n], q[..n];
      assert Sum(p, q)[..n] == Sum(p', q');
      EvalSum(p', q', z);
      MulLinearLeft(Eval(p', z), Eval(q', z), z);
      AddRegroup(Mul(Eval(p', z), z), Mul(Eval(q', z), z), p[n], q[n]);
    }
  }

  lemma {:induction false} EvalScale(p: Poly, c: byte, z: byte)
    ensures Eval(Scale(p, c), z) == Mul(c, Eval(p, z))
    decreases |p|
  {
    hide Add, Mul;
    if |p| == 0 {
      MulZero(c);
    } else {
      var n := |p| - 1;
      var p' := p[..n];
      assert Scale(p, c)[..n] == Scale(p', c);
      EvalScale(p', c, z);
      MulAssociative(c, Eval(p', z), z);
      MulCommutative(p[n], c);
      MulLinearRight(c, Mul(Eval(p', z), z), p[n]);
    }
  }

  lemma MulZero(c: byte)
    ensures Mul(c, 0) == 0 == Mul(0, c)
  {
    MulZeroLeft(c);
  }

  lemma {:induction false} EvalLeadingZeros(n: nat, p: Poly, z: byte)
    ensures Eval(Zeros(n) + p, z) == Eval(p, z)
    decreases |p|
  {
    if |p| == 0 {
      assert Zeros(n) + p == Zeros(n);
      EvalZeros(n, z);
    } else {
      assert (Zeros(n) + p)[..n + |p| - 1] == Zeros(n) + p[..|p| - 1];
      EvalLeadingZeros(n, p[..|p| - 1], z);
    }
  }

  /** Evaluation turns products of polynomials into products of values. */
  lemma {:induction false} EvalProduct(q: Poly, g: Poly, z: byte)
    requires |g| > 0
    ensures Eval(Product(q, g), z) == Mul(Eval(q, z), Eval(g, z))
    decreases |q|
  {
    hide Add, Mul;
    if |q| == 0 {
      EvalZeros(|g| - 1, z);
      MulZero(Eval(g, z));
    } else {
      var q', c := q[..|q| - 1], q[|q| - 1];
      var e, v := Eval(q', z), Eval(g, z);
      calc {
        Eval(Product(q, g), z);
        { EvalSum(Product(q', g) + [0], Zeros(|q| - 1) + Scale(g, c), z); }
        Add(Eval(Product(q', g) + [0], z), Eval(Zeros(|q| - 1) + Scale(g, c), z));
        { EvalAppend(Product(q', g), 0, z); AddZero(Mul(Eval(Product(q', g), z), z)); }
        Add(Mul(Eval(Product(q', g), z), z), Eval(Zeros(|q| - 1) + Scale(g, c), z));
        { EvalProduct(q', g, z); EvalLeadingZeros(|q| - 1, Scale(g, c), z); EvalScale(g, c, z); }
        Add(Mul(Mul(e, v), z), Mul(c, v));
        { MulAssociative(e, v, z); MulCommutative(v, z); MulAssociative(e, z, v); }
        Add(Mul(Mul(e, z), v), Mul(c, v));
        { MulLinearLeft(Mul(e, z), c, v); }
        Mul(Add(Mul(e, z), c), v);
      }
    }
  }
}
