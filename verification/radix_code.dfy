/**
 * Packing of small numbers into bits, group by group: the payload of numeric, alphanumeric and
 * byte segments. A group of t numbers is read as one number and takes slope * t + 1 bits.
 */
module RadixCode {
  import opened BinaryPoly
  import opened Bits

  datatype Coding = Coding(radix: nat, group: nat, slope: nat) {
    function GroupBits(t: nat): nat {
      slope * t + 1
    }

    /** Every full or partial group fits its bits. */
    ghost predicate Valid() {
      radix > 1 && group > 0 && forall t: nat :: 1 <= t <= group ==> Power(radix, t) <= Pow2(GroupBits(t))
    }
  }

  function Power(b: nat, n: nat): nat {
    if n == 0 then 1 else b * Power(b, n - 1)
  }

  ghost predicate Below(vs: seq<nat>, radix: nat) {
    forall i :: 0 <= i < |vs| ==> vs[i] < radix
  }

  /** The number whose digits are vs, most significant first. */
  function Number(vs: seq<nat>, radix: nat): nat {
    if |vs| == 0 then 0 else radix * Number(vs[..|vs| - 1], radix) + vs[|vs| - 1]
  }

  /** The t digits of v. */
  function Digits(v: nat, t: nat, radix: nat): (vs: seq<nat>)
    requires radix > 0
    ensures |vs| == t
    decreases t
  {
    if t == 0 then [] else Digits(v / radix, t - 1, radix) + [v % radix]
  }

  lemma {:induction false} NumberBound(vs: seq<nat>, radix: nat)
    requires Below(vs, radix)
    ensures Number(vs, radix) < Power(radix, |vs|)
  {
    if |vs| > 0 {
      var init := vs[..|vs| - 1];
      NumberBound(init, radix);
      MulBound(radix, Number(init, radix), vs[|vs| - 1], Power(radix, |vs| - 1));
    }
  }

  lemma Distribute(a: int, b: int, c: int)
    ensures a * (b + c) == a * b + a * c
  {
  }

  lemma {:induction false} MulGrows(a: nat, d: nat)
    requires d > 0
    ensures a <= a * d
    decreases d
  {
    if d > 1 {
      MulGrows(a, d - 1);
      Distribute(a, d - 1, 1);
    }
  }

  lemma MulBound(radix: nat, n: nat, v: nat, p: nat)
    requires v < radix && n < p
    ensures radix * n + v < radix * p
  {
    MulGrows(radix, p - n);
    Distribute(radix, n, p - n);
  }

  lemma DivModUnique(radix: nat, n: nat, v: nat)
    requires v < radix
    ensures (radix * n + v) / radix == n && (radix * n + v) % radix == v
  {
    var x := radix * n + v;
    var q, r := x / radix, x % radix;
    assert x == radix * q + r;
    if q < n {
      MulBound(radix, q, r, n);
    } else if q > n {
      MulBound(radix, n, v, q);
    }
  }

  lemma {:induction false} DigitsOfNumber(vs: seq<nat>, radix: nat)
    requires radix > 0 && Below(vs, radix)
    ensures Digits(Number(vs, radix), |vs|, radix) == vs
  {
    if |vs| > 0 {
      var init, v := vs[..|vs| - 1], vs[|vs| - 1];
      DigitsOfNumber(init, radix);
      DivModUnique(radix, Number(init, radix), v);
    }
  }

  // ----- Groups -----

  function GroupSize(n: nat, c: Coding): nat {
    if n < c.group then n else c.group
  }

  function Encode(vs: seq<nat>, c: Coding): seq<bool>
    requires c.group > 0
    decreases |vs|
  {
    if |vs| == 0 then []
    else
      var t := GroupSize(|vs|, c);
      BitsOf(Number(vs[..t], c.radix), c.GroupBits(t)) + Encode(vs[t..], c)
  }

  /** The number of bits that n numbers take. */
  function EncodedLength(n: nat, c: Coding): nat
    requires c.group > 0
    decreases n
  {
    if n == 0 then 0
    else
      var t := GroupSize(n, c);
      c.GroupBits(t) + EncodedLength(n - t, c)
  }

  /** Reads n numbers from the front of b. */
  function Decode(b: seq<bool>, n: nat, c: Coding): (vs: seq<nat>)
    requires c.group > 0 && c.radix > 0
    requires |b| >= EncodedLength(n, c)
    ensures |vs| == n
    decreases n
  {
    if n == 0 then []
    else
      var t := GroupSize(n, c);
      var k := c.GroupBits(t);
      Digits(ValueOf(b[..k]), t, c.radix) + Decode(b[k..], n - t, c)
  }

  lemma {:induction false} EncodeLength(vs: seq<nat>, c: Coding)
    requires c.group > 0
    ensures |Encode(vs, c)| == EncodedLength(|vs|, c)
    decreases |vs|
  {
    if |vs| > 0 {
      EncodeLength(vs[GroupSize(|vs|, c)..], c);
    }
  }

  /** The numbers come back, whatever bits follow. */
  lemma {:induction false} DecodeEncode(vs: seq<nat>, c: Coding, rest: seq<bool>)
    requires c.Valid() && Below(vs, c.radix)
    ensures |Encode(vs, c)| == EncodedLength(|vs|, c)
    ensures Decode(Encode(vs, c) + rest, |vs|, c) == vs
    decreases |vs|
  {
    EncodeLength(vs, c);
    if |vs| > 0 {
      var t := GroupSize(|vs|, c);
      var k, head, tail := c.GroupBits(t), vs[..t], vs[t..];
      var b := Encode(vs, c) + rest;
      var code := BitsOf(Number(head, c.radix), k);
      assert b[..k] == code;
      assert b[k..] == Encode(tail, c) + rest;
      NumberBound(head, c.radix);
      ValueOfBitsOf(Number(head, c.radix), k);
      DigitsOfNumber(head, c.radix);
      DecodeEncode(tail, c, rest);
    }
  }

  /** Whole groups can be encoded before the rest is known. */
  lemma {:induction false} EncodeAppend(us: seq<nat>, vs: seq<nat>, c: Coding)
    requires c.group > 0 && |us| % c.group == 0
    ensures Encode(us + vs, c) == Encode(us, c) + Encode(vs, c)
    decreases |us|
  {
    if |us| == 0 {
      assert us + vs == vs;
    } else {
      AtLeastOneGroup(|us|, c.group);
      var g := c.group;
      assert (us + vs)[..g] == us[..g] && (us + vs)[g..] == us[g..] + vs;
      EncodeAppend(us[g..], vs, c);
    }
  }

  lemma AtLeastOneGroup(n: nat, g: nat)
    requires 0 < n && 0 < g && n % g == 0
    ensures g <= n && (n - g) % g == 0
  {
    assert n == g * (n / g);
    if n < g {
      DivModUnique(g, 0, n);
    } else {
      DivModUnique(g, n / g - 1, 0);
    }
  }

  lemma EncodeOneGroup(vs: seq<nat>, c: Coding)
    requires 0 < |vs| <= c.group
    ensures Encode(vs, c) == BitsOf(Number(vs, c.radix), c.GroupBits(|vs|))
  {
    assert vs[..|vs|] == vs;
    assert Encode(vs[|vs|..], c) == [];
  }
}
