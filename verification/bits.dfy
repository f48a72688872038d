/** Bit strings and the appendable bit buffer. */
module Bits {
  import opened BinaryPoly

  /** The `len` low-order bits of val, highest first. */
  function BitsOf(val: nat, len: nat): (b: seq<bool>)
    ensures |b| == len
    decreases len
  {
    if len == 0 then [] else BitsOf(val / 2, len - 1) + [val % 2 == 1]
  }

  function ZeroBits(n: nat): (b: seq<bool>)
    ensures |b| == n && forall i :: 0 <= i < n ==> !b[i]
  {
    seq(n, i => false)
  }

  /** The number that a bit string denotes, highest bit first. */
  function ValueOf(b: seq<bool>): nat {
    if |b| == 0 then 0 else 2 * ValueOf(b[..|b| - 1]) + if b[|b| - 1] then 1 else 0
  }

  lemma {:induction false} ValueOfBitsOf(val: nat, len: nat)
    requires val < Pow2(len)
    ensures ValueOf(BitsOf(val, len)) == val
    decreases len
  {
    if len > 0 {
      ValueOfBitsOf(val / 2, len - 1);
      assert BitsOf(val, len)[..len - 1] == BitsOf(val / 2, len - 1);
    }
  }

  lemma {:induction false} BitsOfValueOf(b: seq<bool>)
    ensures ValueOf(b) < Pow2(|b|)
    ensures BitsOf(ValueOf(b), |b|) == b
  {
    if |b| > 0 {
      BitsOfValueOf(b[..|b| - 1]);
    }
  }

  /** The first bits of a longer bit string give the number without its low-order bits. */
  lemma {:induction false} BitsOfShr(val: nat, len: nat, k: nat)
    requires k <= len
    ensures BitsOf(val, len)[..len - k] == BitsOf(Shr(val, k), len - k)
    decreases len
  {
    if k > 0 {
      BitsOfShr(val / 2, len - 1, k - 1);
      assert BitsOf(val, len)[..len - k] == BitsOf(val / 2, len - 1)[..len - k];
    }
  }

  /** `BitBuffer`: bits that can be appended to. */
  class BitBuffer {
    var bits: seq<bool>

    constructor ()
      ensures bits == []
    {
      bits := [];
    }

    /** `BitBuffer::appendBits`; `ok` is false where the source throws `std::domain_error`. */
    method AppendBits(val: nat, len: int) returns (ok: bool)
      modifies this
      ensures ok <==> 0 <= len <= 31 && val < Pow2(len)
      ensures bits == if ok then old(bits) + BitsOf(val, len) else old(bits)
    {
      if len < 0 || len > 31 || Shr(val, len) != 0 {
        if 0 <= len <= 31 {
          ShrZero(val, len);
        }
        return false;
      }
      ShrZero(val, len);
      var i := len - 1;
      while i >= 0
        invariant -1 <= i < len
        invariant bits == old(bits) + BitsOf(val, len)[..len - 1 - i]
      {
        BitsOfShr(val, len, i);
        bits := bits + [Shr(val, i) % 2 != 0];
        i := i - 1;
      }
      ok := true;
    }

    /** Appends bits that another buffer holds, as `insert` at the end does. */
    method Append(more: seq<bool>)
      modifies this
      ensures bits == old(bits) + more
    {
      bits := bits + more;
    }
  }

  lemma {:induction false} ShrZero(a: nat, k: nat)
    ensures Shr(a, k) == 0 <==> a < Pow2(k)
  {
    if k > 0 {
      ShrZero(a / 2, k - 1);
    }
  }

  // ----- Reading back a series of appended values -----

  datatype Field = Field(val: nat, len: nat)

  ghost predicate Fits(fs: seq<Field>) {
    forall i :: 0 <= i < |fs| ==> fs[i].len <= 31 && fs[i].val < Pow2(fs[i].len)
  }

  function Appended(fs: seq<Field>): seq<bool> {
    if |fs| == 0 then [] else BitsOf(fs[0].val, fs[0].len) + Appended(fs[1..])
  }

  /** The values read from b when it is cut into fields of the given lengths. */
  function ReadFields(b: seq<bool>, lens: seq<nat>): seq<nat> {
    if |lens| == 0 || |b| < lens[0] then []
    else [ValueOf(b[..lens[0]])] + ReadFields(b[lens[0]..], lens[1..])
  }

  function Lengths(fs: seq<Field>): (lens: seq<nat>)
    ensures |lens| == |fs| && forall i :: 0 <= i < |fs| ==> lens[i] == fs[i].len
  {
    seq(|fs|, i requires 0 <= i < |fs| => fs[i].len)
  }

  function Values(fs: seq<Field>): (vals: seq<nat>)
    ensures |vals| == |fs| && forall i :: 0 <= i < |fs| ==> vals[i] == fs[i].val
  {
    seq(|fs|, i requires 0 <= i < |fs| => fs[i].val)
  }

  function TotalLength(lens: seq<nat>): nat {
    if lens == [] then 0 else lens[0] + TotalLength(lens[1..])
  }

  /** Whatever is appended after them, the fields read back as they were written, and they take no more than their lengths. */
  lemma {:induction false} FieldsReadBack(fs: seq<Field>, rest: seq<bool>)
    requires Fits(fs)
    ensures ReadFields(Appended(fs) + rest, Lengths(fs)) == Values(fs)
    ensures |Appended(fs)| == TotalLength(Lengths(fs))
    decreases |fs|
  {
    hide BitsOf, ValueOf, Pow2;
    if |fs| > 0 {
      var first := BitsOf(fs[0].val, fs[0].len);
      var b := Appended(fs) + rest;
      assert b[..fs[0].len] == first;
      assert b[fs[0].len..] == Appended(fs[1..]) + rest;
      ValueOfBitsOf(fs[0].val, fs[0].len);
      FieldsReadBack(fs[1..], rest);
      assert Lengths(fs)[1..] == Lengths(fs[1..]);
      assert Values(fs) == [fs[0].val] + Values(fs[1..]);
    }
  }
}
