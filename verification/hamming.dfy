/** The Hamming distance of words over any alphabet. */
module Hamming {

  /** The number of positions in which two words differ. */
  function Distance<T(==)>(a: seq<T>, b: seq<T>): nat
    requires |a| == |b|
    decreases |a|
  {
    if |a| == 0 then 0
    else
      var n := |a| - 1;
      Distance(a[..n], b[..n]) + if a[n] == b[n] then 0 else 1
  }

  lemma {:induction false} DistanceSelf<T>(a: seq<T>)
    ensures Distance(a, a) == 0
    decreases |a|
  {
    if |a| > 0 {
      DistanceSelf(a[..|a| - 1]);
    }
  }

  lemma {:induction false} DistanceSymmetric<T>(a: seq<T>, b: seq<T>)
    requires |a| == |b|
    ensures Distance(a, b) == Distance(b, a)
    decreases |a|
  {
    if |a| > 0 {
      DistanceSymmetric(a[..|a| - 1], b[..|a| - 1]);
    }
  }

  lemma {:induction false} TriangleInequality<T>(a: seq<T>, w: seq<T>, b: seq<T>)
    requires |a| == |w| == |b|
    ensures Distance(a, b) <= Distance(a, w) + Distance(w, b)
    decreases |a|
  {
    if |a| > 0 {
      var n := |a| - 1;
      TriangleInequality(a[..n], w[..n], b[..n]);
    }
  }

  lemma {:induction false} DistanceJoin<T>(a: seq<T>, b: seq<T>, c: seq<T>, d: seq<T>)
    requires |a| == |c| && |b| == |d|
    ensures Distance(a + b, c + d) == Distance(a, c) + Distance(b, d)
    decreases |b|
  {
    if |b| == 0 {
      assert a + b == a && c + d == c;
    } else {
      var n := |b| - 1;
      DistanceJoin(a, b[..n], c, d[..n]);
      assert (a + b)[..|a| + n] == a + b[..n] && (c + d)[..|a| + n] == c + d[..n];
    }
  }

  /** A part of two words differs in no more positions than the whole. */
  lemma DistanceOfPart<T>(a: seq<T>, b: seq<T>, i: nat, k: nat)
    requires |a| == |b| && i <= k <= |a|
    ensures Distance(a[i..k], b[i..k]) <= Distance(a, b)
    ensures Distance(a[..k], b[..k]) == Distance(a[..i], b[..i]) + Distance(a[i..k], b[i..k])
  {
    hide Distance;
    DistanceJoin(a[..k], a[k..], b[..k], b[k..]);
    DistanceJoin(a[..i], a[i..k], b[..i], b[i..k]);
    assert a == a[..k] + a[k..] && b == b[..k] + b[k..];
    assert a[..k] == a[..i] + a[i..k] && b[..k] == b[..i] + b[i..k];
  }

  /** Cutting out the same part of two words does not add differences. */
  lemma DistanceWithout<T>(a: seq<T>, b: seq<T>, i: nat, k: nat)
    requires |a| == |b| && i <= k <= |a|
    ensures Distance(a[..i] + a[k..], b[..i] + b[k..]) <= Distance(a, b)
  {
    hide Distance;
    DistanceJoin(a[..i], a[k..], b[..i], b[k..]);
    DistanceOfPart(a, b, i, k);
    DistanceJoin(a[..k], a[k..], b[..k], b[k..]);
    assert a == a[..k] + a[k..] && b == b[..k] + b[k..];
  }

  lemma {:induction false} DistanceZero<T>(a: seq<T>, b: seq<T>)
    requires |a| == |b| && Distance(a, b) == 0
    ensures a == b
    decreases |a|
  {
    if |a| > 0 {
      var n := |a| - 1;
      DistanceZero(a[..n], b[..n]);
      assert a == a[..n] + [a[n]] && b == b[..n] + [b[n]];
    }
  }
}
