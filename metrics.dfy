/** The distances between two feature vectors that a segment offers.  Both
    compare the vectors position by position as Python's `zip` pairs them,
    so they stop at the end of the shorter vector. */
module Metrics {
  import opened Tables

  function Abs(x: int): nat {
    if x < 0 then -x else x
  }

  function Min(a: int, b: int): int {
    if a < b then a else b
  }

  /** The sum of the absolute differences of the pairs `zip` forms, stopping
      at the end of the shorter vector. */
  function L1(xs: seq<int>, ys: seq<int>): nat {
    if |xs| == 0 || |ys| == 0 then 0
    else Abs(xs[0] - ys[0]) + L1(xs[1..], ys[1..])
  }

  /** The number of pairs `zip` forms whose two values differ, which is at
      most the number of pairs. */
  function Hamming(xs: seq<int>, ys: seq<int>): (n: nat)
    ensures n <= Min(|xs|, |ys|)
  {
    if |xs| == 0 || |ys| == 0 then 0
    else (if xs[0] != ys[0] then 1 else 0) + Hamming(xs[1..], ys[1..])
  }

  /** The two vectors agree at every position that `zip` pairs. */
  predicate AgreeOnZip(xs: seq<int>, ys: seq<int>) {
    forall i :: 0 <= i < |xs| && i < |ys| ==> xs[i] == ys[i]
  }

  predicate AllTernary(xs: seq<int>) {
    forall i :: 0 <= i < |xs| ==> Ternary(xs[i])
  }

  lemma AgreeOnZipTail(xs: seq<int>, ys: seq<int>)
    requires |xs| > 0 && |ys| > 0
    ensures AgreeOnZip(xs, ys) <==> xs[0] == ys[0] && AgreeOnZip(xs[1..], ys[1..])
  {
    if xs[0] == ys[0] && AgreeOnZip(xs[1..], ys[1..]) {
      forall i | 0 <= i < |xs| && i < |ys| ensures xs[i] == ys[i] {
        if i > 0 { assert xs[i] == xs[1..][i - 1] && ys[i] == ys[1..][i - 1]; }
      }
    }
  }

  /** The L1 distance is zero exactly when the paired values all agree. */
  lemma {:induction false} L1ZeroIff(xs: seq<int>, ys: seq<int>)
    ensures L1(xs, ys) == 0 <==> AgreeOnZip(xs, ys)
    decreases |xs|
  {
    if |xs| > 0 && |ys| > 0 {
      L1ZeroIff(xs[1..], ys[1..]);
      AgreeOnZipTail(xs, ys);
    }
  }

  /** The Hamming distance is zero exactly when the paired values all agree. */
  lemma {:induction false} HammingZeroIff(xs: seq<int>, ys: seq<int>)
    ensures Hamming(xs, ys) == 0 <==> AgreeOnZip(xs, ys)
    decreases |xs|
  {
    if |xs| > 0 && |ys| > 0 {
      HammingZeroIff(xs[1..], ys[1..]);
      AgreeOnZipTail(xs, ys);
    }
  }

  /** A vector is at distance zero from itself. */
  lemma SelfDistance(xs: seq<int>)
    ensures L1(xs, xs) == 0 && Hamming(xs, xs) == 0
  {
    L1ZeroIff(xs, xs);
    HammingZeroIff(xs, xs);
  }

  lemma {:induction false} L1Symmetric(xs: seq<int>, ys: seq<int>)
    ensures L1(xs, ys) == L1(ys, xs)
    decreases |xs|
  {
    if |xs| > 0 && |ys| > 0 {
      L1Symmetric(xs[1..], ys[1..]);
    }
  }

  lemma {:induction false} HammingSymmetric(xs: seq<int>, ys: seq<int>)
    ensures Hamming(xs, ys) == Hamming(ys, xs)
    decreases |xs|
  {
    if |xs| > 0 && |ys| > 0 {
      HammingSymmetric(xs[1..], ys[1..]);
    }
  }

  /** Every unequal pair adds at least one to the L1 distance. */
  lemma {:induction false} HammingAtMostL1(xs: seq<int>, ys: seq<int>)
    ensures Hamming(xs, ys) <= L1(xs, ys)
    decreases |xs|
  {
    if |xs| > 0 && |ys| > 0 {
      HammingAtMostL1(xs[1..], ys[1..]);
    }
  }

  /** Between ternary values an unequal pair adds at most two. */
  lemma {:induction false} L1AtMostTwiceHamming(xs: seq<int>, ys: seq<int>)
    ensures AllTernary(xs) && AllTernary(ys) ==> L1(xs, ys) <= 2 * Hamming(xs, ys)
    decreases |xs|
  {
    if AllTernary(xs) && AllTernary(ys) && |xs| > 0 && |ys| > 0 {
      assert Ternary(xs[0]) && Ternary(ys[0]);
      assert AllTernary(xs[1..]) by {
        forall i | 0 <= i < |xs[1..]| ensures Ternary(xs[1..][i]) { assert xs[1..][i] == xs[i + 1]; }
      }
      assert AllTernary(ys[1..]) by {
        forall i | 0 <= i < |ys[1..]| ensures Ternary(ys[1..][i]) { assert ys[1..][i] == ys[i + 1]; }
      }
      L1AtMostTwiceHamming(xs[1..], ys[1..]);
    }
  }

  /** Values past the end of the shorter vector play no part. */
  lemma {:induction false} Truncated(xs: seq<int>, ys: seq<int>)
    ensures L1(xs, ys) == L1(xs[..Min(|xs|, |ys|)], ys[..Min(|xs|, |ys|)])
    ensures Hamming(xs, ys) == Hamming(xs[..Min(|xs|, |ys|)], ys[..Min(|xs|, |ys|)])
    decreases |xs|
  {
    var n := Min(|xs|, |ys|);
    if n > 0 {
      Truncated(xs[1..], ys[1..]);
      assert xs[..n][1..] == xs[1..][..n - 1];
      assert ys[..n][1..] == ys[1..][..n - 1];
    }
  }

  /** On vectors of one length the L1 distance obeys the triangle inequality. */
  lemma {:induction false} L1Triangle(xs: seq<int>, ys: seq<int>, zs: seq<int>)
    requires |xs| == |ys| == |zs|
    ensures L1(xs, zs) <= L1(xs, ys) + L1(ys, zs)
    decreases |xs|
  {
    if |xs| > 0 {
      L1Triangle(xs[1..], ys[1..], zs[1..]);
    }
  }

  /** On vectors of one length the Hamming distance obeys the triangle
      inequality. */
  lemma {:induction false} HammingTriangle(xs: seq<int>, ys: seq<int>, zs: seq<int>)
    requires |xs| == |ys| == |zs|
    ensures Hamming(xs, zs) <= Hamming(xs, ys) + Hamming(ys, zs)
    decreases |xs|
  {
    if |xs| > 0 {
      HammingTriangle(xs[1..], ys[1..], zs[1..]);
    }
  }
}
