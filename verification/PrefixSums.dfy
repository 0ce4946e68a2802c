/** Range sums over a sequence of weights; position `p` (from 1) carries weight `w[p - 1]`. */
module PrefixSums {

  /** The total weight of positions `lo + 1 .. hi`. */
  function Sum(w: seq<int>, lo: nat, hi: nat): int
    requires hi <= |w|
  {
    if hi <= lo then 0 else Sum(w, lo, hi - 1) + w[hi - 1]
  }

  lemma {:induction false} SumSplit(w: seq<int>, lo: nat, mid: nat, hi: nat)
    requires lo <= mid <= hi <= |w|
    ensures Sum(w, lo, hi) == Sum(w, lo, mid) + Sum(w, mid, hi)
  {
    if mid < hi {
      SumSplit(w, lo, mid, hi - 1);
    }
  }

  /** Changing one weight changes exactly the ranges that contain its position. */
  lemma {:induction false} SumUpdate(w: seq<int>, p: nat, x: int, lo: nat, hi: nat)
    requires 1 <= p <= |w| && hi <= |w|
    ensures Sum(w[p - 1 := x], lo, hi) == Sum(w, lo, hi) + (if lo < p <= hi then x - w[p - 1] else 0)
  {
    if lo < hi {
      SumUpdate(w, p, x, lo, hi - 1);
    }
  }

  /** Only the weights inside the range matter. */
  lemma {:induction false} SumSame(w: seq<int>, v: seq<int>, lo: nat, hi: nat)
    requires hi <= |w| && hi <= |v|
    requires forall p :: lo <= p < hi ==> w[p] == v[p]
    ensures Sum(w, lo, hi) == Sum(v, lo, hi)
  {
    if lo < hi {
      SumSame(w, v, lo, hi - 1);
    }
  }

  lemma {:induction false} SumZeros(w: seq<int>, lo: nat, hi: nat)
    requires hi <= |w|
    requires forall p :: lo <= p < hi ==> w[p] == 0
    ensures Sum(w, lo, hi) == 0
  {
    if lo < hi {
      SumZeros(w, lo, hi - 1);
    }
  }

  lemma {:induction false} SumNonNegative(w: seq<int>, lo: nat, hi: nat)
    requires hi <= |w|
    requires forall p :: lo <= p < hi ==> w[p] >= 0
    ensures Sum(w, lo, hi) >= 0
  {
    if lo < hi {
      SumNonNegative(w, lo, hi - 1);
    }
  }

  /** A range of non-negative weights never exceeds the whole. */
  lemma {:induction false} SumWithin(w: seq<int>, lo: nat, hi: nat)
    requires lo <= hi <= |w|
    requires forall p :: 0 <= p < |w| ==> w[p] >= 0
    ensures Sum(w, lo, hi) <= Sum(w, 0, |w|)
  {
    SumSplit(w, 0, lo, |w|);
    SumSplit(w, lo, hi, |w|);
    SumNonNegative(w, 0, lo);
    SumNonNegative(w, hi, |w|);
  }

  /** The weights of `active` packed positions followed by free ones. */
  function Packed(active: nat, capacity: nat): (w: seq<int>)
    requires active <= capacity
  {
    seq(capacity, p => if p < active then 1 else 0)
  }

  /** The closed form of a range sum over packed weights. */
  lemma {:induction false} SumPacked(active: nat, capacity: nat, lo: nat, hi: nat)
    requires active <= capacity && lo <= hi <= capacity
    ensures Sum(Packed(active, capacity), lo, hi)
            == if lo < active then (if hi < active then hi else active) - lo else 0
  {
    if lo < hi {
      SumPacked(active, capacity, lo, hi - 1);
    }
  }
}
