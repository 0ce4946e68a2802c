/** The binary indexed tree of the offline analyses: an in-place vector with a zero sentinel. */
module Fenwick {
  import opened BinaryIndex
  import opened PrefixSums

  /** Every node of `tree` holds the total weight of the positions it covers. */
  ghost predicate Indexes(tree: seq<int>, w: seq<int>) {
    && |tree| == |w| + 1
    && forall j :: 1 <= j <= |w| ==> tree[j] == NodeSum(w, j)
  }

  /** The weight a node accounts for: positions `j - LowBit(j) + 1 .. j`. */
  ghost function NodeSum(w: seq<int>, j: nat): int
    requires 1 <= j <= |w|
  {
    Sum(w, j - LowBit(j), j)
  }

  /** The update walk has reached `slot`: only covering nodes from `slot` on still lack `delta`. */
  ghost predicate Walking(tree: seq<int>, w: seq<int>, position: nat, delta: int, slot: nat) {
    && |tree| == |w| + 1
    && 0 < slot && Covers(slot, position)
    && forall j :: 1 <= j <= |w| ==> tree[j] == NodeSum(w, j) - (if slot <= j && Covers(j, position) then delta else 0)
  }

  lemma WalkStart(tree: seq<int>, w: seq<int>, position: nat, delta: int)
    requires Indexes(tree, w) && 1 <= position <= |w|
    ensures Walking(tree, w[position - 1 := w[position - 1] + delta], position, delta, position)
  {
    forall j | 1 <= j <= |w|
      ensures NodeSum(w[position - 1 := w[position - 1] + delta], j)
              == tree[j] + if Covers(j, position) then delta else 0
    {
      SumUpdate(w, position, w[position - 1] + delta, j - LowBit(j), j);
    }
  }

  /** Correcting `slot` settles exactly that node before the walk's next stop. */
  lemma WalkStep(tree: seq<int>, w: seq<int>, position: nat, delta: int, slot: nat)
    requires Walking(tree, w, position, delta, slot) && slot < |tree|
    ensures Walking(tree[slot := tree[slot] + delta], w, position, delta, slot + LowBit(slot))
  {
    SuccessorCovers(slot);
    forall j | slot < j < slot + LowBit(slot)
      ensures !Covers(j, position)
    {
      NothingBetween(slot, j);
    }
  }

  lemma WalkEnd(tree: seq<int>, w: seq<int>, position: nat, delta: int, slot: nat)
    requires Walking(tree, w, position, delta, slot) && slot >= |tree|
    ensures Indexes(tree, w)
  {
  }

  class FenwickTree {
    const tree: array<int>
    ghost var weights: seq<int>

    ghost predicate Valid()
      reads this, tree
    {
      Indexes(tree[..], weights)
    }

    constructor (size: nat)
      ensures Valid() && fresh(tree)
      ensures weights == seq(size, _ => 0)
    {
      tree := new int[size + 1](_ => 0);
      weights := seq(size, _ => 0);
      new;
      forall j | 1 <= j <= size
        ensures tree[j] == NodeSum(weights, j)
      {
        SumZeros(weights, j - LowBit(j), j);
      }
    }

    /** Add `delta` to the weight at `position`. */
    method Add(position: nat, delta: int)
      requires Valid() && 1 <= position <= |weights|
      modifies this, tree
      ensures Valid()
      ensures weights == old(weights)[position - 1 := old(weights)[position - 1] + delta]
    {
      ghost var w := weights[position - 1 := weights[position - 1] + delta];
      WalkStart(tree[..], weights, position, delta);
      weights := w;
      var slot: nat := position;
      while slot < tree.Length
        invariant Walking(tree[..], w, position, delta, slot) && weights == w
      {
        WalkStep(tree[..], w, position, delta, slot);
        ghost var before := tree[..];
        tree[slot] := tree[slot] + delta;
        assert tree[..] == before[slot := before[slot] + delta];
        slot := slot + LowBit(slot);
      }
      WalkEnd(tree[..], w, position, delta, slot);
    }

    /** The total weight of positions `1 .. position`. */
    method PrefixSum(position: nat) returns (total: int)
      requires Valid() && position <= |weights|
      ensures total == Sum(weights, 0, position)
    {
      total := 0;
      var slot: nat := position;
      while slot > 0
        invariant slot <= position
        invariant total + Sum(weights, 0, slot) == Sum(weights, 0, position)
      {
        SumSplit(weights, 0, slot - LowBit(slot), slot);
        total := total + tree[slot];
        slot := slot - LowBit(slot);
      }
    }
  }
}
