/** The lowest set bit of an index and the two walks of a binary indexed tree. */
module BinaryIndex {
  import opened Machine

  /** The largest power of two that divides `n`. */
  function LowBit(n: nat): (b: nat)
    requires n > 0
    ensures 0 < b <= n
  {
    if n % 2 == 1 then 1 else 2 * LowBit(n / 2)
  }

  /** Bitwise conjunction of two naturals, digit by digit. */
  function And(x: nat, y: nat): nat {
    if x == 0 || y == 0 then 0
    else 2 * And(x / 2, y / 2) + (if x % 2 == 1 && y % 2 == 1 then 1 else 0)
  }

  function Pow2(w: nat): (p: nat)
    ensures p > 0
  {
    if w == 0 then 1 else 2 * Pow2(w - 1)
  }

  /** `x & (~x + 1)` on 64-bit words, with the complement and the wrapping increment spelled out. */
  function LowestSetBit(x: nat): (b: nat)
    requires 0 < x < TWO64
    ensures b == LowBit(x)
  {
    var complement := TWO64 - 1 - x;
    Pow2Of64();
    AndNegationIsLowBit(x, 64);
    And(x, (complement + 1) % TWO64)
  }

  lemma Pow2Byte(w: nat)
    ensures Pow2(w + 8) == 256 * Pow2(w)
  {
    assert Pow2(w + 8) == 4 * Pow2(w + 6) == 16 * Pow2(w + 4) == 64 * Pow2(w + 2);
  }

  lemma Pow2Of64()
    ensures Pow2(64) == TWO64
  {
    Pow2Byte(0); Pow2Byte(8); Pow2Byte(16); Pow2Byte(24);
    Pow2Byte(32); Pow2Byte(40); Pow2Byte(48); Pow2Byte(56);
  }

  lemma {:induction false} AndNegationIsLowBit(x: nat, w: nat)
    requires 0 < x < Pow2(w)
    ensures And(x, Pow2(w) - x) == LowBit(x)
  {
    if x % 2 == 1 {
      var y := Pow2(w) - x;
      assert y % 2 == 1;
      ComplementsDoNotMeet(x / 2, w - 1);
      assert y / 2 == Pow2(w - 1) - 1 - x / 2;
    } else {
      AndNegationIsLowBit(x / 2, w - 1);
      assert (Pow2(w) - x) / 2 == Pow2(w - 1) - x / 2;
    }
  }

  lemma {:induction false} ComplementsDoNotMeet(x: nat, w: nat)
    requires x < Pow2(w)
    ensures And(x, Pow2(w) - 1 - x) == 0
  {
    if w > 0 {
      ComplementsDoNotMeet(x / 2, w - 1);
      assert (Pow2(w) - 1 - x) / 2 == Pow2(w - 1) - 1 - x / 2;
    }
  }

  /** Tree node `j` accounts for index `i`. */
  predicate Covers(j: nat, i: nat)
    requires j > 0
  {
    j - LowBit(j) < i <= j
  }

  /** No node strictly between a node and its successor on the update walk reaches below the node. */
  lemma {:induction false} NothingBetween(s: nat, j: nat)
    requires 0 < s < j < s + LowBit(s)
    ensures j - LowBit(j) >= s
  {
    if s % 2 == 0 && j % 2 == 0 {
      NothingBetween(s / 2, j / 2);
    }
  }

  /** The successor on the update walk covers everything its predecessor covers. */
  lemma {:induction false} SuccessorCovers(s: nat)
    requires s > 0
    ensures var next := s + LowBit(s); next - LowBit(next) <= s - LowBit(s)
  {
    if s % 2 == 0 {
      SuccessorCovers(s / 2);
    }
  }

  /** The nodes that `slot += slot & (~slot + 1)` visits up to `limit`, in order. */
  function UpdatePath(slot: nat, limit: nat): (path: seq<nat>)
    requires slot > 0
    decreases limit - slot
  {
    if slot > limit then [] else [slot] + UpdatePath(slot + LowBit(slot), limit)
  }

  lemma {:induction false} UpdatePathAbove(slot: nat, limit: nat, j: nat)
    requires slot > 0 && j in UpdatePath(slot, limit)
    ensures slot <= j <= limit
    decreases limit - slot
  {
    if j != slot {
      UpdatePathAbove(slot + LowBit(slot), limit, j);
    }
  }

  /** The update walk from `i` visits exactly the nodes that cover `i`. */
  lemma {:induction false} UpdatePathIsCover(i: nat, limit: nat, j: nat)
    requires i > 0 && 0 < j <= limit
    ensures j in UpdatePath(i, limit) <==> Covers(j, i)
  {
    if i <= j {
      UpdatePathFrom(i, i, limit, j);
    } else if j in UpdatePath(i, limit) {
      UpdatePathAbove(i, limit, j);
    }
  }

  lemma {:induction false} UpdatePathFrom(slot: nat, i: nat, limit: nat, j: nat)
    requires i > 0 && slot > 0 && Covers(slot, i)
    requires slot <= j <= limit
    ensures j in UpdatePath(slot, limit) <==> Covers(j, i)
    decreases limit - slot
  {
    var next := slot + LowBit(slot);
    if slot < j {
      SuccessorCovers(slot);
      if j < next {
        NothingBetween(slot, j);
        if j in UpdatePath(next, limit) {
          UpdatePathAbove(next, limit, j);
        }
      } else {
        UpdatePathFrom(next, i, limit, j);
      }
    }
  }
}
