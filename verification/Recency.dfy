/** The online recency index: a binary indexed tree over time slots with periodic compaction. */
module Recency {
  import opened Machine
  import opened BinaryIndex
  import opened PrefixSums
  import opened LruStack
  import opened RankedStack
  import opened Fenwick

  /** The overflow error of a checked count, slot or storage size. */
  datatype Overflow = Overflow

  /** Container maxima of the tree vector and of the scratch vector of a compaction. */
  datatype StorageLimits = StorageLimits(tree: nat, scratch: nat)

  /** Whether compacting `active` keys has to fail: doubled slots or their storage exceed a limit. */
  predicate CompactionOverflows(active: nat, floor: nat, slotLimit: nat, limits: StorageLimits) {
    || 2 * active > slotLimit
    || Max(floor, 2 * active) + 1 > U64_MAX
    || Max(floor, 2 * active) + 1 > limits.tree
    || active > limits.scratch
  }

  class RecencyIndex {
    var slots: map<nat, nat>
    var tree: seq<int>
    const floor: nat
    const slotLimit: nat
    const limits: StorageLimits
    var capacity: nat
    var nextSlot: nat
    var activeCount: nat

    /** The recency stack this index represents, most recent key first. */
    ghost var stack: seq<nat>
    /** The weight of each slot: one for a key's latest slot, zero otherwise. */
    ghost var marks: seq<int>
    /** The active count at the last compaction. */
    ghost var packed: nat
    /** The number of observations and the total size of the rebuilt trees. */
    ghost var observations: nat
    ghost var rebuilt: nat

    ghost predicate Valid()
      reads this
    {
      && Ranked(stack, slots) && Marks(marks, slots)
      && Indexes(tree, marks) && |marks| == capacity
      && activeCount == |stack|
      && capacity == Max(floor, 2 * packed)
      && packed <= activeCount < nextSlot <= capacity + 1
      && (forall k :: k in slots ==> slots[k] < nextSlot)
      && 0 < floor <= slotLimit <= U64_MAX && capacity <= slotLimit
      && capacity + 1 <= U64_MAX && capacity + 1 <= limits.tree
      && packed <= limits.scratch
      && nextSlot - 1 - packed <= observations
      && rebuilt <= 4 * (observations - (nextSlot - 1 - packed))
    }

    /** Storage limits already checked: the floor is positive, within the ceiling, and storable. */
    constructor (floor: nat, slotLimit: nat, limits: StorageLimits)
      requires 0 < floor <= slotLimit <= U64_MAX
      requires floor + 1 <= U64_MAX && floor + 1 <= limits.tree
      ensures Valid() && stack == [] && observations == 0 && rebuilt == 0
      ensures this.floor == floor && this.slotLimit == slotLimit && this.limits == limits
    {
      this.floor, this.slotLimit, this.limits := floor, slotLimit, limits;
      slots, tree := map[], seq(floor + 1, _ => 0);
      capacity, nextSlot, activeCount := floor, 1, 0;
      stack, marks, packed, observations, rebuilt := [], seq(floor, _ => 0), 0, 0, 0;
      new;
      forall j | 1 <= j <= floor
        ensures tree[j] == NodeSum(marks, j)
      {
        SumZeros(marks, j - LowBit(j), j);
      }
    }

    /** The number of live slots up to `slot`. */
    method PrefixSum(slot: nat) returns (total: int)
      requires Indexes(tree, marks) && slot <= |marks| < TWO64
      ensures total == Sum(marks, 0, slot)
    {
      total := 0;
      var rest: nat := slot;
      while rest > 0
        invariant rest <= slot
        invariant total + Sum(marks, 0, rest) == Sum(marks, 0, slot)
      {
        SumSplit(marks, 0, rest - LowBit(rest), rest);
        total := total + tree[rest];
        rest := rest - LowestSetBit(rest);
      }
    }

    /** Enter or remove one live slot; the source's two assertions hold at every visited node. */
    method Update(slot: nat, insert: bool)
      requires 1 <= slot <= capacity < U64_MAX && |marks| == capacity
      requires Indexes(tree, marks)
      requires Binary(marks)
      requires marks[slot - 1] == if insert then 0 else 1
      requires insert ==> Sum(marks, 0, |marks|) < activeCount
      modifies this`tree, this`marks
      ensures Indexes(tree, marks)
      ensures marks == old(marks)[slot - 1 := if insert then 1 else 0]
    {
      ghost var was := marks;
      ghost var delta := if insert then 1 else -1;
      WalkStart(tree, marks, slot, delta);
      marks := marks[slot - 1 := marks[slot - 1] + delta];
      var node: nat := slot;
      while node <= capacity
        invariant Walking(tree, marks, slot, delta, node)
        invariant marks == was[slot - 1 := was[slot - 1] + delta]
      {
        VisitedNode(was, slot, delta, node);
        var count := tree[node];
        if insert {
          assert count < activeCount;
          count := count + 1;
        } else {
          assert count > 0;
          count := count - 1;
        }
        WalkStep(tree, marks, slot, delta, node);
        tree := tree[node := count];
        var step := LowestSetBit(node);
        if step > capacity - node {
          WalkEnd(tree, marks, slot, delta, node + step);
          return;
        }
        node := node + step;
      }
      WalkEnd(tree, marks, slot, delta, node);
    }

    /** The pairs of slot and key in increasing slot order: the sorted scratch vector. */
    method SortedBySlot() returns (ordered: seq<(nat, nat)>)
      requires forall k, x :: k in slots && x in slots && k != x ==> slots[k] != slots[x]
      ensures Sorted(ordered) && |ordered| == |slots|
      ensures forall e :: e in ordered <==> e.1 in slots && e.0 == slots[e.1]
    {
      ordered := [];
      var rest := slots.Keys;
      while rest != {}
        invariant rest <= slots.Keys && |ordered| + |rest| == |slots.Keys|
        invariant Sorted(ordered)
        invariant forall e :: e in ordered <==> e.1 in slots && e.1 !in rest && e.0 == slots[e.1]
        decreases rest
      {
        var k :| k in rest;
        ordered := Inserted(ordered, (slots[k], k));
        rest := rest - {k};
      }
    }

    /** The tree over `active` packed slots, node by node in closed form. */
    method RebuiltTree(active: nat, capacity: nat) returns (rebuilt: seq<int>)
      requires active <= capacity < TWO64
      ensures Indexes(rebuilt, Packed(active, capacity))
    {
      rebuilt := seq(capacity + 1, _ => 0);
      for slot := 1 to capacity + 1
        invariant |rebuilt| == capacity + 1
        invariant forall j :: 1 <= j < slot ==> rebuilt[j] == NodeSum(Packed(active, capacity), j)
        invariant forall j :: slot <= j <= capacity ==> rebuilt[j] == 0
      {
        var lower := slot - LowestSetBit(slot);
        SumPacked(active, capacity, lower, slot);
        if lower < active {
          rebuilt := rebuilt[slot := Min(slot, active) - lower];
        }
      }
    }

    /** Give the keys the slots 1, 2, ... in the order of their old slots. */
    method PackSlots(ghost newCapacity: nat)
      requires Ranked(stack, slots) && |stack| <= newCapacity
      modifies this`slots
      ensures Ranked(stack, slots) && Marks(Packed(|stack|, newCapacity), slots)
      ensures forall k :: k in slots ==> slots[k] <= |stack|
    {
      hide Ranked, Marks;
      RankedInjective(stack, slots);
      var ordered := SortedBySlot();
      CompactionKeeps(stack, slots, ordered, newCapacity);
      for i := 0 to |ordered|
        invariant slots == Renumbered(old(slots), ordered[..i])
      {
        assert ordered[..i + 1][..i] == ordered[..i];
        slots := slots[ordered[i].1 := i + 1];
      }
      assert ordered[..|ordered|] == ordered;
    }

    /** The capacity after a compaction, unless it or its storage overflows. */
    method CompactedCapacity() returns (r: Option<nat>)
      ensures r.Some? <==> !CompactionOverflows(activeCount, floor, slotLimit, limits)
      ensures r.Some? ==> r.value == Max(floor, 2 * activeCount)
    {
      var doubled := CheckedAdd(activeCount, activeCount, slotLimit);
      if doubled.None? {
        return None;
      }
      var newCapacity := Max(floor, doubled.value);
      var newNext := CheckedAdd(activeCount, 1, U64_MAX);
      var size := CheckedAdd(newCapacity, 1, U64_MAX);
      if newNext.None? || size.None? || size.value > limits.tree || activeCount > limits.scratch {
        return None;
      }
      r := Some(newCapacity);
    }

    /** Renumber the live slots 1, 2, ... in their old order and rebuild the tree over them. */
    method CompactStorage() returns (ok: bool)
      requires Valid() && nextSlot == capacity + 1
      modifies this
      ensures ok <==> !CompactionOverflows(|old(stack)|, floor, slotLimit, limits)
      ensures !ok ==> unchanged(this)
      ensures ok ==> Valid() && stack == old(stack) && observations == old(observations)
      ensures ok ==> activeCount == packed == |stack| && nextSlot == |stack| + 1 <= capacity
      ensures ok ==> capacity == Max(floor, 2 * |stack|) && rebuilt == old(rebuilt) + capacity
    {
      hide Ranked, Marks, Indexes;
      var next := CompactedCapacity();
      if next.None? {
        return false;
      }
      var newCapacity := next.value;
      var newTree := RebuiltTree(activeCount, newCapacity);
      PackSlots(newCapacity);
      tree := newTree;
      capacity := newCapacity;
      nextSlot := activeCount + 1;
      marks, packed, rebuilt := Packed(activeCount, newCapacity), activeCount, rebuilt + newCapacity;
      ok := true;
    }

    /** Rank the live slot `previous`, if there is one, and move its mark to the next slot. */
    method MoveMark(previous: Option<nat>) returns (distance: Option<nat>)
      requires Indexes(tree, marks) && |marks| == capacity < U64_MAX && nextSlot <= capacity
      requires Binary(marks) && 1 <= nextSlot && marks[nextSlot - 1] == 0
      requires previous.None? ==> Sum(marks, 0, |marks|) + 1 == activeCount
      requires previous.Some? ==> Sum(marks, 0, |marks|) == activeCount
      requires previous.Some? ==> 1 <= previous.value < nextSlot && marks[previous.value - 1] == 1
      modifies this`tree, this`marks
      ensures Indexes(tree, marks) && marks == Moved(old(marks), previous, nextSlot)
      ensures previous.None? ==> distance == None
      ensures previous.Some? ==> distance == Some(activeCount - Sum(old(marks), 0, previous.value))
    {
      distance := None;
      if previous.Some? {
        SumWithin(marks, 0, previous.value);
        var below := PrefixSum(previous.value);
        distance := Some(activeCount - below);
        SumUpdate(marks, previous.value, 0, 0, |marks|);
        Update(previous.value, false);
      }
      Update(nextSlot, true);
    }

    /** The part of an observation after any compaction: rank the key, then give it the next slot. */
    method Stamp(key: nat) returns (distance: Option<nat>)
      requires Valid() && nextSlot <= capacity
      modifies this
      ensures Valid() && distance == Distance(old(stack), key) && stack == Touch(old(stack), key)
      ensures observations == old(observations) + 1
    {
      hide Ranked, Marks;
      var following := CheckedAdd(nextSlot, 1, U64_MAX);
      assert following.Some?;
      StampFacts(stack, slots, marks, key, nextSlot);
      TouchStep(stack, slots, marks, key, nextSlot);
      var previous := Find(slots, key);
      if previous.None? {
        var next := CheckedAdd(activeCount, 1, U64_MAX);
        assert next.Some?;
        activeCount := next.value;
      }
      distance := MoveMark(previous);
      slots := slots[key := nextSlot];
      stack := Touch(stack, key);
      observations := observations + 1;
      nextSlot := following.value;
    }

    /**
     * Report a key's stack position and make it most recent. The only failure is a compaction
     * that is due and cannot get its storage; the counter checks never fail.
     */
    method Observe(key: nat) returns (r: Result<Option<nat>, Overflow>)
      requires Valid()
      modifies this
      ensures r.Err? <==> old(nextSlot > capacity) && CompactionOverflows(|old(stack)|, floor, slotLimit, limits)
      ensures r.Err? ==> unchanged(this)
      ensures r.Ok? ==> Valid() && r.value == Distance(old(stack), key)
      ensures r.Ok? ==> stack == Touch(old(stack), key)
      ensures r.Ok? ==> observations == old(observations) + 1
      ensures r.Ok? ==> rebuilt <= 4 * observations && capacity <= Max(floor, 2 * |stack|)
    {
      if nextSlot > capacity {
        var ok := CompactStorage();
        if !ok {
          return Err(Overflow);
        }
      }
      var distance := Stamp(key);
      r := Ok(distance);
    }
  }

  lemma TouchStep(stack: seq<nat>, slots: map<nat, nat>, marks: seq<int>, key: nat, next: nat)
    requires Ranked(stack, slots) && Marks(marks, slots)
    requires 1 <= next <= |marks| && forall k :: k in slots ==> slots[k] < next
    ensures Ranked(Touch(stack, key), slots[key := next])
    ensures Marks(Moved(marks, Find(slots, key), next), slots[key := next])
    ensures |Touch(stack, key)| == |stack| + if key in slots then 0 else 1
  {
    TouchRanked(stack, slots, key, next);
    MovedMarks(stack, slots, marks, key, next);
    RankedDistinct(stack, slots);
    TouchKeeps(stack, key);
    assert key in slots <==> key in Keys(stack);
  }

  /** The facts one observation reads off the marks of the current stack. */
  lemma StampFacts(stack: seq<nat>, slots: map<nat, nat>, marks: seq<int>, key: nat, next: nat)
    requires Ranked(stack, slots) && Marks(marks, slots)
    requires 1 <= next <= |marks| && forall k :: k in slots ==> slots[k] < next
    ensures marks[next - 1] == 0
    ensures Sum(marks, 0, |marks|) == |stack|
    ensures Binary(marks)
    ensures key in slots <==> key in stack
    ensures key in slots ==> marks[slots[key] - 1] == 1
    ensures key in slots ==> |stack| - Sum(marks, 0, slots[key]) == IndexOf(stack, key)
  {
    MarksTotal(stack, slots, marks);
    MarksNonNegative(marks, slots);
    assert key in slots <==> key in Keys(stack);
    assert next !in slots.Values;
    if key in slots {
      MarksAbove(stack, slots, marks, IndexOf(stack, key));
      SumSplit(marks, 0, slots[key], |marks|);
    }
  }

  lemma RankedInjective(stack: seq<nat>, slots: map<nat, nat>)
    requires Ranked(stack, slots)
    ensures forall k, x :: k in slots && x in slots && k != x ==> slots[k] != slots[x]
  {
    forall k, x | k in slots && x in slots && k != x
      ensures slots[k] != slots[x]
    {
      StampsInjective(stack, slots, k, x);
    }
  }

  /** The slot map after the first entries have been given the slots 1, 2, ... */
  ghost function Renumbered(slots: map<nat, nat>, ordered: seq<(nat, nat)>): (r: map<nat, nat>)
    ensures forall k :: k in r <==> k in slots || exists i :: 0 <= i < |ordered| && ordered[i].1 == k
  {
    if ordered == [] then slots
    else Renumbered(slots, ordered[..|ordered| - 1])[ordered[|ordered| - 1].1 := |ordered|]
  }

  lemma {:induction false} RenumberedAt(slots: map<nat, nat>, ordered: seq<(nat, nat)>, i: nat)
    requires i < |ordered| && forall a, b :: 0 <= a < b < |ordered| ==> ordered[a].1 != ordered[b].1
    ensures ordered[i].1 in Renumbered(slots, ordered)
    ensures Renumbered(slots, ordered)[ordered[i].1] == i + 1
  {
    if i < |ordered| - 1 {
      RenumberedAt(slots, ordered[..|ordered| - 1], i);
    }
  }

  /** `ordered` lists the entries of `slots` by increasing slot. */
  ghost predicate Lists(ordered: seq<(nat, nat)>, slots: map<nat, nat>) {
    && Sorted(ordered)
    && forall e :: e in ordered <==> e.1 in slots && e.0 == slots[e.1]
  }

  lemma ListedKeysDistinct(ordered: seq<(nat, nat)>, slots: map<nat, nat>)
    requires Lists(ordered, slots)
    ensures forall a, b :: 0 <= a < b < |ordered| ==> ordered[a].1 != ordered[b].1
  {
    forall a, b | 0 <= a < b < |ordered|
      ensures ordered[a].1 != ordered[b].1
    {
      assert ordered[a] in ordered && ordered[b] in ordered;
    }
  }

  /** Each key's new slot is its place in the listing. */
  lemma ListedPlace(ordered: seq<(nat, nat)>, slots: map<nat, nat>, k: nat) returns (i: nat)
    requires Lists(ordered, slots) && k in slots
    ensures i < |ordered| && ordered[i] == (slots[k], k)
    ensures k in Renumbered(slots, ordered) && Renumbered(slots, ordered)[k] == i + 1
  {
    assert (slots[k], k) in ordered;
    i :| 0 <= i < |ordered| && ordered[i] == (slots[k], k);
    ListedKeysDistinct(ordered, slots);
    RenumberedAt(slots, ordered, i);
  }

  lemma RenumberedKeys(ordered: seq<(nat, nat)>, slots: map<nat, nat>)
    requires Lists(ordered, slots)
    ensures Renumbered(slots, ordered).Keys == slots.Keys
  {
    forall i | 0 <= i < |ordered|
      ensures ordered[i].1 in slots
    {
      assert ordered[i] in ordered;
    }
  }

  /** Renumbering in slot order preserves the recency stack. */
  lemma PackedRanks(stack: seq<nat>, slots: map<nat, nat>, ordered: seq<(nat, nat)>)
    requires Ranked(stack, slots) && Lists(ordered, slots)
    ensures Ranked(stack, Renumbered(slots, ordered))
  {
    RenumberedKeys(ordered, slots);
    forall i, j | 0 <= i < j < |stack|
      ensures Renumbered(slots, ordered)[stack[i]] > Renumbered(slots, ordered)[stack[j]]
    {
      var a := ListedPlace(ordered, slots, stack[i]);
      var b := ListedPlace(ordered, slots, stack[j]);
      assert slots[stack[i]] > slots[stack[j]];
    }
  }

  /** The renumbered keys occupy exactly the packed slots. */
  lemma PackedMarks(slots: map<nat, nat>, ordered: seq<(nat, nat)>, capacity: nat)
    requires Lists(ordered, slots) && |ordered| <= capacity
    ensures Marks(Packed(|ordered|, capacity), Renumbered(slots, ordered))
    ensures forall k :: k in Renumbered(slots, ordered) ==> Renumbered(slots, ordered)[k] <= |ordered|
  {
    RenumberedKeys(ordered, slots);
    ListedKeysDistinct(ordered, slots);
    forall k | k in Renumbered(slots, ordered)
      ensures 1 <= Renumbered(slots, ordered)[k] <= |ordered|
    {
      var i := ListedPlace(ordered, slots, k);
    }
    forall p | 1 <= p <= |ordered|
      ensures p in Renumbered(slots, ordered).Values
    {
      RenumberedAt(slots, ordered, p - 1);
    }
  }

  /** What compaction needs of the renumbering: same stack, packed marks, as many slots as keys. */
  lemma CompactionKeeps(stack: seq<nat>, slots: map<nat, nat>, ordered: seq<(nat, nat)>, capacity: nat)
    requires Ranked(stack, slots) && Lists(ordered, slots) && |ordered| == |slots|
    requires |stack| <= capacity
    ensures Ranked(stack, Renumbered(slots, ordered))
    ensures Marks(Packed(|stack|, capacity), Renumbered(slots, ordered))
    ensures forall k :: k in Renumbered(slots, ordered) ==> Renumbered(slots, ordered)[k] <= |stack|
  {
    RankedDistinct(stack, slots);
    DistinctCount(stack);
    assert |slots| == |slots.Keys|;
    PackedRanks(stack, slots, ordered);
    PackedMarks(slots, ordered, capacity);
  }

  ghost predicate Binary(w: seq<int>) {
    forall p :: 0 <= p < |w| ==> 0 <= w[p] <= 1
  }

  ghost predicate Sorted(s: seq<(nat, nat)>) {
    forall i, j :: 0 <= i < j < |s| ==> s[i].0 < s[j].0
  }

  function Inserted(s: seq<(nat, nat)>, e: (nat, nat)): (r: seq<(nat, nat)>)
    requires Sorted(s) && forall x :: x in s ==> x.0 != e.0
    ensures Sorted(r) && |r| == |s| + 1
    ensures forall x :: x in r <==> x in s || x == e
  {
    if s == [] || e.0 <= s[0].0 then [e] + s
    else
      var r := Inserted(s[1..], e);
      assert forall x :: x in r ==> s[0].0 < x.0;
      [s[0]] + r
  }

  /** A visited node counts fewer than all live slots before an insertion, and some before a removal. */
  lemma VisitedNode(was: seq<int>, slot: nat, delta: int, node: nat)
    requires 1 <= slot <= |was| && 1 <= node <= |was| && Covers(node, slot)
    requires Binary(was)
    requires was[slot - 1] == if delta == 1 then 0 else 1
    ensures NodeSum(was[slot - 1 := was[slot - 1] + delta], node) == NodeSum(was, node) + delta
    ensures NodeSum(was, node) <= Sum(was, 0, |was|)
    ensures delta != 1 ==> NodeSum(was, node) >= 1
  {
    var lo := node - LowBit(node);
    SumUpdate(was, slot, was[slot - 1] + delta, lo, node);
    SumWithin(was, lo, node);
    if delta != 1 {
      SumSplit(was, lo, slot - 1, node);
      SumSplit(was, slot - 1, slot, node);
      SumNonNegative(was, lo, slot - 1);
      SumNonNegative(was, slot, node);
    }
  }

  /** Why an index cannot be created. */
  datatype CreationError = FloorOutsideBounds | StorageOverflow

  /** Create an index, or reject a floor outside the slot bounds or a tree that cannot be stored. */
  method CreateIndex(floor: nat, slotLimit: nat, limits: StorageLimits)
    returns (r: Result<RecencyIndex, CreationError>)
    requires floor <= U64_MAX && slotLimit <= U64_MAX
    ensures r.Err? && r.error == FloorOutsideBounds <==> floor == 0 || floor > slotLimit
    ensures r.Ok? <==> 0 < floor <= slotLimit && floor + 1 <= Min(limits.tree, U64_MAX)
    ensures r.Ok? ==> fresh(r.value) && r.value.Valid() && r.value.stack == []
    ensures r.Ok? ==> r.value.observations == 0 && r.value.rebuilt == 0
    ensures r.Ok? ==> r.value.floor == floor && r.value.slotLimit == slotLimit && r.value.limits == limits
  {
    if floor == 0 || floor > slotLimit {
      return Err(FloorOutsideBounds);
    }
    var size := CheckedAdd(floor, 1, U64_MAX);
    if size.None? || size.value > limits.tree {
      return Err(StorageOverflow);
    }
    var index := new RecencyIndex(floor, slotLimit, limits);
    r := Ok(index);
  }
}
