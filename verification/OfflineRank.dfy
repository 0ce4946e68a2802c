/** One step of the offline rankings: count the newer positions, then move the key's mark. */
module OfflineRank {
  import opened Machine
  import opened PrefixSums
  import opened LruStack
  import opened RankedStack
  import opened Fenwick

  /** The state both offline loops share after reading `keys` of at most `size` positions. */
  ghost predicate Reading<K>(keys: seq<K>, lastSeen: map<K, nat>, weights: seq<int>) {
    && |keys| <= |weights|
    && Ranked(StackAfter(keys), lastSeen) && Marks(weights, lastSeen)
    && forall k | k in lastSeen :: lastSeen[k] <= |keys|
  }

  lemma ReadingNothing<K>(size: nat)
    ensures Reading<K>([], map[], seq(size, _ => 0))
  {
    var nothing: map<K, nat> := map[];
    assert nothing.Keys == Keys<K>([]);
    assert seq(size, _ => 0) == Indicator(nothing.Values, size);
  }

  /** The newer positions between a key's last position and the current one are its stack position. */
  lemma NewerPositions<K>(keys: seq<K>, lastSeen: map<K, nat>, w: seq<int>, k: K)
    requires Reading(keys, lastSeen, w) && |keys| < |w|
    ensures k in lastSeen <==> k in StackAfter(keys)
    ensures w[|keys|] == 0
    ensures k in lastSeen ==> 1 <= lastSeen[k] <= |keys| && w[lastSeen[k] - 1] == 1
    ensures k in lastSeen ==>
              Sum(w, 0, |keys|) - Sum(w, 0, lastSeen[k]) == IndexOf(StackAfter(keys), k)
  {
    var stack := StackAfter(keys);
    assert k in lastSeen <==> k in Keys(stack);
    assert |keys| + 1 !in lastSeen.Values;
    UnstampedRange(stack, lastSeen, w, |keys|, |w|);
    if k in lastSeen {
      hide StackAfter;
      MarksAbove(stack, lastSeen, w, IndexOf(stack, k));
      SumSplit(w, 0, lastSeen[k], |keys|);
      SumSplit(w, lastSeen[k], |keys|, |w|);
    }
  }

  lemma ReadOne<K>(keys: seq<K>, lastSeen: map<K, nat>, w: seq<int>, k: K)
    requires Reading(keys, lastSeen, w) && |keys| < |w|
    ensures k in lastSeen ==> lastSeen[k] <= |w|
    ensures Reading(keys + [k], lastSeen[k := |keys| + 1], Moved(w, Find(lastSeen, k), |keys| + 1))
  {
    hide Ranked, Touch, StackAfter, Indicator, Moved;
    StackExtend(keys, k);
    TouchRanked(StackAfter(keys), lastSeen, k, |keys| + 1);
    MovedMarks(StackAfter(keys), lastSeen, w, k, |keys| + 1);
  }

  /** Add -1 at the previous position, if any, and 1 at the current one. */
  method MoveMark(positions: FenwickTree, previous: Option<nat>, position: nat)
    requires positions.Valid() && 1 <= position <= |positions.weights| && positions.weights[position - 1] == 0
    requires previous.Some? ==> 1 <= previous.value < position && positions.weights[previous.value - 1] == 1
    modifies positions, positions.tree
    ensures positions.Valid() && positions.weights == Moved(old(positions.weights), previous, position)
  {
    if previous.Some? {
      positions.Add(previous.value, -1);
    }
    positions.Add(position, 1);
  }

  /** Rank `keys[index]` among the keys before it and mark its position in its place. */
  method RankNext<K(==)>(positions: FenwickTree, ghost keys: seq<K>, previous: Option<nat>,
                         ghost lastSeen: map<K, nat>, index: nat) returns (distance: Option<nat>)
    requires positions.Valid() && index < |keys| == |positions.weights|
    requires Reading(keys[..index], lastSeen, positions.weights)
    requires previous == Find(lastSeen, keys[index])
    modifies positions, positions.tree
    ensures positions.Valid()
    ensures distance == Distance(StackAfter(keys[..index]), keys[index])
    ensures Reading(keys[..index + 1], lastSeen[keys[index] := index + 1], positions.weights)
  {
    hide Ranked, Marks, Reading, Moved, StackAfter;
    ghost var w := positions.weights;
    NewerPositions(keys[..index], lastSeen, w, keys[index]);
    ReadOne(keys[..index], lastSeen, w, keys[index]);
    assert keys[..index + 1] == keys[..index] + [keys[index]];
    var position := index + 1;
    distance := None;
    if previous.Some? {
      var upTo := positions.PrefixSum(position - 1);
      var older := positions.PrefixSum(previous.value);
      distance := Some(upTo - older);
    }
    MoveMark(positions, previous, position);
  }
}
