/** Keys stamped with increasing time positions, and the recency stack those stamps encode. */
module RankedStack {
  import opened Machine
  import opened LruStack
  import opened PrefixSums

  /** `at` stamps exactly the stack's keys, and the stack lists them by decreasing stamp. */
  ghost predicate Ranked<K>(stack: seq<K>, at: map<K, nat>) {
    && at.Keys == Keys(stack)
    && (forall i, j :: 0 <= i < j < |stack| ==> at[stack[i]] > at[stack[j]])
  }

  /** One at each position of `live`, zero elsewhere. */
  ghost function Indicator(live: set<nat>, n: nat): (w: seq<int>)
    ensures |w| == n
  {
    seq(n, p => if p + 1 in live then 1 else 0)
  }

  /** `w` marks the stamped positions with one and every other position with zero. */
  ghost predicate Marks<K>(w: seq<int>, at: map<K, nat>) {
    && w == Indicator(at.Values, |w|)
    && forall k | k in at :: 1 <= at[k] <= |w|
  }

  lemma RankedDistinct<K>(stack: seq<K>, at: map<K, nat>)
    requires Ranked(stack, at)
    ensures Distinct(stack)
  {
    forall i, j | 0 <= i < j < |stack|
      ensures stack[i] != stack[j]
    {
      assert at[stack[i]] > at[stack[j]];
    }
  }

  lemma MarksNonNegative<K>(w: seq<int>, at: map<K, nat>)
    requires Marks(w, at)
    ensures forall p :: 0 <= p < |w| ==> 0 <= w[p] <= 1
  {
    forall p | 0 <= p < |w|
      ensures 0 <= w[p] <= 1
    {
      if p + 1 in at.Values {
        var k :| k in at && at[k] == p + 1;
      }
    }
  }

  /** A range of positions that no stack key is stamped with carries no marks. */
  lemma UnstampedRange<K>(stack: seq<K>, at: map<K, nat>, w: seq<int>, lo: nat, hi: nat)
    requires Ranked(stack, at) && Marks(w, at) && hi <= |w|
    requires forall i :: 0 <= i < |stack| ==> !(lo < at[stack[i]] <= hi)
    ensures Sum(w, lo, hi) == 0
  {
    forall q | lo <= q < hi
      ensures w[q] == 0
    {
      assert forall k | k in at :: at[k] != q + 1;
      assert q + 1 !in at.Values;
    }
    SumZeros(w, lo, hi);
  }

  /** The marks above a key's stamp count the keys above it in the stack. */
  lemma {:induction false} MarksAbove<K>(stack: seq<K>, at: map<K, nat>, w: seq<int>, i: nat)
    requires Ranked(stack, at) && Marks(w, at) && i < |stack|
    ensures at[stack[i]] <= |w| && Sum(w, at[stack[i]], |w|) == i
  {
    var p := at[stack[i]];
    if i == 0 {
      UnstampedRange(stack, at, w, p, |w|);
    } else {
      var above := at[stack[i - 1]];
      MarksAbove(stack, at, w, i - 1);
      UnstampedRange(stack, at, w, p, above - 1);
      SumSplit(w, p, above, |w|);
    }
  }

  /** All marks together count the stack. */
  lemma MarksTotal<K>(stack: seq<K>, at: map<K, nat>, w: seq<int>)
    requires Ranked(stack, at) && Marks(w, at)
    ensures Sum(w, 0, |w|) == |stack|
  {
    var n := |stack|;
    if n == 0 {
      UnstampedRange(stack, at, w, 0, |w|);
    } else {
      var lowest := at[stack[n - 1]];
      MarksAbove(stack, at, w, n - 1);
      UnstampedRange(stack, at, w, 0, lowest - 1);
      SumSplit(w, 0, lowest, |w|);
    }
  }

  /** Popping a key leaves the other keys ordered by their stamps. */
  lemma WithoutOrdered<K>(stack: seq<K>, at: map<K, nat>, k: K, i: nat, j: nat)
    requires Ranked(stack, at) && i < j < |Without(stack, k)|
    ensures Without(stack, k)[i] in at && Without(stack, k)[j] in at
    ensures at[Without(stack, k)[i]] > at[Without(stack, k)[j]]
  {
    WithoutAt(stack, k, i);
    WithoutAt(stack, k, j);
  }

  lemma TouchOrdered<K>(stack: seq<K>, at: map<K, nat>, k: K, p: nat, i: nat, j: nat)
    requires Ranked(stack, at)
    requires forall x :: x in at ==> at[x] < p
    requires i < j < |Touch(stack, k)|
    ensures Touch(stack, k)[i] in at[k := p] && Touch(stack, k)[j] in at[k := p]
    ensures at[k := p][Touch(stack, k)[i]] > at[k := p][Touch(stack, k)[j]]
  {
    RankedDistinct(stack, at);
    TouchKeeps(stack, k);
    var t := Touch(stack, k);
    assert t[j] != t[0];
    assert t[j] == Without(stack, k)[j - 1];
    if i > 0 {
      assert t[i] != t[0];
      WithoutOrdered(stack, at, k, i - 1, j - 1);
    }
  }

  lemma TouchStamped<K>(stack: seq<K>, at: map<K, nat>, k: K, p: nat)
    requires Ranked(stack, at)
    ensures at[k := p].Keys == Keys(Touch(stack, k))
  {
    RankedDistinct(stack, at);
    TouchKeeps(stack, k);
    assert at.Keys + {k} == Keys(stack) + {k};
  }

  /** Stamping a key later than all others moves it to the front. */
  lemma TouchRanked<K>(stack: seq<K>, at: map<K, nat>, k: K, p: nat)
    requires Ranked(stack, at)
    requires forall x :: x in at ==> at[x] < p
    ensures Ranked(Touch(stack, k), at[k := p])
  {
    TouchStamped(stack, at, k, p);
    forall i, j | 0 <= i < j < |Touch(stack, k)|
      ensures at[k := p][Touch(stack, k)[i]] > at[k := p][Touch(stack, k)[j]]
    {
      TouchOrdered(stack, at, k, p, i, j);
    }
  }

  function Find<K>(at: map<K, nat>, k: K): (r: Option<nat>)
    ensures r == if k in at then Some(at[k]) else None
  {
    if k in at then Some(at[k]) else None
  }

  /** The marks after the mark at `previous`, if any, has moved to `next`. */
  function Moved(w: seq<int>, previous: Option<nat>, next: nat): (r: seq<int>)
    requires 1 <= next <= |w|
    requires previous.Some? ==> 1 <= previous.value <= |w|
    ensures |r| == |w|
  {
    (if previous.Some? then w[previous.value - 1 := 0] else w)[next - 1 := 1]
  }

  lemma StampsInjective<K>(stack: seq<K>, at: map<K, nat>, k: K, x: K)
    requires Ranked(stack, at) && k in at && x in at && k != x
    ensures at[k] != at[x]
  {
    assert k in Keys(stack) && x in Keys(stack);
    var i :| 0 <= i < |stack| && stack[i] == k;
    var j :| 0 <= j < |stack| && stack[j] == x;
  }

  /** Restamping `k` frees its old position and takes the new one, and nothing else. */
  lemma StampedAfter<K>(stack: seq<K>, at: map<K, nat>, k: K, p: nat, q: nat)
    requires Ranked(stack, at) && p !in at.Values
    ensures q in at[k := p].Values <==> q == p || (q in at.Values && Find(at, k) != Some(q))
  {
    var at' := at[k := p];
    if q == p {
      assert at'[k] == p;
    } else if q in at.Values && Find(at, k) != Some(q) {
      var x :| x in at && at[x] == q;
      assert at'[x] == q;
    } else if k in at {
      forall x | x in at && x != k
        ensures at[x] != at[k]
      {
        StampsInjective(stack, at, k, x);
      }
    }
  }

  /** Moving the mark follows moving the stamp. */
  lemma MovedMarks<K>(stack: seq<K>, at: map<K, nat>, w: seq<int>, k: K, p: nat)
    requires Ranked(stack, at) && Marks(w, at)
    requires 1 <= p <= |w| && forall x :: x in at ==> at[x] < p
    ensures Marks(Moved(w, Find(at, k), p), at[k := p])
  {
    hide Ranked;
    var w' := Moved(w, Find(at, k), p);
    forall q | 0 <= q < |w|
      ensures w'[q] == Indicator(at[k := p].Values, |w|)[q]
    {
      StampedAfter(stack, at, k, p, q + 1);
    }
  }
}
