/** The list-stack reading of LRU: a move-to-front list with the most recent key first. */
module LruStack {
  import opened Machine

  ghost predicate Distinct<K>(s: seq<K>) {
    forall i, j :: 0 <= i < j < |s| ==> s[i] != s[j]
  }

  /** The first position of a key, as `list.index` reports it. */
  function IndexOf<K(==)>(s: seq<K>, k: K): (i: nat)
    requires k in s
    ensures i < |s| && s[i] == k
    ensures forall j :: 0 <= j < i ==> s[j] != k
  {
    IndexFrom(s, k, 0)
  }

  function IndexFrom<K(==)>(s: seq<K>, k: K, from: nat): (i: nat)
    requires exists j :: from <= j < |s| && s[j] == k
    ensures from <= i < |s| && s[i] == k
    ensures forall j :: from <= j < i ==> s[j] != k
    decreases |s| - from
  {
    if s[from] == k then from else IndexFrom(s, k, from + 1)
  }

  lemma IndexOfUnique<K>(s: seq<K>, i: nat)
    requires Distinct(s) && i < |s|
    ensures IndexOf(s, s[i]) == i
  {
    var j := IndexOf(s, s[i]);
    assert s[j] == s[i];
  }

  /** The list with the first occurrence of a key popped. */
  function Without<K(==)>(s: seq<K>, k: K): (r: seq<K>) {
    if k in s then s[..IndexOf(s, k)] + s[IndexOf(s, k) + 1..] else s
  }

  lemma WithoutAt<K>(s: seq<K>, k: K, i: nat)
    requires i < |Without(s, k)|
    ensures |Without(s, k)| == if k in s then |s| - 1 else |s|
    ensures Without(s, k)[i] == if k in s && IndexOf(s, k) <= i then s[i + 1] else s[i]
  {
  }

  /** Move a key to the front, entering it when it is new. */
  function Touch<K(==)>(s: seq<K>, k: K): (r: seq<K>) {
    [k] + Without(s, k)
  }

  lemma TouchKeeps<K>(s: seq<K>, k: K)
    requires Distinct(s)
    ensures Distinct(Touch(s, k))
    ensures forall x :: x in Touch(s, k) <==> x == k || x in s
    ensures |Touch(s, k)| == |s| + (if k in s then 0 else 1)
  {
    if k in s {
      var i := IndexOf(s, k);
      assert s == s[..i] + [k] + s[i + 1..];
    }
  }

  /** The recency stack after a whole trace. */
  function StackAfter<K(==)>(trace: seq<K>): (s: seq<K>) {
    if |trace| == 0 then [] else Touch(StackAfter(trace[..|trace| - 1]), trace[|trace| - 1])
  }

  lemma StackExtend<K>(trace: seq<K>, k: K)
    ensures StackAfter(trace + [k]) == Touch(StackAfter(trace), k)
  {
    assert (trace + [k])[..|trace|] == trace;
  }

  /** The stack lists each key of the trace exactly once. */
  lemma {:induction false} StackAfterKeys<K>(trace: seq<K>)
    ensures Distinct(StackAfter(trace))
    ensures forall x :: x in StackAfter(trace) <==> x in trace
  {
    if |trace| > 0 {
      var n := |trace| - 1;
      StackAfterKeys(trace[..n]);
      TouchKeeps(StackAfter(trace[..n]), trace[n]);
      assert trace == trace[..n] + [trace[n]];
    }
  }

  /** The position of a key in the stack, absent before its first occurrence. */
  function Distance<K(==)>(stack: seq<K>, k: K): (d: Option<nat>)
    ensures d.Some? <==> k in stack
    ensures d.Some? ==> d.value < |stack| && stack[d.value] == k
  {
    if k in stack then Some(IndexOf(stack, k)) else None
  }

  ghost function Keys<K>(s: seq<K>): (r: set<K>) {
    set k | k in s
  }

  lemma {:induction false} DistinctCount<K>(s: seq<K>)
    requires Distinct(s)
    ensures |Keys(s)| == |s|
  {
    if |s| > 0 {
      var n := |s| - 1;
      DistinctCount(s[..n]);
      assert s == s[..n] + [s[n]];
      assert Keys(s) == Keys(s[..n]) + {s[n]};
    }
  }

  /** The last position at which a key occurs in a trace. */
  function LastOccurrence<K(==)>(trace: seq<K>, k: K): (p: nat)
    requires k in trace
    ensures p < |trace| && trace[p] == k && k !in trace[p + 1..]
  {
    var n := |trace| - 1;
    if trace[n] == k then n else
    assert trace == trace[..n] + [trace[n]];
    var p := LastOccurrence(trace[..n], k);
    assert trace[p + 1..] == trace[..n][p + 1..] + [trace[n]];
    p
  }

  /** Touching a key puts it first and pushes down exactly the keys that were above it. */
  lemma TouchIndex<K>(s: seq<K>, x: K, y: K)
    requires Distinct(s) && y in s
    ensures y in Touch(s, x)
    ensures IndexOf(Touch(s, x), y)
            == if y == x then 0
               else if x in s && IndexOf(s, x) < IndexOf(s, y) then IndexOf(s, y)
               else IndexOf(s, y) + 1
  {
    TouchKeeps(s, x);
    var t := Touch(s, x);
    var i := IndexOf(s, y);
    if y == x {
      IndexOfUnique(t, 0);
    } else if x in s && IndexOf(s, x) < i {
      assert t[i] == y;
      IndexOfUnique(t, i);
    } else {
      assert t[i + 1] == y;
      IndexOfUnique(t, i + 1);
    }
  }

  /** The keys strictly above `k` in a stack. */
  ghost function Above<K>(s: seq<K>, k: K): (r: set<K>)
    requires k in s
  {
    Keys(s[..IndexOf(s, k)])
  }

  lemma InAbove<K>(s: seq<K>, k: K, x: K)
    requires Distinct(s) && k in s
    ensures x in Above(s, k) <==> x in s && IndexOf(s, x) < IndexOf(s, k)
  {
    var i := IndexOf(s, k);
    if x in s[..i] {
      var j :| 0 <= j < i && s[j] == x;
      IndexOfUnique(s, j);
    }
    if x in s && IndexOf(s, x) < i {
      assert s[..i][IndexOf(s, x)] == x;
    }
  }

  lemma InAboveAfterTouch<K>(s: seq<K>, x: K, k: K, y: K)
    requires Distinct(s) && k in s && k != x
    ensures k in Touch(s, x)
    ensures y in Above(Touch(s, x), k) <==> y in Above(s, k) || y == x
  {
    TouchKeeps(s, x);
    TouchIndex(s, x, k);
    InAbove(Touch(s, x), k, y);
    InAbove(s, k, y);
    if y in s {
      TouchIndex(s, x, y);
    } else if y == x {
      IndexOfUnique(Touch(s, x), 0);
    }
  }

  lemma AboveAfterTouch<K>(s: seq<K>, x: K, k: K)
    requires Distinct(s) && k in s && k != x
    ensures k in Touch(s, x)
    ensures Above(Touch(s, x), k) == Above(s, k) + {x}
  {
    TouchIndex(s, x, k);
    forall y
      ensures y in Above(Touch(s, x), k) <==> y in Above(s, k) + {x}
    {
      InAboveAfterTouch(s, x, k, y);
    }
  }

  /** The distinct keys that occur after the last occurrence of `k`. */
  ghost function Newer<K>(trace: seq<K>, k: K): (r: set<K>)
    requires k in trace
  {
    Keys(trace[LastOccurrence(trace, k) + 1..])
  }

  lemma NewerExtend<K>(front: seq<K>, x: K, k: K)
    requires k in front || k == x
    ensures Newer(front + [x], k) == if x == k then {} else Newer(front, k) + {x}
  {
    var trace := front + [x];
    assert trace[..|front|] == front;
    if x != k {
      var p := LastOccurrence(front, k);
      assert trace[p + 1..] == front[p + 1..] + [x];
    }
  }

  /** The keys above `k` in the stack are the ones that occur after its last occurrence. */
  lemma {:induction false} AboveIsNewer<K>(trace: seq<K>, k: K)
    requires k in trace
    ensures k in StackAfter(trace)
    ensures Above(StackAfter(trace), k) == Newer(trace, k)
  {
    var n := |trace| - 1;
    var front, x := trace[..n], trace[n];
    assert trace == front + [x];
    StackAfterKeys(front);
    TouchKeeps(StackAfter(front), x);
    NewerExtend(front, x, k);
    if x != k {
      AboveIsNewer(front, k);
      AboveAfterTouch(StackAfter(front), x, k);
    } else {
      IndexOfUnique(Touch(StackAfter(front), x), 0);
    }
  }

  /** The stack position of a key is the number of distinct keys seen since its last occurrence. */
  lemma DistanceCountsDistinctKeys<K>(trace: seq<K>, k: K)
    requires k in trace
    ensures Distance(StackAfter(trace), k) == Some(|Newer(trace, k)|)
  {
    var stack := StackAfter(trace);
    StackAfterKeys(trace);
    AboveIsNewer(trace, k);
    DistinctCount(stack[..IndexOf(stack, k)]);
  }
}
