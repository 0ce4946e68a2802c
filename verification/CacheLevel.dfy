/** What one cold-started cache level observes on a stream of blocks, read off the list stacks of its sets. */
module CacheLevel {
  import opened Machine
  import opened LruStack
  import opened Histogram

  datatype Outcome = Hit | ColdMiss | ReplacementMiss

  /** The LRU decision for one reference; a cold miss has no distance. */
  datatype Observation = Observation(outcome: Outcome, distance: Option<nat>)

  /** The blocks of a stream that fall into set `s`, in order. */
  function SetStream(blocks: seq<nat>, sets: nat, s: nat): (r: seq<nat>)
    requires sets > 0
  {
    if |blocks| == 0 then []
    else
      var n := |blocks| - 1;
      SetStream(blocks[..n], sets, s) + if blocks[n] % sets == s then [blocks[n]] else []
  }

  lemma SetStreamExtend(blocks: seq<nat>, block: nat, sets: nat, s: nat)
    requires sets > 0
    ensures SetStream(blocks + [block], sets, s)
            == SetStream(blocks, sets, s) + if block % sets == s then [block] else []
  {
    assert (blocks + [block])[..|blocks|] == blocks;
  }

  lemma {:induction false} SetStreamMembers(blocks: seq<nat>, sets: nat, s: nat)
    requires sets > 0
    ensures forall b :: b in SetStream(blocks, sets, s) <==> b in blocks && b % sets == s
  {
    if |blocks| > 0 {
      var n := |blocks| - 1;
      SetStreamMembers(blocks[..n], sets, s);
      assert blocks == blocks[..n] + [blocks[n]];
    }
  }

  lemma {:induction false} SetStreamShort(blocks: seq<nat>, sets: nat, s: nat)
    requires sets > 0
    ensures |SetStream(blocks, sets, s)| <= |blocks|
  {
    if |blocks| > 0 {
      SetStreamShort(blocks[..|blocks| - 1], sets, s);
    }
  }

  /** A finite distance hits exactly when it is below the associativity. */
  function Classify(distance: Option<nat>, ways: nat): (o: Observation) {
    match distance
    case None => Observation(ColdMiss, None)
    case Some(d) => Observation(if d < ways then Hit else ReplacementMiss, distance)
  }

  /** The recency stack of the set that `block` maps to. */
  function SetStack(blocks: seq<nat>, sets: nat, s: nat): (r: seq<nat>)
    requires sets > 0
  {
    StackAfter(SetStream(blocks, sets, s))
  }

  /** A reference touches the stack of its own set and no other. */
  lemma SetStackExtend(blocks: seq<nat>, block: nat, sets: nat, s: nat)
    requires sets > 0
    ensures SetStack(blocks + [block], sets, s)
            == if block % sets == s then Touch(SetStack(blocks, sets, s), block) else SetStack(blocks, sets, s)
  {
    SetStreamExtend(blocks, block, sets, s);
    var stream := SetStream(blocks, sets, s);
    if block % sets == s {
      StackExtend(stream, block);
    } else {
      assert stream + [] == stream;
    }
  }

  lemma SetStackShort(blocks: seq<nat>, sets: nat, s: nat)
    requires sets > 0
    ensures |SetStack(blocks, sets, s)| <= |blocks|
  {
    var stream := SetStream(blocks, sets, s);
    StackShort(stream);
    SetStreamShort(blocks, sets, s);
  }

  lemma {:induction false} StackShort<K>(trace: seq<K>)
    ensures |StackAfter(trace)| <= |trace|
  {
    if |trace| > 0 {
      var n := |trace| - 1;
      StackShort(trace[..n]);
      StackAfterKeys(trace[..n]);
      TouchKeeps(StackAfter(trace[..n]), trace[n]);
    }
  }

  /** What the level reports for `block` after the stream `blocks`. */
  function ObserveNext(blocks: seq<nat>, block: nat, sets: nat, ways: nat): (o: Observation)
    requires sets > 0
  {
    Classify(Distance(SetStack(blocks, sets, block % sets), block), ways)
  }

  /** Every observation of a stream, in order. */
  function Observations(blocks: seq<nat>, sets: nat, ways: nat): (r: seq<Observation>)
    requires sets > 0
    ensures |r| == |blocks|
    ensures forall i :: 0 <= i < |r| ==> r[i] == ObserveNext(blocks[..i], blocks[i], sets, ways)
  {
    seq(|blocks|, i requires 0 <= i < |blocks| => ObserveNext(blocks[..i], blocks[i], sets, ways))
  }

  lemma ObservationsExtend(blocks: seq<nat>, block: nat, sets: nat, ways: nat)
    requires sets > 0
    ensures Observations(blocks + [block], sets, ways)
            == Observations(blocks, sets, ways) + [ObserveNext(blocks, block, sets, ways)]
  {
    var longer := blocks + [block];
    assert forall i :: 0 <= i <= |blocks| ==> longer[..i] == blocks[..i];
    assert blocks[..|blocks|] == blocks;
  }

  /** A reference is cold exactly when its block has not occurred before. */
  lemma ColdWhenNew(blocks: seq<nat>, block: nat, sets: nat, ways: nat)
    requires sets > 0
    ensures var o := ObserveNext(blocks, block, sets, ways);
            && (o.outcome == ColdMiss <==> block !in blocks)
            && (o.distance == None <==> block !in blocks)
            && (o.distance.Some? ==> (o.outcome == Hit <==> o.distance.value < ways))
            && (o.distance.Some? ==> o.distance.value < |Keys(blocks)|)
  {
    var stream := SetStream(blocks, sets, block % sets);
    SetStreamMembers(blocks, sets, block % sets);
    StackAfterKeys(stream);
    var stack := StackAfter(stream);
    DistinctCount(stack);
    assert Keys(stack) <= Keys(blocks);
    SubsetCount(Keys(stack), Keys(blocks));
  }

  // ----- tallies over a set of rows

  /** The counters an analysis keeps: outcomes and the histogram of finite distances. */
  datatype Counts = Counts(hits: nat, cold: nat, replacements: nat, histogram: map<nat, nat>)

  const NO_COUNTS: Counts := Counts(0, 0, 0, map[])

  ghost function RowsWith(obs: seq<Observation>, rows: set<nat>, outcome: Outcome): (r: set<nat>) {
    set i | i in rows && i < |obs| && obs[i].outcome == outcome
  }

  ghost function RowsAt(obs: seq<Observation>, rows: set<nat>, d: nat): (r: set<nat>) {
    set i | i in rows && i < |obs| && obs[i].distance == Some(d)
  }

  ghost function Distances(obs: seq<Observation>, rows: set<nat>): (r: set<nat>) {
    set i | i in rows && i < |obs| && obs[i].distance.Some? :: obs[i].distance.value
  }

  ghost function HistogramOf(obs: seq<Observation>, rows: set<nat>): (h: map<nat, nat>) {
    map d | d in Distances(obs, rows) :: |RowsAt(obs, rows, d)|
  }

  /** The counters that describe exactly the given rows. */
  ghost function Tally(obs: seq<Observation>, rows: set<nat>): (c: Counts) {
    Counts(|RowsWith(obs, rows, Hit)|, |RowsWith(obs, rows, ColdMiss)|,
           |RowsWith(obs, rows, ReplacementMiss)|, HistogramOf(obs, rows))
  }

  /** One more observation counted. */
  function Counted(c: Counts, o: Observation): (r: Counts) {
    var h := if o.distance.Some? then Bumped(c.histogram, o.distance.value) else c.histogram;
    match o.outcome
    case Hit => c.(hits := c.hits + 1, histogram := h)
    case ColdMiss => c.(cold := c.cold + 1, histogram := h)
    case ReplacementMiss => c.(replacements := c.replacements + 1, histogram := h)
  }

  lemma TallyNothing(obs: seq<Observation>)
    ensures Tally(obs, {}) == NO_COUNTS
  {
    assert HistogramOf(obs, {}) == map[];
  }

  lemma RowsWithAdd(obs: seq<Observation>, rows: set<nat>, r: nat, outcome: Outcome)
    requires r < |obs| && r !in rows
    ensures |RowsWith(obs, rows + {r}, outcome)|
            == |RowsWith(obs, rows, outcome)| + if obs[r].outcome == outcome then 1 else 0
  {
    var more := if obs[r].outcome == outcome then {r} else {};
    assert RowsWith(obs, rows + {r}, outcome) == RowsWith(obs, rows, outcome) + more;
  }

  lemma RowsAtAdd(obs: seq<Observation>, rows: set<nat>, r: nat, d: nat)
    requires r < |obs| && r !in rows
    ensures |RowsAt(obs, rows + {r}, d)|
            == |RowsAt(obs, rows, d)| + if obs[r].distance == Some(d) then 1 else 0
  {
    var more := if obs[r].distance == Some(d) then {r} else {};
    assert RowsAt(obs, rows + {r}, d) == RowsAt(obs, rows, d) + more;
  }

  /** The distances among the rows grow by the new row's distance, if it has one. */
  lemma DistancesAdd(obs: seq<Observation>, rows: set<nat>, r: nat)
    requires r < |obs|
    ensures Distances(obs, rows + {r})
            == Distances(obs, rows) + if obs[r].distance.Some? then {obs[r].distance.value} else {}
  {
    var more := if obs[r].distance.Some? then {obs[r].distance.value} else {};
    forall d | d in Distances(obs, rows) + more
      ensures d in Distances(obs, rows + {r})
    {
      if d in Distances(obs, rows) {
        var i :| i in rows && i < |obs| && obs[i].distance == Some(d);
        assert i in rows + {r};
      } else {
        assert r in rows + {r};
      }
    }
  }

  lemma AbsentDistance(obs: seq<Observation>, rows: set<nat>, d: nat)
    requires d !in Distances(obs, rows)
    ensures RowsAt(obs, rows, d) == {}
  {
  }

  lemma HistogramAdd(obs: seq<Observation>, rows: set<nat>, r: nat)
    requires r < |obs| && r !in rows
    ensures HistogramOf(obs, rows + {r})
            == if obs[r].distance.Some? then Bumped(HistogramOf(obs, rows), obs[r].distance.value)
               else HistogramOf(obs, rows)
  {
    hide Distances, RowsAt;
    DistancesAdd(obs, rows, r);
    forall d | d in Distances(obs, rows + {r})
      ensures |RowsAt(obs, rows + {r}, d)|
              == (if d in Distances(obs, rows) then |RowsAt(obs, rows, d)| else 0)
                 + if obs[r].distance == Some(d) then 1 else 0
    {
      RowsAtAdd(obs, rows, r, d);
      if d !in Distances(obs, rows) {
        AbsentDistance(obs, rows, d);
      }
    }
  }

  /** Counting a row not yet counted bumps exactly its own counters. */
  lemma TallyAdd(obs: seq<Observation>, rows: set<nat>, r: nat)
    requires r < |obs| && r !in rows
    ensures Tally(obs, rows + {r}) == Counted(Tally(obs, rows), obs[r])
  {
    RowsWithAdd(obs, rows, r, Hit);
    RowsWithAdd(obs, rows, r, ColdMiss);
    RowsWithAdd(obs, rows, r, ReplacementMiss);
    HistogramAdd(obs, rows, r);
  }

  /** The first `n` rows. */
  ghost function Rows(n: nat): (r: set<nat>)
    ensures |r| == n && forall i: nat :: i in r <==> i < n
  {
    if n == 0 then {} else Rows(n - 1) + {n - 1}
  }

  /** Only the observations of the counted rows matter. */
  lemma TallySame(obs: seq<Observation>, more: seq<Observation>, rows: set<nat>)
    requires forall i :: i in rows ==> i < |obs| && i < |more| && obs[i] == more[i]
    ensures Tally(obs, rows) == Tally(more, rows)
  {
    forall outcome
      ensures RowsWith(obs, rows, outcome) == RowsWith(more, rows, outcome)
    {
    }
    assert Distances(obs, rows) == Distances(more, rows);
    forall d
      ensures RowsAt(obs, rows, d) == RowsAt(more, rows, d)
    {
    }
  }

  /** Appending one observation to a stream counts it. */
  lemma TallyExtend(obs: seq<Observation>, o: Observation)
    ensures Tally(obs + [o], Rows(|obs| + 1)) == Counted(Tally(obs, Rows(|obs|)), o)
  {
    var n := |obs|;
    assert Rows(n + 1) == Rows(n) + {n};
    TallyAdd(obs + [o], Rows(n), n);
    TallySame(obs, obs + [o], Rows(n));
  }

  /** The counters of a whole stream. */
  ghost function LevelCounts(blocks: seq<nat>, sets: nat, ways: nat): (c: Counts)
    requires sets > 0
  {
    Tally(Observations(blocks, sets, ways), Rows(|blocks|))
  }

  lemma LevelCountsExtend(blocks: seq<nat>, block: nat, sets: nat, ways: nat)
    requires sets > 0
    ensures LevelCounts(blocks + [block], sets, ways)
            == Counted(LevelCounts(blocks, sets, ways), ObserveNext(blocks, block, sets, ways))
  {
    ObservationsExtend(blocks, block, sets, ways);
    TallyExtend(Observations(blocks, sets, ways), ObserveNext(blocks, block, sets, ways));
  }

  // ----- conservation

  ghost function FiniteRows(obs: seq<Observation>, rows: set<nat>): (r: set<nat>) {
    set i | i in rows && i < |obs| && obs[i].distance.Some?
  }

  /** Outcomes agree with distances: cold exactly without one, a hit exactly below `ways`. */
  ghost predicate Classified(obs: seq<Observation>, ways: nat) {
    forall i :: 0 <= i < |obs| ==> obs[i] == Classify(obs[i].distance, ways)
  }

  /** Every row is counted once, and no counter or histogram entry exceeds the number of rows. */
  lemma TallyConserves(obs: seq<Observation>, rows: set<nat>, ways: nat)
    requires rows <= Rows(|obs|) && Classified(obs, ways)
    ensures var c := Tally(obs, rows);
            && c.hits + c.cold + c.replacements == |rows|
            && |FiniteRows(obs, rows)| == c.hits + c.replacements
            && forall d :: d in c.histogram ==> 0 < c.histogram[d] <= |rows|
  {
    hide RowsAt, Distances, RowsWith;
    OutcomesPartition(obs, rows, ways);
    forall d | d in HistogramOf(obs, rows)
      ensures 0 < HistogramOf(obs, rows)[d] <= |rows|
    {
      HistogramBounds(obs, rows, d);
    }
  }

  lemma OutcomesPartition(obs: seq<Observation>, rows: set<nat>, ways: nat)
    requires rows <= Rows(|obs|) && Classified(obs, ways)
    ensures |RowsWith(obs, rows, Hit)| + |RowsWith(obs, rows, ColdMiss)| + |RowsWith(obs, rows, ReplacementMiss)|
            == |rows|
    ensures |FiniteRows(obs, rows)| == |RowsWith(obs, rows, Hit)| + |RowsWith(obs, rows, ReplacementMiss)|
  {
    var h, c, r := RowsWith(obs, rows, Hit), RowsWith(obs, rows, ColdMiss), RowsWith(obs, rows, ReplacementMiss);
    assert FiniteRows(obs, rows) == h + r && h !! r;
    assert rows == FiniteRows(obs, rows) + c && FiniteRows(obs, rows) !! c;
    hide RowsWith, FiniteRows, Classified;
    JoinedCount(h, r);
    JoinedCount(h + r, c);
  }

  lemma JoinedCount(a: set<nat>, b: set<nat>)
    requires a !! b
    ensures |a + b| == |a| + |b|
  {
  }

  lemma HistogramBounds(obs: seq<Observation>, rows: set<nat>, d: nat)
    requires d in HistogramOf(obs, rows)
    ensures 0 < HistogramOf(obs, rows)[d] <= |rows|
  {
    var i :| i in rows && i < |obs| && obs[i].distance == Some(d);
    assert i in RowsAt(obs, rows, d);
    SubsetCount(RowsAt(obs, rows, d), rows);
  }

  lemma LevelConserves(blocks: seq<nat>, sets: nat, ways: nat)
    requires sets > 0
    ensures var c := LevelCounts(blocks, sets, ways);
            && c.hits + c.cold + c.replacements == |blocks|
            && forall d :: d in c.histogram ==> 0 < c.histogram[d] <= |blocks|
  {
    TallyConserves(Observations(blocks, sets, ways), Rows(|blocks|), ways);
  }

  lemma KeysExtend<K>(trace: seq<K>, k: K)
    ensures |Keys(trace + [k])| == |Keys(trace)| + if k in trace then 0 else 1
  {
    assert Keys(trace + [k]) == Keys(trace) + {k};
  }

  /** Cold misses count the distinct blocks. */
  lemma {:induction false} ColdCountsBlocks(blocks: seq<nat>, sets: nat, ways: nat)
    requires sets > 0
    ensures LevelCounts(blocks, sets, ways).cold == |Keys(blocks)|
  {
    if |blocks| == 0 {
      TallyNothing(Observations(blocks, sets, ways));
    } else {
      hide LevelCounts, ObserveNext, Keys;
      var front, block := blocks[..|blocks| - 1], blocks[|blocks| - 1];
      assert blocks == front + [block];
      ColdCountsBlocks(front, sets, ways);
      LevelCountsExtend(front, block, sets, ways);
      ColdWhenNew(front, block, sets, ways);
      KeysExtend(front, block);
    }
  }
}
