/** The online exact cache-set reuse-distance analyzer: one recency index per cache set. */
module ExactCsrd {
  import opened Machine
  import opened LruStack
  import opened CacheAddress
  import opened CacheLevel
  import opened Recency

  const CAPACITY_FLOOR: nat := 16

  datatype CsrdError = InvalidAddress | CounterOverflow

  /** The counters of a level with its lookups and distinct lines. */
  datatype ExactCsrdSummary = ExactCsrdSummary(lookups: nat, counts: Counts, uniqueLines: nat)

  /** The summary of a whole stream. */
  ghost function SummaryOf(blocks: seq<nat>, sets: nat, ways: nat): (s: ExactCsrdSummary)
    requires sets > 0
  {
    var c := LevelCounts(blocks, sets, ways);
    ExactCsrdSummary(|blocks|, c, c.cold)
  }

  /** The summary after one more observation. */
  function Recorded(s: ExactCsrdSummary, o: Observation): (r: ExactCsrdSummary) {
    ExactCsrdSummary(s.lookups + 1, Counted(s.counts, o), s.uniqueLines + if o.outcome == ColdMiss then 1 else 0)
  }

  lemma SummaryExtend(blocks: seq<nat>, block: nat, sets: nat, ways: nat)
    requires sets > 0
    ensures SummaryOf(blocks + [block], sets, ways)
            == Recorded(SummaryOf(blocks, sets, ways), ObserveNext(blocks, block, sets, ways))
  {
    LevelCountsExtend(blocks, block, sets, ways);
  }

  /** Counters and storage suffice for `n` observations. */
  ghost predicate Roomy(limits: StorageLimits, n: nat) {
    && 2 * n + CAPACITY_FLOOR + 1 <= limits.tree && n <= limits.scratch
    && 2 * n + CAPACITY_FLOOR + 1 <= U64_MAX
  }

  class ExactCsrdAnalyzer {
    const geometry: CacheGeometry
    const setCount: nat
    const limits: StorageLimits
    var summary: ExactCsrdSummary
    var sets: map<nat, RecencyIndex>

    /** The blocks observed so far. */
    ghost var trace: seq<nat>

    /** The index of every set holds the recency stack of the set's own blocks. */
    ghost predicate Tracks(blocks: seq<nat>)
      requires setCount > 0
      reads this`sets, sets.Values
    {
      && (forall s | s in sets :: sets[s].Valid() && sets[s].stack == SetStack(blocks, setCount, s))
      && (forall s | s in sets ::
            sets[s].floor == CAPACITY_FLOOR && sets[s].limits == limits && sets[s].slotLimit == U64_MAX)
      && (forall s: nat | s !in sets :: SetStack(blocks, setCount, s) == [])
      && (forall s, t | s in sets && t in sets && s != t :: sets[s] != sets[t])
    }

    ghost predicate Valid()
      reads this, sets.Values
    {
      && ValidGeometry(geometry) && setCount == SetCount(geometry)
      && Tracks(trace)
      && summary == SummaryOf(trace, setCount, geometry.associativity)
    }

    constructor (geometry: CacheGeometry, limits: StorageLimits)
      requires ValidGeometry(geometry)
      ensures Valid() && trace == [] && sets == map[]
      ensures this.geometry == geometry && this.limits == limits
    {
      this.geometry, this.limits := geometry, limits;
      setCount := SetCount(geometry);
      summary := ExactCsrdSummary(0, NO_COUNTS, 0);
      sets, trace := map[], [];
      new;
      TallyNothing(Observations([], setCount, geometry.associativity));
      assert Rows(0) == {};
    }

    /** Every decoded field agrees with the geometry. */
    predicate Consistent(a: DecodedAddress)
      requires ValidGeometry(geometry) && setCount == SetCount(geometry)
    {
      && a.block == a.address / geometry.lineSize && a.setIndex == a.block % setCount
      && a.tag == a.block / setCount && a.offset == a.address % geometry.lineSize
    }

    /** Rank one line reference in its set and count its outcome. */
    method Observe(address: DecodedAddress) returns (r: Result<Observation, CsrdError>)
      requires Valid()
      modifies this, sets.Values
      ensures r == Err(InvalidAddress) <==> !Consistent(address)
      ensures Consistent(address) && Roomy(limits, |old(trace)| + 1) ==> r.Ok?
      ensures fresh(sets.Values - old(sets.Values))
      ensures r.Ok? ==> |old(trace)| < U64_MAX && Valid() && trace == old(trace) + [address.block]
      ensures r.Ok? ==> r.value == ObserveNext(old(trace), address.block, setCount, geometry.associativity)
    {
      if !Consistent(address) {
        return Err(InvalidAddress);
      }
      r := ObserveLine(address.setIndex, address.block);
    }

    /** Observe a block of a consistent address and record its outcome. */
    method ObserveLine(s: nat, block: nat) returns (r: Result<Observation, CsrdError>)
      requires Valid() && s == block % setCount
      modifies this, sets.Values
      ensures r != Err(InvalidAddress)
      ensures Roomy(limits, |old(trace)| + 1) ==> r.Ok?
      ensures fresh(sets.Values - old(sets.Values))
      ensures r.Ok? ==> |old(trace)| < U64_MAX && Valid() && trace == old(trace) + [block]
      ensures r.Ok? ==> r.value == ObserveNext(old(trace), block, setCount, geometry.associativity)
    {
      hide SetStack, LevelCounts, Recorded, Tracks;
      var lookups := CheckedAdd(summary.lookups, 1, U64_MAX);
      if lookups.None? {
        return Err(CounterOverflow);
      }
      var distance := ObserveInSet(s, block);
      if distance.Err? {
        return Err(CounterOverflow);
      }
      var o := Classify(distance.value, geometry.associativity);
      SummaryExtend(trace, block, setCount, geometry.associativity);
      summary := Recorded(summary, o);
      trace := trace + [block];
      r := Ok(o);
    }

    /** Find or create the index of a set. */
    method EnsureSet(s: nat) returns (ok: bool)
      requires setCount > 0 && Tracks(trace)
      modifies this`sets
      ensures fresh(sets.Values - old(sets.Values))
      ensures Roomy(limits, 0) ==> ok
      ensures ok ==> Tracks(trace) && s in sets
    {
      hide SetStack, RecencyIndex.Valid;
      if s in sets {
        return true;
      }
      var index := CreateIndex(CAPACITY_FLOOR, U64_MAX, limits);
      if index.Err? {
        return false;
      }
      sets := sets[s := index.value];
      ok := true;
    }

    /** Observe a block in the index of its set. */
    method ObserveInSet(s: nat, block: nat) returns (r: Result<Option<nat>, Overflow>)
      requires setCount > 0 && Tracks(trace) && s == block % setCount
      modifies this`sets, sets.Values
      ensures fresh(sets.Values - old(sets.Values))
      ensures Roomy(limits, |trace| + 1) ==> r.Ok?
      ensures r.Ok? ==> Tracks(trace + [block])
      ensures r.Ok? ==> r.value == Distance(SetStack(trace, setCount, s), block)
    {
      hide SetStack, RecencyIndex.Valid;
      var ok := EnsureSet(s);
      if !ok {
        return Err(Overflow);
      }
      SetStackShort(trace, setCount, s);
      forall t: nat
        ensures SetStack(trace + [block], setCount, t)
                == if s == t then Touch(SetStack(trace, setCount, t), block) else SetStack(trace, setCount, t)
      {
        SetStackExtend(trace, block, setCount, t);
      }
      r := sets[s].Observe(block);
    }
  }
}
