/** Per-level summaries: the checked conversions of both analyses and the conservation laws they test. */
module LevelSummary {
  import opened Machine
  import opened Histogram
  import opened LruStack
  import opened CacheAddress
  import opened CacheLevel
  import opened ExactCsrd
  import opened BatchCsrd

  datatype CacheLevelSummary = CacheLevelSummary(
    lookups: nat, hits: nat, misses: nat, coldMisses: nat, replacementMisses: nat, uniqueLines: nat,
    histogram: map<nat, nat>)

  datatype SummaryError = CountOverflows | LookupsDisagree | HistogramDisagrees | UniqueLinesDisagree | SizesDisagree

  /** The summary of a stream, read off its observations. */
  ghost function LevelSummaryOf(blocks: seq<nat>, sets: nat, ways: nat): (s: CacheLevelSummary)
    requires sets > 0
  {
    var c := LevelCounts(blocks, sets, ways);
    CacheLevelSummary(|blocks|, c.hits, c.cold + c.replacements, c.cold, c.replacements, |Keys(blocks)|, c.histogram)
  }

  // ----- the histogram carries the outcome counts, for every associativity

  /**
   * The histogram of a stream does not depend on the associativity, and for every associativity its
   * mass below it is the hits and the rest of its mass the replacement misses.
   */
  lemma {:induction false} HistogramMass(blocks: seq<nat>, sets: nat, ways: nat, other: nat)
    requires sets > 0
    ensures var h := LevelCounts(blocks, sets, ways).histogram;
            && Total(Below(h, other)) == LevelCounts(blocks, sets, other).hits
            && Total(From(h, other)) == LevelCounts(blocks, sets, other).replacements
            && Total(h) == LevelCounts(blocks, sets, other).hits + LevelCounts(blocks, sets, other).replacements
  {
    if |blocks| == 0 {
      TallyNothing(Observations(blocks, sets, ways));
      TallyNothing(Observations(blocks, sets, other));
      assert Rows(0) == {};
      assert Below(map[], other) == map[] && From(map[], other) == map[];
    } else {
      var front, block := blocks[..|blocks| - 1], blocks[|blocks| - 1];
      assert blocks == front + [block];
      HistogramMass(front, sets, ways, other);
      MassStep(front, block, sets, ways, other);
    }
  }

  lemma MassStep(front: seq<nat>, block: nat, sets: nat, ways: nat, other: nat)
    requires sets > 0
    requires var h := LevelCounts(front, sets, ways).histogram;
             && Total(Below(h, other)) == LevelCounts(front, sets, other).hits
             && Total(From(h, other)) == LevelCounts(front, sets, other).replacements
             && Total(h) == LevelCounts(front, sets, other).hits + LevelCounts(front, sets, other).replacements
    ensures var h := LevelCounts(front + [block], sets, ways).histogram;
            && Total(Below(h, other)) == LevelCounts(front + [block], sets, other).hits
            && Total(From(h, other)) == LevelCounts(front + [block], sets, other).replacements
            && Total(h) == LevelCounts(front + [block], sets, other).hits
                           + LevelCounts(front + [block], sets, other).replacements
  {
    hide LevelCounts, Total, Below, From, Bumped, SetStack;
    LevelCountsExtend(front, block, sets, ways);
    LevelCountsExtend(front, block, sets, other);
    var distance := Distance(SetStack(front, sets, block % sets), block);
    if distance.Some? {
      var h := LevelCounts(front, sets, ways).histogram;
      TotalBumped(h, distance.value);
      BelowBumped(h, distance.value, other);
      TotalBumped(Below(h, other), distance.value);
      TotalBumped(From(h, other), distance.value);
    }
  }

  /** The condition both conversions test: counters fit, lookups and finite references are conserved. */
  ghost predicate Conserves(s: ExactCsrdSummary) {
    && s.lookups <= U64_MAX
    && s.counts.hits + s.counts.cold + s.counts.replacements == s.lookups
    && Total(s.counts.histogram) == s.counts.hits + s.counts.replacements
    && s.uniqueLines == s.counts.cold
  }

  /** Every stream whose length fits a counter passes the tests of both conversions. */
  lemma StreamsConserve(blocks: seq<nat>, sets: nat, ways: nat)
    requires sets > 0 && |blocks| <= U64_MAX
    ensures Conserves(SummaryOf(blocks, sets, ways))
    ensures LevelCounts(blocks, sets, ways).cold == |Keys(blocks)|
  {
    hide LevelCounts;
    LevelConserves(blocks, sets, ways);
    HistogramMass(blocks, sets, ways, ways);
    ColdCountsBlocks(blocks, sets, ways);
  }

  lemma TotalMinus(h: map<nat, nat>, rest: set<nat>, d: nat)
    requires d in rest && rest <= h.Keys
    ensures Total(h - (h.Keys - rest)) == h[d] + Total(h - (h.Keys - (rest - {d})))
  {
    var tail := h - (h.Keys - rest);
    TotalRemove(tail, d);
    assert tail - {d} == h - (h.Keys - (rest - {d}));
  }

  lemma TotalEnds(h: map<nat, nat>)
    ensures Total(h - {}) == Total(h) && Total(h - h.Keys) == 0
  {
    assert h - {} == h && h - h.Keys == map[];
  }

  /** Sum the frequencies with checked additions. */
  method CheckedTotal(h: map<nat, nat>) returns (r: Option<nat>)
    ensures r == if Total(h) <= U64_MAX then Some(Total(h)) else None
  {
    var total: nat := 0;
    var rest := h.Keys;
    TotalEnds(h);
    assert h.Keys - rest == {};
    while rest != {}
      invariant rest <= h.Keys
      invariant total <= U64_MAX && total + Total(h - (h.Keys - rest)) == Total(h)
      decreases rest
    {
      var d :| d in rest;
      TotalMinus(h, rest, d);
      var sum := CheckedAdd(total, h[d], U64_MAX);
      if sum.None? {
        return None;
      }
      total := sum.value;
      rest := rest - {d};
    }
    assert h.Keys - rest == h.Keys;
    r := Some(total);
  }

  /** Convert the online counters, testing conservation. */
  method SummarizeStreamingLevel(source: ExactCsrdSummary) returns (r: Result<CacheLevelSummary, SummaryError>)
    ensures r.Ok? <==> Conserves(source)
    ensures r.Ok? ==> var c := source.counts;
              r.value == CacheLevelSummary(source.lookups, c.hits, c.cold + c.replacements, c.cold,
                                           c.replacements, source.uniqueLines, c.histogram)
  {
    var c := source.counts;
    var misses := CheckedAdd(c.cold, c.replacements, U64_MAX);
    if misses.None? {
      return Err(CountOverflows);
    }
    var lookups := CheckedAdd(c.hits, misses.value, U64_MAX);
    if lookups != Some(source.lookups) {
      return Err(if lookups.None? then CountOverflows else LookupsDisagree);
    }
    var finite := CheckedTotal(c.histogram);
    if finite.None? {
      return Err(CountOverflows);
    }
    if finite.value != c.hits + c.replacements {
      return Err(HistogramDisagrees);
    }
    if source.uniqueLines != c.cold {
      return Err(UniqueLinesDisagree);
    }
    r := Ok(CacheLevelSummary(source.lookups, c.hits, misses.value, c.cold, c.replacements,
                              source.uniqueLines, c.histogram));
  }

  /** Count the distinct block numbers of the mapped rows. */
  method DistinctBlocks(rows: seq<DecodedAddress>) returns (n: nat)
    ensures n == |Keys(DecodedBlocks(rows))|
  {
    var blocks: set<nat> := {};
    for i := 0 to |rows|
      invariant blocks == Keys(DecodedBlocks(rows)[..i])
    {
      assert DecodedBlocks(rows)[..i + 1] == DecodedBlocks(rows)[..i] + [rows[i].block];
      blocks := blocks + {rows[i].block};
    }
    assert DecodedBlocks(rows)[..|rows|] == DecodedBlocks(rows);
    n := |blocks|;
  }

  function DecodedBlocks(rows: seq<DecodedAddress>): (b: seq<nat>)
    ensures |b| == |rows|
  {
    seq(|rows|, i requires 0 <= i < |rows| => rows[i].block)
  }

  /** Convert the offline counters, recounting the distinct lines from the rows. */
  method SummarizeHierarchyLevel(analysis: BatchCsrdResult, rows: seq<DecodedAddress>)
    returns (r: Result<CacheLevelSummary, SummaryError>)
    ensures r.Ok? <==>
              && |analysis.accesses| == |rows|
              && Conserves(ExactCsrdSummary(|rows|, analysis.counts, |Keys(DecodedBlocks(rows))|))
    ensures r.Ok? ==> var c := analysis.counts;
              r.value == CacheLevelSummary(|rows|, c.hits, c.cold + c.replacements, c.cold,
                                           c.replacements, |Keys(DecodedBlocks(rows))|, c.histogram)
  {
    if |analysis.accesses| != |rows| {
      return Err(SizesDisagree);
    }
    var unique := DistinctBlocks(rows);
    r := SummarizeStreamingLevel(ExactCsrdSummary(|rows|, analysis.counts, unique));
  }
}
