/** The acceptance tests of a hierarchy result, and why every successful run passes them. */
module ResultValidation {
  import opened Machine
  import opened Histogram
  import opened LruStack
  import opened CacheAddress
  import opened CacheLevel
  import opened LineMapping
  import opened LevelSummary
  import opened HierarchyModel
  import opened ServiceSummary
  import opened StreamingTask
  import opened HierarchyModules

  /** What `validate_level` accepts. */
  ghost predicate LevelAccepted(level: CacheLevelSummary, ways: nat) {
    && (forall d :: d in level.histogram ==> level.histogram[d] != 0 && d < level.uniqueLines)
    && Total(level.histogram) <= U64_MAX
    && Total(Below(level.histogram, ways)) == level.hits
    && Total(From(level.histogram, ways)) == level.replacementMisses
    && level.uniqueLines == level.coldMisses
  }

  /** The entries of a histogram still to be visited. */
  ghost function Left(h: map<nat, nat>, rest: set<nat>): (r: map<nat, nat>) {
    map d | d in h && d in rest :: h[d]
  }

  lemma VisitOne(h: map<nat, nat>, rest: set<nat>, d: nat, limit: nat)
    requires d in h && d in rest
    ensures Total(Below(Left(h, rest), limit))
            == Total(Below(Left(h, rest - {d}), limit)) + if d < limit then h[d] else 0
    ensures Total(From(Left(h, rest), limit))
            == Total(From(Left(h, rest - {d}), limit)) + if d < limit then 0 else h[d]
    ensures Total(Left(h, rest)) == Total(Left(h, rest - {d})) + h[d]
  {
    var l, n := Left(h, rest), Left(h, rest - {d});
    TotalRemove(l, d);
    assert l - {d} == n;
    if d < limit {
      TotalRemove(Below(l, limit), d);
      assert Below(l, limit) - {d} == Below(n, limit);
      assert From(l, limit) == From(n, limit);
    } else {
      TotalRemove(From(l, limit), d);
      assert From(l, limit) - {d} == From(n, limit);
      assert Below(l, limit) == Below(n, limit);
    }
  }

  lemma VisitEnds(h: map<nat, nat>, limit: nat)
    ensures Left(h, h.Keys) == h
    ensures Total(Left(h, {})) == 0 && Total(Below(Left(h, {}), limit)) == 0 && Total(From(Left(h, {}), limit)) == 0
  {
    assert Left(h, h.Keys) == h;
    assert Left(h, {}) == map[] && Below(map[], limit) == map[] && From(map[], limit) == map[];
  }

  lemma {:induction false} SplitTotal(h: map<nat, nat>, limit: nat)
    ensures Total(h) == Total(Below(h, limit)) + Total(From(h, limit))
    decreases |h|
  {
    VisitEnds(h, limit);
    if h != map[] {
      var d :| d in h;
      VisitOne(h, h.Keys, d, limit);
      assert Left(h, h.Keys - {d}) == h - {d};
      SplitTotal(h - {d}, limit);
    } else {
      assert Below(h, limit) == map[] && From(h, limit) == map[];
    }
  }

  /** Add a count to the total it belongs to. */
  method AddToTotal(hits: nat, replacements: nat, hit: bool, count: nat) returns (r: Option<(nat, nat)>)
    requires hits <= U64_MAX && replacements <= U64_MAX
    ensures r == if hit then if hits + count <= U64_MAX then Some((hits + count, replacements)) else None
                 else if replacements + count <= U64_MAX then Some((hits, replacements + count)) else None
  {
    var sum := CheckedAdd(if hit then hits else replacements, count, U64_MAX);
    if sum.None? {
      return None;
    }
    r := Some(if hit then (sum.value, replacements) else (hits, sum.value));
  }

  /** The loop of `validate_level`: `Some` holds the two totals, `None` a rejection. */
  method SumByAssociativity(level: CacheLevelSummary, ways: nat) returns (r: Option<(nat, nat)>)
    ensures r.Some? <==>
              && (forall d :: d in level.histogram ==> level.histogram[d] != 0 && d < level.uniqueLines)
              && Total(Below(level.histogram, ways)) <= U64_MAX && Total(From(level.histogram, ways)) <= U64_MAX
    ensures r.Some? ==> r.value == (Total(Below(level.histogram, ways)), Total(From(level.histogram, ways)))
  {
    var h := level.histogram;
    var hits: nat, replacements: nat := 0, 0;
    var rest := h.Keys;
    SummedStarts(h, ways);
    while rest != {}
      invariant rest <= h.Keys && hits <= U64_MAX && replacements <= U64_MAX
      invariant forall d :: d in h && d !in rest ==> h[d] != 0 && d < level.uniqueLines
      invariant Summed(h, rest, ways, hits, replacements)
      decreases rest
    {
      hide Summed;
      var distance: nat :| distance in rest;
      var count := h[distance];
      if count == 0 || distance >= level.uniqueLines {
        return None;
      }
      SummedStep(h, rest, distance, ways, hits, replacements);
      var totals := AddToTotal(hits, replacements, distance < ways, count);
      if totals.None? {
        return None;
      }
      hits, replacements := totals.value.0, totals.value.1;
      rest := rest - {distance};
    }
    SummedEnds(h, ways, hits, replacements);
    r := Some((hits, replacements));
  }

  /** The distances outside `rest` have been added to the total below or from the associativity. */
  ghost predicate Summed(h: map<nat, nat>, rest: set<nat>, ways: nat, hits: nat, replacements: nat) {
    && rest <= h.Keys
    && hits + Total(Below(Left(h, rest), ways)) == Total(Below(h, ways))
    && replacements + Total(From(Left(h, rest), ways)) == Total(From(h, ways))
  }

  lemma SummedStarts(h: map<nat, nat>, ways: nat)
    ensures Summed(h, h.Keys, ways, 0, 0)
  {
    VisitEnds(h, ways);
  }

  lemma SummedStep(h: map<nat, nat>, rest: set<nat>, d: nat, ways: nat, hits: nat, replacements: nat)
    requires Summed(h, rest, ways, hits, replacements) && d in rest
    ensures d < ways ==> hits + h[d] <= Total(Below(h, ways)) && Summed(h, rest - {d}, ways, hits + h[d], replacements)
    ensures d >= ways ==>
              replacements + h[d] <= Total(From(h, ways)) && Summed(h, rest - {d}, ways, hits, replacements + h[d])
  {
    hide Total, Below, From, Left;
    VisitOne(h, rest, d, ways);
  }

  lemma SummedEnds(h: map<nat, nat>, ways: nat, hits: nat, replacements: nat)
    requires Summed(h, {}, ways, hits, replacements)
    ensures hits == Total(Below(h, ways)) && replacements == Total(From(h, ways))
  {
    VisitEnds(h, ways);
  }

  method ValidateLevel(level: CacheLevelSummary, ways: nat) returns (ok: bool)
    ensures ok <==> LevelAccepted(level, ways)
  {
    hide Total, Below, From;
    SplitTotal(level.histogram, ways);
    var totals := SumByAssociativity(level, ways);
    if totals.None? {
      return false;
    }
    var both := CheckedAdd(totals.value.0, totals.value.1, U64_MAX);
    ok := both.Some? && totals.value.0 == level.hits && totals.value.1 == level.replacementMisses
          && level.uniqueLines == level.coldMisses;
  }

  /**
   * Acceptance of a level in other words: every cold miss is a line of its own, each distance counted is below their
   * number, and the histogram splits into the hits and the replacement misses.
   */
  lemma LevelExactly(level: CacheLevelSummary, ways: nat)
    ensures LevelAccepted(level, ways)
            <==> && (forall d :: d in level.histogram ==> level.histogram[d] > 0 && d < level.coldMisses)
                 && level.coldMisses == level.uniqueLines
                 && Total(level.histogram) == level.hits + level.replacementMisses <= U64_MAX
                 && Total(Below(level.histogram, ways)) == level.hits
  {
    hide Total, Below, From;
    SplitTotal(level.histogram, ways);
  }

  /** Every recorded distance is below the number of distinct lines. */
  lemma DistancesBelowLines(blocks: seq<nat>, sets: nat, ways: nat, d: nat)
    requires sets > 0 && d in LevelCounts(blocks, sets, ways).histogram
    ensures d < |Keys(blocks)|
  {
    var obs := Observations(blocks, sets, ways);
    var i :| 0 <= i < |obs| && obs[i].distance == Some(d);
    ColdWhenNew(blocks[..i], blocks[i], sets, ways);
    assert Keys(blocks[..i]) <= Keys(blocks);
    SubsetCount(Keys(blocks[..i]), Keys(blocks));
  }

  /** The summary of every stream that fits the counters is accepted. */
  lemma StreamsAccepted(blocks: seq<nat>, sets: nat, ways: nat)
    requires sets > 0 && |blocks| <= U64_MAX
    ensures LevelAccepted(LevelSummaryOf(blocks, sets, ways), ways)
  {
    hide LevelCounts, Keys;
    LevelConserves(blocks, sets, ways);
    HistogramMass(blocks, sets, ways, ways);
    ColdCountsBlocks(blocks, sets, ways);
    forall d | d in LevelCounts(blocks, sets, ways).histogram
      ensures d < |Keys(blocks)|
    {
      DistancesBelowLines(blocks, sets, ways, d);
    }
  }

  /** What `validate_task` accepts, ratios apart. */
  ghost predicate TaskAccepted(t: TaskHierarchySummary, h: AnalysisHierarchy) {
    && t.invariants == ALL_PASSED
    && LevelAccepted(t.l1, h.l1.associativity) && LevelAccepted(t.llc, h.llc.associativity)
    && t.llc.uniqueLines <= t.l1.uniqueLines
    && t.sourceAccesses <= t.modeledAccesses && (t.sourceAccesses == 0 ==> t.modeledAccesses == 0)
    && SumsFit(t) && Conserved(t) && Covered(t)
  }

  /**
   * Acceptance of a task in other words: its numbers are those of accesses that are served by L1, by the LLC or by
   * memory, every access of its sources is covered, and all flags are set.
   */
  lemma TaskExactly(t: TaskHierarchySummary, h: AnalysisHierarchy)
    ensures TaskAccepted(t, h)
            <==> var near, far, missed := t.l1FirstHits, t.llcFirstHits, t.allCacheMisses;
                 && t.modeledAccesses == near + far + missed <= U64_MAX
                 && t.l1.lookups == near + far + missed && t.l1.hits == near && t.l1.misses == far + missed
                 && t.llc.lookups == far + missed && t.llc.hits == far && t.llc.misses == missed
                 && t.l1.coldMisses + t.l1.replacementMisses == far + missed
                 && t.llc.coldMisses + t.llc.replacementMisses == missed
                 && t.coverage == TraceCoverage(t.sourceAccesses, t.sourceAccesses, 0, t.modeledAccesses)
                 && t.sourceAccesses <= t.modeledAccesses && (t.modeledAccesses > 0 ==> t.sourceAccesses > 0)
                 && t.llc.uniqueLines <= t.l1.uniqueLines
                 && t.invariants == HierarchyInvariants(true, true, true, true, true)
                 && LevelAccepted(t.l1, h.l1.associativity) && LevelAccepted(t.llc, h.llc.associativity)
  {
    hide LevelAccepted;
  }

  method ValidateTask(t: TaskHierarchySummary, h: AnalysisHierarchy) returns (ok: bool)
    ensures ok <==> TaskAccepted(t, h)
  {
    hide LevelAccepted, SumsFit, Conserved, Covered;
    if t.invariants != ALL_PASSED {
      return false;
    }
    var l1 := ValidateLevel(t.l1, h.l1.associativity);
    var llc := ValidateLevel(t.llc, h.llc.associativity);
    var final := FinalizeHierarchyService(t);
    ok := l1 && llc && t.llc.uniqueLines <= t.l1.uniqueLines && t.sourceAccesses <= t.modeledAccesses
          && !(t.sourceAccesses == 0 && t.modeledAccesses != 0) && final.Ok?;
  }

  lemma {:induction false} EveryAccessHasALine(accesses: seq<ResolvedAccess>, g: CacheGeometry)
    requires ValidSource(accesses, g)
    ensures |accesses| <= |AllLines(accesses, g)|
  {
    if |accesses| > 0 {
      EveryAccessHasALine(accesses[..|accesses| - 1], g);
    }
  }

  lemma {:induction false} AllLinesDecoded(accesses: seq<ResolvedAccess>, g: CacheGeometry)
    requires ValidSource(accesses, g) && ValidGeometry(g)
    ensures DecodedWith(AllLines(accesses, g), g)
  {
    if |accesses| > 0 {
      AllLinesDecoded(accesses[..|accesses| - 1], g);
    }
  }

  /** Every task a successful run reports is accepted, and its two levels have seen the same lines. */
  lemma TasksAccepted(t: SourceTask, h: AnalysisHierarchy)
    requires ValidHierarchy(h) && ValidTask(t, h) && |TaskLines(t, h)| <= U64_MAX
    ensures TaskAccepted(SummaryOfTask(t, h), h)
    ensures SummaryOfTask(t, h).llc.uniqueLines == SummaryOfTask(t, h).l1.uniqueLines
  {
    hide LevelCounts, ValidSource, ValidGeometry, LlcRows, AllLines, DecodedWith, Keys;
    var rows := TaskLines(t, h);
    AllLinesDecoded(t.accesses, h.l1);
    LlcSeesEveryBlock(rows, h);
    LlcRowsShort(rows, h);
    StreamsAccepted(BlocksOfRows(rows), SetCount(h.l1), h.l1.associativity);
    StreamsAccepted(BlocksOfRows(LlcRows(rows, h)), SetCount(h.llc), h.llc.associativity);
    StreamsPass(t.id, |t.accesses|, rows, h);
    EveryAccessHasALine(t.accesses, h.l1);
    if |t.accesses| == 0 {
      NoLines(t.accesses, h.l1);
    }
  }

  lemma NoLines(accesses: seq<ResolvedAccess>, g: CacheGeometry)
    requires ValidSource(accesses, g) && |accesses| == 0
    ensures AllLines(accesses, g) == []
  {
  }
}
