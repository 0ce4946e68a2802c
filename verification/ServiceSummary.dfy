/** The final checks of a task summary: level conservation, service conservation and coverage. */
module ServiceSummary {
  import opened Machine
  import opened CacheLevel
  import opened LineMapping
  import opened HierarchyModel

  datatype ServiceError = ServiceOverflows | InvariantsDisagree | CoverageDisagrees

  /** Every sum the checks form fits a counter. */
  predicate SumsFit(s: TaskHierarchySummary) {
    && s.l1.coldMisses + s.l1.replacementMisses <= U64_MAX && s.llc.coldMisses + s.llc.replacementMisses <= U64_MAX
    && s.l1.hits + s.l1.misses <= U64_MAX && s.llc.hits + s.llc.misses <= U64_MAX
    && s.l1FirstHits + s.llcFirstHits + s.allCacheMisses <= U64_MAX
  }

  /** What the five flags together say. */
  predicate Conserved(s: TaskHierarchySummary) {
    && s.l1.coldMisses + s.l1.replacementMisses == s.l1.misses && s.l1.hits + s.l1.misses == s.l1.lookups
    && s.llc.coldMisses + s.llc.replacementMisses == s.llc.misses && s.llc.hits + s.llc.misses == s.llc.lookups
    && s.llc.lookups == s.l1.misses
    && s.modeledAccesses == s.l1.lookups && s.l1FirstHits == s.l1.hits && s.llcFirstHits == s.llc.hits
    && s.allCacheMisses == s.llc.misses
  }

  predicate Covered(s: TaskHierarchySummary) {
    && s.coverage.Complete() && s.sourceAccesses == s.coverage.sourceAccesses
    && s.modeledAccesses == s.coverage.emittedLineReferences
  }

  /** Set the flags of a summary, or fail when one of them or the coverage does not hold. */
  method FinalizeHierarchyService(s: TaskHierarchySummary) returns (r: Result<TaskHierarchySummary, ServiceError>)
    ensures r.Ok? <==> SumsFit(s) && Conserved(s) && Covered(s)
    ensures r.Ok? ==> r.value == s.(invariants := ALL_PASSED)
    ensures SumsFit(s) && !Conserved(s) ==> r == Err(InvariantsDisagree)
    ensures !SumsFit(s) ==> r == Err(ServiceOverflows)
  {
    var l1Misses := CheckedAdd(s.l1.coldMisses, s.l1.replacementMisses, U64_MAX);
    var llcMisses := CheckedAdd(s.llc.coldMisses, s.llc.replacementMisses, U64_MAX);
    var l1Lookups := CheckedAdd(s.l1.hits, s.l1.misses, U64_MAX);
    var llcLookups := CheckedAdd(s.llc.hits, s.llc.misses, U64_MAX);
    var llcServices := CheckedAdd(s.llcFirstHits, s.allCacheMisses, U64_MAX);
    if l1Misses.None? || llcMisses.None? || l1Lookups.None? || llcLookups.None? || llcServices.None? {
      return Err(ServiceOverflows);
    }
    var services := CheckedAdd(s.l1FirstHits, llcServices.value, U64_MAX);
    if services.None? {
      return Err(ServiceOverflows);
    }
    var conservationL1 := l1Misses.value == s.l1.misses && l1Lookups.value == s.l1.lookups;
    var conservationLlc := llcMisses.value == s.llc.misses && llcLookups.value == s.llc.lookups;
    var inputMatches := s.llc.lookups == s.l1.misses;
    var firstService :=
      && s.modeledAccesses == s.l1.lookups && s.l1FirstHits == s.l1.hits && s.llcFirstHits == s.llc.hits
      && s.allCacheMisses == s.llc.misses
      && services.value == s.modeledAccesses && llcServices.value == s.llc.lookups;
    var all := conservationL1 && conservationLlc && inputMatches && firstService;
    if !all {
      return Err(InvariantsDisagree);
    }
    if !s.coverage.Complete() || s.sourceAccesses != s.coverage.sourceAccesses
       || s.modeledAccesses != s.coverage.emittedLineReferences {
      return Err(CoverageDisagrees);
    }
    r := Ok(s.(invariants := HierarchyInvariants(conservationL1, conservationLlc, inputMatches, firstService, all)));
  }

  /** The summary of every stream whose length fits a counter passes all the checks. */
  lemma StreamsPass(id: string, sources: nat, rows: seq<CacheLineMapping>, h: AnalysisHierarchy)
    requires ValidHierarchy(h) && |rows| <= U64_MAX
    ensures var s := TaskSummaryOf(id, sources, rows, h);
            SumsFit(s) && Conserved(s) && Covered(s)
  {
    hide LevelCounts, LlcRows, BlocksOfRows;
    ServiceConservation(rows, h);
  }
}
