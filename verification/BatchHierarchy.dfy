/** The staged batch analysis: L1 whole, the misses filtered out, the LLC whole, and the two streams zipped. */
module BatchHierarchy {
  import opened Machine
  import opened LruStack
  import Histogram
  import opened CacheAddress
  import opened CacheLevel
  import opened BatchCsrd
  import opened LineMapping
  import opened LevelSummary
  import opened HierarchyModel
  import opened ServiceSummary

  /** A level's summary with its aligned rows and decisions. */
  datatype BatchCacheLevelResult = BatchCacheLevelResult(
    summary: CacheLevelSummary, mappings: seq<CacheLineMapping>, accesses: seq<Observation>)

  datatype BatchTaskResult = BatchTaskResult(summary: TaskHierarchySummary, events: seq<HierarchyAccessEvent>)

  datatype BatchHierarchyError =
    | SourceRejected | NoTasks | IdentityRejected
    | LevelFailed(batch: BatchError) | LevelSummaryFailed(summary: SummaryError)
    | L1SizesDisagree | LlcSizesDisagree | MissingLlcRow | PairedRowsDisagree | LeftoverLlcRows
    | CountOverflow | Finalization(service: ServiceError)

  function DecodedRows(rows: seq<CacheLineMapping>): (d: seq<DecodedAddress>)
    ensures |d| == |rows|
  {
    seq(|rows|, i requires 0 <= i < |rows| => rows[i].decoded)
  }

  /** Rows decoded with one geometry name the same blocks by tag and set as by block number. */
  lemma DecodedBlocksAgree(rows: seq<CacheLineMapping>, g: CacheGeometry)
    requires ValidGeometry(g) && DecodedWith(rows, g)
    ensures BlocksOf(DecodedRows(rows), SetCount(g)) == BlocksOfRows(rows) == DecodedBlocks(DecodedRows(rows))
    ensures InRange(DecodedRows(rows), SetCount(g))
  {
    forall i | 0 <= i < |rows|
      ensures BlockOf(rows[i].decoded, SetCount(g)) == rows[i].decoded.block && rows[i].decoded.setIndex < SetCount(g)
    {
      DecodeRecomposes(rows[i].decoded.address, g);
    }
  }

  /** Analyse one level; every stream that fits the counters succeeds. */
  method AnalyzeHierarchyLevel(rows: seq<CacheLineMapping>, g: CacheGeometry)
    returns (r: Result<BatchCacheLevelResult, BatchHierarchyError>)
    requires ValidGeometry(g) && DecodedWith(rows, g)
    ensures r.Ok? <==> |rows| <= U64_MAX
    ensures r.Ok? ==> r.value == BatchCacheLevelResult(LevelOf(rows, g), rows, LevelObservations(rows, g))
  {
    hide LevelCounts, Observations, DecodedWith, InRange, Keys, BlocksOf, Histogram.Total;
    DecodedBlocksAgree(rows, g);
    var analysis := AnalyzeBatchCsrd(DecodedRows(rows), g);
    if |rows| <= U64_MAX {
      StreamsConserve(BlocksOfRows(rows), SetCount(g), g.associativity);
    }
    var summary := SummarizeHierarchyLevel(analysis.value, DecodedRows(rows));
    if summary.Err? {
      return Err(LevelSummaryFailed(summary.error));
    }
    r := Ok(BatchCacheLevelResult(summary.value, rows, analysis.value.accesses));
  }

  /** The rows that miss L1, decoded again with the LLC geometry. */
  method FilterMisses(l1: BatchCacheLevelResult, llc: CacheGeometry) returns (rows: seq<CacheLineMapping>)
    requires ValidGeometry(llc) && |l1.mappings| == |l1.accesses|
    ensures rows == RemappedAll(Missed(l1.mappings, l1.accesses), llc)
  {
    hide Decode;
    rows := [];
    for index := 0 to |l1.accesses|
      invariant rows == RemappedAll(Missed(l1.mappings[..index], l1.accesses[..index]), llc)
    {
      MissedPrefix(l1.mappings, l1.accesses, index);
      if l1.accesses[index].outcome != Hit {
        rows := rows + [l1.mappings[index].(decoded := Decode(l1.mappings[index].decoded.address, llc))];
      }
    }
    assert l1.mappings[..|l1.mappings|] == l1.mappings && l1.accesses[..|l1.accesses|] == l1.accesses;
  }

  lemma MissedPrefix<T>(rows: seq<T>, obs: seq<Observation>, n: nat)
    requires |rows| == |obs| && n < |rows|
    ensures Missed(rows[..n + 1], obs[..n + 1])
            == Missed(rows[..n], obs[..n]) + if obs[n].outcome == Hit then [] else [rows[n]]
  {
    assert rows[..n + 1] == rows[..n] + [rows[n]] && obs[..n + 1] == obs[..n] + [obs[n]];
    MissedExtend(rows[..n], obs[..n], rows[n], obs[n]);
  }

  /** Two rows stand for the same reference of the same source access. */
  predicate SameReference(left: CacheLineMapping, right: CacheLineMapping) {
    && left.sourceAccessOrdinal == right.sourceAccessOrdinal && left.lineSpanOrdinal == right.lineSpanOrdinal
    && left.objectId == right.objectId && left.objectByteOffset == right.objectByteOffset
    && left.addressBasis == right.addressBasis && left.decoded.address == right.decoded.address
    && left.sourceObjectByteOffset == right.sourceObjectByteOffset
    && left.sourceAccessSize == right.sourceAccessSize
    && left.sourceLinkedByteAddress == right.sourceLinkedByteAddress && left.operation == right.operation
  }

  /** The LLC row of a reference is its L1 row but for the parts of its address. */
  lemma SameButDecoded(left: CacheLineMapping, right: CacheLineMapping)
    ensures SameReference(left, right)
            <==> right == left.(decoded := right.decoded) && left.decoded.address == right.decoded.address
  {
  }

  // ----- the zip

  function MissCount(obs: seq<Observation>): (n: nat)
    ensures n <= |obs|
  {
    if |obs| == 0 then 0
    else MissCount(obs[..|obs| - 1]) + if obs[|obs| - 1].outcome == Hit then 0 else 1
  }

  lemma MissCountNext(obs: seq<Observation>, n: nat)
    requires n < |obs|
    ensures MissCount(obs[..n + 1]) == MissCount(obs[..n]) + if obs[n].outcome == Hit then 0 else 1
  {
    assert obs[..n + 1][..n] == obs[..n];
  }

  lemma {:induction false} MissCountGrows(obs: seq<Observation>, n: nat)
    requires n <= |obs|
    ensures MissCount(obs[..n]) <= MissCount(obs)
    decreases |obs| - n
  {
    if n < |obs| {
      MissCountNext(obs, n);
      MissCountGrows(obs, n + 1);
    } else {
      assert obs[..n] == obs;
    }
  }

  predicate Aligned(level: BatchCacheLevelResult) {
    |level.accesses| == |level.mappings| == level.summary.lookups
  }

  /** Row `i`, if it misses, has its own LLC row for the same reference. */
  ghost predicate PairsAt(l1: BatchCacheLevelResult, llc: BatchCacheLevelResult, i: nat)
    requires Aligned(l1) && Aligned(llc) && i < |l1.accesses|
  {
    l1.accesses[i].outcome != Hit ==>
      && MissCount(l1.accesses[..i]) < |llc.mappings|
      && SameReference(l1.mappings[i], llc.mappings[MissCount(l1.accesses[..i])])
  }

  /** The LLC rows pair off with the L1 misses, in order and without remainder. */
  ghost predicate Pairs(l1: BatchCacheLevelResult, llc: BatchCacheLevelResult)
    requires Aligned(l1) && Aligned(llc)
  {
    && MissCount(l1.accesses) == |llc.accesses|
    && forall i :: 0 <= i < |l1.accesses| ==> PairsAt(l1, llc, i)
  }

  /** The event the zip builds at row `i`. */
  ghost function ZipAt(l1: BatchCacheLevelResult, llc: BatchCacheLevelResult, i: nat): (e: HierarchyAccessEvent)
    requires Aligned(l1) && Aligned(llc) && i < |l1.accesses| && PairsAt(l1, llc, i)
  {
    if l1.accesses[i].outcome == Hit then HierarchyAccessEvent(l1.mappings[i], l1.accesses[i], None, None, L1)
    else
      var j := MissCount(l1.accesses[..i]);
      HierarchyAccessEvent(l1.mappings[i], l1.accesses[i], Some(llc.mappings[j]), Some(llc.accesses[j]),
                           if llc.accesses[j].outcome == Hit then LLC else Memory)
  }

  ghost function ZipEvents(l1: BatchCacheLevelResult, llc: BatchCacheLevelResult): (e: seq<HierarchyAccessEvent>)
    requires Aligned(l1) && Aligned(llc) && Pairs(l1, llc)
    ensures |e| == |l1.accesses|
  {
    seq(|l1.accesses|, i requires 0 <= i < |l1.accesses| && PairsAt(l1, llc, i) => ZipAt(l1, llc, i))
  }

  /** The summary the zip finalizes when every row pairs. */
  ghost function ZipSummary(id: string, coverage: TraceCoverage, l1: BatchCacheLevelResult, llc: BatchCacheLevelResult):
    (s: TaskHierarchySummary)
  {
    TaskHierarchySummary(id, coverage.sourceAccesses, l1.summary.lookups, l1.summary, llc.summary,
                         |l1.accesses| - MissCount(l1.accesses), |llc.accesses| - MissCount(llc.accesses),
                         MissCount(llc.accesses), coverage, NONE_PASSED)
  }

  /** The state of the zip before row `index`. */
  datatype ZipState = ZipState(events: seq<HierarchyAccessEvent>, llcIndex: nat, l1Hits: nat, llcHits: nat, misses: nat)

  ghost predicate Zipping(l1: BatchCacheLevelResult, llc: BatchCacheLevelResult, index: nat, z: ZipState)
    requires Aligned(l1) && Aligned(llc)
  {
    && index <= |l1.accesses| && |z.events| == index
    && z.llcIndex == MissCount(l1.accesses[..index]) <= |llc.accesses|
    && z.l1Hits == index - z.llcIndex
    && z.misses == MissCount(llc.accesses[..z.llcIndex]) && z.llcHits == z.llcIndex - z.misses
    && forall i :: 0 <= i < index ==> PairsAt(l1, llc, i) && z.events[i] == ZipAt(l1, llc, i)
  }

  /** Pair one L1 row with the next LLC row when it misses. */
  method ZipRow(l1: BatchCacheLevelResult, llc: BatchCacheLevelResult, index: nat, z: ZipState)
    returns (r: Result<ZipState, BatchHierarchyError>)
    requires Aligned(l1) && Aligned(llc) && index < |l1.accesses| && Zipping(l1, llc, index, z)
    ensures r.Ok? ==> Zipping(l1, llc, index + 1, r.value)
    ensures r.Err? ==> !PairsAt(l1, llc, index) || |l1.accesses| > U64_MAX || |llc.accesses| > U64_MAX
  {
    MissCountNext(l1.accesses, index);
    var first := l1.accesses[index];
    if first.outcome == Hit {
      var hits := CheckedAdd(z.l1Hits, 1, U64_MAX);
      if hits.None? {
        return Err(CountOverflow);
      }
      var event := HierarchyAccessEvent(l1.mappings[index], first, None, None, L1);
      return Ok(z.(events := z.events + [event], l1Hits := hits.value));
    }
    if z.llcIndex == |llc.accesses| {
      return Err(MissingLlcRow);
    }
    if !SameReference(l1.mappings[index], llc.mappings[z.llcIndex]) {
      return Err(PairedRowsDisagree);
    }
    MissCountNext(llc.accesses, z.llcIndex);
    var second := llc.accesses[z.llcIndex];
    var service := if second.outcome == Hit then LLC else Memory;
    var event := HierarchyAccessEvent(l1.mappings[index], first, Some(llc.mappings[z.llcIndex]), Some(second), service);
    var count := CheckedAdd(if second.outcome == Hit then z.llcHits else z.misses, 1, U64_MAX);
    if count.None? {
      return Err(CountOverflow);
    }
    var next := z.(events := z.events + [event], llcIndex := z.llcIndex + 1);
    r := Ok(if second.outcome == Hit then next.(llcHits := count.value) else next.(misses := count.value));
  }

  /** Zip both levels and finalize; fails exactly when the rows do not pair or the totals do not conserve. */
  method AggregateHierarchyTask(id: string, coverage: TraceCoverage, l1: BatchCacheLevelResult,
                                llc: BatchCacheLevelResult)
    returns (r: Result<BatchTaskResult, BatchHierarchyError>)
    ensures r.Ok? <==>
              && Aligned(l1) && Aligned(llc) && Pairs(l1, llc)
              && var s := ZipSummary(id, coverage, l1, llc);
              SumsFit(s) && Conserved(s) && Covered(s)
    ensures r.Ok? ==>
              r.value == BatchTaskResult(ZipSummary(id, coverage, l1, llc).(invariants := ALL_PASSED),
                  ZipEvents(l1, llc))
  {
    if !(|l1.accesses| == |l1.mappings| && |l1.mappings| == l1.summary.lookups) {
      return Err(L1SizesDisagree);
    }
    if !(|llc.accesses| == |llc.mappings| && |llc.mappings| == llc.summary.lookups) {
      return Err(LlcSizesDisagree);
    }
    var zipped := ZipAll(l1, llc);
    if zipped.Err? {
      return Err(zipped.error);
    }
    var z := zipped.value;
    var summary := TaskHierarchySummary(id, coverage.sourceAccesses, l1.summary.lookups, l1.summary, llc.summary,
                                        z.l1Hits, z.llcHits, z.misses, coverage, NONE_PASSED);
    var final := FinalizeHierarchyService(summary);
    if final.Err? {
      return Err(Finalization(final.error));
    }
    r := Ok(BatchTaskResult(final.value, z.events));
  }

  /** The zip loop with its leftover check. */
  method ZipAll(l1: BatchCacheLevelResult, llc: BatchCacheLevelResult)
    returns (r: Result<ZipState, BatchHierarchyError>)
    requires Aligned(l1) && Aligned(llc)
    ensures r.Ok? ==> Pairs(l1, llc) && r.value.events == ZipEvents(l1, llc)
    ensures r.Ok? ==> r.value.l1Hits == |l1.accesses| - MissCount(l1.accesses)
                      && r.value.llcHits == |llc.accesses| - MissCount(llc.accesses)
                      && r.value.misses == MissCount(llc.accesses)
    ensures r.Err? ==> !Pairs(l1, llc) || |l1.accesses| > U64_MAX || |llc.accesses| > U64_MAX
  {
    hide PairsAt, ZipAt, SameReference;
    var z := ZipState([], 0, 0, 0, 0);
    for index := 0 to |l1.accesses|
      invariant Zipping(l1, llc, index, z)
    {
      r := ZipRow(l1, llc, index, z);
      if r.Err? {
        return;
      }
      z := r.value;
    }
    assert l1.accesses[..|l1.accesses|] == l1.accesses;
    if z.llcIndex != |llc.accesses| {
      return Err(LeftoverLlcRows);
    }
    assert llc.accesses[..|llc.accesses|] == llc.accesses;
    r := Ok(z);
  }

  // ----- the zip of the staged levels is the interleaved run

  ghost function LevelResult(rows: seq<CacheLineMapping>, g: CacheGeometry): (r: BatchCacheLevelResult)
    requires ValidGeometry(g)
    ensures Aligned(r)
  {
    BatchCacheLevelResult(LevelOf(rows, g), rows, LevelObservations(rows, g))
  }

  /** A missed row is found in the miss stream at the number of misses before it. */
  lemma {:induction false} MissedAt<T>(rows: seq<T>, obs: seq<Observation>, i: nat)
    requires |rows| == |obs| && i < |rows|
    ensures |Missed(rows, obs)| == MissCount(obs)
    ensures obs[i].outcome != Hit ==>
              && MissCount(obs[..i]) < |Missed(rows, obs)|
              && Missed(rows, obs)[MissCount(obs[..i])] == rows[i]
              && Missed(rows, obs)[..MissCount(obs[..i])] == Missed(rows[..i], obs[..i])
  {
    var n := |rows| - 1;
    MissedLength(rows[..n], obs[..n]);
    if i < n {
      MissedAt(rows[..n], obs[..n], i);
      assert obs[..n][..i] == obs[..i] && rows[..n][..i] == rows[..i];
    }
  }

  lemma {:induction false} MissedLength<T>(rows: seq<T>, obs: seq<Observation>)
    requires |rows| == |obs|
    ensures |Missed(rows, obs)| == MissCount(obs)
  {
    if |rows| > 0 {
      MissedLength(rows[..|rows| - 1], obs[..|rows| - 1]);
    }
  }

  lemma ObservationsPrefix(rows: seq<CacheLineMapping>, g: CacheGeometry, i: nat)
    requires ValidGeometry(g) && i < |rows|
    ensures LevelObservations(rows, g)[..i] == LevelObservations(rows[..i], g)
    ensures LevelObservations(rows, g)[i] == ObserveRow(rows[..i], rows[i], g)
  {
    hide ObserveNext, ValidGeometry;
    assert BlocksOfRows(rows)[..i] == BlocksOfRows(rows[..i]);
    assert forall j :: 0 <= j < i ==> BlocksOfRows(rows)[..j] == BlocksOfRows(rows[..i])[..j];
  }

  /** At every row, the staged levels pair up and the zip builds the interleaved event. */
  lemma ZipRowIsEvent(rows: seq<CacheLineMapping>, h: AnalysisHierarchy, i: nat)
    requires ValidHierarchy(h) && i < |rows|
    ensures PairsAt(LevelResult(rows, h.l1), LevelResult(LlcRows(rows, h), h.llc), i)
    ensures ZipAt(LevelResult(rows, h.l1), LevelResult(LlcRows(rows, h), h.llc), i) == EventNext(rows[..i], rows[i], h)
  {
    hide LevelObservations, ObserveRow, ValidGeometry, Decode, LevelOf;
    var obs, llcRows := LevelObservations(rows, h.l1), LlcRows(rows, h);
    ObservationsPrefix(rows, h.l1, i);
    MissedAt(rows, obs, i);
    if obs[i].outcome != Hit {
      var j := MissCount(obs[..i]);
      assert llcRows[j] == Remapped(rows[i], h.llc);
      assert llcRows[..j] == LlcRows(rows[..i], h);
      ObservationsPrefix(llcRows, h.llc, j);
    }
  }

  /**
   * The staged levels always zip: no row is missing, mismatched or left over, and the events are the interleaved
   * ones.
   */
  lemma ZipIsStreaming(rows: seq<CacheLineMapping>, h: AnalysisHierarchy)
    requires ValidHierarchy(h)
    ensures Pairs(LevelResult(rows, h.l1), LevelResult(LlcRows(rows, h), h.llc))
    ensures ZipEvents(LevelResult(rows, h.l1), LevelResult(LlcRows(rows, h), h.llc)) == Events(rows, h)
  {
    hide LevelObservations, ValidGeometry, LevelOf, PairsAt, ZipAt, EventNext, Events;
    var l1, llc := LevelResult(rows, h.l1), LevelResult(LlcRows(rows, h), h.llc);
    MissedLength(rows, LevelObservations(rows, h.l1));
    forall i | 0 <= i < |rows|
      ensures PairsAt(l1, llc, i) && ZipAt(l1, llc, i) == Events(rows, h)[i]
    {
      ZipRowIsEvent(rows, h, i);
      EventAt(rows, h, i);
    }
  }

  /** The zip's counters are those of the interleaved run. */
  lemma ZipSummaryIsTask(id: string, sources: nat, rows: seq<CacheLineMapping>, h: AnalysisHierarchy)
    requires ValidHierarchy(h)
    ensures ZipSummary(id, TraceCoverage(sources, sources, 0, |rows|), LevelResult(rows, h.l1),
                       LevelResult(LlcRows(rows, h), h.llc)).(invariants := ALL_PASSED)
            == TaskSummaryOf(id, sources, rows, h)
  {
    hide LevelObservations, ValidGeometry, LlcRows, LevelCounts;
    MissesAreCounted(rows, h.l1);
    MissesAreCounted(LlcRows(rows, h), h.llc);
    MissedLength(rows, LevelObservations(rows, h.l1));
    MissedLength(LlcRows(rows, h), LevelObservations(LlcRows(rows, h), h.llc));
    ServiceConservation(rows, h);
  }

  // ----- one task

  lemma RemappedIsDecoded(rows: seq<CacheLineMapping>, llc: CacheGeometry)
    requires ValidGeometry(llc)
    ensures DecodedWith(RemappedAll(rows, llc), llc)
  {
  }

  /** Both levels, staged, over rows decoded with the L1 geometry. */
  method AnalyzeMappedTask(id: string, sources: nat, rows: seq<CacheLineMapping>, h: AnalysisHierarchy)
    returns (r: Result<BatchTaskResult, BatchHierarchyError>)
    requires ValidHierarchy(h) && DecodedWith(rows, h.l1)
    ensures r.Ok? <==> |rows| <= U64_MAX
    ensures r.Ok? ==> r.value == BatchTaskResult(TaskSummaryOf(id, sources, rows, h), Events(rows, h))
  {
    hide LevelObservations, ValidGeometry, LevelOf, DecodedWith, Events, Pairs, Missed, RemappedAll;
    var l1 := AnalyzeHierarchyLevel(rows, h.l1);
    if l1.Err? {
      return Err(l1.error);
    }
    var missRows := FilterMisses(l1.value, h.llc);
    assert missRows == LlcRows(rows, h);
    RemappedIsDecoded(Missed(rows, LevelObservations(rows, h.l1)), h.llc);
    LlcRowsShort(rows, h);
    var llc := AnalyzeHierarchyLevel(missRows, h.llc);
    ZipIsStreaming(rows, h);
    ZipSummaryIsTask(id, sources, rows, h);
    StreamsPass(id, sources, rows, h);
    r := AggregateHierarchyTask(id, TraceCoverage(sources, sources, 0, |rows|), l1.value, llc.value);
  }
}
