/** Two cache levels on one stream of line references: what every reference observes and what a task reports. */
module HierarchyModel {
  import opened Machine
  import opened LruStack
  import opened CacheAddress
  import opened CacheLevel
  import opened LineMapping
  import opened LevelSummary

  datatype AnalysisHierarchy = AnalysisHierarchy(l1: CacheGeometry, llc: CacheGeometry)

  datatype FirstService = L1 | LLC | Memory

  /** What the levels saw of one reference; the LLC is consulted only when L1 misses. */
  datatype HierarchyAccessEvent = HierarchyAccessEvent(
    l1Mapping: CacheLineMapping, l1: Observation,
    llcMapping: Option<CacheLineMapping>, llc: Option<Observation>, firstService: FirstService)

  datatype TraceCoverage = TraceCoverage(
    sourceAccesses: nat, resolvedAccesses: nat, rejectedAccesses: nat, emittedLineReferences: nat)
  {
    predicate Complete() {
      rejectedAccesses == 0 && sourceAccesses == resolvedAccesses
    }
  }

  datatype HierarchyInvariants = HierarchyInvariants(
    levelConservationL1: bool, levelConservationLlc: bool, llcInputMatchesL1Misses: bool,
    firstServiceConservation: bool, allPassed: bool)

  const ALL_PASSED: HierarchyInvariants := HierarchyInvariants(true, true, true, true, true)
  const NONE_PASSED: HierarchyInvariants := HierarchyInvariants(false, false, false, false, false)

  datatype TaskHierarchySummary = TaskHierarchySummary(
    taskId: string, sourceAccesses: nat, modeledAccesses: nat, l1: CacheLevelSummary, llc: CacheLevelSummary,
    l1FirstHits: nat, llcFirstHits: nat, allCacheMisses: nat, coverage: TraceCoverage,
    invariants: HierarchyInvariants)

  /** Both geometries describe caches with the same line size. */
  predicate ValidHierarchy(h: AnalysisHierarchy) {
    ValidGeometry(h.l1) && ValidGeometry(h.llc) && h.l1.lineSize == h.llc.lineSize
  }

  // ----- one level over mapped rows

  function BlocksOfRows(rows: seq<CacheLineMapping>): (b: seq<nat>)
    ensures |b| == |rows|
  {
    seq(|rows|, i requires 0 <= i < |rows| => rows[i].decoded.block)
  }

  lemma BlocksOfRowsExtend(rows: seq<CacheLineMapping>, row: CacheLineMapping)
    ensures BlocksOfRows(rows + [row]) == BlocksOfRows(rows) + [row.decoded.block]
  {
  }

  function LevelObservations(rows: seq<CacheLineMapping>, g: CacheGeometry): (obs: seq<Observation>)
    requires ValidGeometry(g)
    ensures |obs| == |rows|
  {
    Observations(BlocksOfRows(rows), SetCount(g), g.associativity)
  }

  /** What a level reports for `row` after `rows`. */
  function ObserveRow(rows: seq<CacheLineMapping>, row: CacheLineMapping, g: CacheGeometry): (o: Observation)
    requires ValidGeometry(g)
  {
    ObserveNext(BlocksOfRows(rows), row.decoded.block, SetCount(g), g.associativity)
  }

  lemma LevelObservationsExtend(rows: seq<CacheLineMapping>, row: CacheLineMapping, g: CacheGeometry)
    requires ValidGeometry(g)
    ensures LevelObservations(rows + [row], g) == LevelObservations(rows, g) + [ObserveRow(rows, row, g)]
  {
    BlocksOfRowsExtend(rows, row);
    ObservationsExtend(BlocksOfRows(rows), row.decoded.block, SetCount(g), g.associativity);
  }

  // ----- the miss stream

  /** The rows that did not hit. */
  function Missed<T>(rows: seq<T>, obs: seq<Observation>): (m: seq<T>)
    requires |rows| == |obs|
  {
    if |rows| == 0 then []
    else
      var n := |rows| - 1;
      Missed(rows[..n], obs[..n]) + if obs[n].outcome == Hit then [] else [rows[n]]
  }

  lemma MissedExtend<T>(rows: seq<T>, obs: seq<Observation>, row: T, o: Observation)
    requires |rows| == |obs|
    ensures Missed(rows + [row], obs + [o]) == Missed(rows, obs) + if o.outcome == Hit then [] else [row]
  {
    assert (rows + [row])[..|rows|] == rows && (obs + [o])[..|obs|] == obs;
  }

  lemma {:induction false} MissedShort<T>(rows: seq<T>, obs: seq<Observation>)
    requires |rows| == |obs|
    ensures |Missed(rows, obs)| <= |rows|
  {
    if |rows| > 0 {
      MissedShort(rows[..|rows| - 1], obs[..|rows| - 1]);
    }
  }

  /** The row as the LLC sees it: the same reference decoded with the LLC geometry. */
  function Remapped(row: CacheLineMapping, llc: CacheGeometry): CacheLineMapping
    requires ValidGeometry(llc)
  {
    row.(decoded := Decode(row.decoded.address, llc))
  }

  function RemappedAll(rows: seq<CacheLineMapping>, llc: CacheGeometry): (r: seq<CacheLineMapping>)
    requires ValidGeometry(llc)
    ensures |r| == |rows|
  {
    seq(|rows|, i requires 0 <= i < |rows| => Remapped(rows[i], llc))
  }

  /** The LLC's input: the L1 misses, remapped, in order. */
  function LlcRows(rows: seq<CacheLineMapping>, h: AnalysisHierarchy): (r: seq<CacheLineMapping>)
    requires ValidHierarchy(h)
  {
    RemappedAll(Missed(rows, LevelObservations(rows, h.l1)), h.llc)
  }

  lemma LlcRowsShort(rows: seq<CacheLineMapping>, h: AnalysisHierarchy)
    requires ValidHierarchy(h)
    ensures |LlcRows(rows, h)| <= |rows|
  {
    MissedShort(rows, LevelObservations(rows, h.l1));
  }

  lemma LlcRowsExtend(rows: seq<CacheLineMapping>, row: CacheLineMapping, h: AnalysisHierarchy)
    requires ValidHierarchy(h)
    ensures LlcRows(rows + [row], h)
            == LlcRows(rows, h) + if ObserveRow(rows, row, h.l1).outcome == Hit then [] else [Remapped(row, h.llc)]
  {
    hide LevelObservations, ObserveRow, Decode;
    LevelObservationsExtend(rows, row, h.l1);
    MissedExtend(rows, LevelObservations(rows, h.l1), row, ObserveRow(rows, row, h.l1));
  }

  // ----- events

  /** The event of one reference from its two observations. */
  function EventOf(row: CacheLineMapping, l1: Observation, llc: Observation, g: CacheGeometry): HierarchyAccessEvent
    requires ValidGeometry(g)
  {
    if l1.outcome == Hit then HierarchyAccessEvent(row, l1, None, None, L1)
    else HierarchyAccessEvent(row, l1, Some(Remapped(row, g)), Some(llc), if llc.outcome == Hit then LLC else Memory)
  }

  /** The event of `row` after `rows`, with both levels observed in step. */
  function EventNext(rows: seq<CacheLineMapping>, row: CacheLineMapping, h: AnalysisHierarchy): HierarchyAccessEvent
    requires ValidHierarchy(h)
  {
    EventOf(row, ObserveRow(rows, row, h.l1), ObserveRow(LlcRows(rows, h), Remapped(row, h.llc), h.llc), h.llc)
  }

  function Events(rows: seq<CacheLineMapping>, h: AnalysisHierarchy): (e: seq<HierarchyAccessEvent>)
    requires ValidHierarchy(h)
    ensures |e| == |rows|
  {
    if |rows| == 0 then []
    else Events(rows[..|rows| - 1], h) + [EventNext(rows[..|rows| - 1], rows[|rows| - 1], h)]
  }

  lemma EventsExtend(rows: seq<CacheLineMapping>, row: CacheLineMapping, h: AnalysisHierarchy)
    requires ValidHierarchy(h)
    ensures Events(rows + [row], h) == Events(rows, h) + [EventNext(rows, row, h)]
  {
    assert (rows + [row])[..|rows|] == rows;
  }

  lemma {:induction false} EventAt(rows: seq<CacheLineMapping>, h: AnalysisHierarchy, i: nat)
    requires ValidHierarchy(h) && i < |rows|
    ensures Events(rows, h)[i] == EventNext(rows[..i], rows[i], h)
  {
    hide EventNext;
    var n := |rows| - 1;
    if i < n {
      EventAt(rows[..n], h, i);
      assert rows[..n][..i] == rows[..i];
    }
  }

  /** A level's answer: the position of the block in the list stack of its set, a hit below the associativity. */
  ghost predicate ObservedAt(o: Observation, history: seq<nat>, block: nat, g: CacheGeometry)
    requires ValidGeometry(g)
  {
    var sets := SetCount(g);
    && o.distance == Distance(StackAfter(SetStream(history, sets, block % sets)), block)
    && (o.outcome == ColdMiss <==> o.distance.None?)
    && (o.outcome == Hit <==> o.distance.Some? && o.distance.value < g.associativity)
  }

  /**
   * What an event says: its row, what L1 observes of the row's block after the rows before it, and, exactly for
   * L1 misses, what the LLC observes of that block after the misses before it; the first level that hits
   * services the reference.
   */
  lemma EventMeaning(rows: seq<CacheLineMapping>, h: AnalysisHierarchy, i: nat)
    requires ValidHierarchy(h) && i < |rows|
    ensures var e, block := Events(rows, h)[i], rows[i].decoded.block;
            && e.l1Mapping == rows[i] && ObservedAt(e.l1, BlocksOfRows(rows[..i]), block, h.l1)
            && (e.llc.Some? <==> e.l1.outcome != Hit) && (e.llcMapping.Some? <==> e.l1.outcome != Hit)
            && (e.llc.Some? ==>
                  var m := e.llcMapping.value;
                  && m == rows[i].(decoded := m.decoded) && m.decoded == Decode(rows[i].decoded.address, h.llc)
                  && ObservedAt(e.llc.value, BlocksOfRows(LlcRows(rows[..i], h)), m.decoded.block, h.llc))
            && (e.firstService == L1 <==> e.l1.outcome == Hit)
            && (e.firstService == LLC <==> e.llc.Some? && e.llc.value.outcome == Hit)
  {
    hide LlcRows, StackAfter, SetStream, Decode, ValidGeometry;
    EventAt(rows, h, i);
  }

  // ----- summaries

  ghost function LevelOf(rows: seq<CacheLineMapping>, g: CacheGeometry): (s: CacheLevelSummary)
    requires ValidGeometry(g)
  {
    LevelSummaryOf(BlocksOfRows(rows), SetCount(g), g.associativity)
  }

  /** What a task over `rows` from `sources` accesses reports. */
  ghost function TaskSummaryOf(id: string, sources: nat, rows: seq<CacheLineMapping>, h: AnalysisHierarchy):
    (s: TaskHierarchySummary)
    requires ValidHierarchy(h)
  {
    var l1, llc := LevelOf(rows, h.l1), LevelOf(LlcRows(rows, h), h.llc);
    TaskHierarchySummary(id, sources, |rows|, l1, llc, l1.hits, llc.hits, llc.misses,
                         TraceCoverage(sources, sources, 0, |rows|), ALL_PASSED)
  }

  /** The rows that miss are exactly as many as the level's misses. */
  lemma {:induction false} MissesAreCounted(rows: seq<CacheLineMapping>, g: CacheGeometry)
    requires ValidGeometry(g)
    ensures LevelOf(rows, g).misses == |Missed(rows, LevelObservations(rows, g))|
  {
    if |rows| == 0 {
      TallyNothing(Observations([], SetCount(g), g.associativity));
      assert Rows(0) == {};
    } else {
      hide LevelCounts, ObserveRow, LevelObservations, Keys;
      var front, row := rows[..|rows| - 1], rows[|rows| - 1];
      assert rows == front + [row];
      MissesAreCounted(front, g);
      LevelExtend(front, row, g);
      LevelObservationsExtend(front, row, g);
      MissedExtend(front, LevelObservations(front, g), row, ObserveRow(front, row, g));
    }
  }

  lemma LevelExtend(rows: seq<CacheLineMapping>, row: CacheLineMapping, g: CacheGeometry)
    requires ValidGeometry(g)
    ensures var o, was, now := ObserveRow(rows, row, g), LevelOf(rows, g), LevelOf(rows + [row], g);
            && now.lookups == was.lookups + 1
            && now.hits == was.hits + (if o.outcome == Hit then 1 else 0)
            && now.misses == was.misses + (if o.outcome == Hit then 0 else 1)
  {
    hide LevelCounts, ObserveNext;
    BlocksOfRowsExtend(rows, row);
    LevelCountsExtend(BlocksOfRows(rows), row.decoded.block, SetCount(g), g.associativity);
  }

  /** Lookups split into hits and misses, and the LLC's lookups are the L1's misses. */
  lemma ServiceConservation(rows: seq<CacheLineMapping>, h: AnalysisHierarchy)
    requires ValidHierarchy(h)
    ensures LevelOf(rows, h.l1).hits + LevelOf(rows, h.l1).misses == |rows|
    ensures LevelOf(LlcRows(rows, h), h.llc).hits + LevelOf(LlcRows(rows, h), h.llc).misses == |LlcRows(rows, h)|
    ensures |LlcRows(rows, h)| == LevelOf(rows, h.l1).misses
  {
    LevelConserves(BlocksOfRows(rows), SetCount(h.l1), h.l1.associativity);
    LevelConserves(BlocksOfRows(LlcRows(rows, h)), SetCount(h.llc), h.llc.associativity);
    MissesAreCounted(rows, h.l1);
  }

  /** How many references a level serviced first. */
  function ServicedBy(events: seq<HierarchyAccessEvent>, level: FirstService): (n: nat) {
    if events == [] then 0
    else
      ServicedBy(events[..|events| - 1], level) + if events[|events| - 1].firstService == level then 1 else 0
  }

  lemma ServicedNext(events: seq<HierarchyAccessEvent>, e: HierarchyAccessEvent, level: FirstService)
    ensures ServicedBy(events + [e], level) == ServicedBy(events, level) + if e.firstService == level then 1 else 0
  {
    assert (events + [e])[..|events|] == events;
  }

  /** The hit and miss counters of the two levels count the events by the level that serviced them. */
  lemma {:induction false} CountersCountEvents(rows: seq<CacheLineMapping>, h: AnalysisHierarchy)
    requires ValidHierarchy(h)
    ensures LevelOf(rows, h.l1).lookups == |rows|
    ensures LevelOf(rows, h.l1).hits == ServicedBy(Events(rows, h), L1)
    ensures LevelOf(LlcRows(rows, h), h.llc).hits == ServicedBy(Events(rows, h), LLC)
    ensures LevelOf(LlcRows(rows, h), h.llc).misses == ServicedBy(Events(rows, h), Memory)
  {
    if |rows| == 0 {
      NoReferences(h.l1);
      NoReferences(h.llc);
      assert LlcRows([], h) == [];
    } else {
      hide LevelOf, ObserveRow, LlcRows, Remapped, Decode;
      var front, row := rows[..|rows| - 1], rows[|rows| - 1];
      assert rows == front + [row];
      CountersCountEvents(front, h);
      LevelExtend(front, row, h.l1);
      LlcRowsExtend(front, row, h);
      LevelExtend(LlcRows(front, h), Remapped(row, h.llc), h.llc);
      assert LlcRows(front, h) + [] == LlcRows(front, h);
      EventsExtend(front, row, h);
      ServicedNext(Events(front, h), EventNext(front, row, h), L1);
      ServicedNext(Events(front, h), EventNext(front, row, h), LLC);
      ServicedNext(Events(front, h), EventNext(front, row, h), Memory);
    }
  }

  lemma NoReferences(g: CacheGeometry)
    requires ValidGeometry(g)
    ensures LevelOf([], g).lookups == LevelOf([], g).hits == LevelOf([], g).misses == 0
  {
    assert BlocksOfRows([]) == [];
    TallyNothing(Observations([], SetCount(g), g.associativity));
    assert Rows(0) == {};
  }

  /** What a task reports: its identity and sizes, and the events counted by the level that serviced them. */
  lemma SummaryMeaning(id: string, sources: nat, rows: seq<CacheLineMapping>, h: AnalysisHierarchy)
    requires ValidHierarchy(h)
    ensures var s, events := TaskSummaryOf(id, sources, rows, h), Events(rows, h);
            && s.taskId == id && s.sourceAccesses == sources && s.modeledAccesses == |rows| == s.l1.lookups
            && s.coverage == TraceCoverage(sources, sources, 0, |rows|)
            && s.l1FirstHits == s.l1.hits == ServicedBy(events, L1)
            && s.llcFirstHits == s.llc.hits == ServicedBy(events, LLC)
            && s.allCacheMisses == s.llc.misses == ServicedBy(events, Memory)
            && s.llc.lookups == s.l1.misses == ServicedBy(events, LLC) + ServicedBy(events, Memory)
            && s.invariants == ALL_PASSED
  {
    hide LevelOf, Events, LlcRows, ValidGeometry;
    CountersCountEvents(rows, h);
    ServiceConservation(rows, h);
    LookupsAreRows(LlcRows(rows, h), h.llc);
  }

  lemma LookupsAreRows(rows: seq<CacheLineMapping>, g: CacheGeometry)
    requires ValidGeometry(g)
    ensures LevelOf(rows, g).lookups == |rows|
  {
    LevelConserves(BlocksOfRows(rows), SetCount(g), g.associativity);
  }

  /** Rows decoded with the L1 geometry. */
  ghost predicate DecodedWith(rows: seq<CacheLineMapping>, g: CacheGeometry)
    requires ValidGeometry(g)
  {
    forall i :: 0 <= i < |rows| ==> rows[i].decoded == Decode(rows[i].decoded.address, g)
  }

  /** Every first touch misses L1, so the LLC sees exactly the blocks that L1 sees. */
  lemma {:induction false} LlcSeesEveryBlock(rows: seq<CacheLineMapping>, h: AnalysisHierarchy)
    requires ValidHierarchy(h) && DecodedWith(rows, h.l1)
    ensures Keys(BlocksOfRows(LlcRows(rows, h))) == Keys(BlocksOfRows(rows))
  {
    if |rows| > 0 {
      hide LlcRows, ObserveNext;
      var front, row := rows[..|rows| - 1], rows[|rows| - 1];
      assert rows == front + [row];
      LlcSeesEveryBlock(front, h);
      LlcRowsExtend(front, row, h);
      BlocksOfRowsExtend(front, row);
      BlocksOfRowsExtend(LlcRows(front, h), Remapped(row, h.llc));
      ColdWhenNew(BlocksOfRows(front), row.decoded.block, SetCount(h.l1), h.l1.associativity);
      KeysAppend(BlocksOfRows(front), row.decoded.block);
      KeysAppend(BlocksOfRows(LlcRows(front, h)), row.decoded.block);
      assert LlcRows(front, h) + [] == LlcRows(front, h);
      assert row.decoded.block in BlocksOfRows(front) <==> row.decoded.block in Keys(BlocksOfRows(front));
    }
  }

  lemma KeysAppend<K>(s: seq<K>, k: K)
    ensures Keys(s + [k]) == Keys(s) + {k}
  {
  }
}
