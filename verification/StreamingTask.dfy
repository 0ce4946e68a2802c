/** The streaming hierarchy task: both levels advanced in step, one line reference at a time. */
module StreamingTask {
  import opened Machine
  import opened LruStack
  import opened CacheAddress
  import opened CacheLevel
  import opened Recency
  import opened ExactCsrd
  import opened LineMapping
  import opened LevelSummary
  import opened HierarchyModel
  import opened ServiceSummary

  datatype StreamError =
    | InvalidHierarchy | SinkRequired | OpaqueCallsExcluded
    | NotAbsolute | UnsupportedOperation | OrdinalsNotConsecutive
    | RangeRejected(range: MapError) | SourceBudgetExhausted | LineBudgetExhausted | ProvenanceDisagrees
    | AnalyzerFailed(csrd: CsrdError) | CounterOverflows | CoverageDisagreesWithSource
    | SummaryRejected(summary: SummaryError) | ServiceRejected(service: ServiceError)

  datatype Unit = Unit

  /** One delivered event with its task. */
  datatype EventRecord = EventRecord(taskId: string, event: HierarchyAccessEvent)

  /** How many source accesses and line references a module may emit. */
  datatype EmissionLimits = EmissionLimits(sources: nat, lines: nat)

  /** The emission limits that all tasks of a module share. */
  class EmissionBudget {
    const sourceLimit: nat
    const lineLimit: nat
    var sourceAccesses: nat
    var lineReferences: nat

    constructor (limits: EmissionLimits)
      ensures sourceLimit == limits.sources && lineLimit == limits.lines
      ensures sourceAccesses == 0 && lineReferences == 0
    {
      sourceLimit, lineLimit := limits.sources, limits.lines;
      sourceAccesses, lineReferences := 0, 0;
    }

    method ConsumeSourceAccess() returns (ok: bool)
      modifies this`sourceAccesses
      ensures ok <==> old(sourceAccesses) < sourceLimit
      ensures sourceAccesses == old(sourceAccesses) + if ok then 1 else 0
    {
      ok := sourceAccesses < sourceLimit;
      if ok {
        sourceAccesses := sourceAccesses + 1;
      }
    }

    method ConsumeLineReference() returns (ok: bool)
      modifies this`lineReferences
      ensures ok <==> old(lineReferences) < lineLimit
      ensures lineReferences == old(lineReferences) + if ok then 1 else 0
    {
      ok := lineReferences < lineLimit;
      if ok {
        lineReferences := lineReferences + 1;
      }
    }
  }

  /** The event sink of a module run with its limit; `log` is what the sink has received. */
  class EventDelivery {
    const enabled: bool
    const limit: nat
    var emitted: nat
    var truncated: bool
    var log: seq<EventRecord>

    /** Every event of the run so far, delivered or not. */
    ghost var offered: seq<EventRecord>

    /**
     * The sink holds the longest prefix within the limit, and truncation is flagged exactly when something is
     * missing.
     */
    ghost predicate Valid()
      reads this
    {
      && limit <= U64_MAX && emitted == |log|
      && if enabled then log == offered[..Min(limit, |offered|)] && (truncated <==> |offered| > limit)
         else log == [] && !truncated
    }

    constructor (enabled: bool, limit: nat)
      requires limit <= U64_MAX
      ensures Valid() && offered == [] && this.enabled == enabled && this.limit == limit
    {
      this.enabled, this.limit := enabled, limit;
      emitted, truncated, log, offered := 0, false, [], [];
    }

    /** The tail of `observe_line`: deliver the event unless there is no sink or the limit is reached. */
    method Offer(record: EventRecord)
      requires Valid()
      modifies this
      ensures Valid() && offered == old(offered) + [record]
    {
      offered := offered + [record];
      if !enabled {
        return;
      }
      if emitted == limit {
        truncated := true;
        return;
      }
      var next := CheckedAdd(emitted, 1, U64_MAX);
      assert next.Some?;
      log := log + [record];
      emitted := next.value;
    }
  }

  function Records(id: string, events: seq<HierarchyAccessEvent>): (r: seq<EventRecord>)
    ensures |r| == |events|
  {
    seq(|events|, i requires 0 <= i < |events| => EventRecord(id, events[i]))
  }

  lemma OfferedExtend(base: seq<EventRecord>, id: string, rows: seq<CacheLineMapping>, row: CacheLineMapping,
                      h: AnalysisHierarchy)
    requires ValidHierarchy(h)
    ensures base + Records(id, Events(rows + [row], h))
            == base + Records(id, Events(rows, h)) + [EventRecord(id, EventNext(rows, row, h))]
  {
    hide EventNext, Events;
    EventsExtend(rows, row, h);
  }

  lemma CursorEnds(a: ResolvedAccess, g: CacheGeometry, c: LineCursor)
    requires Mappable(a, g) && CursorAt(a, g, c) && c.remaining == 0
    ensures c.ordinal == LineCount(a, g)
    ensures Lines(a, g)[..c.ordinal] == Lines(a, g)
  {
  }

  /** The conditions on the `ordinal`-th source access of a task. */
  predicate Accepted(a: ResolvedAccess, ordinal: nat, g: CacheGeometry) {
    && a.addressBasis == Absolute && (a.operation == Load || a.operation == Store)
    && a.sourceAccessOrdinal == ordinal && Mappable(a, g)
  }

  /** How one more reference changes the counters of both levels. */
  lemma TaskStep(rows: seq<CacheLineMapping>, row: CacheLineMapping, h: AnalysisHierarchy)
    requires ValidHierarchy(h)
    ensures var o1, o2 := ObserveRow(rows, row, h.l1), ObserveRow(LlcRows(rows, h), Remapped(row, h.llc), h.llc);
            && LevelOf(rows + [row], h.l1).hits == LevelOf(rows, h.l1).hits + (if o1.outcome == Hit then 1 else 0)
            && LlcRows(rows + [row], h) == LlcRows(rows, h) + (if o1.outcome == Hit then [] else [Remapped(row, h.llc)])
            && LevelOf(LlcRows(rows + [row], h), h.llc).hits
               == LevelOf(LlcRows(rows, h), h.llc).hits + (if o1.outcome != Hit && o2.outcome == Hit then 1 else 0)
            && LevelOf(LlcRows(rows + [row], h), h.llc).misses
               == LevelOf(LlcRows(rows, h), h.llc).misses + (if o1.outcome != Hit && o2.outcome != Hit then 1 else 0)
  {
    hide LevelOf, LlcRows, ObserveRow, Remapped;
    LevelExtend(rows, row, h.l1);
    LlcRowsExtend(rows, row, h);
    LevelExtend(LlcRows(rows, h), Remapped(row, h.llc), h.llc);
    assert LlcRows(rows, h) + [] == LlcRows(rows, h);
  }

  class StreamingHierarchyTask {
    const id: string
    const hierarchy: AnalysisHierarchy
    const limits: StorageLimits
    const l1: ExactCsrdAnalyzer
    const llc: ExactCsrdAnalyzer
    var sourceAccesses: nat
    var modeledAccesses: nat
    var l1FirstHits: nat
    var llcFirstHits: nat
    var allCacheMisses: nat
    var nextSpanOrdinal: nat

    /** The line references observed so far, and the events offered before this task. */
    ghost var rows: seq<CacheLineMapping>
    ghost const base: seq<EventRecord>

    /** The two analyzers own separate indexes. */
    ghost predicate Separate()
      reads l1, llc
    {
      l1 != llc && l1.sets.Values !! llc.sets.Values
    }

    ghost predicate Levels(rows: seq<CacheLineMapping>)
      reads l1, l1.sets.Values, llc, llc.sets.Values
    {
      && ValidHierarchy(hierarchy) && Separate()
      && HasSeen(l1, hierarchy.l1, limits, rows)
      && HasSeen(llc, hierarchy.llc, limits, LlcRows(rows, hierarchy))
    }

    ghost predicate Counters(rows: seq<CacheLineMapping>)
      requires ValidHierarchy(hierarchy)
      reads this`modeledAccesses, this`l1FirstHits, this`llcFirstHits, this`allCacheMisses
    {
      && modeledAccesses == |rows| <= U64_MAX
      && l1FirstHits == LevelOf(rows, hierarchy.l1).hits
      && llcFirstHits == LevelOf(LlcRows(rows, hierarchy), hierarchy.llc).hits
      && allCacheMisses == LevelOf(LlcRows(rows, hierarchy), hierarchy.llc).misses
    }

    ghost predicate Valid()
      ensures Valid() ==> ValidHierarchy(hierarchy)
      reads this`rows, this`modeledAccesses, this`l1FirstHits, this`llcFirstHits, this`allCacheMisses
      reads l1, l1.sets.Values, llc, llc.sets.Values
    {
      Levels(rows) && Counters(rows)
    }

    /** The task has offered one event per observed row, in order. */
    ghost predicate Offered(delivery: EventDelivery)
      requires ValidHierarchy(hierarchy)
      reads this`rows, delivery
    {
      delivery.Valid() && delivery.offered == base + Records(id, Events(rows, hierarchy))
    }

    constructor (id: string, hierarchy: AnalysisHierarchy, limits: StorageLimits, delivery: EventDelivery)
      requires ValidHierarchy(hierarchy) && delivery.Valid()
      ensures Valid() && rows == [] && sourceAccesses == 0 && nextSpanOrdinal == 0 && Offered(delivery)
      ensures base == delivery.offered
      ensures this.id == id && this.hierarchy == hierarchy && this.limits == limits
      ensures fresh(l1) && fresh(llc) && l1.sets == map[] && llc.sets == map[]
    {
      this.id, this.hierarchy, this.limits := id, hierarchy, limits;
      l1 := new ExactCsrdAnalyzer(hierarchy.l1, limits);
      llc := new ExactCsrdAnalyzer(hierarchy.llc, limits);
      sourceAccesses, modeledAccesses, nextSpanOrdinal := 0, 0, 0;
      l1FirstHits, llcFirstHits, allCacheMisses := 0, 0, 0;
      rows, base := [], delivery.offered;
      new;
      ServiceConservation([], hierarchy);
    }

    /** Observe one row at L1 and, when it misses, at the LLC. */
    method ObserveLevels(row: CacheLineMapping)
      returns (r: Result<(Observation, Option<Observation>), StreamError>)
      requires Levels(rows)
      modifies l1, l1.sets.Values, llc, llc.sets.Values
      ensures fresh(l1.sets.Values - old(l1.sets.Values)) && fresh(llc.sets.Values - old(llc.sets.Values))
      ensures r != Err(ProvenanceDisagrees)
      ensures row.decoded == Decode(row.decoded.address, hierarchy.l1) && Roomy(limits, |rows| + 1) ==> r.Ok?
      ensures r.Ok? ==> Levels(rows + [row]) && |rows| < U64_MAX
      ensures r.Ok? ==> r.value.0 == ObserveRow(rows, row, hierarchy.l1)
      ensures r.Ok? ==>
                r.value.1 == if r.value.0.outcome == Hit then None
                             else Some(ObserveRow(LlcRows(rows, hierarchy), Remapped(row, hierarchy.llc),
                                 hierarchy.llc))
    {
      hide LlcRows, BlocksOfRows, ObserveNext, ValidGeometry, HasSeen, Decode;
      LlcRowsExtend(rows, row, hierarchy);
      LlcRowsShort(rows, hierarchy);
      var first := ObserveAt(l1, hierarchy.l1, limits, rows, row);
      if first.Err? {
        return Err(first.error);
      }
      if first.value.outcome == Hit {
        assert LlcRows(rows, hierarchy) + [] == LlcRows(rows, hierarchy);
        return Ok((first.value, None));
      }
      var second := ObserveAt(llc, hierarchy.llc, limits, LlcRows(rows, hierarchy), Remapped(row, hierarchy.llc));
      if second.Err? {
        return Err(second.error);
      }
      r := Ok((first.value, Some(second.value)));
    }

    /** Check a source access and observe every line it touches. */
    method Accept(access: ResolvedAccess, delivery: EventDelivery, budget: EmissionBudget)
      returns (r: Result<Unit, StreamError>)
      requires Valid() && Offered(delivery)
      modifies this, l1, l1.sets.Values, llc, llc.sets.Values, delivery, budget`lineReferences
      ensures fresh(l1.sets.Values - old(l1.sets.Values)) && fresh(llc.sets.Values - old(llc.sets.Values))
      ensures r.Ok? ==> Accepted(access, old(sourceAccesses), hierarchy.l1)
      ensures access.addressBasis != Absolute ==> r == Err(NotAbsolute)
      ensures access.addressBasis == Absolute && access.operation !in {Load, Store} ==> r == Err(UnsupportedOperation)
      ensures access.addressBasis == Absolute && access.operation in {Load, Store} ==>
                access.sourceAccessOrdinal != old(sourceAccesses) ==> r == Err(OrdinalsNotConsecutive)
      ensures r.Ok? ==> Valid() && Offered(delivery) && rows == old(rows) + Lines(access, hierarchy.l1)
      ensures r.Ok? ==> sourceAccesses == old(sourceAccesses) + 1
      ensures r.Ok? ==> budget.lineReferences == old(budget.lineReferences) + LineCount(access, hierarchy.l1)
      ensures old(budget.lineReferences) <= budget.lineLimit ==> budget.lineReferences <= budget.lineLimit
      ensures Accepted(access, old(sourceAccesses), hierarchy.l1) && old(sourceAccesses) < U64_MAX ==>
                old(budget.lineReferences) + LineCount(access, hierarchy.l1) <= budget.lineLimit ==>
                  Roomy(limits, |old(rows)| + LineCount(access, hierarchy.l1)) ==> r.Ok?
    {
      hide Valid, Offered, ValidGeometry, Lines, LineCount, Roomy, RangeError;
      if access.addressBasis != Absolute {
        return Err(NotAbsolute);
      }
      if access.operation != Load && access.operation != Store {
        return Err(UnsupportedOperation);
      }
      if access.sourceAccessOrdinal != sourceAccesses {
        return Err(OrdinalsNotConsecutive);
      }
      var sources := CheckedAdd(sourceAccesses, 1, U64_MAX);
      if sources.None? {
        return Err(CounterOverflows);
      }
      sourceAccesses := sources.value;
      nextSpanOrdinal := 0;
      r := DeliverLines(access, delivery, budget);
    }

    /** Charge and observe each touched line in increasing address order. */
    method DeliverLines(access: ResolvedAccess, delivery: EventDelivery, budget: EmissionBudget)
      returns (r: Result<Unit, StreamError>)
      requires Valid() && Offered(delivery)
      requires access.sourceAccessOrdinal == sourceAccesses - 1 && nextSpanOrdinal == 0
      modifies this, l1, l1.sets.Values, llc, llc.sets.Values, delivery, budget`lineReferences
      ensures fresh(l1.sets.Values - old(l1.sets.Values)) && fresh(llc.sets.Values - old(llc.sets.Values))
      ensures r.Ok? ==> Mappable(access, hierarchy.l1)
      ensures r.Ok? ==> Valid() && Offered(delivery) && rows == old(rows) + Lines(access, hierarchy.l1)
      ensures r.Ok? ==> sourceAccesses == old(sourceAccesses)
      ensures r.Ok? ==> budget.lineReferences == old(budget.lineReferences) + LineCount(access, hierarchy.l1)
      ensures old(budget.lineReferences) <= budget.lineLimit ==> budget.lineReferences <= budget.lineLimit
      ensures Mappable(access, hierarchy.l1) ==>
                old(budget.lineReferences) + LineCount(access, hierarchy.l1) <= budget.lineLimit ==>
                  Roomy(limits, |old(rows)| + LineCount(access, hierarchy.l1)) ==> r.Ok?
    {
      hide Valid, Offered, ValidGeometry, Lines, LineCount, RangeError, CursorAt, Advanced, MappingAt;
      var error := RangeError(access, hierarchy.l1);
      if error.Some? {
        return Err(RangeRejected(error.value));
      }
      ghost var g, all := hierarchy.l1, Lines(access, hierarchy.l1);
      var c := StartCursor(access);
      CursorStarts(access, g);
      while c.remaining != 0
        invariant Valid() && Offered(delivery) && CursorAt(access, g, c)
        invariant fresh(l1.sets.Values - old(l1.sets.Values)) && fresh(llc.sets.Values - old(llc.sets.Values))
        invariant sourceAccesses == old(sourceAccesses) && nextSpanOrdinal == c.ordinal <= |all|
        invariant rows == old(rows) + all[..c.ordinal]
        invariant budget.lineReferences == old(budget.lineReferences) + c.ordinal
        invariant old(budget.lineReferences) <= budget.lineLimit ==> budget.lineReferences <= budget.lineLimit
        decreases c.remaining
      {
        CursorSteps(access, g, c);
        var ok := budget.ConsumeLineReference();
        if !ok {
          return Err(LineBudgetExhausted);
        }
        var step := ObserveNextLine(MappingAt(access, hierarchy.l1, c.address, c.objectOffset, c.ordinal), delivery);
        if step.Err? {
          return step;
        }
        c := Advanced(c, hierarchy.l1);
      }
      CursorEnds(access, g, c);
      r := Ok(Unit);
    }

    /** `observe_line` as a step of the task's event stream. */
    method ObserveNextLine(mapping: CacheLineMapping, delivery: EventDelivery) returns (r: Result<Unit, StreamError>)
      requires Valid() && Offered(delivery) && InOrder(mapping)
      modifies this, l1, l1.sets.Values, llc, llc.sets.Values, delivery
      ensures fresh(l1.sets.Values - old(l1.sets.Values)) && fresh(llc.sets.Values - old(llc.sets.Values))
      ensures mapping.decoded == Decode(mapping.decoded.address, hierarchy.l1)
              && old(nextSpanOrdinal) <= |old(rows)| ==>
                Roomy(limits, |old(rows)| + 1) ==> r.Ok?
      ensures r.Ok? ==> Valid() && Offered(delivery) && rows == old(rows) + [mapping]
      ensures r.Ok? ==> sourceAccesses == old(sourceAccesses) && nextSpanOrdinal == old(nextSpanOrdinal) + 1
    {
      r := ObserveLine(mapping, delivery);
      OfferedExtend(base, id, old(rows), mapping, hierarchy);
    }

    /** Check the producer's coverage and convert both levels' counters. */
    method Finish(coverage: TraceCoverage) returns (r: Result<TaskHierarchySummary, StreamError>)
      requires Valid()
      ensures r.Ok? <==> coverage == TraceCoverage(sourceAccesses, sourceAccesses, 0, 0)
      ensures r.Ok? ==> r.value == TaskSummaryOf(id, sourceAccesses, rows, hierarchy)
    {
      hide Conserves, LevelCounts, LlcRows, ExactCsrdAnalyzer.Tracks, ValidGeometry, BlocksOfRows, Keys;
      if !coverage.Complete() || coverage.sourceAccesses != sourceAccesses || coverage.emittedLineReferences != 0 {
        return Err(CoverageDisagreesWithSource);
      }
      StreamsPass(id, sourceAccesses, rows, hierarchy);
      StreamsConserve(BlocksOfRows(rows), SetCount(hierarchy.l1), hierarchy.l1.associativity);
      LlcRowsShort(rows, hierarchy);
      StreamsConserve(BlocksOfRows(LlcRows(rows, hierarchy)), SetCount(hierarchy.llc), hierarchy.llc.associativity);
      var first := SummarizeStreamingLevel(l1.summary);
      var second := SummarizeStreamingLevel(llc.summary);
      var summary := TaskHierarchySummary(id, sourceAccesses, modeledAccesses, first.value, second.value, l1FirstHits,
                                          llcFirstHits, allCacheMisses,
                                          coverage.(emittedLineReferences := modeledAccesses), NONE_PASSED);
      var final := FinalizeHierarchyService(summary);
      r := Ok(final.value);
    }

    /** The row is the next span row of the current source access. */
    predicate InOrder(mapping: CacheLineMapping)
      reads this`sourceAccesses, this`nextSpanOrdinal
    {
      mapping.sourceAccessOrdinal == sourceAccesses - 1 && mapping.lineSpanOrdinal == nextSpanOrdinal
    }

    /** Observe one line reference, count its first service and offer its event. */
    method ObserveLine(mapping: CacheLineMapping, delivery: EventDelivery) returns (r: Result<Unit, StreamError>)
      requires Valid() && delivery.Valid()
      modifies this, l1, l1.sets.Values, llc, llc.sets.Values, delivery
      ensures delivery.Valid()
      ensures fresh(l1.sets.Values - old(l1.sets.Values)) && fresh(llc.sets.Values - old(llc.sets.Values))
      ensures r == Err(ProvenanceDisagrees) <==> !old(InOrder(mapping))
      ensures old(InOrder(mapping)) && old(nextSpanOrdinal) < U64_MAX ==>
                mapping.decoded == Decode(mapping.decoded.address, hierarchy.l1) ==>
                  Roomy(limits, |old(rows)| + 1) ==> r.Ok?
      ensures r.Ok? ==> Valid() && rows == old(rows) + [mapping]
      ensures r.Ok? ==> sourceAccesses == old(sourceAccesses) && nextSpanOrdinal == old(nextSpanOrdinal) + 1
      ensures r.Ok? ==> delivery.offered
                        == old(delivery.offered) + [EventRecord(id, EventNext(old(rows), mapping, hierarchy))]
    {
      hide Valid, EventNext, Decode, Roomy;
      if !InOrder(mapping) {
        return Err(ProvenanceDisagrees);
      }
      var span := CheckedAdd(nextSpanOrdinal, 1, U64_MAX);
      if span.None? {
        return Err(CounterOverflows);
      }
      nextSpanOrdinal := span.value;
      r := ServeLine(mapping, delivery);
    }

    /** The part of `observe_line` after the provenance check. */
    method ServeLine(mapping: CacheLineMapping, delivery: EventDelivery) returns (r: Result<Unit, StreamError>)
      requires Valid() && delivery.Valid()
      modifies this`l1FirstHits, this`llcFirstHits, this`allCacheMisses, this`modeledAccesses, this`rows
      modifies l1, l1.sets.Values, llc, llc.sets.Values, delivery
      ensures delivery.Valid()
      ensures fresh(l1.sets.Values - old(l1.sets.Values)) && fresh(llc.sets.Values - old(llc.sets.Values))
      ensures r != Err(ProvenanceDisagrees)
      ensures mapping.decoded == Decode(mapping.decoded.address, hierarchy.l1) && Roomy(limits, |old(rows)| + 1) ==>
              r.Ok?
      ensures r.Ok? ==> Valid() && rows == old(rows) + [mapping]
      ensures r.Ok? ==> delivery.offered
                        == old(delivery.offered) + [EventRecord(id, EventNext(old(rows), mapping, hierarchy))]
    {
      hide HasSeen, Counters, ObserveRow, LlcRows, Decode, ValidGeometry;
      var observed := ObserveLevels(mapping);
      if observed.Err? {
        return Err(observed.error);
      }
      CountService(mapping, observed.value.0, observed.value.1);
      delivery.Offer(EventRecord(id, EventOfObserved(mapping, observed.value.0, observed.value.1, hierarchy.llc)));
      r := Ok(Unit);
    }

    /** Count the first level that services the reference; no counter can overflow before the lookups do. */
    method CountService(mapping: CacheLineMapping, first: Observation, second: Option<Observation>)
      requires ValidHierarchy(hierarchy) && Counters(rows) && |rows| < U64_MAX
      requires first == ObserveRow(rows, mapping, hierarchy.l1)
      requires second == if first.outcome == Hit then None
                         else Some(ObserveRow(LlcRows(rows, hierarchy), Remapped(mapping, hierarchy.llc),
                             hierarchy.llc))
      modifies this`l1FirstHits, this`llcFirstHits, this`allCacheMisses, this`modeledAccesses, this`rows
      ensures rows == old(rows) + [mapping] && Counters(rows)
    {
      hide LevelOf, LlcRows, ObserveRow, Remapped;
      TaskStep(rows, mapping, hierarchy);
      ServiceConservation(rows, hierarchy);
      if first.outcome == Hit {
        var next := CheckedAdd(l1FirstHits, 1, U64_MAX);
        assert next.Some?;
        l1FirstHits := next.value;
      } else if second.value.outcome == Hit {
        var next := CheckedAdd(llcFirstHits, 1, U64_MAX);
        assert next.Some?;
        llcFirstHits := next.value;
      } else {
        var next := CheckedAdd(allCacheMisses, 1, U64_MAX);
        assert next.Some?;
        allCacheMisses := next.value;
      }
      var modeled := CheckedAdd(modeledAccesses, 1, U64_MAX);
      assert modeled.Some?;
      modeledAccesses := modeled.value;
      rows := rows + [mapping];
    }
  }

  /** Assemble an event from the observations of the levels that were asked. */
  function EventOfObserved(row: CacheLineMapping, first: Observation, second: Option<Observation>, llc: CacheGeometry):
    HierarchyAccessEvent
    requires ValidGeometry(llc) && (second.None? <==> first.outcome == Hit)
  {
    var service := if first.outcome == Hit then L1 else if second.value.outcome == Hit then LLC else Memory;
    HierarchyAccessEvent(row, first, if second.Some? then Some(Remapped(row, llc)) else None, second, service)
  }

  /** The analyzer holds the history of the given rows. */
  ghost predicate HasSeen(a: ExactCsrdAnalyzer, g: CacheGeometry, limits: StorageLimits, rows: seq<CacheLineMapping>)
    reads a, a.sets.Values
  {
    a.Valid() && a.geometry == g && a.limits == limits && a.trace == BlocksOfRows(rows)
  }

  /** Observe one row at one level. */
  method ObserveAt(a: ExactCsrdAnalyzer, ghost g: CacheGeometry, ghost limits: StorageLimits,
                   ghost rows: seq<CacheLineMapping>, row: CacheLineMapping)
    returns (r: Result<Observation, StreamError>)
    requires ValidGeometry(g) && HasSeen(a, g, limits, rows)
    modifies a, a.sets.Values
    ensures fresh(a.sets.Values - old(a.sets.Values))
    ensures r != Err(ProvenanceDisagrees)
    ensures row.decoded == Decode(row.decoded.address, g) && Roomy(limits, |rows| + 1) ==> r.Ok?
    ensures r.Ok? ==> HasSeen(a, g, limits, rows + [row]) && |rows| < U64_MAX
    ensures r.Ok? ==> r.value == ObserveRow(rows, row, g)
  {
    hide ObserveNext, ValidGeometry, ExactCsrdAnalyzer.Tracks, SummaryOf;
    BlocksOfRowsExtend(rows, row);
    var o := a.Observe(row.decoded);
    r := match o case Ok(value) => Ok(value) case Err(error) => Err(AnalyzerFailed(error));
  }

  // ----- one task

  /** The rows of consecutive source accesses. */
  function AllLines(accesses: seq<ResolvedAccess>, g: CacheGeometry): (rows: seq<CacheLineMapping>)
    requires ValidSource(accesses, g)
  {
    if |accesses| == 0 then []
    else
      var n := |accesses| - 1;
      assert accesses[n] == accesses[..n + 1][n];
      AllLines(accesses[..n], g) + Lines(accesses[n], g)
  }

  /** A task's source accesses pass every check of `accept`. */
  predicate ValidSource(accesses: seq<ResolvedAccess>, g: CacheGeometry) {
    forall i :: 0 <= i < |accesses| ==> Accepted(accesses[i], i, g)
  }

  /** What is left of an emission budget. */
  ghost function Left(budget: EmissionBudget): (left: (int, int))
    reads budget
  {
    (budget.sourceLimit - budget.sourceAccesses, budget.lineLimit - budget.lineReferences)
  }

  /** The task stays within its counters, its storage and what is left of the emission budget. */
  ghost predicate Affordable(lines: nat, sources: nat, limits: StorageLimits, left: (int, int)) {
    Roomy(limits, lines) && sources <= left.0 && lines <= left.1 && sources <= U64_MAX
  }

  lemma AllLinesExtend(accesses: seq<ResolvedAccess>, g: CacheGeometry, n: nat)
    requires n < |accesses|
    requires ValidSource(accesses[..n], g) && Accepted(accesses[n], n, g)
    ensures ValidSource(accesses[..n + 1], g)
    ensures AllLines(accesses[..n + 1], g) == AllLines(accesses[..n], g) + Lines(accesses[n], g)
  {
    assert accesses[..n + 1][..n] == accesses[..n];
  }

  lemma {:induction false} AllLinesGrow(accesses: seq<ResolvedAccess>, g: CacheGeometry, n: nat)
    requires n <= |accesses| && ValidSource(accesses, g)
    ensures |AllLines(accesses[..n], g)| <= |AllLines(accesses, g)|
    decreases |accesses| - n
  {
    if n < |accesses| {
      AllLinesExtend(accesses, g, n);
      AllLinesGrow(accesses, g, n + 1);
    } else {
      assert accesses[..n] == accesses;
    }
  }

  /** Stream one task through both levels. */
  method RunStreamingTask(id: string, accesses: seq<ResolvedAccess>, h: AnalysisHierarchy, limits: StorageLimits,
                          delivery: EventDelivery, budget: EmissionBudget)
    returns (r: Result<TaskHierarchySummary, StreamError>)
    requires ValidHierarchy(h) && delivery.Valid()
    modifies delivery, budget
    ensures r.Ok? ==> ValidSource(accesses, h.l1)
    ensures r.Ok? ==> r.value == TaskSummaryOf(id, |accesses|, AllLines(accesses, h.l1), h)
    ensures r.Ok? ==> delivery.Valid()
    ensures r.Ok? ==> delivery.offered == old(delivery.offered) + Records(id, Events(AllLines(accesses, h.l1), h))
    ensures r.Ok? ==> budget.lineReferences == old(budget.lineReferences) + |AllLines(accesses, h.l1)|
    ensures r.Ok? ==> budget.sourceAccesses == old(budget.sourceAccesses) + |accesses|
    ensures WithinLimits(budget) || !old(WithinLimits(budget))
    ensures ValidSource(accesses, h.l1) ==>
              Affordable(|AllLines(accesses, h.l1)|, |accesses|, limits, old(Left(budget))) ==> r.Ok?
  {
    hide StreamingHierarchyTask.Valid, Accepted, AllLines, ValidHierarchy, Events;
    var task := new StreamingHierarchyTask(id, h, limits, delivery);
    var accepted := AcceptAll(task, accesses, delivery, budget);
    if accepted.Err? {
      return Err(accepted.error);
    }
    r := task.Finish(TraceCoverage(|accesses|, |accesses|, 0, 0));
  }

  /** What the task still needs before its `n`-th access is what that access is checked for. */
  lemma NextIsAffordable(accesses: seq<ResolvedAccess>, g: CacheGeometry, n: nat, limits: StorageLimits,
                         left: (int, int))
    requires n < |accesses| && ValidSource(accesses, g)
    requires Affordable(|AllLines(accesses, g)|, |accesses|, limits, left)
    ensures Accepted(accesses[n], n, g) && n < U64_MAX && n < left.0
    ensures |AllLines(accesses[..n], g)| + LineCount(accesses[n], g) <= left.1
    ensures Roomy(limits, |AllLines(accesses[..n], g)| + LineCount(accesses[n], g))
  {
    AllLinesExtend(accesses, g, n);
    AllLinesGrow(accesses, g, n + 1);
  }

  ghost predicate WithinLimits(budget: EmissionBudget)
    reads budget
  {
    budget.sourceAccesses <= budget.sourceLimit && budget.lineReferences <= budget.lineLimit
  }

  /** Charge every source access and pass it to a fresh task. */
  method AcceptAll(task: StreamingHierarchyTask, accesses: seq<ResolvedAccess>, delivery: EventDelivery,
                   budget: EmissionBudget) returns (r: Result<Unit, StreamError>)
    requires task.Valid() && task.Offered(delivery) && task.rows == [] && task.sourceAccesses == 0
    modifies task, task.l1, task.l1.sets.Values, task.llc, task.llc.sets.Values, delivery, budget
    ensures r.Ok? ==> ValidSource(accesses, task.hierarchy.l1)
    ensures r.Ok? ==> task.Valid() && task.Offered(delivery) && task.sourceAccesses == |accesses|
    ensures r.Ok? ==> task.rows == AllLines(accesses, task.hierarchy.l1)
    ensures r.Ok? ==> budget.lineReferences == old(budget.lineReferences) + |task.rows|
    ensures r.Ok? ==> budget.sourceAccesses == old(budget.sourceAccesses) + |accesses|
    ensures WithinLimits(budget) || !old(WithinLimits(budget))
    ensures ValidSource(accesses, task.hierarchy.l1) ==>
              Affordable(|AllLines(accesses, task.hierarchy.l1)|, |accesses|, task.limits, old(Left(budget))) ==> r.Ok?
  {
    hide StreamingHierarchyTask.Valid, StreamingHierarchyTask.Offered, Accepted, Lines, ValidHierarchy, Roomy,
        Affordable, LineCount;
    ghost var g := task.hierarchy.l1;
    for i := 0 to |accesses|
      invariant fresh(task.l1.sets.Values - old(task.l1.sets.Values))
      invariant fresh(task.llc.sets.Values - old(task.llc.sets.Values))
      invariant ValidSource(accesses[..i], g)
      invariant task.Valid() && task.Offered(delivery)
      invariant task.sourceAccesses == i && task.rows == AllLines(accesses[..i], g)
      invariant budget.lineReferences == old(budget.lineReferences) + |task.rows|
      invariant budget.sourceAccesses == old(budget.sourceAccesses) + i
      invariant WithinLimits(budget) || !old(WithinLimits(budget))
    {
      if ValidSource(accesses, g) && Affordable(|AllLines(accesses, g)|, |accesses|, task.limits, old(Left(budget))) {
        NextIsAffordable(accesses, g, i, task.limits, old(Left(budget)));
      }
      var ok := budget.ConsumeSourceAccess();
      if !ok {
        return Err(SourceBudgetExhausted);
      }
      r := task.Accept(accesses[i], delivery, budget);
      if r.Err? {
        return;
      }
      AllLinesExtend(accesses, g, i);
    }
    assert accesses[..|accesses|] == accesses;
    r := Ok(Unit);
  }
}
