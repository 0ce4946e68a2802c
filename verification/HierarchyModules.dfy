/** Whole-module runs of both modes: tasks in order, one shared budget and sink, summed coverage. */
module HierarchyModules {
  import opened Machine
  import opened CacheAddress
  import opened Recency
  import opened ExactCsrd
  import opened LineMapping
  import opened HierarchyModel
  import opened StreamingTask
  import opened BatchHierarchy

  /** One analyzed task as the trace producer delivers it. */
  datatype SourceTask = SourceTask(id: string, excludedCalls: nat, accesses: seq<ResolvedAccess>)

  datatype StreamingResult = StreamingResult(
    tasks: seq<TaskHierarchySummary>, coverage: TraceCoverage, emittedEvents: nat, eventsTruncated: bool)

  datatype BatchHierarchyResult = BatchHierarchyResult(tasks: seq<BatchTaskResult>, coverage: TraceCoverage)

  predicate ValidTask(t: SourceTask, h: AnalysisHierarchy) {
    t.excludedCalls == 0 && ValidSource(t.accesses, h.l1)
  }

  /** A valid task: absolute loads and stores, numbered in order, of named objects, whose bytes are addressable. */
  lemma TaskRanges(t: SourceTask, h: AnalysisHierarchy)
    requires ValidGeometry(h.l1)
    ensures ValidTask(t, h)
            <==> && t.excludedCalls == 0
                 && forall i :: 0 <= i < |t.accesses| ==>
                      var a := t.accesses[i];
                      && a.sourceAccessOrdinal == i && a.addressBasis == Absolute && a.operation in {Load, Store}
                      && a.objectId != "" && 0 < a.accessSize
                      && a.linkedByteAddress + a.accessSize <= U64_MAX + 1
                      && a.objectByteOffset + a.accessSize <= U64_MAX + 1
  {
  }

  predicate ValidTasks(tasks: seq<SourceTask>, h: AnalysisHierarchy) {
    forall i :: 0 <= i < |tasks| ==> ValidTask(tasks[i], h)
  }

  /** Task identities are nonempty and pairwise different. */
  ghost predicate DistinctIds(tasks: seq<SourceTask>) {
    && (forall i :: 0 <= i < |tasks| ==> tasks[i].id != "")
    && forall i, j :: 0 <= i < j < |tasks| ==> tasks[i].id != tasks[j].id
  }

  function TaskLines(t: SourceTask, h: AnalysisHierarchy): (rows: seq<CacheLineMapping>)
    requires ValidTask(t, h)
  {
    AllLines(t.accesses, h.l1)
  }

  ghost function SummaryOfTask(t: SourceTask, h: AnalysisHierarchy): (s: TaskHierarchySummary)
    requires ValidHierarchy(h) && ValidTask(t, h)
  {
    TaskSummaryOf(t.id, |t.accesses|, TaskLines(t, h), h)
  }

  /** Every event of the module, task by task. */
  function ModuleRecords(tasks: seq<SourceTask>, h: AnalysisHierarchy): (r: seq<EventRecord>)
    requires ValidHierarchy(h) && ValidTasks(tasks, h)
  {
    if |tasks| == 0 then []
    else
      var n := |tasks| - 1;
      ModuleRecords(tasks[..n], h) + TaskRecords(tasks[n], h)
  }

  function TaskRecords(t: SourceTask, h: AnalysisHierarchy): (r: seq<EventRecord>)
    requires ValidHierarchy(h) && ValidTask(t, h)
    ensures |r| == |TaskLines(t, h)|
  {
    Records(t.id, Events(TaskLines(t, h), h))
  }

  /** The summaries of the module, task by task. */
  ghost function ModuleSummaries(tasks: seq<SourceTask>, h: AnalysisHierarchy): (r: seq<TaskHierarchySummary>)
    requires ValidHierarchy(h) && ValidTasks(tasks, h)
    ensures |r| == |tasks|
  {
    if |tasks| == 0 then []
    else
      var n := |tasks| - 1;
      ModuleSummaries(tasks[..n], h) + [SummaryOfTask(tasks[n], h)]
  }

  /** The events of the module, one sequence per task. */
  function ModuleEvents(tasks: seq<SourceTask>, h: AnalysisHierarchy): (r: seq<seq<HierarchyAccessEvent>>)
    requires ValidHierarchy(h) && ValidTasks(tasks, h)
    ensures |r| == |tasks|
  {
    if |tasks| == 0 then []
    else
      var n := |tasks| - 1;
      ModuleEvents(tasks[..n], h) + [Events(TaskLines(tasks[n], h), h)]
  }

  /** A coverage with one more task of `sources` accesses and `lines` lines. */
  function Added(c: TraceCoverage, sources: nat, lines: nat): TraceCoverage {
    TraceCoverage(c.sourceAccesses + sources, c.resolvedAccesses + sources, c.rejectedAccesses,
                  c.emittedLineReferences + lines)
  }

  const NO_COVERAGE: TraceCoverage := TraceCoverage(0, 0, 0, 0)

  /** The coverage of the module: sums over its tasks. */
  function ModuleCoverage(tasks: seq<SourceTask>, h: AnalysisHierarchy): (c: TraceCoverage)
    requires ValidTasks(tasks, h)
  {
    if |tasks| == 0 then NO_COVERAGE
    else
      var n := |tasks| - 1;
      Added(ModuleCoverage(tasks[..n], h), |tasks[n].accesses|, |TaskLines(tasks[n], h)|)
  }

  lemma ModuleExtend(tasks: seq<SourceTask>, h: AnalysisHierarchy, n: nat)
    requires ValidHierarchy(h) && n < |tasks| && ValidTasks(tasks[..n], h) && ValidTask(tasks[n], h)
    ensures ValidTasks(tasks[..n + 1], h)
    ensures ModuleRecords(tasks[..n + 1], h) == ModuleRecords(tasks[..n], h) + TaskRecords(tasks[n], h)
    ensures ModuleSummaries(tasks[..n + 1], h) == ModuleSummaries(tasks[..n], h) + [SummaryOfTask(tasks[n], h)]
    ensures ModuleEvents(tasks[..n + 1], h) == ModuleEvents(tasks[..n], h) + [Events(TaskLines(tasks[n], h), h)]
    ensures ModuleCoverage(tasks[..n + 1], h)
            == Added(ModuleCoverage(tasks[..n], h), |tasks[n].accesses|, |TaskLines(tasks[n], h)|)
  {
    hide Events, ValidTask, Added, TaskRecords, SummaryOfTask;
    assert tasks[..n + 1][..n] == tasks[..n];
  }

  lemma {:induction false} SummaryAt(tasks: seq<SourceTask>, h: AnalysisHierarchy, i: nat)
    requires ValidHierarchy(h) && ValidTasks(tasks, h) && i < |tasks|
    ensures ModuleSummaries(tasks, h)[i] == SummaryOfTask(tasks[i], h)
  {
    hide SummaryOfTask, ValidTask;
    if i < |tasks| - 1 {
      SummaryAt(tasks[..|tasks| - 1], h, i);
    }
  }

  /** One event per line of the module. */
  lemma {:induction false} RecordsCountLines(tasks: seq<SourceTask>, h: AnalysisHierarchy)
    requires ValidHierarchy(h) && ValidTasks(tasks, h)
    ensures |ModuleRecords(tasks, h)| == ModuleCoverage(tasks, h).emittedLineReferences
    ensures ModuleCoverage(tasks, h).Complete()
  {
    if |tasks| > 0 {
      RecordsCountLines(tasks[..|tasks| - 1], h);
    }
  }

  // ----- provenance of the events

  /** An event carries the source access whose ordinal it names, at both levels. */
  ghost predicate EventCarries(e: HierarchyAccessEvent, accesses: seq<ResolvedAccess>) {
    var n := e.l1Mapping.sourceAccessOrdinal;
    && n < |accesses| && CarriesAccess(e.l1Mapping, accesses[n])
    && (e.llcMapping.Some? ==>
          CarriesAccess(e.llcMapping.value, accesses[n])
          && e.llcMapping.value.lineSpanOrdinal == e.l1Mapping.lineSpanOrdinal)
  }

  lemma {:induction false} RowsCarry(accesses: seq<ResolvedAccess>, g: CacheGeometry)
    requires ValidSource(accesses, g)
    ensures forall i :: 0 <= i < |AllLines(accesses, g)| ==>
              var m := AllLines(accesses, g)[i];
              m.sourceAccessOrdinal < |accesses| && CarriesAccess(m, accesses[m.sourceAccessOrdinal])
  {
    hide Lines, LineCount, CarriesAccess;
    if |accesses| > 0 {
      var n := |accesses| - 1;
      RowsCarry(accesses[..n], g);
      LinesCarry(accesses[n], n, g);
      var front, all := AllLines(accesses[..n], g), AllLines(accesses, g);
      forall i | 0 <= i < |all|
        ensures all[i].sourceAccessOrdinal < |accesses| && CarriesAccess(all[i], accesses[all[i].sourceAccessOrdinal])
      {
        if i < |front| {
          assert all[i] == front[i];
        } else {
          assert all[i] == Lines(accesses[n], g)[i - |front|];
        }
      }
    }
  }

  lemma LinesCarry(a: ResolvedAccess, ordinal: nat, g: CacheGeometry)
    requires Accepted(a, ordinal, g)
    ensures forall k :: 0 <= k < |Lines(a, g)| ==>
              Lines(a, g)[k].sourceAccessOrdinal == ordinal && CarriesAccess(Lines(a, g)[k], a)
  {
    hide Lines, LineCount;
    forall k | 0 <= k < |Lines(a, g)|
      ensures Lines(a, g)[k].sourceAccessOrdinal == ordinal && CarriesAccess(Lines(a, g)[k], a)
    {
      LineIsLine(a, g, k);
    }
  }

  /** Every event of a task carries the source access that it names. */
  lemma EventsCarry(t: SourceTask, h: AnalysisHierarchy)
    requires ValidHierarchy(h) && ValidTask(t, h)
    ensures forall i :: 0 <= i < |Events(TaskLines(t, h), h)| ==>
              EventCarries(Events(TaskLines(t, h), h)[i], t.accesses)
  {
    hide Events, EventNext, ValidSource, AllLines, CarriesAccess, ValidGeometry;
    RowsCarry(t.accesses, h.l1);
    var rows := TaskLines(t, h);
    forall i | 0 <= i < |rows|
      ensures EventCarries(Events(rows, h)[i], t.accesses)
    {
      EventMeaning(rows, h, i);
      var e := Events(rows, h)[i];
      if e.llcMapping.Some? {
        RemappedCarries(rows[i], e.llcMapping.value, t.accesses[rows[i].sourceAccessOrdinal]);
      }
    }
  }

  lemma RemappedCarries(row: CacheLineMapping, other: CacheLineMapping, a: ResolvedAccess)
    requires CarriesAccess(row, a) && other == row.(decoded := other.decoded)
    requires other.decoded.address == row.decoded.address
    ensures CarriesAccess(other, a)
  {
  }

  /** A record names its task, and its event one of that task's accesses. */
  ghost predicate RecordCarries(record: EventRecord, tasks: seq<SourceTask>) {
    exists t :: 0 <= t < |tasks| && tasks[t].id == record.taskId && EventCarries(record.event, tasks[t].accesses)
  }

  lemma {:induction false} RecordsCarry(tasks: seq<SourceTask>, h: AnalysisHierarchy)
    requires ValidHierarchy(h) && ValidTasks(tasks, h)
    ensures forall i :: 0 <= i < |ModuleRecords(tasks, h)| ==> RecordCarries(ModuleRecords(tasks, h)[i], tasks)
  {
    hide ValidTask, Events, TaskLines, EventCarries;
    if |tasks| > 0 {
      var n := |tasks| - 1;
      RecordsCarry(tasks[..n], h);
      EventsCarry(tasks[n], h);
      var front, all := ModuleRecords(tasks[..n], h), ModuleRecords(tasks, h);
      forall i | 0 <= i < |all|
        ensures RecordCarries(all[i], tasks)
      {
        if i < |front| {
          assert all[i] == front[i];
          var t :| 0 <= t < n && tasks[..n][t].id == all[i].taskId
                   && EventCarries(all[i].event, tasks[..n][t].accesses);
          assert tasks[t] == tasks[..n][t];
        } else {
          assert all[i] == TaskRecords(tasks[n], h)[i - |front|];
          assert tasks[n].id == all[i].taskId;
        }
      }
    }
  }

  /** Add a task's coverage with checked sums. */
  method AddCoverage(total: TraceCoverage, task: TraceCoverage) returns (r: Option<TraceCoverage>)
    ensures r.Some? <==> && total.sourceAccesses + task.sourceAccesses <= U64_MAX
                         && total.resolvedAccesses + task.resolvedAccesses <= U64_MAX
                         && total.rejectedAccesses + task.rejectedAccesses <= U64_MAX
                         && total.emittedLineReferences + task.emittedLineReferences <= U64_MAX
    ensures r.Some? ==> r.value == TraceCoverage(
                          total.sourceAccesses + task.sourceAccesses,
                          total.resolvedAccesses + task.resolvedAccesses,
                          total.rejectedAccesses + task.rejectedAccesses,
                          total.emittedLineReferences + task.emittedLineReferences)
  {
    var sources := CheckedAdd(total.sourceAccesses, task.sourceAccesses, U64_MAX);
    var resolved := CheckedAdd(total.resolvedAccesses, task.resolvedAccesses, U64_MAX);
    var rejected := CheckedAdd(total.rejectedAccesses, task.rejectedAccesses, U64_MAX);
    var lines := CheckedAdd(total.emittedLineReferences, task.emittedLineReferences, U64_MAX);
    if sources.None? || resolved.None? || rejected.None? || lines.None? {
      return None;
    }
    r := Some(TraceCoverage(sources.value, resolved.value, rejected.value, lines.value));
  }

  /** The module fits the emission limits, the 64-bit counters and, task by task, the storage. */
  ghost predicate AffordableModule(tasks: seq<SourceTask>, h: AnalysisHierarchy, limits: StorageLimits,
                                   emission: EmissionLimits)
    requires ValidTasks(tasks, h)
  {
    && ModuleCoverage(tasks, h).emittedLineReferences <= Min(emission.lines, U64_MAX)
    && ModuleCoverage(tasks, h).sourceAccesses <= Min(emission.sources, U64_MAX)
    && forall i :: 0 <= i < |tasks| ==> Roomy(limits, |TaskLines(tasks[i], h)|)
  }

  /** A module's first tasks have no more coverage than the module, and reject nothing. */
  lemma {:induction false} CoverageGrows(tasks: seq<SourceTask>, h: AnalysisHierarchy, n: nat)
    requires ValidTasks(tasks, h) && n <= |tasks|
    ensures var part, all := ModuleCoverage(tasks[..n], h), ModuleCoverage(tasks, h);
            && part.sourceAccesses <= all.sourceAccesses && part.emittedLineReferences <= all.emittedLineReferences
            && all.rejectedAccesses == 0 && all.resolvedAccesses == all.sourceAccesses
  {
    hide ValidTask, TaskLines;
    if n < |tasks| {
      assert tasks[..|tasks| - 1][..n] == tasks[..n];
      CoverageGrows(tasks[..|tasks| - 1], h, n);
    } else {
      assert tasks[..n] == tasks;
      if n > 0 {
        CoverageGrows(tasks[..n - 1], h, n - 1);
      }
    }
  }

  lemma CoverageNext(tasks: seq<SourceTask>, h: AnalysisHierarchy, i: nat)
    requires ValidTasks(tasks, h) && i < |tasks|
    ensures ValidTask(tasks[i], h)
    ensures ModuleCoverage(tasks[..i + 1], h)
            == Added(ModuleCoverage(tasks[..i], h), |tasks[i].accesses|, |TaskLines(tasks[i], h)|)
  {
    hide ValidTask, TaskLines;
    assert tasks[..i + 1][..i] == tasks[..i];
  }

  /** What the module can afford, its next task can. */
  lemma NextTaskAffordable(tasks: seq<SourceTask>, h: AnalysisHierarchy, i: nat, limits: StorageLimits,
                           emission: EmissionLimits)
    requires ValidHierarchy(h) && ValidTasks(tasks, h) && i < |tasks|
    requires AffordableModule(tasks, h, limits, emission)
    ensures ValidTask(tasks[i], h)
    ensures var before, lines := ModuleCoverage(tasks[..i], h), |TaskLines(tasks[i], h)|;
            && Affordable(lines, |tasks[i].accesses|, limits,
                          (emission.sources - before.sourceAccesses, emission.lines - before.emittedLineReferences))
            && CoverageFits(before, |tasks[i].accesses|, lines)
  {
    hide ValidTask, TaskLines, ValidHierarchy, Roomy;
    CoverageNext(tasks, h, i);
    hide ModuleCoverage;
    CoverageGrows(tasks, h, i + 1);
    CoverageGrows(tasks, h, i);
    CoverageGrows(tasks[..i], h, i);
  }

  /** A task's coverage can be added without overflow. */
  predicate CoverageFits(total: TraceCoverage, sources: nat, lines: nat) {
    && total.sourceAccesses + sources <= U64_MAX && total.resolvedAccesses + sources <= U64_MAX
    && total.rejectedAccesses <= U64_MAX && total.emittedLineReferences + lines <= U64_MAX
  }

  /**
   * The streaming mode. Every valid module it can afford succeeds. The sink's log is a prefix of the module's
   * events, cut exactly at the limit.
   */
  method AnalyzeStreamingHierarchy(tasks: seq<SourceTask>, h: AnalysisHierarchy, sink: bool, eventLimit: nat,
                                   emission: EmissionLimits, limits: StorageLimits)
    returns (r: Result<StreamingResult, StreamError>, log: seq<EventRecord>)
    requires eventLimit <= U64_MAX
    ensures ValidHierarchy(h) && ValidTasks(tasks, h) && (sink || eventLimit == 0) ==>
              AffordableModule(tasks, h, limits, emission) ==> r.Ok?
    ensures !ValidHierarchy(h) ==> r == Err(InvalidHierarchy)
    ensures ValidHierarchy(h) && !sink && eventLimit != 0 ==> r == Err(SinkRequired)
    ensures r.Ok? ==> ValidHierarchy(h) && ValidTasks(tasks, h)
    ensures r.Ok? ==> r.value.tasks == ModuleSummaries(tasks, h) && r.value.coverage == ModuleCoverage(tasks, h)
    ensures r.Ok? ==> r.value.coverage.emittedLineReferences <= emission.lines
    ensures r.Ok? ==> r.value.coverage.sourceAccesses <= emission.sources
    ensures r.Ok? ==> var all := ModuleRecords(tasks, h);
              && log == (if sink then all[..Min(eventLimit, |all|)] else [])
              && r.value.emittedEvents == |log|
              && (r.value.eventsTruncated <==> sink && |all| > eventLimit)
    ensures r.Ok? ==> forall i :: 0 <= i < |log| ==> RecordCarries(log[i], tasks)
  {
    log := [];
    if !ValidHierarchy(h) {
      return Err(InvalidHierarchy), [];
    }
    if !sink && eventLimit != 0 {
      return Err(SinkRequired), [];
    }
    hide ValidHierarchy, ValidTasks, ModuleSummaries, ModuleRecords, ModuleCoverage, AffordableModule;
    var delivery := new EventDelivery(sink, eventLimit);
    var streamed := StreamTasks(tasks, h, limits, delivery, emission);
    if streamed.Err? {
      return Err(streamed.error), [];
    }
    hide RecordCarries;
    RecordsCarry(tasks, h);
    r := Ok(StreamingResult(streamed.value.0, streamed.value.1, delivery.emitted, delivery.truncated));
    log := delivery.log;
  }

  /** Stream every task through one budget and one sink. */
  method StreamTasks(tasks: seq<SourceTask>, h: AnalysisHierarchy, limits: StorageLimits, delivery: EventDelivery,
                     emission: EmissionLimits)
    returns (r: Result<(seq<TaskHierarchySummary>, TraceCoverage), StreamError>)
    requires ValidHierarchy(h) && delivery.Valid() && delivery.offered == []
    modifies delivery
    ensures ValidTasks(tasks, h) && AffordableModule(tasks, h, limits, emission) ==> r.Ok?
    ensures r.Ok? ==> ValidTasks(tasks, h) && delivery.Valid() && delivery.offered == ModuleRecords(tasks, h)
    ensures r.Ok? ==> r.value == (ModuleSummaries(tasks, h), ModuleCoverage(tasks, h))
    ensures r.Ok? ==> ModuleCoverage(tasks, h).emittedLineReferences <= emission.lines
    ensures r.Ok? ==> ModuleCoverage(tasks, h).sourceAccesses <= emission.sources
  {
    hide ValidHierarchy, ValidTask, SummaryOfTask, TaskRecords, TaskLines;
    var budget := new EmissionBudget(emission);
    var summaries: seq<TaskHierarchySummary> := [];
    var coverage := NO_COVERAGE;
    for i := 0 to |tasks|
      invariant delivery.Valid() && fresh(budget) && ValidTasks(tasks[..i], h)
      invariant summaries == ModuleSummaries(tasks[..i], h) && coverage == ModuleCoverage(tasks[..i], h)
      invariant delivery.offered == ModuleRecords(tasks[..i], h)
      invariant budget.lineReferences == coverage.emittedLineReferences <= budget.lineLimit == emission.lines
      invariant budget.sourceAccesses == coverage.sourceAccesses <= budget.sourceLimit == emission.sources
    {
      hide ModuleSummaries, ModuleCoverage, ModuleRecords, ValidTasks, AffordableModule, Affordable, CoverageFits;
      if ValidTasks(tasks, h) && AffordableModule(tasks, h, limits, emission) {
        NextTaskAffordable(tasks, h, i, limits, emission);
      }
      var step := StreamOneTask(tasks[i], h, limits, delivery, budget, coverage);
      if step.Err? {
        return Err(step.error);
      }
      ModuleExtend(tasks, h, i);
      summaries, coverage := summaries + [step.value.0], step.value.1;
    }
    assert tasks[..|tasks|] == tasks;
    r := Ok((summaries, coverage));
  }

  /** Begin, feed and end one task, and add its coverage. */
  method StreamOneTask(t: SourceTask, h: AnalysisHierarchy, limits: StorageLimits, delivery: EventDelivery,
                       budget: EmissionBudget, total: TraceCoverage)
    returns (r: Result<(TaskHierarchySummary, TraceCoverage), StreamError>)
    requires ValidHierarchy(h) && delivery.Valid() && WithinLimits(budget)
    modifies delivery, budget
    ensures ValidTask(t, h) ==>
              var sources, lines := |t.accesses|, |TaskLines(t, h)|;
              Affordable(lines, sources, limits, old(Left(budget))) ==>
              CoverageFits(total, sources, lines) ==> r.Ok?
    ensures r.Ok? ==> ValidTask(t, h) && r.value.0 == SummaryOfTask(t, h) && delivery.Valid()
    ensures r.Ok? ==> delivery.offered == old(delivery.offered) + TaskRecords(t, h)
    ensures r.Ok? ==> budget.lineReferences == old(budget.lineReferences) + |TaskLines(t, h)| <= budget.lineLimit
    ensures r.Ok? ==> budget.sourceAccesses == old(budget.sourceAccesses) + |t.accesses| <= budget.sourceLimit
    ensures r.Ok? ==> r.value.1 == Added(total, |t.accesses|, |TaskLines(t, h)|)
  {
    hide ValidHierarchy, ValidSource, Events, AllLines, LevelOf, Affordable, LlcRows;
    if t.excludedCalls != 0 {
      return Err(OpaqueCallsExcluded);
    }
    var summary := RunStreamingTask(t.id, t.accesses, h, limits, delivery, budget);
    if summary.Err? {
      return Err(summary.error);
    }
    var coverage := AddCoverage(total, summary.value.coverage);
    if coverage.None? {
      return Err(CounterOverflows);
    }
    r := Ok((summary.value, coverage.value));
  }

  // ----- the batch mode

  /** Map the accesses of a task in order. */
  method MapAccesses(accesses: seq<ResolvedAccess>, g: CacheGeometry)
    returns (r: Result<seq<CacheLineMapping>, BatchHierarchyError>)
    requires ValidGeometry(g)
    ensures r.Ok? <==> ValidSource(accesses, g)
    ensures r.Ok? ==> r.value == AllLines(accesses, g) && DecodedWith(r.value, g)
  {
    hide Accepted, Lines, ValidGeometry;
    var rows: seq<CacheLineMapping> := [];
    for i := 0 to |accesses|
      invariant ValidSource(accesses[..i], g) && rows == AllLines(accesses[..i], g) && DecodedWith(rows, g)
    {
      var a := accesses[i];
      var mapped := MapChecked(a, i, g);
      if mapped.None? {
        return Err(SourceRejected);
      }
      AllLinesExtend(accesses, g, i);
      rows := rows + mapped.value;
    }
    assert accesses[..|accesses|] == accesses;
    r := Ok(rows);
  }

  method MapChecked(a: ResolvedAccess, ordinal: nat, g: CacheGeometry) returns (r: Option<seq<CacheLineMapping>>)
    requires ValidGeometry(g)
    ensures r.Some? <==> Accepted(a, ordinal, g)
    ensures r.Some? ==> r.value == Lines(a, g) && DecodedWith(r.value, g)
  {
    if a.addressBasis != Absolute || (a.operation != Load && a.operation != Store) || a.sourceAccessOrdinal != ordinal {
      return None;
    }
    var rows := MapCacheLines(a, g);
    if rows.Err? {
      return None;
    }
    LinesDecoded(a, g);
    r := Some(rows.value);
  }

  lemma LinesDecoded(a: ResolvedAccess, g: CacheGeometry)
    requires Mappable(a, g)
    ensures DecodedWith(Lines(a, g), g)
  {
  }

  /** Some task is analyzed, and every one has an identity of its own. */
  ghost predicate Identified(tasks: seq<SourceTask>) {
    tasks != [] && DistinctIds(tasks)
  }

  ghost function IdsBefore(tasks: seq<SourceTask>, n: nat): (ids: set<string>)
    requires n <= |tasks|
  {
    set i | 0 <= i < n :: tasks[i].id
  }

  /** The checks on the set of tasks before any is mapped. */
  method ValidateTaskIds(tasks: seq<SourceTask>) returns (error: Option<BatchHierarchyError>)
    ensures error.None? <==> Identified(tasks)
  {
    if tasks == [] {
      return Some(NoTasks);
    }
    var ids: set<string> := {};
    for i := 0 to |tasks|
      invariant ids == IdsBefore(tasks, i) && DistinctIds(tasks[..i])
    {
      if tasks[i].id == "" || tasks[i].id in ids {
        return Some(IdentityRejected);
      }
      ids := ids + {tasks[i].id};
    }
    assert tasks[..|tasks|] == tasks;
    error := None;
  }

  /** The batch mode: exactly the valid, identified modules whose tasks fit the counters succeed. */
  method AnalyzeBatchHierarchy(tasks: seq<SourceTask>, h: AnalysisHierarchy)
    returns (r: Result<BatchHierarchyResult, BatchHierarchyError>)
    ensures r.Ok? <==>
              ValidHierarchy(h) && Identified(tasks) && ValidTasks(tasks, h) && LinesFit(tasks, h)
    ensures r.Ok? ==> r.value.coverage == ModuleCoverage(tasks, h)
    ensures r.Ok? ==> SummariesOf(r.value.tasks) == ModuleSummaries(tasks, h)
    ensures r.Ok? ==> EventsOf(r.value.tasks) == ModuleEvents(tasks, h)
    ensures r.Ok? ==> |r.value.tasks| == |tasks|
    ensures r.Ok? ==> forall t, i :: 0 <= t < |tasks| && 0 <= i < |r.value.tasks[t].events| ==>
              EventCarries(r.value.tasks[t].events[i], tasks[t].accesses)
  {
    if !ValidHierarchy(h) {
      return Err(SourceRejected);
    }
    var error := ValidateTaskIds(tasks);
    if error.Some? {
      return Err(error.value);
    }
    r := BatchTasks(tasks, h);
    if r.Ok? {
      hide ModuleEvents, ModuleSummaries, ModuleCoverage, EventCarries, ValidTasks, ValidTask, Events, TaskLines;
      forall t | 0 <= t < |tasks|
        ensures forall i :: 0 <= i < |r.value.tasks[t].events| ==>
                  EventCarries(r.value.tasks[t].events[i], tasks[t].accesses)
      {
        ModuleEventsAt(tasks, h, t);
        EventsCarry(tasks[t], h);
        assert r.value.tasks[t].events == EventsOf(r.value.tasks)[t];
      }
    }
  }

  lemma {:induction false} ModuleEventsAt(tasks: seq<SourceTask>, h: AnalysisHierarchy, t: nat)
    requires ValidHierarchy(h) && ValidTasks(tasks, h) && t < |tasks|
    ensures ValidTask(tasks[t], h) && ModuleEvents(tasks, h)[t] == Events(TaskLines(tasks[t], h), h)
  {
    hide Events, ValidTask;
    if t < |tasks| - 1 {
      ModuleEventsAt(tasks[..|tasks| - 1], h, t);
    }
  }

  method BatchTasks(tasks: seq<SourceTask>, h: AnalysisHierarchy)
    returns (r: Result<BatchHierarchyResult, BatchHierarchyError>)
    requires ValidHierarchy(h)
    ensures r.Ok? <==> ValidTasks(tasks, h) && LinesFit(tasks, h)
    ensures r.Ok? ==> r.value.coverage == ModuleCoverage(tasks, h)
    ensures r.Ok? ==> SummariesOf(r.value.tasks) == ModuleSummaries(tasks, h)
    ensures r.Ok? ==> EventsOf(r.value.tasks) == ModuleEvents(tasks, h)
  {
    hide ValidHierarchy, ValidTask, TaskLines, SummaryOfTask, Events, Added;
    var results: seq<BatchTaskResult> := [];
    var coverage := NO_COVERAGE;
    for i := 0 to |tasks|
      invariant ValidTasks(tasks[..i], h) && LinesFit(tasks[..i], h)
      invariant SummariesOf(results) == ModuleSummaries(tasks[..i], h)
      invariant EventsOf(results) == ModuleEvents(tasks[..i], h)
      invariant coverage == ModuleCoverage(tasks[..i], h)
    {
      hide ModuleSummaries, ModuleCoverage, ModuleEvents, SummariesOf, EventsOf;
      var step := BatchOneTask(tasks[i], h);
      if step.Err? {
        return Err(step.error);
      }
      ModuleExtend(tasks, h, i);
      ResultsExtend(results, step.value);
      results := results + [step.value];
      coverage := Added(coverage, |tasks[i].accesses|, |step.value.events|);
    }
    assert tasks[..|tasks|] == tasks;
    r := Ok(BatchHierarchyResult(results, coverage));
  }

  lemma ResultsExtend(results: seq<BatchTaskResult>, r: BatchTaskResult)
    ensures SummariesOf(results + [r]) == SummariesOf(results) + [r.summary]
    ensures EventsOf(results + [r]) == EventsOf(results) + [r.events]
  {
  }

  /** Every task's lines fit a counter. */
  predicate LinesFit(tasks: seq<SourceTask>, h: AnalysisHierarchy)
    requires ValidTasks(tasks, h)
  {
    forall i :: 0 <= i < |tasks| ==> |TaskLines(tasks[i], h)| <= U64_MAX
  }

  function SummariesOf(results: seq<BatchTaskResult>): (s: seq<TaskHierarchySummary>)
    ensures |s| == |results|
  {
    seq(|results|, i requires 0 <= i < |results| => results[i].summary)
  }

  function EventsOf(results: seq<BatchTaskResult>): (e: seq<seq<HierarchyAccessEvent>>)
    ensures |e| == |results|
  {
    seq(|results|, i requires 0 <= i < |results| => results[i].events)
  }

  method BatchOneTask(t: SourceTask, h: AnalysisHierarchy) returns (r: Result<BatchTaskResult, BatchHierarchyError>)
    requires ValidHierarchy(h)
    ensures r.Ok? <==> ValidTask(t, h) && |TaskLines(t, h)| <= U64_MAX
    ensures r.Ok? ==> r.value == BatchTaskResult(SummaryOfTask(t, h), Events(TaskLines(t, h), h))
  {
    hide ValidSource, Events, AllLines, TaskSummaryOf, DecodedWith;
    if t.excludedCalls != 0 {
      return Err(SourceRejected);
    }
    var rows := MapAccesses(t.accesses, h.l1);
    if rows.Err? {
      return Err(rows.error);
    }
    r := AnalyzeMappedTask(t.id, |t.accesses|, rows.value, h);
  }

  // ----- both modes

  lemma {:induction false} TaskWithinModule(tasks: seq<SourceTask>, h: AnalysisHierarchy, i: nat)
    requires ValidTasks(tasks, h) && i < |tasks|
    ensures |TaskLines(tasks[i], h)| <= ModuleCoverage(tasks, h).emittedLineReferences
  {
    hide ValidTask, TaskLines;
    if i < |tasks| - 1 {
      TaskWithinModule(tasks[..|tasks| - 1], h, i);
    }
  }

  /** The events of all tasks as the sink's records. */
  function RecordsOf(tasks: seq<SourceTask>, events: seq<seq<HierarchyAccessEvent>>): (r: seq<EventRecord>)
    requires |tasks| == |events|
  {
    if |tasks| == 0 then []
    else
      var n := |tasks| - 1;
      RecordsOf(tasks[..n], events[..n]) + Records(tasks[n].id, events[n])
  }

  lemma {:induction false} RecordsOfModule(tasks: seq<SourceTask>, h: AnalysisHierarchy)
    requires ValidHierarchy(h) && ValidTasks(tasks, h)
    ensures RecordsOf(tasks, ModuleEvents(tasks, h)) == ModuleRecords(tasks, h)
  {
    hide Events, ValidTask;
    if |tasks| > 0 {
      var n := |tasks| - 1;
      RecordsOfModule(tasks[..n], h);
      assert ModuleEvents(tasks, h)[..n] == ModuleEvents(tasks[..n], h);
    }
  }

  /**
   * Run both modes over the same module. When streaming succeeds batch succeeds exactly if the tasks are
   * identified, which the producer of the stream sees to for its roots; when batch succeeds on a module that
   * streaming can afford streaming succeeds too. When both do, the summaries and the coverage are the same, and
   * what streaming delivered are the batch events in order, cut at the limit.
   */
  method CompareModes(tasks: seq<SourceTask>, h: AnalysisHierarchy, eventLimit: nat, emission: EmissionLimits,
                      limits: StorageLimits)
    returns (streamed: Result<StreamingResult, StreamError>, log: seq<EventRecord>,
             batch: Result<BatchHierarchyResult, BatchHierarchyError>)
    requires eventLimit <= U64_MAX && emission.lines <= U64_MAX
    ensures batch.Ok? <==> ValidHierarchy(h) && Identified(tasks) && ValidTasks(tasks, h) && LinesFit(tasks, h)
    ensures batch.Ok? && AffordableModule(tasks, h, limits, emission) ==> streamed.Ok?
    ensures streamed.Ok? ==> (batch.Ok? <==> Identified(tasks))
    ensures batch.Ok? ==> |batch.value.tasks| == |tasks|
    ensures streamed.Ok? && batch.Ok? ==>
              && streamed.value.tasks == SummariesOf(batch.value.tasks)
              && streamed.value.coverage == batch.value.coverage
              && var all := RecordsOf(tasks, EventsOf(batch.value.tasks));
                 log == all[..Min(eventLimit, |all|)]
  {
    hide ValidHierarchy, ValidTask, ModuleSummaries, ModuleRecords, ModuleCoverage, ModuleEvents, RecordsOf, TaskLines,
        AffordableModule, DistinctIds;
    streamed, log := AnalyzeStreamingHierarchy(tasks, h, true, eventLimit, emission, limits);
    batch := AnalyzeBatchHierarchy(tasks, h);
    if streamed.Ok? {
      forall i | 0 <= i < |tasks|
        ensures |TaskLines(tasks[i], h)| <= U64_MAX
      {
        TaskWithinModule(tasks, h, i);
      }
      RecordsOfModule(tasks, h);
    }
  }
}
