/** The acceptance tests of a retained event prefix, and why every run's log passes them. */
module EventValidation {
  import opened Machine
  import opened CacheAddress
  import opened CacheLevel
  import opened LineMapping
  import opened HierarchyModel
  import opened StreamingTask
  import opened HierarchyModules
  import ResultValidation

  predicate ValidObservation(o: Observation) {
    o.outcome == ColdMiss <==> o.distance.None?
  }

  predicate SameSource(left: CacheLineMapping, right: CacheLineMapping) {
    && left.objectId == right.objectId
    && left.sourceObjectByteOffset == right.sourceObjectByteOffset
    && left.sourceLinkedByteAddress == right.sourceLinkedByteAddress
    && left.sourceAccessSize == right.sourceAccessSize
    && left.sourceAccessOrdinal == right.sourceAccessOrdinal
    && left.operation == right.operation
  }

  /** The row starts inside its source range, which does not wrap, and offsets move with addresses. */
  predicate ValidMapping(m: CacheLineMapping) {
    && m.objectId != "" && m.addressBasis == Absolute && (m.operation == Load || m.operation == Store)
    && m.sourceAccessSize != 0 && m.decoded.address >= m.sourceLinkedByteAddress
    && m.sourceLinkedByteAddress + (m.sourceAccessSize - 1) <= U64_MAX
    && m.decoded.address - m.sourceLinkedByteAddress < m.sourceAccessSize
    && m.objectByteOffset >= m.sourceObjectByteOffset
    && m.objectByteOffset - m.sourceObjectByteOffset == m.decoded.address - m.sourceLinkedByteAddress
    && (m.lineSpanOrdinal == 0 ==> m.decoded.address == m.sourceLinkedByteAddress)
  }

  predicate ValidEvent(e: HierarchyAccessEvent) {
    && ValidMapping(e.l1Mapping) && ValidObservation(e.l1)
    && if e.l1.outcome == Hit then e.llc.None? && e.llcMapping.None? && e.firstService == L1
       else
         && e.llc.Some? && e.llcMapping.Some?
         && ValidObservation(e.llc.value) && ValidMapping(e.llcMapping.value)
         && SameSource(e.l1Mapping, e.llcMapping.value)
         && e.l1Mapping.lineSpanOrdinal == e.llcMapping.value.lineSpanOrdinal
         && e.l1Mapping.objectByteOffset == e.llcMapping.value.objectByteOffset
         && e.l1Mapping.decoded.address == e.llcMapping.value.decoded.address
         && e.l1Mapping.decoded.block == e.llcMapping.value.decoded.block
         && e.l1Mapping.decoded.offset == e.llcMapping.value.decoded.offset
         && e.firstService == if e.llc.value.outcome == Hit then LLC else Memory
  }

  /** `current` continues the span of `previous` or starts the next source access. */
  predicate ValidNext(previous: CacheLineMapping, current: CacheLineMapping) {
    if current.sourceAccessOrdinal == previous.sourceAccessOrdinal then
      && SameSource(previous, current) && current.lineSpanOrdinal == previous.lineSpanOrdinal + 1
      && current.decoded.address > previous.decoded.address
    else current.sourceAccessOrdinal == previous.sourceAccessOrdinal + 1 && current.lineSpanOrdinal == 0
  }

  // ----- what acceptance means

  /** Some byte of the source range, at the same displacement in the object; the first row starts at the first byte. */
  ghost predicate AtDisplacement(m: CacheLineMapping, i: nat) {
    && i < m.sourceAccessSize && (m.lineSpanOrdinal == 0 ==> i == 0)
    && m.decoded.address == m.sourceLinkedByteAddress + i && m.objectByteOffset == m.sourceObjectByteOffset + i
  }

  lemma MappingAccepted(m: CacheLineMapping)
    ensures ValidMapping(m)
            <==> && m.objectId != "" && m.addressBasis == Absolute && m.operation in {Load, Store}
                 && m.sourceLinkedByteAddress + m.sourceAccessSize <= U64_MAX + 1
                 && exists i: nat :: AtDisplacement(m, i)
  {
    if ValidMapping(m) {
      assert AtDisplacement(m, m.decoded.address - m.sourceLinkedByteAddress);
    }
  }

  /** The row of a level is the row of another level but for the set and the tag. */
  predicate RemappedTo(row: CacheLineMapping, other: CacheLineMapping) {
    && other == row.(decoded := other.decoded) && other.decoded.address == row.decoded.address
    && other.decoded.block == row.decoded.block && other.decoded.offset == row.decoded.offset
  }

  /**
   * An accepted event names a byte of its source range, and its service follows from its outcomes: an L1 hit ends
   * there, any other access has an LLC row of the same line and is served there or by memory. A missing distance
   * means a cold miss.
   */
  lemma EventAccepted(e: HierarchyAccessEvent)
    ensures ValidEvent(e)
            <==> && ValidMapping(e.l1Mapping) && (e.l1.distance.None? <==> e.l1.outcome == ColdMiss)
                 && match e.firstService
                    case L1 => e.l1.outcome == Hit && e.llc.None? && e.llcMapping.None?
                    case _ =>
                      && e.l1.outcome != Hit && e.llc.Some? && e.llcMapping.Some?
                      && (e.llc.value.distance.None? <==> e.llc.value.outcome == ColdMiss)
                      && RemappedTo(e.l1Mapping, e.llcMapping.value)
                      && (e.firstService == LLC <==> e.llc.value.outcome == Hit)
  {
  }

  /** An accepted next row is the next span of the same access, further on, or the first span of the next access. */
  lemma NextAccepted(previous: CacheLineMapping, current: CacheLineMapping)
    requires ValidMapping(previous) && ValidMapping(current)
    ensures ValidNext(previous, current)
            <==> || (current == previous.(lineSpanOrdinal := previous.lineSpanOrdinal + 1, decoded := current.decoded,
                                          objectByteOffset := current.objectByteOffset)
                     && previous.decoded.address < current.decoded.address)
                 || (current.sourceAccessOrdinal, current.lineSpanOrdinal) == (previous.sourceAccessOrdinal + 1, 0)
  {
  }

  /** Accepted metadata describe a log that is whole, or cut at its limit and marked so. */
  lemma MetadataExactly(m: EventMetadata, events: seq<EventRecord>)
    ensures MetadataAccepted(m, events)
            <==> && Digest(m.analysisId) && m.emittedEvents == |events|
                 && if m.eventsTruncated then |events| == m.eventLimit < m.totalLineReferences
                    else |events| == m.totalLineReferences <= m.eventLimit
  {
  }

  datatype EventMetadata = EventMetadata(analysisId: string, eventLimit: nat, totalLineReferences: nat,
                                         emittedEvents: nat, eventsTruncated: bool)

  /** A SHA-256 digest in lowercase hexadecimal. */
  predicate Digest(text: string) {
    |text| == 64 && forall i :: 0 <= i < |text| ==> '0' <= text[i] <= '9' || 'a' <= text[i] <= 'f'
  }

  predicate StartsTask(m: CacheLineMapping) {
    m.sourceAccessOrdinal == 0 && m.lineSpanOrdinal == 0
  }

  /** The record at `i` is a valid event in order: a new task's first row, or the next row of the same task. */
  ghost predicate RecordAccepted(events: seq<EventRecord>, i: nat)
    requires i < |events|
  {
    && ValidEvent(events[i].event)
    && if i == 0 || events[i].taskId != events[i - 1].taskId then
         && events[i].taskId != "" && StartsTask(events[i].event.l1Mapping)
         && forall j :: 0 <= j < i ==> events[j].taskId != events[i].taskId
       else ValidNext(events[i - 1].event.l1Mapping, events[i].event.l1Mapping)
  }

  ghost predicate RecordsAccepted(events: seq<EventRecord>) {
    forall i :: 0 <= i < |events| ==> RecordAccepted(events, i)
  }

  predicate MetadataAccepted(m: EventMetadata, events: seq<EventRecord>) {
    && Digest(m.analysisId) && |events| == Min(m.eventLimit, m.totalLineReferences) == m.emittedEvents
    && (m.eventsTruncated <==> m.totalLineReferences > m.eventLimit)
  }

  /** The validation loop with its set of finished task identities. */
  method ValidateHierarchyEvents(m: EventMetadata, events: seq<EventRecord>) returns (ok: bool)
    ensures ok <==> MetadataAccepted(m, events) && RecordsAccepted(events)
  {
    hide ValidEvent, ValidNext;
    if !MetadataAccepted(m, events) {
      return false;
    }
    var tasks: set<string> := {};
    for i := 0 to |events|
      invariant forall j :: 0 <= j < i ==> RecordAccepted(events, j)
      invariant tasks == TasksBefore(events, i)
    {
      TasksStep(events, i);
      var record := events[i];
      if !ValidEvent(record.event) {
        assert !RecordAccepted(events, i);
        return false;
      }
      if i == 0 || record.taskId != events[i - 1].taskId {
        if record.taskId == "" || record.taskId in tasks || !StartsTask(record.event.l1Mapping) {
          assert !RecordAccepted(events, i);
          return false;
        }
        tasks := tasks + {record.taskId};
      } else if !ValidNext(events[i - 1].event.l1Mapping, record.event.l1Mapping) {
        assert !RecordAccepted(events, i);
        return false;
      }
    }
    ok := true;
  }

  ghost function TasksBefore(events: seq<EventRecord>, n: nat): (r: set<string>)
    requires n <= |events|
  {
    set j | 0 <= j < n :: events[j].taskId
  }

  lemma TasksStep(events: seq<EventRecord>, n: nat)
    requires n < |events|
    ensures TasksBefore(events, n + 1) == TasksBefore(events, n) + {events[n].taskId}
    ensures n > 0 && events[n].taskId == events[n - 1].taskId ==> TasksBefore(events, n + 1) == TasksBefore(events, n)
    ensures events[n].taskId in TasksBefore(events, n) <==>
              exists j :: 0 <= j < n && events[j].taskId == events[n].taskId
  {
  }

  // ----- rows of a task are in source and span order

  /** The rows start at the first line of the first access, follow on one by one, and end with access `sources - 1`. */
  ghost predicate RowsOrdered(rows: seq<CacheLineMapping>, sources: nat) {
    && (|rows| > 0 ==> StartsTask(rows[0]) && rows[|rows| - 1].sourceAccessOrdinal == sources - 1)
    && (sources > 0 ==> |rows| > 0)
    && (forall i :: 0 < i < |rows| ==> ValidNext(rows[i - 1], rows[i]))
    && forall i :: 0 <= i < |rows| ==> ValidMapping(rows[i])
  }

  lemma LinesOrdered(a: ResolvedAccess, ordinal: nat, g: CacheGeometry)
    requires Accepted(a, ordinal, g)
    ensures forall k :: 0 <= k < LineCount(a, g) ==>
              Lines(a, g)[k].sourceAccessOrdinal == ordinal && Lines(a, g)[k].lineSpanOrdinal == k
    ensures forall k :: 0 < k < LineCount(a, g) ==> ValidNext(Lines(a, g)[k - 1], Lines(a, g)[k])
    ensures forall k :: 0 <= k < LineCount(a, g) ==> ValidMapping(Lines(a, g)[k])
  {
    forall k | 0 <= k < LineCount(a, g)
      ensures ValidMapping(Lines(a, g)[k])
      ensures Lines(a, g)[k].decoded.address == LineAddress(a, g, k)
    {
      LineInRange(a, g, k);
    }
    forall k | 0 < k < LineCount(a, g)
      ensures LineAddress(a, g, k - 1) < LineAddress(a, g, k)
    {
      LineAddressIncreases(a, g, k);
    }
  }

  lemma LineAddressIncreases(a: ResolvedAccess, g: CacheGeometry, k: nat)
    requires Mappable(a, g) && 0 < k
    ensures LineAddress(a, g, k - 1) < LineAddress(a, g, k)
  {
    LineAddressGrows(a, g, k - 1);
    LineAddressGrows(a, g, k);
    if LineAddress(a, g, k) <= LineAddress(a, g, k - 1) {
      QuotientMonotone(LineAddress(a, g, k), LineAddress(a, g, k - 1), g.lineSize);
    }
  }

  lemma {:induction false} AllLinesOrdered(accesses: seq<ResolvedAccess>, g: CacheGeometry)
    requires ValidSource(accesses, g)
    ensures RowsOrdered(AllLines(accesses, g), |accesses|)
  {
    if |accesses| > 0 {
      hide Accepted, Lines, LineCount, ValidMapping, ValidNext;
      var n := |accesses| - 1;
      AllLinesOrdered(accesses[..n], g);
      LinesOrdered(accesses[n], n, g);
      OrderedAppend(AllLines(accesses[..n], g), Lines(accesses[n], g), n);
    }
  }

  /** Appending the lines of the next access keeps the order. */
  lemma OrderedAppend(rows: seq<CacheLineMapping>, lines: seq<CacheLineMapping>, ordinal: nat)
    requires RowsOrdered(rows, ordinal) && |lines| > 0
    requires forall k :: 0 <= k < |lines| ==> lines[k].sourceAccessOrdinal == ordinal && lines[k].lineSpanOrdinal == k
    requires forall k :: 0 < k < |lines| ==> ValidNext(lines[k - 1], lines[k])
    requires forall k :: 0 <= k < |lines| ==> ValidMapping(lines[k])
    ensures RowsOrdered(rows + lines, ordinal + 1)
  {
    hide ValidMapping;
    var all := rows + lines;
    if |rows| > 0 {
      assert ValidNext(rows[|rows| - 1], lines[0]);
    }
    forall i | 0 < i < |all|
      ensures ValidNext(all[i - 1], all[i])
    {
      if i > |rows| {
        assert all[i - 1] == lines[i - 1 - |rows|] && all[i] == lines[i - |rows|];
      }
    }
  }

  // ----- events of a task

  lemma ObservationsValid(rows: seq<CacheLineMapping>, row: CacheLineMapping, g: CacheGeometry)
    requires ValidGeometry(g)
    ensures ValidObservation(ObserveRow(rows, row, g))
  {
  }

  lemma SameLineSizeSameBlock(address: nat, h: AnalysisHierarchy)
    requires ValidHierarchy(h)
    ensures Decode(address, h.l1).block == Decode(address, h.llc).block
    ensures Decode(address, h.l1).offset == Decode(address, h.llc).offset
  {
  }

  lemma EventValid(rows: seq<CacheLineMapping>, row: CacheLineMapping, h: AnalysisHierarchy)
    requires ValidHierarchy(h) && ValidMapping(row) && row.decoded == Decode(row.decoded.address, h.l1)
    ensures ValidEvent(EventNext(rows, row, h)) && EventNext(rows, row, h).l1Mapping == row
  {
    hide ObserveRow, LlcRows, Decode, ValidGeometry;
    ObservationsValid(rows, row, h.l1);
    ObservationsValid(LlcRows(rows, h), Remapped(row, h.llc), h.llc);
    SameLineSizeSameBlock(row.decoded.address, h);
  }

  /** A nonempty task's records: valid, starting at the first row, in order. */
  ghost predicate TaskOrdered(records: seq<EventRecord>, id: string) {
    && (forall i :: 0 <= i < |records| ==> records[i].taskId == id && ValidEvent(records[i].event))
    && (|records| > 0 ==> StartsTask(records[0].event.l1Mapping))
    && forall i :: 0 < i < |records| ==> ValidNext(records[i - 1].event.l1Mapping, records[i].event.l1Mapping)
  }

  lemma TaskRecordsOrdered(t: SourceTask, h: AnalysisHierarchy)
    requires ValidHierarchy(h) && ValidTask(t, h)
    ensures TaskOrdered(TaskRecords(t, h), t.id)
  {
    hide ValidEvent, ValidNext, EventNext, Events, AllLines, ValidGeometry, ValidSource, ValidMapping, StartsTask;
    var rows := TaskLines(t, h);
    AllLinesOrdered(t.accesses, h.l1);
    ResultValidation.AllLinesDecoded(t.accesses, h.l1);
    forall i | 0 <= i < |rows|
      ensures TaskRecords(t, h)[i].event.l1Mapping == rows[i] && ValidEvent(TaskRecords(t, h)[i].event)
    {
      EventAt(rows, h, i);
      EventValid(rows[..i], rows[i], h);
    }
  }

  // ----- events of a module

  lemma {:induction false} RecordTask(tasks: seq<SourceTask>, h: AnalysisHierarchy, i: nat) returns (t: nat)
    requires ValidHierarchy(h) && ValidTasks(tasks, h) && i < |ModuleRecords(tasks, h)|
    ensures t < |tasks| && tasks[t].id == ModuleRecords(tasks, h)[i].taskId
  {
    hide ValidTask, ValidHierarchy, TaskRecords;
    t := |tasks| - 1;
    if i < |ModuleRecords(tasks[..t], h)| {
      t := RecordTask(tasks[..t], h, i);
    } else {
      TaskRecordsOrdered(tasks[t], h);
      TaskOfRecord(TaskRecords(tasks[t], h), tasks[t].id, i - |ModuleRecords(tasks[..t], h)|);
    }
  }

  lemma {:induction false} ModuleRecordsOrdered(tasks: seq<SourceTask>, h: AnalysisHierarchy)
    requires ValidHierarchy(h) && ValidTasks(tasks, h) && DistinctIds(tasks)
    ensures RecordsAccepted(ModuleRecords(tasks, h))
    ensures forall i :: 0 <= i < |ModuleRecords(tasks, h)| ==>
              exists t :: 0 <= t < |tasks| && tasks[t].id == ModuleRecords(tasks, h)[i].taskId
  {
    hide TaskRecords, ValidTask, ValidHierarchy, RecordsAccepted, TaskOrdered;
    forall i | 0 <= i < |ModuleRecords(tasks, h)|
      ensures exists t :: 0 <= t < |tasks| && tasks[t].id == ModuleRecords(tasks, h)[i].taskId
    {
      var t := RecordTask(tasks, h, i);
    }
    if |tasks| == 0 {
      NoRecords();
    } else {
      var n := |tasks| - 1;
      var front := ModuleRecords(tasks[..n], h);
      ModuleRecordsOrdered(tasks[..n], h);
      TaskRecordsOrdered(tasks[n], h);
      forall i | 0 <= i < |front|
        ensures front[i].taskId != tasks[n].id
      {
        var t := RecordTask(tasks[..n], h, i);
        assert tasks[t].id == front[i].taskId;
      }
      AppendTask(front, TaskRecords(tasks[n], h), tasks[n].id);
    }
  }

  lemma NoRecords()
    ensures RecordsAccepted([])
  {
  }

  lemma TaskOfRecord(records: seq<EventRecord>, id: string, i: nat)
    requires TaskOrdered(records, id) && i < |records|
    ensures records[i].taskId == id
  {
    hide ValidEvent, ValidNext, StartsTask;
  }

  lemma AppendTask(front: seq<EventRecord>, records: seq<EventRecord>, id: string)
    requires RecordsAccepted(front) && TaskOrdered(records, id) && id != ""
    requires forall i :: 0 <= i < |front| ==> front[i].taskId != id
    ensures RecordsAccepted(front + records)
  {
    hide ValidEvent, ValidNext, StartsTask;
    var all := front + records;
    forall i | 0 <= i < |all|
      ensures RecordAccepted(all, i)
    {
      if i < |front| {
        assert RecordAccepted(front, i);
      } else {
        assert all[i] == records[i - |front|];
      }
    }
  }

  lemma PrefixAccepted(events: seq<EventRecord>, n: nat)
    requires RecordsAccepted(events) && n <= |events|
    ensures RecordsAccepted(events[..n])
  {
    hide ValidEvent, ValidNext, StartsTask;
    forall i | 0 <= i < n
      ensures RecordAccepted(events[..n], i)
    {
      assert RecordAccepted(events, i);
    }
  }

  /** Whatever the limit, the log of a run is accepted together with the run's delivery metadata. */
  lemma LogAccepted(id: string, tasks: seq<SourceTask>, h: AnalysisHierarchy, limit: nat)
    requires Digest(id) && ValidHierarchy(h) && ValidTasks(tasks, h) && DistinctIds(tasks)
    ensures var all, total := ModuleRecords(tasks, h), ModuleCoverage(tasks, h).emittedLineReferences;
            var log := all[..Min(limit, |all|)];
            MetadataAccepted(EventMetadata(id, limit, total, |log|, |all| > limit), log) && RecordsAccepted(log)
  {
    hide RecordAccepted;
    ModuleRecordsOrdered(tasks, h);
    RecordsCountLines(tasks, h);
    PrefixAccepted(ModuleRecords(tasks, h), Min(limit, |ModuleRecords(tasks, h)|));
  }
}
