/** The offline exact cache-set reuse-distance analysis: rows grouped by set, then ranked set by set. */
module BatchCsrd {
  import opened Machine
  import opened LruStack
  import opened CacheAddress
  import opened CacheLevel
  import opened Fenwick
  import opened OfflineRank
  import RankedStack
  import Histogram

  datatype BatchError = InvalidGeometry | SetOutOfRange

  /** One row of a set: its place in the input and its tag. */
  datatype IndexedLine = IndexedLine(inputIndex: nat, tag: nat)

  datatype BatchCsrdResult = BatchCsrdResult(accesses: seq<Observation>, counts: Counts, sets: map<nat, Counts>)

  const DEFAULT_ACCESS: Observation := Observation(ColdMiss, None)

  // ----- rows, lines and blocks

  /** The block that a tag names within set `s`. */
  function BlockAt(tag: nat, sets: nat, s: nat): nat {
    tag * sets + s
  }

  function BlockOf(a: DecodedAddress, sets: nat): nat {
    BlockAt(a.tag, sets, a.setIndex)
  }

  function BlocksOf(rows: seq<DecodedAddress>, sets: nat): (b: seq<nat>)
    ensures |b| == |rows|
  {
    seq(|rows|, i requires 0 <= i < |rows| => BlockOf(rows[i], sets))
  }

  /** The rows of one set, in input order. */
  function LinesOf(rows: seq<DecodedAddress>, s: nat): (lines: seq<IndexedLine>) {
    if |rows| == 0 then []
    else
      var n := |rows| - 1;
      LinesOf(rows[..n], s) + if rows[n].setIndex == s then [IndexedLine(n, rows[n].tag)] else []
  }

  function Tags(lines: seq<IndexedLine>): (t: seq<nat>)
    ensures |t| == |lines|
  {
    seq(|lines|, j requires 0 <= j < |lines| => lines[j].tag)
  }

  lemma LinesExtend(rows: seq<DecodedAddress>, row: DecodedAddress, s: nat)
    ensures LinesOf(rows + [row], s)
            == LinesOf(rows, s) + if row.setIndex == s then [IndexedLine(|rows|, row.tag)] else []
  {
    assert (rows + [row])[..|rows|] == rows;
  }

  /** The line at place `j` was appended when its own row was read. */
  lemma {:induction false} LineOrigin(rows: seq<DecodedAddress>, s: nat, j: nat)
    requires j < |LinesOf(rows, s)|
    ensures var line := LinesOf(rows, s)[j];
            && line.inputIndex < |rows| && rows[line.inputIndex].setIndex == s
            && rows[line.inputIndex].tag == line.tag
            && LinesOf(rows, s)[..j] == LinesOf(rows[..line.inputIndex], s)
  {
    var n := |rows| - 1;
    var front := LinesOf(rows[..n], s);
    if j < |front| {
      LineOrigin(rows[..n], s, j);
      var line := front[j];
      assert rows[..n][..line.inputIndex] == rows[..line.inputIndex];
      assert LinesOf(rows, s)[..j] == front[..j];
    } else {
      assert LinesOf(rows, s)[..j] == front;
    }
  }

  /** Lines are listed by increasing input place, and every row of the set is listed. */
  lemma {:induction false} LinesAreTheSet(rows: seq<DecodedAddress>, s: nat)
    ensures forall i, j :: 0 <= i < j < |LinesOf(rows, s)| ==>
              LinesOf(rows, s)[i].inputIndex < LinesOf(rows, s)[j].inputIndex
    ensures forall j :: 0 <= j < |LinesOf(rows, s)| ==> LinesOf(rows, s)[j].inputIndex < |rows|
    ensures forall i :: 0 <= i < |rows| && rows[i].setIndex == s ==>
              exists j :: 0 <= j < |LinesOf(rows, s)| && LinesOf(rows, s)[j].inputIndex == i
  {
    if |rows| > 0 {
      var n := |rows| - 1;
      var front, lines := LinesOf(rows[..n], s), LinesOf(rows, s);
      LinesAreTheSet(rows[..n], s);
      forall i | 0 <= i < |rows| && rows[i].setIndex == s
        ensures exists j :: 0 <= j < |lines| && lines[j].inputIndex == i
      {
        if i < n {
          assert rows[..n][i].setIndex == s;
          var j :| 0 <= j < |front| && front[j].inputIndex == i;
          assert lines[j] == front[j];
        } else {
          assert lines[|front|].inputIndex == i;
        }
      }
    }
  }

  // ----- tags within a set name blocks

  /** Every row's set index is below the set count. */
  predicate InRange(rows: seq<DecodedAddress>, sets: nat) {
    forall i :: 0 <= i < |rows| ==> rows[i].setIndex < sets
  }

  lemma BlockParts(a: DecodedAddress, sets: nat)
    requires a.setIndex < sets
    ensures BlockOf(a, sets) / sets == a.tag && BlockOf(a, sets) % sets == a.setIndex
  {
    assert BlockOf(a, sets) == sets * a.tag + a.setIndex;
    DivisionUnique(BlockOf(a, sets), sets, a.tag, a.setIndex);
  }

  function Blocks(tags: seq<nat>, sets: nat, s: nat): (b: seq<nat>)
    ensures |b| == |tags|
  {
    seq(|tags|, i requires 0 <= i < |tags| => BlockAt(tags[i], sets, s))
  }

  /** The blocks of a set's stream are its tags, renamed. */
  lemma {:induction false} StreamOfLines(rows: seq<DecodedAddress>, sets: nat, s: nat)
    requires sets > 0 && InRange(rows, sets)
    ensures SetStream(BlocksOf(rows, sets), sets, s) == Blocks(Tags(LinesOf(rows, s)), sets, s)
  {
    if |rows| > 0 {
      var n := |rows| - 1;
      StreamOfLines(rows[..n], sets, s);
      assert BlocksOf(rows, sets)[..n] == BlocksOf(rows[..n], sets);
      BlockParts(rows[n], sets);
    }
  }

  lemma TagRenaming(a: nat, b: nat, sets: nat, s: nat)
    requires sets > 0
    ensures BlockAt(a, sets, s) == BlockAt(b, sets, s) <==> a == b
  {
    if a < b {
      assert (b - a) * sets > 0;
    } else if b < a {
      assert (a - b) * sets > 0;
    }
  }

  /** Renaming tags to blocks keeps positions. */
  lemma IndexRenamed(stack: seq<nat>, tag: nat, sets: nat, s: nat)
    requires sets > 0
    ensures tag in stack <==> BlockAt(tag, sets, s) in Blocks(stack, sets, s)
    ensures tag in stack ==> IndexOf(stack, tag) == IndexOf(Blocks(stack, sets, s), BlockAt(tag, sets, s))
  {
    hide BlockAt;
    var b := Blocks(stack, sets, s);
    forall i | 0 <= i < |stack|
      ensures stack[i] == tag <==> b[i] == BlockAt(tag, sets, s)
    {
      TagRenaming(stack[i], tag, sets, s);
    }
    if tag in stack {
      assert b[IndexOf(stack, tag)] == BlockAt(tag, sets, s);
    }
  }

  /** Renaming tags to blocks commutes with touching a stack. */
  lemma TouchRenamed(stack: seq<nat>, tag: nat, sets: nat, s: nat)
    requires sets > 0
    ensures Blocks(Touch(stack, tag), sets, s) == Touch(Blocks(stack, sets, s), BlockAt(tag, sets, s))
  {
    IndexRenamed(stack, tag, sets, s);
    hide BlockAt, IndexOf;
    var b := Blocks(stack, sets, s);
    assert Blocks(Without(stack, tag), sets, s) == Without(b, BlockAt(tag, sets, s));
  }

  lemma {:induction false} StackRenamed(tags: seq<nat>, sets: nat, s: nat)
    requires sets > 0
    ensures StackAfter(Blocks(tags, sets, s)) == Blocks(StackAfter(tags), sets, s)
  {
    hide Touch, IndexOf, BlockAt;
    if |tags| > 0 {
      var n := |tags| - 1;
      StackRenamed(tags[..n], sets, s);
      TouchRenamed(StackAfter(tags[..n]), tags[n], sets, s);
      var b := Blocks(tags, sets, s);
      assert b[..n] == Blocks(tags[..n], sets, s);
      assert StackAfter(b) == Touch(StackAfter(b[..n]), b[n]);
      assert StackAfter(tags) == Touch(StackAfter(tags[..n]), tags[n]);
    } else {
      assert Blocks(StackAfter(tags), sets, s) == [];
    }
  }

  /** What the offline loop computes for line `j` of a set. */
  ghost function LineObservation(lines: seq<IndexedLine>, j: nat, ways: nat): (o: Observation)
    requires j < |lines|
  {
    Classify(Distance(StackAfter(Tags(lines)[..j]), lines[j].tag), ways)
  }

  /** Ranking by tag within a set is the level's observation of the block. */
  lemma LineObservationIsObserved(rows: seq<DecodedAddress>, sets: nat, ways: nat, s: nat, j: nat)
    requires sets > 0 && InRange(rows, sets) && j < |LinesOf(rows, s)|
    ensures LinesOf(rows, s)[j].inputIndex < |rows|
    ensures LineObservation(LinesOf(rows, s), j, ways)
            == Observations(BlocksOf(rows, sets), sets, ways)[LinesOf(rows, s)[j].inputIndex]
  {
    hide SetStream, StackAfter, Classify, Touch, IndexOf;
    var lines := LinesOf(rows, s);
    LineOrigin(rows, s, j);
    var i := lines[j].inputIndex;
    var front := rows[..i];
    assert Tags(lines)[..j] == Tags(LinesOf(front, s));
    assert BlocksOf(rows, sets)[..i] == BlocksOf(front, sets);
    BlockParts(rows[i], sets);
    StreamOfLines(front, sets, s);
    StackRenamed(Tags(LinesOf(front, s)), sets, s);
    IndexRenamed(StackAfter(Tags(LinesOf(front, s))), lines[j].tag, sets, s);
  }

  // ----- the analysis

  /** The analysis has filled exactly the rows in `done`. */
  ghost predicate Filled(r: BatchCsrdResult, obs: seq<Observation>, done: set<nat>) {
    && |r.accesses| == |obs|
    && r.counts == Tally(obs, done)
    && forall i :: 0 <= i < |obs| ==> r.accesses[i] == if i in done then obs[i] else DEFAULT_ACCESS
  }

  /** Record a finite distance at one row of the result and of its set. */
  method RecordReuse(result: BatchCsrdResult, set_: Counts, inputIndex: nat, distance: nat, ways: nat)
    returns (r: BatchCsrdResult, s: Counts)
    requires inputIndex < |result.accesses|
    ensures var o := Classify(Some(distance), ways);
            && r == result.(accesses := result.accesses[inputIndex := o], counts := Counted(result.counts, o))
            && s == Counted(set_, o)
  {
    var counts := result.counts.(histogram := Histogram.Bumped(result.counts.histogram, distance));
    s := set_.(histogram := Histogram.Bumped(set_.histogram, distance));
    var access := result.accesses[inputIndex].(distance := Some(distance));
    if distance < ways {
      access := access.(outcome := Hit);
      counts, s := counts.(hits := counts.hits + 1), s.(hits := s.hits + 1);
    } else {
      access := access.(outcome := ReplacementMiss);
      counts, s := counts.(replacements := counts.replacements + 1), s.(replacements := s.replacements + 1);
    }
    r := result.(accesses := result.accesses[inputIndex := access], counts := counts);
  }

  /** Record one ranked line. */
  method RecordLine(result: BatchCsrdResult, set_: Counts, inputIndex: nat, distance: Option<nat>, ways: nat)
    returns (r: BatchCsrdResult, s: Counts)
    requires inputIndex < |result.accesses| && result.accesses[inputIndex] == DEFAULT_ACCESS
    ensures var o := Classify(distance, ways);
            && r == result.(accesses := result.accesses[inputIndex := o], counts := Counted(result.counts, o))
            && s == Counted(set_, o)
  {
    if distance.None? {
      var access := result.accesses[inputIndex].(outcome := ColdMiss);
      r := result.(accesses := result.accesses[inputIndex := access],
                   counts := result.counts.(cold := result.counts.cold + 1));
      s := set_.(cold := set_.cold + 1);
    } else {
      r, s := RecordReuse(result, set_, inputIndex, distance.value, ways);
    }
  }

  /** The input places of the first `n` lines. */
  ghost function Places(lines: seq<IndexedLine>, n: nat): (r: set<nat>)
    requires n <= |lines|
  {
    set j | 0 <= j < n :: lines[j].inputIndex
  }

  lemma PlacesExtend(lines: seq<IndexedLine>, n: nat)
    requires n < |lines|
    ensures Places(lines, n + 1) == Places(lines, n) + {lines[n].inputIndex}
  {
  }

  /** The lines name distinct rows, none done before, and `obs` is what ranking them yields. */
  ghost predicate Rankable(lines: seq<IndexedLine>, obs: seq<Observation>, done: set<nat>, ways: nat) {
    && (forall i, j :: 0 <= i < j < |lines| ==> lines[i].inputIndex < lines[j].inputIndex)
    && forall j :: 0 <= j < |lines| ==>
         && lines[j].inputIndex < |obs| && lines[j].inputIndex !in done
         && obs[lines[j].inputIndex] == LineObservation(lines, j, ways)
  }

  lemma LineIsNew(lines: seq<IndexedLine>, obs: seq<Observation>, done: set<nat>, ways: nat, n: nat)
    requires Rankable(lines, obs, done, ways) && n < |lines|
    ensures lines[n].inputIndex < |obs|
    ensures lines[n].inputIndex !in done + Places(lines, n) && lines[n].inputIndex !in Places(lines, n)
  {
  }

  /** One recorded line fills its row, in the whole result and in its set's counts. */
  lemma FilledStep(r: BatchCsrdResult, s: Counts, lines: seq<IndexedLine>, obs: seq<Observation>,
                   done: set<nat>, ways: nat, n: nat)
    requires Rankable(lines, obs, done, ways) && n < |lines|
    requires Filled(r, obs, done + Places(lines, n)) && s == Tally(obs, Places(lines, n))
    ensures lines[n].inputIndex < |obs| && r.accesses[lines[n].inputIndex] == DEFAULT_ACCESS
    ensures var o := obs[lines[n].inputIndex];
            && Filled(r.(accesses := r.accesses[lines[n].inputIndex := o], counts := Counted(r.counts, o)),
                      obs, done + Places(lines, n + 1))
            && Counted(s, o) == Tally(obs, Places(lines, n + 1))
  {
    hide Tally, Counted;
    var at := lines[n].inputIndex;
    LineIsNew(lines, obs, done, ways, n);
    PlacesExtend(lines, n);
    assert done + Places(lines, n + 1) == done + Places(lines, n) + {at};
    TallyAdd(obs, done + Places(lines, n), at);
    TallyAdd(obs, Places(lines, n), at);
  }

  /** Rank the lines of one set and fill their rows. */
  method AnalyzeSet(lines: seq<IndexedLine>, ways: nat, result: BatchCsrdResult,
                    ghost obs: seq<Observation>, ghost done: set<nat>)
    returns (r: BatchCsrdResult, s: Counts)
    requires Rankable(lines, obs, done, ways) && Filled(result, obs, done)
    ensures Filled(r, obs, done + Places(lines, |lines|)) && r.sets == result.sets
    ensures s == Tally(obs, Places(lines, |lines|))
  {
    hide Rankable, Filled, Tally, Reading, StackAfter;
    r, s := result, NO_COUNTS;
    TallyNothing(obs);
    ghost var tags := Tags(lines);
    var positions := new FenwickTree(|lines|);
    var lastSeen: map<nat, nat> := map[];
    ReadingNothing<nat>(|lines|);
    assert done + Places(lines, 0) == done && Places(lines, 0) == {};
    for index := 0 to |lines|
      invariant fresh(positions) && fresh(positions.tree)
      invariant positions.Valid() && |positions.weights| == |lines|
      invariant Reading(tags[..index], lastSeen, positions.weights)
      invariant Filled(r, obs, done + Places(lines, index)) && r.sets == result.sets
      invariant s == Tally(obs, Places(lines, index))
    {
      var line := lines[index];
      FilledStep(r, s, lines, obs, done, ways, index);
      RankedAt(lines, obs, done, ways, index);
      var previous := RankedStack.Find(lastSeen, line.tag);
      var distance := RankNext(positions, tags, previous, lastSeen, index);
      FilledSize(r, obs, done + Places(lines, index));
      r, s := RecordLine(r, s, line.inputIndex, distance, ways);
      lastSeen := lastSeen[line.tag := index + 1];
    }
  }

  lemma FilledSize(r: BatchCsrdResult, obs: seq<Observation>, done: set<nat>)
    requires Filled(r, obs, done)
    ensures |r.accesses| == |obs|
  {
  }

  lemma RankedAt(lines: seq<IndexedLine>, obs: seq<Observation>, done: set<nat>, ways: nat, j: nat)
    requires Rankable(lines, obs, done, ways) && j < |lines|
    ensures lines[j].inputIndex < |obs| && obs[lines[j].inputIndex] == LineObservation(lines, j, ways)
  {
  }

  // ----- the whole batch

  ghost function SetsOf(rows: seq<DecodedAddress>): (r: set<nat>) {
    set i | 0 <= i < |rows| :: rows[i].setIndex
  }

  /** The rows of the given sets. */
  ghost function RowsOfSets(rows: seq<DecodedAddress>, sets: set<nat>): (r: set<nat>) {
    set i: nat | i < |rows| && rows[i].setIndex in sets
  }

  /** Group the rows by set; the first out-of-range set index fails the analysis. */
  method GroupBySet(rows: seq<DecodedAddress>, setCount: nat)
    returns (r: Result<map<nat, seq<IndexedLine>>, BatchError>)
    ensures r.Err? <==> !InRange(rows, setCount)
    ensures r.Err? ==> r.error == SetOutOfRange
    ensures r.Ok? ==> r.value.Keys == SetsOf(rows) && forall s :: s in r.value ==> r.value[s] == LinesOf(rows, s)
  {
    var linesBySet: map<nat, seq<IndexedLine>> := map[];
    for index := 0 to |rows|
      invariant InRange(rows[..index], setCount)
      invariant linesBySet.Keys == SetsOf(rows[..index])
      invariant forall s :: s in linesBySet ==> linesBySet[s] == LinesOf(rows[..index], s)
    {
      var line := rows[index];
      if line.setIndex >= setCount {
        return Err(SetOutOfRange);
      }
      GroupStep(rows[..index], line);
      assert rows[..index + 1] == rows[..index] + [line];
      var before := if line.setIndex in linesBySet then linesBySet[line.setIndex] else [];
      linesBySet := linesBySet[line.setIndex := before + [IndexedLine(index, line.tag)]];
    }
    assert rows[..|rows|] == rows;
    r := Ok(linesBySet);
  }

  lemma GroupStep(front: seq<DecodedAddress>, row: DecodedAddress)
    ensures SetsOf(front + [row]) == SetsOf(front) + {row.setIndex}
    ensures row.setIndex !in SetsOf(front) ==> LinesOf(front, row.setIndex) == []
    ensures forall s :: LinesOf(front + [row], s)
                        == LinesOf(front, s) + if row.setIndex == s then [IndexedLine(|front|, row.tag)] else []
  {
    var rows := front + [row];
    forall s
      ensures LinesOf(rows, s) == LinesOf(front, s) + if row.setIndex == s then [IndexedLine(|front|, row.tag)] else []
    {
      LinesExtend(front, row, s);
    }
    if row.setIndex !in SetsOf(front) {
      NoLines(front, row.setIndex);
    }
    assert forall i :: 0 <= i < |front| ==> rows[i] == front[i];
    assert rows[|front|] == row;
  }

  lemma {:induction false} NoLines(rows: seq<DecodedAddress>, s: nat)
    requires s !in SetsOf(rows)
    ensures LinesOf(rows, s) == []
  {
    if |rows| > 0 {
      var n := |rows| - 1;
      assert rows[n].setIndex in SetsOf(rows);
      assert SetsOf(rows[..n]) <= SetsOf(rows);
      NoLines(rows[..n], s);
    }
  }

  /** The lines of a set are rankable rows of their own, and cover exactly its rows. */
  lemma SetIsRankable(rows: seq<DecodedAddress>, sets: nat, ways: nat, s: nat, done: set<nat>)
    requires sets > 0 && InRange(rows, sets) && s !in done
    ensures Rankable(LinesOf(rows, s), Observations(BlocksOf(rows, sets), sets, ways), RowsOfSets(rows, done), ways)
    ensures Places(LinesOf(rows, s), |LinesOf(rows, s)|) == RowsOfSets(rows, {s})
  {
    hide LinesOf, LineObservation, Observations;
    var lines := LinesOf(rows, s);
    LinesAreTheSet(rows, s);
    forall j | 0 <= j < |lines|
      ensures rows[lines[j].inputIndex].setIndex == s
      ensures Observations(BlocksOf(rows, sets), sets, ways)[lines[j].inputIndex] == LineObservation(lines, j, ways)
    {
      LineOrigin(rows, s, j);
      LineObservationIsObserved(rows, sets, ways, s, j);
    }
  }

  /** Analyse every set; the result is the level's observations in input order, with their counters. */
  method AnalyzeBatchCsrd(rows: seq<DecodedAddress>, g: CacheGeometry) returns (r: Result<BatchCsrdResult, BatchError>)
    ensures !ValidGeometry(g) ==> r == Err(InvalidGeometry)
    ensures ValidGeometry(g) ==> (r == Err(SetOutOfRange) <==> !InRange(rows, SetCount(g)))
    ensures ValidGeometry(g) && InRange(rows, SetCount(g)) ==>
              var blocks, sets := BlocksOf(rows, SetCount(g)), SetCount(g);
              && r.Ok? && r.value.accesses == Observations(blocks, sets, g.associativity)
              && r.value.counts == LevelCounts(blocks, sets, g.associativity)
              && r.value.sets.Keys == SetsOf(rows)
              && forall s :: s in r.value.sets ==>
                   r.value.sets[s] == Tally(Observations(blocks, sets, g.associativity), RowsOfSets(rows, {s}))
  {
    if !ValidGeometry(g) {
      return Err(InvalidGeometry);
    }
    var setCount := SetCount(g);
    var grouped := GroupBySet(rows, setCount);
    if grouped.Err? {
      return Err(grouped.error);
    }
    var result := AnalyzeGroups(rows, setCount, g.associativity, grouped.value);
    r := Ok(result);
  }

  method AnalyzeGroups(rows: seq<DecodedAddress>, setCount: nat, ways: nat, linesBySet: map<nat, seq<IndexedLine>>)
    returns (result: BatchCsrdResult)
    requires setCount > 0 && InRange(rows, setCount)
    requires linesBySet.Keys == SetsOf(rows) && forall s :: s in linesBySet ==> linesBySet[s] == LinesOf(rows, s)
    ensures result.accesses == Observations(BlocksOf(rows, setCount), setCount, ways)
    ensures result.counts == LevelCounts(BlocksOf(rows, setCount), setCount, ways)
    ensures result.sets.Keys == SetsOf(rows)
    ensures forall s :: s in result.sets ==>
              result.sets[s] == Tally(Observations(BlocksOf(rows, setCount), setCount, ways), RowsOfSets(rows, {s}))
  {
    ghost var obs := Observations(BlocksOf(rows, setCount), setCount, ways);
    result := BatchCsrdResult(seq(|rows|, _ => DEFAULT_ACCESS), NO_COUNTS, map[]);
    AnalyzedNothing(rows, obs);
    hide Observations, AnalyzedSets, LinesOf, SetsOf, RowsOfSets;
    var rest := linesBySet.Keys;
    ghost var done: set<nat> := {};
    while rest != {}
      invariant rest <= linesBySet.Keys
      invariant done == linesBySet.Keys - rest
      invariant AnalyzedSets(result, rows, obs, done)
      decreases rest
    {
      var s :| s in rest;
      result := FillSet(rows, setCount, ways, s, linesBySet[s], result, done);
      MoveToDone(linesBySet.Keys, rest, done, s);
      rest, done := rest - {s}, done + {s};
    }
    assert done == SetsOf(rows);
    AnalyzedAll(result, rows, obs);
  }

  lemma MoveToDone(all: set<nat>, rest: set<nat>, done: set<nat>, s: nat)
    requires rest <= all && done == all - rest && s in rest
    ensures rest - {s} <= all && done + {s} == all - (rest - {s})
  {
  }

  /** Exactly the rows and set counts of the sets in `done` are in the result. */
  ghost predicate AnalyzedSets(r: BatchCsrdResult, rows: seq<DecodedAddress>, obs: seq<Observation>, done: set<nat>) {
    && Filled(r, obs, RowsOfSets(rows, done))
    && r.sets.Keys == done
    && forall s :: s in done ==> r.sets[s] == Tally(obs, RowsOfSets(rows, {s}))
  }

  lemma AnalyzedNothing(rows: seq<DecodedAddress>, obs: seq<Observation>)
    ensures AnalyzedSets(BatchCsrdResult(seq(|obs|, _ => DEFAULT_ACCESS), NO_COUNTS, map[]), rows, obs, {})
  {
    TallyNothing(obs);
    AllSetsAllRows(rows);
  }

  lemma AnalyzedAll(r: BatchCsrdResult, rows: seq<DecodedAddress>, obs: seq<Observation>)
    requires AnalyzedSets(r, rows, obs, SetsOf(rows)) && |obs| == |rows|
    ensures r.accesses == obs && r.counts == Tally(obs, Rows(|obs|)) && r.sets.Keys == SetsOf(rows)
    ensures forall s :: s in r.sets ==> r.sets[s] == Tally(obs, RowsOfSets(rows, {s}))
  {
    AllSetsAllRows(rows);
  }

  lemma AllSetsAllRows(rows: seq<DecodedAddress>)
    ensures RowsOfSets(rows, {}) == {} && RowsOfSets(rows, SetsOf(rows)) == Rows(|rows|)
  {
  }

  /** Analyse one set and enter its counts under its index. */
  method FillSet(rows: seq<DecodedAddress>, setCount: nat, ways: nat, s: nat, lines: seq<IndexedLine>,
                 result: BatchCsrdResult, ghost done: set<nat>) returns (r: BatchCsrdResult)
    requires setCount > 0 && InRange(rows, setCount) && s !in done && lines == LinesOf(rows, s)
    requires AnalyzedSets(result, rows, Observations(BlocksOf(rows, setCount), setCount, ways), done)
    ensures AnalyzedSets(r, rows, Observations(BlocksOf(rows, setCount), setCount, ways), done + {s})
  {
    hide Observations, Tally, LinesOf, Rankable, Filled, Places;
    ghost var obs := Observations(BlocksOf(rows, setCount), setCount, ways);
    SetIsRankable(rows, setCount, ways, s, done);
    var counts;
    r, counts := AnalyzeSet(lines, ways, result, obs, RowsOfSets(rows, done));
    assert RowsOfSets(rows, done) + RowsOfSets(rows, {s}) == RowsOfSets(rows, done + {s});
    FilledSets(r, r.(sets := r.sets[s := counts]), obs, RowsOfSets(rows, done + {s}));
    r := r.(sets := r.sets[s := counts]);
  }

  lemma FilledSets(a: BatchCsrdResult, b: BatchCsrdResult, obs: seq<Observation>, done: set<nat>)
    requires a.accesses == b.accesses && a.counts == b.counts
    ensures Filled(a, obs, done) <==> Filled(b, obs, done)
  {
  }
}
