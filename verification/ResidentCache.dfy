/** An explicit cache: bounded resident lists per set, evicting the least recently used block. */
module ResidentCache {
  import opened Machine
  import opened LruStack
  import opened CacheAddress
  import opened CacheLevel
  import opened LineMapping
  import opened HierarchyModel

  /** One reference to a set of `ways` resident blocks: to the front, and the last one out when the set overflows. */
  function Refer(resident: seq<nat>, block: nat, ways: nat): (r: seq<nat>) {
    if block in resident then [block] + Without(resident, block)
    else ([block] + resident)[..Min(ways, |resident| + 1)]
  }

  /** The resident blocks of a set after its stream. */
  function ResidentAfter(stream: seq<nat>, ways: nat): (r: seq<nat>) {
    if |stream| == 0 then []
    else Refer(ResidentAfter(stream[..|stream| - 1], ways), stream[|stream| - 1], ways)
  }

  function Resident(blocks: seq<nat>, sets: nat, ways: nat, s: nat): (r: seq<nat>)
    requires sets > 0
  {
    ResidentAfter(SetStream(blocks, sets, s), ways)
  }

  /** The first `ways` entries of a stack. */
  function Top(stack: seq<nat>, ways: nat): (r: seq<nat>) {
    stack[..Min(ways, |stack|)]
  }

  lemma InTop(stack: seq<nat>, ways: nat, block: nat)
    requires Distinct(stack)
    ensures block in Top(stack, ways) <==> block in stack && IndexOf(stack, block) < ways
    ensures block in Top(stack, ways) ==> IndexOf(Top(stack, ways), block) == IndexOf(stack, block)
  {
    if block in Top(stack, ways) {
      var i :| 0 <= i < |Top(stack, ways)| && stack[i] == block;
      IndexOfUnique(stack, i);
      IndexOfUnique(Top(stack, ways), i);
    }
    if block in stack && IndexOf(stack, block) < ways {
      assert Top(stack, ways)[IndexOf(stack, block)] == block;
    }
  }

  /** Popping an entry and cutting the stack commute. */
  lemma PopInside(stack: seq<nat>, i: nat, cut: nat)
    requires i < cut <= |stack|
    ensures stack[..cut][..i] + stack[..cut][i + 1..] == (stack[..i] + stack[i + 1..])[..cut - 1]
  {
    var inner, outer := stack[..cut][..i] + stack[..cut][i + 1..], (stack[..i] + stack[i + 1..])[..cut - 1];
    assert |inner| == |outer| == cut - 1;
    forall k | 0 <= k < cut - 1 ensures inner[k] == outer[k] {
      assert inner[k] == if k < i then stack[k] else stack[k + 1];
    }
  }

  lemma PopOutside(stack: seq<nat>, block: nat, cut: nat)
    requires cut <= |stack|
    requires block in stack ==> cut <= IndexOf(stack, block)
    ensures cut <= |Without(stack, block)| && Without(stack, block)[..cut] == stack[..cut]
  {
  }

  lemma PushTop(block: nat, rest: seq<nat>, cut: nat)
    requires cut <= |rest|
    ensures ([block] + rest)[..cut + 1] == [block] + rest[..cut]
  {
  }

  /** A bounded reference keeps exactly the top of the touched stack. */
  lemma ReferKeepsTop(stack: seq<nat>, block: nat, ways: nat)
    requires Distinct(stack) && ways > 0
    ensures Refer(Top(stack, ways), block, ways) == Top(Touch(stack, block), ways)
  {
    InTop(stack, ways, block);
    TouchKeeps(stack, block);
    var top, without := Top(stack, ways), Without(stack, block);
    hide IndexOf, Distinct;
    if block in top {
      PopInside(stack, IndexOf(stack, block), |top|);
      PushTop(block, without, |top| - 1);
    } else {
      var cut := Min(ways, |stack| + 1) - 1;
      PopOutside(stack, block, cut);
      PushTop(block, without, cut);
      PushTop(block, top, cut);
    }
  }

  /** The resident list is always the first `ways` entries of the unbounded recency stack. */
  lemma {:induction false} ResidentIsTop(stream: seq<nat>, ways: nat)
    requires ways > 0
    ensures ResidentAfter(stream, ways) == Top(StackAfter(stream), ways)
    ensures |ResidentAfter(stream, ways)| <= ways
  {
    if |stream| > 0 {
      var front, block := stream[..|stream| - 1], stream[|stream| - 1];
      ResidentIsTop(front, ways);
      StackAfterKeys(front);
      ReferKeepsTop(StackAfter(front), block, ways);
    }
  }

  /** A block is resident exactly when its stack distance is below the associativity. */
  lemma HitIsResident(blocks: seq<nat>, block: nat, sets: nat, ways: nat)
    requires sets > 0 && ways > 0
    ensures ObserveNext(blocks, block, sets, ways).outcome == Hit
            <==> block in Resident(blocks, sets, ways, block % sets)
  {
    var stream := SetStream(blocks, sets, block % sets);
    ResidentIsTop(stream, ways);
    StackAfterKeys(stream);
    InTop(StackAfter(stream), ways, block);
  }

  // ----- two levels of explicit caches

  predicate Resides(rows: seq<CacheLineMapping>, row: CacheLineMapping, g: CacheGeometry)
    requires ValidGeometry(g)
  {
    row.decoded.block in Resident(BlocksOfRows(rows), SetCount(g), g.associativity, row.decoded.block % SetCount(g))
  }

  /** The references that the explicit L1 forwards: those whose block is not resident when they arrive. */
  function Forwarded(rows: seq<CacheLineMapping>, h: AnalysisHierarchy): (r: seq<CacheLineMapping>)
    requires ValidHierarchy(h)
  {
    if |rows| == 0 then []
    else
      var front, row := rows[..|rows| - 1], rows[|rows| - 1];
      Forwarded(front, h) + if Resides(front, row, h.l1) then [] else [Remapped(row, h.llc)]
  }

  /** The first level whose explicit cache holds the reference; the LLC is touched only by forwarded references. */
  function SimulatedService(rows: seq<CacheLineMapping>, row: CacheLineMapping, h: AnalysisHierarchy): FirstService
    requires ValidHierarchy(h)
  {
    if Resides(rows, row, h.l1) then L1
    else if Resides(Forwarded(rows, h), Remapped(row, h.llc), h.llc) then LLC
    else Memory
  }

  lemma ResidesIsHit(rows: seq<CacheLineMapping>, row: CacheLineMapping, g: CacheGeometry)
    requires ValidGeometry(g)
    ensures Resides(rows, row, g) <==> ObserveRow(rows, row, g).outcome == Hit
  {
    HitIsResident(BlocksOfRows(rows), row.decoded.block, SetCount(g), g.associativity);
  }

  lemma {:induction false} ForwardedIsMissStream(rows: seq<CacheLineMapping>, h: AnalysisHierarchy)
    requires ValidHierarchy(h)
    ensures Forwarded(rows, h) == LlcRows(rows, h)
  {
    if |rows| > 0 {
      hide Resides, ObserveRow, LlcRows, Remapped;
      var front, row := rows[..|rows| - 1], rows[|rows| - 1];
      assert rows == front + [row];
      ForwardedIsMissStream(front, h);
      ResidesIsHit(front, row, h.l1);
      LlcRowsExtend(front, row, h);
    } else {
      assert Missed(rows, LevelObservations(rows, h.l1)) == [];
    }
  }

  /** The distance rule at both levels serves every reference where two explicit LRU caches would. */
  lemma ServiceIsSimulated(rows: seq<CacheLineMapping>, row: CacheLineMapping, h: AnalysisHierarchy)
    requires ValidHierarchy(h)
    ensures EventNext(rows, row, h).firstService == SimulatedService(rows, row, h)
  {
    hide Resides, ObserveRow, LlcRows, Forwarded;
    ForwardedIsMissStream(rows, h);
    ResidesIsHit(rows, row, h.l1);
    ResidesIsHit(LlcRows(rows, h), Remapped(row, h.llc), h.llc);
  }
}
