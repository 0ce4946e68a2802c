/** Composing the profiles of consecutive blocks into the profile of the whole trace. */
module BlockMerging {
  import opened Histogram
  import opened LruStack
  import opened ReuseProfiles

  /** A recency stack after a further run of accesses. */
  function TouchAll(s: seq<Address>, block: seq<Address>): (r: seq<Address>) {
    if |block| == 0 then s else Touch(TouchAll(s, block[..|block| - 1]), block[|block| - 1])
  }

  /** The distances of the accesses whose previous access lies before the block. */
  function CrossReuses(s: seq<Address>, block: seq<Address>): (h: map<nat, nat>) {
    if |block| == 0 then map[]
    else
      var front, k := block[..|block| - 1], block[|block| - 1];
      var before := TouchAll(s, front);
      if k in s && k !in front && k in before then Bumped(CrossReuses(s, front), IndexOf(before, k))
      else CrossReuses(s, front)
  }

  lemma BlockExtend(s: seq<Address>, front: seq<Address>, k: Address)
    ensures TouchAll(s, front + [k]) == Touch(TouchAll(s, front), k)
    ensures CrossReuses(s, front + [k])
            == if k in s && k !in front && k in TouchAll(s, front)
               then Bumped(CrossReuses(s, front), IndexOf(TouchAll(s, front), k)) else CrossReuses(s, front)
  {
    assert (front + [k])[..|front|] == front;
  }

  lemma {:induction false} TouchAllKeys(s: seq<Address>, block: seq<Address>)
    requires Distinct(s)
    ensures Distinct(TouchAll(s, block))
    ensures forall k :: k in TouchAll(s, block) <==> k in s || k in block
  {
    if |block| > 0 {
      var front, k := block[..|block| - 1], block[|block| - 1];
      assert block == front + [k];
      TouchAllKeys(s, front);
      TouchKeeps(TouchAll(s, front), k);
    }
  }

  lemma {:induction false} TouchAllIsStack(trace: seq<Address>, block: seq<Address>)
    ensures StackAfter(trace + block) == TouchAll(StackAfter(trace), block)
  {
    if |block| == 0 {
      assert trace + block == trace;
    } else {
      var front, k := block[..|block| - 1], block[|block| - 1];
      assert trace + block == (trace + front) + [k];
      TouchAllIsStack(trace, front);
      StackExtend(trace + front, k);
    }
  }

  lemma {:induction false} LastOccurrenceShift(trace: seq<Address>, block: seq<Address>, k: Address)
    requires k in block
    ensures LastOccurrence(trace + block, k) == |trace| + LastOccurrence(block, k)
  {
    var n := |block| - 1;
    assert (trace + block)[..|trace| + n] == trace + block[..n];
    if block[n] != k {
      assert block == block[..n] + [block[n]];
      LastOccurrenceShift(trace, block[..n], k);
    }
  }

  lemma NewerShift(trace: seq<Address>, block: seq<Address>, k: Address)
    requires k in block
    ensures Newer(trace + block, k) == Newer(block, k)
  {
    hide LastOccurrence;
    LastOccurrenceShift(trace, block, k);
    var p := LastOccurrence(block, k);
    assert (trace + block)[|trace| + p + 1..] == block[p + 1..];
  }

  /** A reuse inside a block has the same distance in the block alone. */
  lemma InnerReuse(trace: seq<Address>, block: seq<Address>, k: Address)
    requires k in block
    ensures Distance(StackAfter(trace + block), k) == Distance(StackAfter(block), k)
  {
    hide StackAfter, Distance, Newer;
    DistanceCountsDistinctKeys(trace + block, k);
    DistanceCountsDistinctKeys(block, k);
    NewerShift(trace, block, k);
  }

  /**
   * Composition: the profile of a trace followed by a block is the trace's profile, plus the
   * block's own, plus the reuses that cross the boundary.
   */
  lemma {:induction false} ProfileComposition(trace: seq<Address>, block: seq<Address>)
    ensures ProfileOf(trace + block).histogram
            == Plus(Plus(ProfileOf(trace).histogram, ProfileOf(block).histogram),
                    CrossReuses(StackAfter(trace), block))
    ensures ProfileOf(trace + block).coldMisses == ProfileOf(trace).coldMisses + ProfileOf(block).coldMisses
  {
    if |block| == 0 {
      assert trace + block == trace;
      SameHistogram(ProfileOf(trace).histogram,
                    Plus(Plus(ProfileOf(trace).histogram, map[]), map[]));
    } else {
      var front, k := block[..|block| - 1], block[|block| - 1];
      assert block == front + [k];
      ProfileComposition(trace, front);
      ComposeOne(trace, front, k);
    }
  }

  lemma ComposeOne(trace: seq<Address>, front: seq<Address>, k: Address)
    requires ProfileOf(trace + front).histogram
             == Plus(Plus(ProfileOf(trace).histogram, ProfileOf(front).histogram),
                 CrossReuses(StackAfter(trace), front))
    requires ProfileOf(trace + front).coldMisses == ProfileOf(trace).coldMisses + ProfileOf(front).coldMisses
    ensures ProfileOf(trace + (front + [k])).histogram
            == Plus(Plus(ProfileOf(trace).histogram, ProfileOf(front + [k]).histogram),
                    CrossReuses(StackAfter(trace), front + [k]))
    ensures ProfileOf(trace + (front + [k])).coldMisses
            == ProfileOf(trace).coldMisses + ProfileOf(front + [k]).coldMisses
  {
    hide ProfileOf, StackAfter, CrossReuses, TouchAll, Plus, Bumped, Touch, IndexOf;
    assert trace + (front + [k]) == (trace + front) + [k];
    var t, b, c := ProfileOf(trace).histogram, ProfileOf(front).histogram, CrossReuses(StackAfter(trace), front);
    ProfileExtend(trace + front, k);
    ProfileExtend(front, k);
    BlockExtend(StackAfter(trace), front, k);
    TouchAllIsStack(trace, front);
    StackAfterKeys(trace);
    StackAfterKeys(front);
    StackAfterKeys(trace + front);
    ProfileKeys(trace);
    if k in front {
      InnerReuse(trace, front, k);
      var d := Distance(StackAfter(front), k).value;
      PlusBump(t, b, d);
      PlusBump(Plus(t, b), c, d);
    } else if k in trace {
      PlusBump(Plus(t, b), c, Distance(StackAfter(trace + front), k).value);
    }
  }

  lemma {:induction false} ProfileKeys(trace: seq<Address>)
    ensures ProfileOf(trace).coldMisses == Keys(trace)
  {
    ProfileMeaning(trace, 0);
  }

  class BlockMerger {
    var globalProfile: ReuseProfile
    var globalLruStack: seq<Address>

    ghost predicate Valid()
      reads this
    {
      Distinct(globalLruStack)
    }

    /** The merger holds the exact profile and recency stack of `trace`. */
    ghost predicate Exact(trace: seq<Address>)
      reads this
    {
      globalProfile == ProfileOf(trace) && globalLruStack == StackAfter(trace)
    }

    constructor ()
      ensures Valid() && Exact([])
    {
      globalProfile, globalLruStack := EMPTY_PROFILE, [];
    }

    method AdjustColdMisses(blockColdMisses: set<Address>)
      modifies this`globalProfile
      ensures globalProfile
              == old(globalProfile).(coldMisses := old(globalProfile).coldMisses + blockColdMisses)
    {
      var rest := blockColdMisses;
      while rest != {}
        invariant rest <= blockColdMisses
        invariant globalProfile.histogram == old(globalProfile).histogram
        invariant globalProfile.coldMisses == old(globalProfile).coldMisses + (blockColdMisses - rest)
        decreases rest
      {
        var addr :| addr in rest;
        if addr !in globalProfile.coldMisses {
          globalProfile := globalProfile.(coldMisses := globalProfile.coldMisses + {addr});
        }
        rest := rest - {addr};
      }
    }

    method AdjustArrayReuses(blockTrace: seq<Address>) returns (adjusted: map<nat, nat>)
      requires Valid()
      modifies this`globalLruStack
      ensures Valid() && globalLruStack == TouchAll(old(globalLruStack), blockTrace)
      ensures adjusted == CrossReuses(old(globalLruStack), blockTrace)
    {
      hide TouchAll, CrossReuses, IndexOf, Bumped, Distinct;
      ghost var s := globalLruStack;
      BlockNothing(s);
      adjusted := map[];
      var priorAddrs := set k | k in globalLruStack;
      for i := 0 to |blockTrace|
        invariant globalLruStack == TouchAll(s, blockTrace[..i])
        invariant adjusted == CrossReuses(s, blockTrace[..i])
        invariant forall k :: k in priorAddrs <==> k in s && k !in blockTrace[..i]
      {
        var addr := blockTrace[i];
        assert blockTrace[..i + 1] == blockTrace[..i] + [addr];
        BlockExtend(s, blockTrace[..i], addr);
        TouchAllKeys(s, blockTrace[..i]);
        if addr in globalLruStack {
          var dist := IndexOf(globalLruStack, addr);
          if addr in priorAddrs {
            adjusted := Bumped(adjusted, dist);
            priorAddrs := priorAddrs - {addr};
          }
          globalLruStack := globalLruStack[..dist] + globalLruStack[dist + 1..];
        }
        globalLruStack := [addr] + globalLruStack;
      }
      assert blockTrace[..|blockTrace|] == blockTrace;
      TouchAllKeys(s, blockTrace);
    }

    method AddFrequencies(h: map<nat, nat>)
      modifies this`globalProfile
      ensures globalProfile == old(globalProfile).(histogram := Plus(old(globalProfile).histogram, h))
    {
      ghost var was := globalProfile.histogram;
      var rest := h.Keys;
      while rest != {}
        invariant rest <= h.Keys
        invariant globalProfile.coldMisses == old(globalProfile).coldMisses
        invariant globalProfile.histogram.Keys == was.Keys + (h.Keys - rest)
        invariant forall d :: At(globalProfile.histogram, d) == At(was, d) + if d in rest then 0 else At(h, d)
        decreases rest
      {
        var rd :| rd in rest;
        var frequency := At(globalProfile.histogram, rd) + h[rd];
        globalProfile := globalProfile.(histogram := globalProfile.histogram[rd := frequency]);
        rest := rest - {rd};
      }
      SameHistogram(globalProfile.histogram, Plus(was, h));
    }

    /** Merge one block. When everything so far and the block's profile are exact, so is the result. */
    method MergeBlock(blockProfile: ReuseProfile, blockTrace: seq<Address>, ghost trace: seq<Address>)
      requires Valid()
      modifies this
      ensures Valid() && globalLruStack == TouchAll(old(globalLruStack), blockTrace)
      ensures globalProfile.coldMisses == old(globalProfile).coldMisses + blockProfile.coldMisses
      ensures globalProfile.histogram
              == Plus(Plus(old(globalProfile).histogram, blockProfile.histogram),
                      CrossReuses(old(globalLruStack), blockTrace))
      ensures old(Exact(trace)) && blockProfile == ProfileOf(blockTrace) ==> Exact(trace + blockTrace)
    {
      hide TouchAll, CrossReuses, ProfileOf, StackAfter, Plus;
      AddFrequencies(blockProfile.histogram);
      AdjustColdMisses(blockProfile.coldMisses);
      var crossReuses := AdjustArrayReuses(blockTrace);
      AddFrequencies(crossReuses);
      ProfileComposition(trace, blockTrace);
      TouchAllIsStack(trace, blockTrace);
    }
  }

  lemma BlockNothing(s: seq<Address>)
    ensures TouchAll(s, []) == s && CrossReuses(s, []) == map[]
  {
  }

  function Concat(blocks: seq<seq<Address>>): seq<Address> {
    if |blocks| == 0 then [] else Concat(blocks[..|blocks| - 1]) + blocks[|blocks| - 1]
  }

  /** Folding every block of a partitioned trace through a fresh merger profiles the whole trace. */
  method MergeBlocks(blocks: seq<seq<Address>>) returns (profile: ReuseProfile)
    ensures profile == ProfileOf(Concat(blocks))
  {
    var merger := new BlockMerger();
    for i := 0 to |blocks|
      invariant fresh(merger) && merger.Valid() && merger.Exact(Concat(blocks[..i]))
    {
      hide ProfileOf, StackAfter;
      assert blocks[..i + 1][..i] == blocks[..i];
      var block := Calculate(blocks[i]);
      merger.MergeBlock(block, blocks[i], Concat(blocks[..i]));
    }
    assert blocks[..|blocks|] == blocks;
    profile := merger.globalProfile;
  }
}
