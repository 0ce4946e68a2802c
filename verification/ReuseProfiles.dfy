/** Whole-trace reuse profiles: the list-stack profiler, its offline refinement, and block composition. */
module ReuseProfiles {
  import opened Machine
  import opened Histogram
  import opened LruStack
  import opened Fenwick
  import opened OfflineRank
  import RankedStack

  type Address = string

  datatype ReuseProfile = ReuseProfile(histogram: map<nat, nat>, coldMisses: set<Address>)

  const EMPTY_PROFILE: ReuseProfile := ReuseProfile(map[], {})

  /** A profile with one more access at the given distance. */
  function Recorded(p: ReuseProfile, k: Address, distance: Option<nat>): (r: ReuseProfile) {
    match distance
    case None => p.(coldMisses := p.coldMisses + {k})
    case Some(d) => p.(histogram := Bumped(p.histogram, d))
  }

  /** The exact profile of a trace: each access recorded at its stack position. */
  function ProfileOf(trace: seq<Address>): (p: ReuseProfile) {
    if |trace| == 0 then EMPTY_PROFILE
    else
      var front, k := trace[..|trace| - 1], trace[|trace| - 1];
      Recorded(ProfileOf(front), k, Distance(StackAfter(front), k))
  }

  lemma ProfileNothing()
    ensures ProfileOf([]) == EMPTY_PROFILE && StackAfter<Address>([]) == []
  {
  }

  lemma ProfileExtend(front: seq<Address>, k: Address)
    ensures ProfileOf(front + [k]) == Recorded(ProfileOf(front), k, Distance(StackAfter(front), k))
  {
    assert (front + [k])[..|front|] == front;
  }

  /** The positions that reuse a key after exactly `d` distinct other keys. */
  ghost function ReusesAt(trace: seq<Address>, d: nat): (r: set<nat>) {
    set i: nat | i < |trace| && trace[i] in trace[..i] && |Newer(trace[..i], trace[i])| == d
  }

  lemma ReusesExtend(front: seq<Address>, k: Address, d: nat)
    ensures ReusesAt(front + [k], d)
            == ReusesAt(front, d) + if k in front && |Newer(front, k)| == d then {|front|} else {}
  {
    var trace := front + [k];
    assert forall i :: 0 <= i <= |front| ==> trace[..i] == front[..i];
    assert front[..|front|] == front;
  }

  /** The profile counts, for every distance, the reuses over that many distinct keys; and it lists every key. */
  lemma {:induction false} ProfileMeaning(trace: seq<Address>, d: nat)
    ensures ProfileOf(trace).coldMisses == Keys(trace)
    ensures At(ProfileOf(trace).histogram, d) == |ReusesAt(trace, d)|
    ensures d in ProfileOf(trace).histogram <==> ReusesAt(trace, d) != {}
  {
    if |trace| > 0 {
      hide Newer, Bumped;
      var front, k := trace[..|trace| - 1], trace[|trace| - 1];
      assert trace == front + [k];
      ProfileMeaning(front, d);
      ProfileExtend(front, k);
      ReusesExtend(front, k, d);
      StackAfterKeys(front);
      assert Keys(trace) == Keys(front) + {k};
      if k in front {
        DistanceCountsDistinctKeys(front, k);
        BumpedKeys(ProfileOf(front).histogram, |Newer(front, k)|);
      }
    } else {
      assert ReusesAt(trace, d) == {};
    }
  }

  lemma BumpedKeys(h: map<nat, nat>, d: nat)
    ensures Bumped(h, d).Keys == h.Keys + {d}
  {
  }

  /** The list-stack profiler. */
  method Calculate(trace: seq<Address>) returns (profile: ReuseProfile)
    ensures profile == ProfileOf(trace)
  {
    ProfileNothing();
    hide StackAfter, ProfileOf, IndexOf;
    profile := EMPTY_PROFILE;
    var stack: seq<Address> := [];
    for i := 0 to |trace|
      invariant stack == StackAfter(trace[..i]) && profile == ProfileOf(trace[..i])
    {
      var addr := trace[i];
      assert trace[..i + 1] == trace[..i] + [addr];
      ProfileExtend(trace[..i], addr);
      StackExtend(trace[..i], addr);
      if addr !in stack {
        profile := profile.(coldMisses := profile.coldMisses + {addr});
      } else {
        var dist := IndexOf(stack, addr);
        profile := profile.(histogram := profile.histogram[dist := At(profile.histogram, dist) + 1]);
        stack := stack[..dist] + stack[dist + 1..];
      }
      stack := [addr] + stack;
    }
    assert trace[..|trace|] == trace;
  }

  /** The offline profiler over a tree of positions finds the same profile. */
  method CalculateReuseProfile(trace: seq<Address>) returns (profile: ReuseProfile)
    ensures profile == ProfileOf(trace)
  {
    profile := EMPTY_PROFILE;
    var positions := new FenwickTree(|trace|);
    var lastSeen: map<Address, nat> := map[];
    ReadingNothing<Address>(|trace|);
    for index := 0 to |trace|
      invariant fresh(positions) && fresh(positions.tree)
      invariant positions.Valid() && |positions.weights| == |trace|
      invariant Reading(trace[..index], lastSeen, positions.weights)
      invariant profile == ProfileOf(trace[..index])
    {
      hide Reading, StackAfter, ProfileOf, Recorded, Distance, FenwickTree.Valid;
      var address := trace[index];
      assert trace[..index + 1] == trace[..index] + [address];
      ProfileExtend(trace[..index], address);
      var previous := RankedStack.Find(lastSeen, address);
      var distance := RankNext(positions, trace, previous, lastSeen, index);
      profile := Recorded(profile, address, distance);
      lastSeen := lastSeen[address := index + 1];
    }
    assert trace[..|trace|] == trace;
  }
}
