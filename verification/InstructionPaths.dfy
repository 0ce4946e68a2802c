/** What inline instruction counts mean: sums over call paths, and rejection exactly of reachable cycles. */
module InstructionPaths {
  import opened Machine
  import opened InstructionTally
  import opened InstructionCounts

  // ----- inline call sequences

  /** The calls of a definition that reads without error. */
  ghost function CallsOf(name: string, definitions: Definitions): (calls: seq<Call>) {
    if name in definitions && ReadFunction(definitions[name]).Ok? then ReadFunction(definitions[name]).value.1 else []
  }

  /** From a function, take the inline calls at the given positions of the call lists, one after another. */
  ghost predicate IsSequence(sites: seq<nat>, name: string, definitions: Definitions) {
    sites == []
    || (sites[0] < |CallsOf(name, definitions)| && CallsOf(name, definitions)[sites[0]].expand
        && IsSequence(sites[1..], CallsOf(name, definitions)[sites[0]].callee, definitions))
  }

  /** Where a call sequence ends. */
  ghost function EndOf(sites: seq<nat>, name: string, definitions: Definitions): (end: string)
    requires IsSequence(sites, name, definitions)
  {
    if sites == [] then name else EndOf(sites[1..], CallsOf(name, definitions)[sites[0]].callee, definitions)
  }

  /** How often a call sequence is executed: the product of the executions of its calls. */
  ghost function WeightOf(sites: seq<nat>, name: string, definitions: Definitions): (weight: nat)
    requires IsSequence(sites, name, definitions)
  {
    if sites == [] then 1
    else
      var call := CallsOf(name, definitions)[sites[0]];
      WeightOf(sites[1..], call.callee, definitions) * call.executions
  }

  // ----- call paths

  /** A call sequence with its last function and the product of its calls' executions. */
  datatype CallPath = CallPath(sites: seq<nat>, end: string, weight: nat)

  function Prefixed(paths: seq<CallPath>, site: nat, executions: nat): (r: seq<CallPath>)
    ensures |r| == |paths| && forall i :: 0 <= i < |paths| ==>
            r[i] == CallPath([site] + paths[i].sites, paths[i].end, paths[i].weight * executions)
  {
    seq(|paths|, i requires 0 <= i < |paths| =>
      CallPath([site] + paths[i].sites, paths[i].end, paths[i].weight * executions))
  }

  /** All inline call paths from a function, the empty one first. */
  ghost function Paths(name: string, definitions: Definitions, stack: set<string>): (r: seq<CallPath>)
    requires name in definitions
    decreases definitions.Keys - stack, 0, 0
  {
    if name in stack || ReadFunction(definitions[name]).Err? then []
    else [CallPath([], name, 1)] + CallPaths(ReadFunction(definitions[name]).value.1, 0, definitions, stack + {name})
  }

  /** The paths that start with one of the calls from position `k` on. */
  ghost function CallPaths(calls: seq<Call>, k: nat, definitions: Definitions, stack: set<string>):
    (r: seq<CallPath>)
    requires k <= |calls|
    decreases definitions.Keys - stack, 1, |calls| - k
  {
    if k == |calls| then []
    else
      (if calls[k].expand && calls[k].callee in definitions
       then Prefixed(Paths(calls[k].callee, definitions, stack), k, calls[k].executions) else [])
      + CallPaths(calls, k + 1, definitions, stack)
  }

  /** The own counts of a function for one opcode. */
  ghost function Own(name: string, definitions: Definitions, opcode: string): (c: Count) {
    if name in definitions && ReadFunction(definitions[name]).Ok?
    then At(ReadFunction(definitions[name]).value.0.opcodes, opcode) else Count(0, 0)
  }

  /** Static counts once per path; dynamic counts times the path's weight. */
  ghost function SumPaths(paths: seq<CallPath>, definitions: Definitions, opcode: string): (c: Count) {
    if paths == [] then Count(0, 0)
    else
      var own, rest := Own(paths[0].end, definitions, opcode), SumPaths(paths[1..], definitions, opcode);
      Count(own.stat + rest.stat, own.dyn * paths[0].weight + rest.dyn)
  }

  lemma {:induction false} SumAppend(a: seq<CallPath>, b: seq<CallPath>, definitions: Definitions, opcode: string)
    ensures var x, y := SumPaths(a, definitions, opcode), SumPaths(b, definitions, opcode);
            SumPaths(a + b, definitions, opcode) == Count(x.stat + y.stat, x.dyn + y.dyn)
  {
    if a == [] {
      assert a + b == b;
    } else {
      assert (a + b)[1..] == a[1..] + b;
      SumAppend(a[1..], b, definitions, opcode);
    }
  }

  lemma {:induction false} SumPrefixed(paths: seq<CallPath>, site: nat, executions: nat, definitions: Definitions,
                                       opcode: string)
    ensures var sum := SumPaths(paths, definitions, opcode);
            SumPaths(Prefixed(paths, site, executions), definitions, opcode) == Count(sum.stat, sum.dyn * executions)
  {
    hide Own;
    if paths != [] {
      assert Prefixed(paths, site, executions)[1..] == Prefixed(paths[1..], site, executions);
      SumPrefixed(paths[1..], site, executions, definitions, opcode);
      var own, rest := Own(paths[0].end, definitions, opcode), SumPaths(paths[1..], definitions, opcode);
      Associate(own.dyn, paths[0].weight, executions);
      Distribute(own.dyn * paths[0].weight, rest.dyn, executions);
    }
  }

  lemma Associate(a: nat, b: nat, c: nat)
    ensures a * (b * c) == (a * b) * c
  {
  }

  /** Every opcode count of an expansion is the sum over all inline call paths. */
  lemma {:induction false} CountIsPathSum(name: string, definitions: Definitions, stack: set<string>, opcode: string)
    requires name in definitions && Expand(name, definitions, stack).Ok?
    ensures At(Expand(name, definitions, stack).value.opcodes, opcode)
            == SumPaths(Paths(name, definitions, stack), definitions, opcode)
    decreases definitions.Keys - stack, 0, 0
  {
    hide ReadFunction, ExpandCalls, CallPaths;
    var (self, calls) := ReadFunction(definitions[name]).value;
    assert calls[0..] == calls;
    CallsArePathSums(calls, 0, self, definitions, stack + {name}, opcode);
    OwnPath(name, definitions, opcode);
    SumAppend([CallPath([], name, 1)], CallPaths(calls, 0, definitions, stack + {name}), definitions, opcode);
  }

  lemma OwnPath(name: string, definitions: Definitions, opcode: string)
    ensures SumPaths([CallPath([], name, 1)], definitions, opcode) == Own(name, definitions, opcode)
  {
    hide Own;
    assert [CallPath([], name, 1)][1..] == [];
  }

  lemma {:induction false} CallsArePathSums(calls: seq<Call>, k: nat, counts: Counts, definitions: Definitions,
                                            stack: set<string>, opcode: string)
    requires k <= |calls| && ExpandCalls(calls[k..], counts, definitions, stack).Ok?
    ensures var before, more := At(counts.opcodes, opcode),
            SumPaths(CallPaths(calls, k, definitions, stack), definitions, opcode);
            At(ExpandCalls(calls[k..], counts, definitions, stack).value.opcodes, opcode)
            == Count(before.stat + more.stat, before.dyn + more.dyn)
    decreases definitions.Keys - stack, 1, |calls| - k
  {
    hide Expand, Paths, IncludeFits, Included, At, SumPaths, Prefixed;
    if k == |calls| {
      NoPaths(definitions, opcode);
    } else {
      var call, rest := calls[k], CallPaths(calls, k + 1, definitions, stack);
      assert calls[k..][1..] == calls[k + 1..];
      if call.expand {
        CountIsPathSum(call.callee, definitions, stack, opcode);
        var callee := Expand(call.callee, definitions, stack).value;
        IncludedAt(counts, callee, call.executions, opcode);
        CallsArePathSums(calls, k + 1, Included(counts, callee, call.executions), definitions, stack, opcode);
        var paths := Paths(call.callee, definitions, stack);
        SumPrefixed(paths, k, call.executions, definitions, opcode);
        SumAppend(Prefixed(paths, k, call.executions), rest, definitions, opcode);
      } else {
        CallsArePathSums(calls, k + 1, counts, definitions, stack, opcode);
        assert [] + rest == rest;
      }
    }
  }

  lemma NoPaths(definitions: Definitions, opcode: string)
    ensures SumPaths([], definitions, opcode) == Count(0, 0)
  {
  }

  // ----- the paths are the call sequences, each once

  /** A path is a call sequence from a function, with its end and its weight. */
  ghost predicate IsPathOf(path: CallPath, name: string, definitions: Definitions) {
    && IsSequence(path.sites, name, definitions) && path.end == EndOf(path.sites, name, definitions)
    && path.weight == WeightOf(path.sites, name, definitions)
  }

  predicate Lists(paths: seq<CallPath>, sites: seq<nat>) {
    exists i :: 0 <= i < |paths| && paths[i].sites == sites
  }

  ghost predicate SitesOnce(paths: seq<CallPath>) {
    forall i, j :: 0 <= i < j < |paths| ==> paths[i].sites != paths[j].sites
  }

  /** The paths listed for a function that expands without error are its call sequences, each exactly once. */
  lemma {:induction false} PathsAreSequences(name: string, definitions: Definitions, stack: set<string>)
    requires name in definitions && Expand(name, definitions, stack).Ok?
    ensures var paths := Paths(name, definitions, stack);
            && (forall i :: 0 <= i < |paths| ==> IsPathOf(paths[i], name, definitions))
            && SitesOnce(paths)
            && forall sites :: IsSequence(sites, name, definitions) <==> Lists(paths, sites)
    decreases definitions.Keys - stack, 0, 0
  {
    hide ReadFunction, ExpandCalls, CallPaths, IsPathOf, Lists, IsSequence;
    var (self, calls) := ReadFunction(definitions[name]).value;
    assert calls[0..] == calls && CallsOf(name, definitions) == calls;
    CallPathsAreSequences(name, calls, 0, self, definitions, stack + {name});
    var rest := CallPaths(calls, 0, definitions, stack + {name});
    assert Paths(name, definitions, stack) == [CallPath([], name, 1)] + rest;
    EmptyFirst(name, calls, rest, definitions);
  }

  /** The sequences that start at or after a position, and their paths. */
  ghost predicate SequencesFrom(paths: seq<CallPath>, name: string, k: nat, definitions: Definitions) {
    && (forall i :: 0 <= i < |paths| ==> paths[i].sites != [] && IsPathOf(paths[i], name, definitions))
    && SitesOnce(paths)
    && forall sites :: (IsSequence(sites, name, definitions) && sites != [] && sites[0] >= k) <==> Lists(paths, sites)
  }

  lemma EmptyFirst(name: string, calls: seq<Call>, rest: seq<CallPath>, definitions: Definitions)
    requires SequencesFrom(rest, name, 0, definitions)
    ensures var paths := [CallPath([], name, 1)] + rest;
            && (forall i :: 0 <= i < |paths| ==> IsPathOf(paths[i], name, definitions))
            && SitesOnce(paths)
            && forall sites :: IsSequence(sites, name, definitions) <==> Lists(paths, sites)
  {
    hide CallsOf;
    var paths := [CallPath([], name, 1)] + rest;
    forall sites: seq<nat>
      ensures Lists(paths, sites) <==> sites == [] || Lists(rest, sites)
    {
      var one := [CallPath([], name, 1)];
      ListsAppend(one, rest, sites);
      assert one[0].sites == [];
    }
    forall i | 0 <= i < |paths|
      ensures IsPathOf(paths[i], name, definitions)
      ensures i > 0 ==> paths[i].sites != []
    {
      assert i > 0 ==> paths[i] == rest[i - 1];
    }
    forall i, j | 0 <= i < j < |paths|
      ensures paths[i].sites != paths[j].sites
    {
      if i > 0 {
        assert rest[i - 1].sites != rest[j - 1].sites;
      }
    }
  }

  lemma ListsAppend(a: seq<CallPath>, b: seq<CallPath>, sites: seq<nat>)
    ensures Lists(a + b, sites) <==> Lists(a, sites) || Lists(b, sites)
  {
    var all := a + b;
    if Lists(a, sites) {
      var i :| 0 <= i < |a| && a[i].sites == sites;
      assert all[i].sites == sites;
    }
    if Lists(b, sites) {
      var i :| 0 <= i < |b| && b[i].sites == sites;
      assert all[|a| + i].sites == sites;
    }
    if Lists(all, sites) {
      var i :| 0 <= i < |all| && all[i].sites == sites;
      assert all[i] == if i < |a| then a[i] else b[i - |a|];
    }
  }

  lemma {:induction false} CallPathsAreSequences(name: string, calls: seq<Call>, k: nat, counts: Counts,
                                                 definitions: Definitions, stack: set<string>)
    requires k <= |calls| && CallsOf(name, definitions) == calls
    requires ExpandCalls(calls[k..], counts, definitions, stack).Ok?
    ensures SequencesFrom(CallPaths(calls, k, definitions, stack), name, k, definitions)
    decreases definitions.Keys - stack, 1, |calls| - k
  {
    hide Expand, Paths, IncludeFits, Included, CallsOf, IsPathOf, Lists, SitesOnce, SequencesFrom;
    if k == |calls| {
      NoSequences(name, calls, definitions);
    } else {
      var call, rest := calls[k], CallPaths(calls, k + 1, definitions, stack);
      assert calls[k..][1..] == calls[k + 1..];
      if call.expand {
        PathsAreSequences(call.callee, definitions, stack);
        var callee := Expand(call.callee, definitions, stack).value;
        CallPathsAreSequences(name, calls, k + 1, Included(counts, callee, call.executions), definitions, stack);
        PrefixedSequences(name, calls, k, Paths(call.callee, definitions, stack), rest, definitions);
      } else {
        CallPathsAreSequences(name, calls, k + 1, counts, definitions, stack);
        assert [] + rest == rest;
        SkippedSequences(name, calls, k, rest, definitions);
      }
    }
  }

  lemma NoSequences(name: string, calls: seq<Call>, definitions: Definitions)
    requires CallsOf(name, definitions) == calls
    ensures SequencesFrom([], name, |calls|, definitions)
  {
    hide CallsOf;
  }

  lemma SkippedSequences(name: string, calls: seq<Call>, k: nat, rest: seq<CallPath>, definitions: Definitions)
    requires k < |calls| && CallsOf(name, definitions) == calls && !calls[k].expand
    requires SequencesFrom(rest, name, k + 1, definitions)
    ensures SequencesFrom(rest, name, k, definitions)
  {
    hide CallsOf, IsPathOf, Lists, SitesOnce;
  }

  /** A sequence that starts with call `k` is that call and a sequence of its callee. */
  lemma SequenceTail(sites: seq<nat>, name: string, calls: seq<Call>, k: nat, definitions: Definitions)
    requires k < |calls| && CallsOf(name, definitions) == calls && calls[k].expand
    ensures IsSequence([k] + sites, name, definitions) <==> IsSequence(sites, calls[k].callee, definitions)
    ensures IsSequence(sites, calls[k].callee, definitions) ==>
              && EndOf([k] + sites, name, definitions) == EndOf(sites, calls[k].callee, definitions)
              && WeightOf([k] + sites, name, definitions)
                 == WeightOf(sites, calls[k].callee, definitions) * calls[k].executions
  {
    hide CallsOf;
    assert ([k] + sites)[1..] == sites;
  }

  lemma ListsItself(paths: seq<CallPath>, i: nat)
    requires i < |paths|
    ensures Lists(paths, paths[i].sites)
  {
  }

  lemma PrefixedLists(paths: seq<CallPath>, k: nat, executions: nat, sites: seq<nat>)
    ensures Lists(Prefixed(paths, k, executions), sites)
            <==> sites != [] && sites[0] == k && Lists(paths, sites[1..])
  {
    var all := Prefixed(paths, k, executions);
    if Lists(all, sites) {
      var i :| 0 <= i < |all| && all[i].sites == sites;
      assert sites[1..] == paths[i].sites;
    }
    if sites != [] && sites[0] == k && Lists(paths, sites[1..]) {
      var i :| 0 <= i < |paths| && paths[i].sites == sites[1..];
      assert all[i].sites == [k] + sites[1..] == sites;
    }
  }

  lemma PrefixedOnce(paths: seq<CallPath>, k: nat, executions: nat, rest: seq<CallPath>)
    requires SitesOnce(paths) && SitesOnce(rest)
    requires forall i :: 0 <= i < |rest| ==> rest[i].sites != [] && rest[i].sites[0] > k
    ensures SitesOnce(Prefixed(paths, k, executions) + rest)
  {
    var first := Prefixed(paths, k, executions);
    var all := first + rest;
    forall i, j | 0 <= i < j < |all|
      ensures all[i].sites != all[j].sites
    {
      if j < |first| {
        assert all[i].sites[1..] == paths[i].sites && all[j].sites[1..] == paths[j].sites;
      } else if i >= |first| {
        assert rest[i - |first|].sites != rest[j - |first|].sites;
      } else {
        assert all[i].sites[0] == k && all[j] == rest[j - |first|];
      }
    }
  }

  lemma PrefixedPaths(name: string, calls: seq<Call>, k: nat, paths: seq<CallPath>, rest: seq<CallPath>,
                      definitions: Definitions, i: nat)
    requires k < |calls| && CallsOf(name, definitions) == calls && calls[k].expand
    requires forall i :: 0 <= i < |paths| ==> IsPathOf(paths[i], calls[k].callee, definitions)
    requires forall i :: 0 <= i < |rest| ==> rest[i].sites != [] && IsPathOf(rest[i], name, definitions)
    requires i < |paths| + |rest|
    ensures var all := Prefixed(paths, k, calls[k].executions) + rest;
            all[i].sites != [] && IsPathOf(all[i], name, definitions)
  {
    hide CallsOf, IsSequence, EndOf, WeightOf;
    if i < |paths| {
      SequenceTail(paths[i].sites, name, calls, k, definitions);
    } else {
      assert (Prefixed(paths, k, calls[k].executions) + rest)[i] == rest[i - |paths|];
    }
  }

  lemma PrefixedSequences(name: string, calls: seq<Call>, k: nat, paths: seq<CallPath>, rest: seq<CallPath>,
                          definitions: Definitions)
    requires k < |calls| && CallsOf(name, definitions) == calls && calls[k].expand
    requires SequencesFrom(rest, name, k + 1, definitions)
    requires SitesOnce(paths) && forall i :: 0 <= i < |paths| ==> IsPathOf(paths[i], calls[k].callee, definitions)
    requires forall sites :: IsSequence(sites, calls[k].callee, definitions) <==> Lists(paths, sites)
    ensures SequencesFrom(Prefixed(paths, k, calls[k].executions) + rest, name, k, definitions)
  {
    hide CallsOf, IsPathOf, IsSequence, Lists, SitesOnce;
    var first := Prefixed(paths, k, calls[k].executions);
    var all := first + rest;
    forall i | 0 <= i < |rest|
      ensures rest[i].sites[0] > k
    {
      ListsItself(rest, i);
    }
    PrefixedOnce(paths, k, calls[k].executions, rest);
    forall i | 0 <= i < |all|
      ensures all[i].sites != [] && IsPathOf(all[i], name, definitions)
    {
      PrefixedPaths(name, calls, k, paths, rest, definitions, i);
    }
    forall sites: seq<nat>
      ensures (IsSequence(sites, name, definitions) && sites != [] && sites[0] >= k) <==> Lists(all, sites)
    {
      ListsAppend(first, rest, sites);
      PrefixedLists(paths, k, calls[k].executions, sites);
      if sites != [] && sites[0] == k {
        assert [k] + sites[1..] == sites;
        SequenceTail(sites[1..], name, calls, k, definitions);
      }
    }
  }

  // ----- cycles

  /** A walk along inline calls. */
  ghost predicate IsWalk(walk: seq<string>, definitions: Definitions) {
    walk != [] && forall i :: 0 <= i < |walk| - 1 ==> Edge(walk[i], walk[i + 1], definitions)
  }

  /** The functions a call sequence visits. */
  ghost function VisitedBy(sites: seq<nat>, name: string, definitions: Definitions): (walk: seq<string>)
    requires IsSequence(sites, name, definitions)
    ensures walk != [] && walk[0] == name
  {
    [name]
    + if sites == [] then [] else VisitedBy(sites[1..], CallsOf(name, definitions)[sites[0]].callee, definitions)
  }

  /** Call sequences walk along inline calls. */
  lemma {:induction false} SequenceWalks(sites: seq<nat>, name: string, definitions: Definitions)
    requires IsSequence(sites, name, definitions)
    ensures var walk := VisitedBy(sites, name, definitions);
            IsWalk(walk, definitions) && walk[|walk| - 1] == EndOf(sites, name, definitions)
  {
    hide ReadFunction;
    if sites != [] {
      var call := CallsOf(name, definitions)[sites[0]];
      var walk, rest := VisitedBy(sites, name, definitions), VisitedBy(sites[1..], call.callee, definitions);
      SequenceWalks(sites[1..], call.callee, definitions);
      assert Edge(name, call.callee, definitions);
      EdgeThenWalk(name, rest, definitions);
      assert walk == [name] + rest;
    }
  }

  lemma EdgeThenWalk(name: string, rest: seq<string>, definitions: Definitions)
    requires IsWalk(rest, definitions) && Edge(name, rest[0], definitions)
    ensures IsWalk([name] + rest, definitions)
  {
    hide Edge;
    var walk := [name] + rest;
    forall i | 0 <= i < |walk| - 1
      ensures Edge(walk[i], walk[i + 1], definitions)
    {
      if i > 0 {
        assert Edge(rest[i - 1], rest[i - 1 + 1], definitions);
      }
    }
  }

  /** Every walk along inline calls is that of a call sequence. */
  lemma {:induction false} WalkIsSequence(walk: seq<string>, definitions: Definitions) returns (sites: seq<nat>)
    requires IsWalk(walk, definitions)
    ensures IsSequence(sites, walk[0], definitions) && VisitedBy(sites, walk[0], definitions) == walk
    decreases |walk|
  {
    hide ReadFunction;
    if |walk| == 1 {
      sites := [];
    } else {
      TailIsWalk(walk, definitions);
      var rest := WalkIsSequence(walk[1..], definitions);
      assert Edge(walk[0], walk[1], definitions);
      var k :| 0 <= k < |CallsOf(walk[0], definitions)| && CallsOf(walk[0], definitions)[k].expand
               && CallsOf(walk[0], definitions)[k].callee == walk[1];
      sites := [k] + rest;
      assert sites[1..] == rest && walk == [walk[0]] + walk[1..];
    }
  }

  predicate Repeats(walk: seq<string>) {
    exists i, j :: 0 <= i < j < |walk| && walk[i] == walk[j]
  }

  /** A function from which inline calls lead around a cycle. */
  ghost predicate ReachesCycle(name: string, definitions: Definitions) {
    exists walk :: IsWalk(walk, definitions) && walk[0] == name && Repeats(walk)
  }

  /** A walk that ends on the stack or repeats a function. */
  ghost predicate Bad(walk: seq<string>, name: string, definitions: Definitions, stack: set<string>) {
    IsWalk(walk, definitions) && walk[0] == name && (walk[|walk| - 1] in stack || Repeats(walk))
  }

  /** From a function that expands without error no walk meets the stack or repeats itself. */
  lemma {:induction false} SuccessIsAcyclic(name: string, definitions: Definitions, stack: set<string>,
                                            walk: seq<string>)
    requires name in definitions && Expand(name, definitions, stack).Ok?
    requires IsWalk(walk, definitions) && walk[0] == name
    ensures (forall i :: 0 <= i < |walk| ==> walk[i] !in stack) && !Repeats(walk)
    decreases |walk|
  {
    if |walk| > 1 {
      var rest := walk[1..];
      assert Edge(walk[0], walk[1], definitions);
      StepExpands(name, walk[1], definitions, stack);
      assert forall i :: 0 <= i < |rest| ==> rest[i] == walk[i + 1];
      TailIsWalk(walk, definitions);
      SuccessIsAcyclic(walk[1], definitions, stack + {name}, rest);
      forall i | 0 <= i < |walk|
        ensures walk[i] !in stack
      {
        if i > 0 {
          assert rest[i - 1] !in stack + {name};
        }
      }
      forall i, j | 0 <= i < j < |walk|
        ensures walk[i] != walk[j]
      {
        assert rest[j - 1] !in stack + {name};
        if i > 0 {
          assert rest[i - 1] != rest[j - 1];
        }
      }
    }
  }

  lemma TailIsWalk(walk: seq<string>, definitions: Definitions)
    requires IsWalk(walk, definitions) && |walk| > 1
    ensures IsWalk(walk[1..], definitions)
  {
    hide Edge;
    var rest := walk[1..];
    forall i | 0 <= i < |rest| - 1
      ensures Edge(rest[i], rest[i + 1], definitions)
    {
      assert Edge(walk[i + 1], walk[i + 1 + 1], definitions);
    }
  }

  /** The callees of a successful expansion were expanded successfully. */
  lemma StepExpands(name: string, callee: string, definitions: Definitions, stack: set<string>)
    requires name in definitions && Expand(name, definitions, stack).Ok? && Edge(name, callee, definitions)
    ensures callee in definitions && Expand(callee, definitions, stack + {name}).Ok?
  {
    hide ExpandCalls, ReadFunction;
    var (self, calls) := ReadFunction(definitions[name]).value;
    var call :| call in calls && call.expand && call.callee == callee;
    CallExpands(calls, self, definitions, stack + {name}, call);
  }

  lemma {:induction false} CallExpands(calls: seq<Call>, counts: Counts, definitions: Definitions,
                                       stack: set<string>, call: Call)
    requires ExpandCalls(calls, counts, definitions, stack).Ok? && call in calls && call.expand
    ensures call.callee in definitions && Expand(call.callee, definitions, stack).Ok?
    decreases |calls|
  {
    hide Expand, IncludeFits, Included;
    if call != calls[0] {
      assert call in calls[1..];
      var next := if calls[0].expand
                  then Included(counts, Expand(calls[0].callee, definitions, stack).value, calls[0].executions)
                      else counts;
      CallExpands(calls[1..], next, definitions, stack, call);
    }
  }

  /** A rejection for recursion comes with a walk onto the stack or around a cycle. */
  lemma {:induction false} RejectionIsCyclic(name: string, definitions: Definitions, stack: set<string>)
    requires name in definitions && Expand(name, definitions, stack) == Err(RecursiveInline)
    ensures exists walk :: Bad(walk, name, definitions, stack)
    decreases definitions.Keys - stack, 0, 0
  {
    hide ReadFunction, ExpandCalls;
    if name in stack {
      assert Bad([name], name, definitions, stack);
    } else {
      ReadNotRecursive(definitions[name]);
      var (self, calls) := ReadFunction(definitions[name]).value;
      var callee := RejectedCall(calls, self, definitions, stack + {name});
      var rest :| Bad(rest, callee, definitions, stack + {name});
      assert Edge(name, callee, definitions);
      WalkExtends(name, rest, callee, definitions, stack);
    }
  }

  lemma WalkExtends(name: string, rest: seq<string>, callee: string, definitions: Definitions, stack: set<string>)
    requires Edge(name, callee, definitions) && Bad(rest, callee, definitions, stack + {name})
    ensures Bad([name] + rest, name, definitions, stack)
  {
    hide Edge;
    var walk := [name] + rest;
    EdgeThenWalk(name, rest, definitions);
    assert forall i :: 0 <= i < |rest| ==> walk[i + 1] == rest[i];
    if Repeats(rest) {
      var i, j :| 0 <= i < j < |rest| && rest[i] == rest[j];
      assert walk[i + 1] == walk[j + 1];
    } else if rest[|rest| - 1] == name {
      assert walk[0] == walk[|walk| - 1];
    }
  }

  lemma {:induction false} ReadBlocksError(blocks: seq<Block>, legacy: bool, ids: set<Word>, counts: Counts,
                                           calls: seq<Call>)
    ensures ReadBlocks(blocks, legacy, ids, counts, calls) != Err(RecursiveInline)
    decreases |blocks|
  {
    hide IncludeFits, Included, BlockCounts;
    if blocks != [] {
      SitesError(blocks[0].sites, blocks[0].executions);
      if blocks[0].id !in ids && BlockCalls(blocks[0], legacy).Ok? {
        ReadBlocksError(blocks[1..], legacy, ids + {blocks[0].id},
                        Included(counts, BlockCounts(blocks[0]), blocks[0].executions),
                        calls + BlockCalls(blocks[0], legacy).value);
      }
    }
  }

  lemma {:induction false} SitesError(sites: seq<CallSite>, executions: Word)
    ensures SiteCalls(sites, executions) != Err(RecursiveInline)
  {
    if sites != [] {
      SitesError(sites[1..], executions);
    }
  }

  lemma ReadNotRecursive(function_: IrFunction)
    ensures ReadFunction(function_) != Err(RecursiveInline)
  {
    hide ReadBlocks;
    if function_.model.Some? {
      ReadBlocksError(function_.model.value.blocks, function_.model.value.version == Some(1), {}, EMPTY, []);
    }
  }

  /** The call whose expansion was rejected. */
  lemma {:induction false} RejectedCall(calls: seq<Call>, counts: Counts, definitions: Definitions, stack: set<string>)
    returns (callee: string)
    requires ExpandCalls(calls, counts, definitions, stack) == Err(RecursiveInline)
    ensures exists call :: call in calls && call.expand && call.callee == callee
    ensures callee in definitions && exists walk :: Bad(walk, callee, definitions, stack)
    decreases definitions.Keys - stack, 1, |calls|
  {
    hide Expand, IncludeFits, Included, Bad;
    var call := calls[0];
    if call.expand && Expand(call.callee, definitions, stack) == Err(RecursiveInline) {
      RejectionIsCyclic(call.callee, definitions, stack);
      callee := call.callee;
    } else {
      var next := if call.expand
                  then Included(counts, Expand(call.callee, definitions, stack).value, call.executions) else counts;
      callee := RejectedCall(calls[1..], next, definitions, stack);
      var later :| later in calls[1..] && later.expand && later.callee == callee;
      assert later in calls;
    }
  }

  /** Every function that inline calls reach is defined, reads without error, and its calls agree with the roles. */
  ghost predicate Readable(name: string, definitions: Definitions) {
    forall walk :: IsWalk(walk, definitions) && walk[0] == name ==> ReadsWell(walk[|walk| - 1], definitions)
  }

  ghost predicate ReadsWell(name: string, definitions: Definitions) {
    && name in definitions && ReadFunction(definitions[name]).Ok?
    && forall call :: call in CallsOf(name, definitions) ==>
         (call.expand <==> call.callee in definitions && definitions[call.callee].inlined)
  }

  lemma ReadableHere(name: string, definitions: Definitions)
    requires Readable(name, definitions)
    ensures ReadsWell(name, definitions)
  {
    assert IsWalk([name], definitions) && [name][0] == name;
  }

  lemma ReadableNext(name: string, callee: string, definitions: Definitions)
    requires Readable(name, definitions) && Edge(name, callee, definitions)
    ensures Readable(callee, definitions)
  {
    hide Edge, ReadsWell;
    forall rest | IsWalk(rest, definitions) && rest[0] == callee
      ensures ReadsWell(rest[|rest| - 1], definitions)
    {
      EdgeThenWalk(name, rest, definitions);
      assert ([name] + rest)[0] == name;
    }
  }

  predicate CountedOr(r: Result<Counts, CountError>) {
    r.Ok? || r.error == Overflow || r.error == RecursiveInline
  }

  /** From a readable function only overflow and recursion can be reported. */
  lemma {:induction false} ReadableCounts(name: string, definitions: Definitions, stack: set<string>)
    requires name in definitions && Readable(name, definitions)
    ensures CountedOr(Expand(name, definitions, stack))
    decreases definitions.Keys - stack, 0, 0
  {
    hide ReadFunction, ExpandCalls, Readable, IsWalk;
    ReadableHere(name, definitions);
    if name !in stack {
      var (self, calls) := ReadFunction(definitions[name]).value;
      assert CallsOf(name, definitions) == calls && calls[0..] == calls;
      ReadableCalls(name, calls, 0, self, definitions, stack + {name});
    }
  }

  lemma {:induction false} ReadableCalls(name: string, calls: seq<Call>, k: nat, counts: Counts,
                                         definitions: Definitions, stack: set<string>)
    requires name in definitions && ReadFunction(definitions[name]).Ok? && Readable(name, definitions)
    requires calls == ReadFunction(definitions[name]).value.1 && k <= |calls|
    requires forall call :: call in calls ==> Consistent(call, definitions)
    ensures CountedOr(ExpandCalls(calls[k..], counts, definitions, stack))
    decreases definitions.Keys - stack, 1, |calls| - k
  {
    hide ReadFunction, Expand, Readable, IncludeFits, Included;
    if k < |calls| {
      var call := calls[k];
      assert calls[k..][1..] == calls[k + 1..] && call in calls;
      if call.expand {
        assert Edge(name, call.callee, definitions);
        ReadableNext(name, call.callee, definitions);
        ReadableCounts(call.callee, definitions, stack);
        if Expand(call.callee, definitions, stack).Ok? {
          ReadableCalls(name, calls, k + 1,
                        Included(counts, Expand(call.callee, definitions, stack).value, call.executions), definitions,
                        stack);
        }
      } else {
        ReadableCalls(name, calls, k + 1, counts, definitions, stack);
      }
    }
  }

  lemma {:induction false} CallsAgree(calls: seq<Call>, counts: Counts, definitions: Definitions, stack: set<string>)
    requires ExpandCalls(calls, counts, definitions, stack).Ok?
    ensures forall call :: call in calls ==>
              (call.expand <==> call.callee in definitions && definitions[call.callee].inlined)
    decreases |calls|
  {
    hide Expand, IncludeFits, Included;
    if calls != [] {
      CallsAgree(calls[1..], if calls[0].expand
                 then Included(counts, Expand(calls[0].callee, definitions, stack).value, calls[0].executions)
                 else counts, definitions, stack);
    }
  }

  /** Everything that inline calls reach from a counted function is readable, and its calls agree with the roles. */
  lemma {:induction false} SuccessIsReadable(name: string, definitions: Definitions, stack: set<string>,
                                             walk: seq<string>)
    requires name in definitions && Expand(name, definitions, stack).Ok?
    requires IsWalk(walk, definitions) && walk[0] == name
    ensures ReadsWell(walk[|walk| - 1], definitions)
    decreases |walk|
  {
    hide ReadFunction, ExpandCalls, Edge;
    if |walk| > 1 {
      assert Edge(walk[0], walk[1], definitions);
      StepExpands(name, walk[1], definitions, stack);
      TailIsWalk(walk, definitions);
      SuccessIsReadable(walk[1], definitions, stack + {name}, walk[1..]);
    } else {
      var (self, calls) := ReadFunction(definitions[name]).value;
      CallsAgree(calls, self, definitions, stack + {name});
    }
  }

  /**
   * Counting from a root rejects recursion only when inline calls reach a cycle, and succeeds only when they
   * reach none. When everything the root reaches is readable, the only other answer is overflow: so without
   * overflow it is rejected for recursion exactly when it reaches a cycle.
   */
  lemma RecursionExact(root: string, definitions: Definitions)
    requires root in definitions
    ensures Expand(root, definitions, {}) == Err(RecursiveInline) ==> ReachesCycle(root, definitions)
    ensures Expand(root, definitions, {}).Ok? ==> !ReachesCycle(root, definitions) && Readable(root, definitions)
    ensures Readable(root, definitions) && Expand(root, definitions, {}) != Err(Overflow) ==>
              && CountedOr(Expand(root, definitions, {}))
              && (Expand(root, definitions, {}) == Err(RecursiveInline) <==> ReachesCycle(root, definitions))
  {
    hide Expand;
    if Expand(root, definitions, {}) == Err(RecursiveInline) {
      RejectionIsCyclic(root, definitions, {});
      var walk :| Bad(walk, root, definitions, {});
      assert IsWalk(walk, definitions) && walk[0] == root && Repeats(walk);
    }
    if Expand(root, definitions, {}).Ok? {
      forall walk | IsWalk(walk, definitions) && walk[0] == root
        ensures !Repeats(walk)
      {
        SuccessIsAcyclic(root, definitions, {}, walk);
      }
      forall walk | IsWalk(walk, definitions) && walk[0] == root
        ensures ReadsWell(walk[|walk| - 1], definitions)
      {
        SuccessIsReadable(root, definitions, {}, walk);
      }
    }
    if Readable(root, definitions) {
      ReadableCounts(root, definitions, {});
    }
  }

  // ----- all roots

  /** Roots are the analyzed functions, or all that are not inline when none is analyzed. */
  predicate IsRoot(function_: IrFunction, annotated: bool) {
    if annotated then function_.analyzed else !function_.inlined
  }

  function AnyAnalyzed(functions: seq<(string, IrFunction)>): (r: bool) {
    exists i :: 0 <= i < |functions| && functions[i].1.analyzed
  }

  datatype ModuleError = DuplicateFunction | ConflictingRoles | NoRoots | Root(error: CountError)

  ghost predicate WellNamed(functions: seq<(string, IrFunction)>) {
    forall i, j :: 0 <= i < j < |functions| ==> functions[i].0 != functions[j].0
  }

  ghost predicate Defines(definitions: Definitions, functions: seq<(string, IrFunction)>) {
    && (forall i :: 0 <= i < |functions| ==>
          functions[i].0 in definitions && definitions[functions[i].0] == functions[i].1)
    && (forall name :: name in definitions ==> exists i :: 0 <= i < |functions| && functions[i].0 == name)
  }

  lemma NothingDefined()
    ensures Defines(map[], [])
  {
  }

  lemma AlreadyDefined(definitions: Definitions, functions: seq<(string, IrFunction)>, i: nat)
    requires i < |functions| && Defines(definitions, functions[..i]) && functions[i].0 in definitions
    ensures !WellNamed(functions)
  {
    var k :| 0 <= k < |functions[..i]| && functions[..i][k].0 == functions[i].0;
    assert functions[k].0 == functions[i].0;
  }

  lemma DefinesNext(definitions: Definitions, functions: seq<(string, IrFunction)>, next: (string, IrFunction))
    requires Defines(definitions, functions) && WellNamed(functions) && next.0 !in definitions
    ensures Defines(definitions[next.0 := next.1], functions + [next]) && WellNamed(functions + [next])
  {
    var more, all := definitions[next.0 := next.1], functions + [next];
    forall name | name in more
      ensures exists i :: 0 <= i < |all| && all[i].0 == name
    {
      if name == next.0 {
        assert all[|functions|].0 == name;
      } else {
        var i :| 0 <= i < |functions| && functions[i].0 == name;
        assert all[i].0 == name;
      }
    }
  }

  /** Collect the definitions; names must differ and no function may be both root and inline. */
  method CollectDefinitions(functions: seq<(string, IrFunction)>)
    returns (r: Result<Definitions, ModuleError>, annotated: bool)
    ensures r.Ok? <==> WellNamed(functions)
                       && forall i :: 0 <= i < |functions| ==> !(functions[i].1.analyzed && functions[i].1.inlined)
    ensures r.Ok? ==> Defines(r.value, functions) && annotated == AnyAnalyzed(functions)
    ensures r.Err? ==> r.error in {DuplicateFunction, ConflictingRoles}
    ensures r == Err(DuplicateFunction) ==> !WellNamed(functions)
    ensures r == Err(ConflictingRoles) ==>
              exists i :: 0 <= i < |functions| && functions[i].1.analyzed && functions[i].1.inlined
  {
    hide Defines;
    var definitions: Definitions := map[];
    annotated := false;
    NothingDefined();
    for i := 0 to |functions|
      invariant Defines(definitions, functions[..i]) && WellNamed(functions[..i])
      invariant annotated == AnyAnalyzed(functions[..i])
      invariant forall k :: 0 <= k < i ==> !(functions[k].1.analyzed && functions[k].1.inlined)
    {
      var (name, function_) := functions[i];
      assert functions[..i + 1] == functions[..i] + [functions[i]];
      if name in definitions {
        AlreadyDefined(definitions, functions, i);
        return Err(DuplicateFunction), annotated;
      }
      DefinesNext(definitions, functions[..i], functions[i]);
      definitions := definitions[name := function_];
      if function_.analyzed && function_.inlined {
        return Err(ConflictingRoles), annotated;
      }
      annotated := annotated || function_.analyzed;
    }
    assert functions[..|functions|] == functions;
    r := Ok(definitions);
  }

  /** Counts of the roots among the first functions, with their total, as plain expansion gives them. */
  ghost function RootCounts(functions: seq<(string, IrFunction)>, definitions: Definitions, annotated: bool,
                            total: Counts, results: seq<Counts>): (r: Result<(seq<Counts>, Counts), ModuleError>)
    requires forall i :: 0 <= i < |functions| ==> functions[i].0 in definitions
    decreases |functions|
  {
    if functions == [] then if results == [] then Err(NoRoots) else Ok((results, total))
    else if !IsRoot(functions[0].1, annotated) then RootCounts(functions[1..], definitions, annotated, total, results)
    else
      match Expand(functions[0].0, definitions, {})
      case Err(e) => Err(Root(e))
      case Ok(counts) =>
        if !IncludeFits(total, counts, 1) then Err(Root(Overflow))
        else RootCounts(functions[1..], definitions, annotated, Included(total, counts, 1), results + [counts])
  }

  /** A function to report on: an analyzed one, or one that is not inline when the module marks none as analyzed. */
  ghost predicate Reported(functions: seq<(string, IrFunction)>, p: int)
    requires 0 <= p < |functions|
  {
    if exists q :: 0 <= q < |functions| && functions[q].1.analyzed then functions[p].1.analyzed
    else !functions[p].1.inlined
  }

  /** The positions of the functions to report on among the first `limit`, in order. */
  ghost predicate ReportedPositions(positions: seq<nat>, functions: seq<(string, IrFunction)>, limit: nat)
    requires limit <= |functions|
  {
    && (forall i, j :: 0 <= i < j < |positions| ==> positions[i] < positions[j])
    && (forall i :: 0 <= i < |positions| ==> positions[i] < limit && Reported(functions, positions[i]))
    && forall p :: 0 <= p < limit && Reported(functions, p) ==> p in positions
  }

  /** Counts of the functions at the first positions. */
  ghost predicate Counted(counted: seq<Counts>, positions: seq<nat>, functions: seq<(string, IrFunction)>,
                          definitions: Definitions) {
    && |counted| <= |positions|
    && forall j :: 0 <= j < |counted| ==>
         && positions[j] < |functions| && functions[positions[j]].0 in definitions
         && Expand(functions[positions[j]].0, definitions, {}) == Ok(counted[j])
  }

  /** The sum of one opcode over counts. */
  ghost function SumAt(counted: seq<Counts>, opcode: string): (c: Count) {
    if counted == [] then Count(0, 0)
    else
      var rest, last := SumAt(counted[..|counted| - 1], opcode), At(counted[|counted| - 1].opcodes, opcode);
      Count(rest.stat + last.stat, rest.dyn + last.dyn)
  }

  /** The sum of the totals of counts. */
  ghost function SumTotals(counted: seq<Counts>): (c: Count) {
    if counted == [] then Count(0, 0)
    else
      var rest, last := SumTotals(counted[..|counted| - 1]), counted[|counted| - 1];
      Count(rest.stat + last.stat, rest.dyn + last.dyn)
  }

  ghost predicate IsSumOf(total: Counts, counted: seq<Counts>) {
    && Count(total.stat, total.dyn) == SumTotals(counted)
    && forall opcode :: At(total.opcodes, opcode) == SumAt(counted, opcode)
  }

  lemma NextReported(positions: seq<nat>, functions: seq<(string, IrFunction)>, limit: nat)
    requires limit < |functions| && ReportedPositions(positions, functions, limit)
    ensures if Reported(functions, limit) then ReportedPositions(positions + [limit], functions, limit + 1)
            else ReportedPositions(positions, functions, limit + 1)
  {
    hide Reported;
    var more := positions + [limit];
    assert forall p :: p in positions ==> p in more;
    assert more[|positions|] == limit;
  }

  lemma NextCounted(counted: seq<Counts>, positions: seq<nat>, functions: seq<(string, IrFunction)>,
                    definitions: Definitions, p: nat)
    requires Counted(counted, positions, functions, definitions) && |counted| == |positions| && p < |functions|
    ensures Counted(counted, positions + [p], functions, definitions)
    ensures functions[p].0 in definitions && Expand(functions[p].0, definitions, {}).Ok? ==>
              Counted(counted + [Expand(functions[p].0, definitions, {}).value], positions + [p], functions,
                      definitions)
  {
    hide Expand;
  }

  lemma NextSum(total: Counts, counted: seq<Counts>, counts: Counts)
    requires IsSumOf(total, counted)
    ensures IsSumOf(Included(total, counts, 1), counted + [counts])
    ensures IncludeFits(total, counts, 1)
            <==> SumTotals(counted + [counts]).stat <= U64_MAX && SumTotals(counted + [counts]).dyn <= U64_MAX
  {
    var more := counted + [counts];
    assert more[..|more| - 1] == counted;
    forall opcode
      ensures At(Included(total, counts, 1).opcodes, opcode) == SumAt(more, opcode)
    {
      IncludedAt(total, counts, 1, opcode);
    }
  }

  /** A rejection comes from the last position: its function has no count, or the sum leaves 64 bits with it. */
  ghost predicate RejectedAt(e: CountError, counted: seq<Counts>, positions: seq<nat>,
                             functions: seq<(string, IrFunction)>, definitions: Definitions) {
    && positions != [] && Counted(counted, positions, functions, definitions)
    && var p := positions[|positions| - 1];
       && p < |functions| && functions[p].0 in definitions && ReportedPositions(positions, functions, p + 1)
       && if |counted| == |positions| then
            e == Overflow && (SumTotals(counted).stat > U64_MAX || SumTotals(counted).dyn > U64_MAX)
          else |counted| == |positions| - 1 && Expand(functions[p].0, definitions, {}) == Err(e)
  }

  /**
   * Count every function to report on, once, with one shared memo. The results are those of the reported
   * functions in module order, and the total is their sum in every opcode; without a reported function there is
   * no answer.
   */
  method CountIrInstructions(functions: seq<(string, IrFunction)>)
    returns (r: Result<(seq<Counts>, Counts), ModuleError>, ghost definitions: Definitions,
             ghost positions: seq<nat>, ghost counted: seq<Counts>)
    ensures r.Err? && r.error in {DuplicateFunction, ConflictingRoles}
            <==> !(WellNamed(functions)
                   && forall i :: 0 <= i < |functions| ==> !(functions[i].1.analyzed && functions[i].1.inlined))
    ensures !(r.Err? && r.error in {DuplicateFunction, ConflictingRoles}) ==>
              Defines(definitions, functions)
              && r == RootCounts(functions, definitions, AnyAnalyzed(functions), EMPTY, [])
    ensures r.Ok? ==> Balanced(r.value.1) && forall i :: 0 <= i < |r.value.0| ==> Balanced(r.value.0[i])
    ensures r.Ok? ==>
              && ReportedPositions(positions, functions, |functions|) && |positions| == |r.value.0| > 0
              && Counted(r.value.0, positions, functions, definitions) && IsSumOf(r.value.1, r.value.0)
    ensures !(r.Err? && r.error in {DuplicateFunction, ConflictingRoles}) ==>
              (r == Err(NoRoots) <==> forall p :: 0 <= p < |functions| ==> !Reported(functions, p))
    ensures r.Err? && r.error.Root? ==> RejectedAt(r.error.error, counted, positions, functions, definitions)
  {
    hide Expand, IncludeFits, Included, Balanced, WellNamed, ReportedPositions, Counted, IsSumOf, SumTotals;
    definitions, positions, counted := map[], [], [];
    var collected, annotated := CollectDefinitions(functions);
    if collected.Err? {
      return Err(collected.error), definitions, positions, counted;
    }
    definitions := collected.value;
    var expansion := new Expansion(collected.value);
    var total, results := EMPTY, [];
    EmptyBalanced();
    NothingCounted(functions, definitions);
    for i := 0 to |functions|
      invariant expansion.Valid() && expansion.active == {} && fresh(expansion)
      invariant Balanced(total) && Small(total) && forall k :: 0 <= k < |results| ==> Balanced(results[k])
      invariant RootCounts(functions, definitions, annotated, EMPTY, [])
                == RootCounts(functions[i..], definitions, annotated, total, results)
      invariant ReportedPositions(positions, functions, i) && |positions| == |results| && counted == results
      invariant Counted(results, positions, functions, definitions) && IsSumOf(total, results)
    {
      assert functions[i..][1..] == functions[i + 1..];
      NextReported(positions, functions, i);
      if !IsRoot(functions[i].1, annotated) {
        continue;
      }
      NextCounted(results, positions, functions, definitions, i);
      positions := positions + [i];
      var counts := expansion.CountInstructions(functions[i].0);
      if counts.Err? {
        return Err(Root(counts.error)), definitions, positions, counted;
      }
      EntriesSmall(counts.value);
      NextSum(total, results, counts.value);
      counted := results + [counts.value];
      var next := Include(total, counts.value, 1);
      if next.None? {
        return Err(Root(Overflow)), definitions, positions, counted;
      }
      total, results := next.value, results + [counts.value];
    }
    NoneReported(positions, functions);
    r := if results == [] then Err(NoRoots) else Ok((results, total));
  }

  lemma NothingCounted(functions: seq<(string, IrFunction)>, definitions: Definitions)
    ensures ReportedPositions([], functions, 0) && Counted([], [], functions, definitions) && IsSumOf(EMPTY, [])
  {
  }

  lemma NoneReported(positions: seq<nat>, functions: seq<(string, IrFunction)>)
    requires ReportedPositions(positions, functions, |functions|)
    ensures positions == [] <==> forall p :: 0 <= p < |functions| ==> !Reported(functions, p)
  {
    hide Reported;
    if positions != [] {
      assert Reported(functions, positions[0]);
    }
  }
}
