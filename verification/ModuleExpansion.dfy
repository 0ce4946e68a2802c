/** Expansion of every function of a module with one budget. */
module ModuleExpansion {
  import opened Machine
  import opened LoopWork
  import opened TraceWalk
  import opened InlineExpansion
  import opened ExpansionMeaning
  import opened ExpansionPaths

  datatype ModuleFunction = ModuleFunction(name: string, analyzed: bool, function_: Function)

  datatype ModuleError = EmptyName | DuplicateName | ConflictingRoles | NoTaskRoot | Expanding(error: ExpandError)

  /** The expanded bodies of the selected functions, what all expansions charged, and the first error. */
  datatype ModuleResult = ModuleResult(bodies: seq<(string, seq<Node>)>, charges: seq<Charge>,
      error: Option<ExpandError>)

  predicate Selected(f: ModuleFunction, taskMode: bool, hasRoles: bool) {
    f.analyzed || (!taskMode && !hasRoles)
  }

  /** In task mode only selected functions are expanded; otherwise all are, and the selected ones kept. */
  predicate Processed(f: ModuleFunction, taskMode: bool, hasRoles: bool) {
    !taskMode || Selected(f, taskMode, hasRoles)
  }

  predicate HasRoles(fs: seq<ModuleFunction>) {
    exists i :: 0 <= i < |fs| && (fs[i].analyzed || fs[i].function_.inlined)
  }

  /** Names are present and distinct, and in task mode no function is both root and inline. */
  predicate WellFormedModule(fs: seq<ModuleFunction>, taskMode: bool) {
    && (forall i :: 0 <= i < |fs| ==> fs[i].name != "" && !(taskMode && fs[i].analyzed && fs[i].function_.inlined))
    && forall i, j :: 0 <= i < j < |fs| ==> fs[i].name != fs[j].name
  }

  function FunctionsOf(fs: seq<ModuleFunction>): (m: Functions)
    ensures forall name :: name in m <==> exists i :: 0 <= i < |fs| && fs[i].name == name
  {
    if fs == [] then map[]
    else
      var n := |fs| - 1;
      var m := FunctionsOf(fs[..n]);
      assert forall i :: 0 <= i < n ==> fs[..n][i] == fs[i];
      m[fs[n].name := fs[n].function_]
  }

  /** With distinct names the map holds every function under its name. */
  lemma {:induction false} FunctionAt(fs: seq<ModuleFunction>, i: nat)
    requires WellFormedModule(fs, false) && i < |fs|
    ensures FunctionsOf(fs)[fs[i].name] == fs[i].function_
  {
    var n := |fs| - 1;
    if i < n {
      assert fs[..n][i] == fs[i];
      FunctionAt(fs[..n], i);
    }
  }

  lemma NextFunction(fs: seq<ModuleFunction>, f: ModuleFunction, taskMode: bool)
    ensures FunctionsOf(fs + [f]) == FunctionsOf(fs)[f.name := f.function_]
    ensures HasRoles(fs + [f]) == (HasRoles(fs) || f.analyzed || f.function_.inlined)
    ensures WellFormedModule(fs + [f], taskMode) <==>
              && WellFormedModule(fs, taskMode) && f.name != "" && f.name !in FunctionsOf(fs)
              && !(taskMode && f.analyzed && f.function_.inlined)
  {
    hide HasRoles, WellFormedModule;
    assert (fs + [f])[..|fs|] == fs;
    NextRoles(fs, f);
    NextWellFormed(fs, f, taskMode);
  }

  lemma NextRoles(fs: seq<ModuleFunction>, f: ModuleFunction)
    ensures HasRoles(fs + [f]) == (HasRoles(fs) || f.analyzed || f.function_.inlined)
  {
    var more := fs + [f];
    if HasRoles(fs) {
      var i :| 0 <= i < |fs| && (fs[i].analyzed || fs[i].function_.inlined);
      assert more[i].analyzed || more[i].function_.inlined;
    } else if f.analyzed || f.function_.inlined {
      assert more[|fs|].analyzed || more[|fs|].function_.inlined;
    }
  }

  lemma NextWellFormed(fs: seq<ModuleFunction>, f: ModuleFunction, taskMode: bool)
    ensures WellFormedModule(fs + [f], taskMode) <==>
              && WellFormedModule(fs, taskMode) && f.name != "" && f.name !in FunctionsOf(fs)
              && !(taskMode && f.analyzed && f.function_.inlined)
  {
    hide FunctionsOf;
    var more := fs + [f];
    assert more[|fs|] == f && forall i :: 0 <= i < |fs| ==> more[i] == fs[i];
    if f.name in FunctionsOf(fs) {
      var k :| 0 <= k < |fs| && fs[k].name == f.name;
      assert more[k].name == more[|fs|].name;
    }
  }

  lemma {:induction false} PrefixWellFormed(fs: seq<ModuleFunction>, n: nat, taskMode: bool)
    requires n <= |fs| && WellFormedModule(fs, taskMode)
    ensures WellFormedModule(fs[..n], taskMode)
  {
  }

  lemma NoFunctions(taskMode: bool)
    ensures WellFormedModule([], taskMode) && !HasRoles([]) && FunctionsOf([]) == map[]
  {
  }

  /** Expand the functions in order, each from its own name on the stack. */
  ghost function ExpandAll(fs: seq<ModuleFunction>, functions: Functions, taskMode: bool,
                           hasRoles: bool): (r: ModuleResult) {
    if fs == [] then ModuleResult([], [], None)
    else
      var f := fs[|fs| - 1];
      var done := ExpandAll(fs[..|fs| - 1], functions, taskMode, hasRoles);
      if done.error.Some? || !Processed(f, taskMode, hasRoles) then done
      else
        var e := ExpandBody(f.function_.body, functions, taskMode, {f.name}, 0);
        ModuleResult(done.bodies + (if Selected(f, taskMode, hasRoles) then [(f.name, e.nodes)] else []),
                     done.charges + e.charges, e.error)
  }

  lemma NothingExpanded(functions: Functions, taskMode: bool, hasRoles: bool)
    ensures ExpandAll([], functions, taskMode, hasRoles) == ModuleResult([], [], None)
  {
  }

  lemma ExpandNext(fs: seq<ModuleFunction>, i: nat, functions: Functions, taskMode: bool, hasRoles: bool)
    requires i < |fs| && ExpandAll(fs[..i], functions, taskMode, hasRoles).error.None?
    ensures var f, done := fs[i], ExpandAll(fs[..i], functions, taskMode, hasRoles);
            ExpandAll(fs[..i + 1], functions, taskMode, hasRoles)
            == if !Processed(f, taskMode, hasRoles) then done
               else
                 var e := ExpandBody(f.function_.body, functions, taskMode, {f.name}, 0);
                 ModuleResult(done.bodies + (if Selected(f, taskMode, hasRoles) then [(f.name, e.nodes)] else []),
                              done.charges + e.charges, e.error)
  {
    hide ExpandBody;
    assert fs[..i + 1][..i] == fs[..i];
  }

  lemma {:induction false} PrefixDecides(fs: seq<ModuleFunction>, n: nat, functions: Functions, taskMode: bool,
                                         hasRoles: bool)
    requires n <= |fs|
    ensures var some, all := ExpandAll(fs[..n], functions, taskMode, hasRoles),
            ExpandAll(fs, functions, taskMode, hasRoles);
            some.charges <= all.charges && (some.error.Some? ==> all == some)
    decreases |fs|
  {
    hide ExpandBody;
    if n < |fs| {
      assert fs[..|fs| - 1][..n] == fs[..n];
      PrefixDecides(fs[..|fs| - 1], n, functions, taskMode, hasRoles);
    } else {
      assert fs[..n] == fs;
    }
  }

  /** A budget that a prefix of the charges exhausts is exhausted by all of them. */
  lemma PrefixExhausts(some: seq<Charge>, all: seq<Charge>, used: nat, deepest: nat, nodeLimit: nat, depthLimit: nat)
    requires some <= all && Budgeted(some, used, deepest, nodeLimit, depthLimit).error.Some?
    ensures Budgeted(all, used, deepest, nodeLimit, depthLimit).error.Some?
  {
    assert all == some + all[|some|..];
    BudgetedAppend(some, all[|some|..], used, deepest, nodeLimit, depthLimit);
  }

  // ----- which functions a module reports

  /** The function's expansion is reported: it is analyzed, or outside task mode the module marks no function at all. */
  ghost predicate Returned(fs: seq<ModuleFunction>, p: int, taskMode: bool, hasRoles: bool)
    requires 0 <= p < |fs|
  {
    fs[p].analyzed || (!taskMode && !hasRoles)
  }

  ghost function ExpandedAt(fs: seq<ModuleFunction>, p: int, functions: Functions, taskMode: bool): (e: Expansion)
    requires 0 <= p < |fs|
  {
    ExpandBody(fs[p].function_.body, functions, taskMode, {fs[p].name}, 0)
  }

  /** The bodies are the expansions of the functions at increasing positions, exactly those that are reported. */
  ghost predicate ReturnedBodies(bodies: seq<(string, seq<Node>)>, positions: seq<nat>, fs: seq<ModuleFunction>,
                                 functions: Functions, taskMode: bool, hasRoles: bool) {
    && |bodies| == |positions| && (forall i, j :: 0 <= i < j < |positions| ==> positions[i] < positions[j])
    && (forall j :: 0 <= j < |positions| ==>
          && positions[j] < |fs| && Returned(fs, positions[j], taskMode, hasRoles)
          && bodies[j] == (fs[positions[j]].name, ExpandedAt(fs, positions[j], functions, taskMode).nodes))
    && forall p :: 0 <= p < |fs| && Returned(fs, p, taskMode, hasRoles) ==> p in positions
  }

  /** In task mode the analyzed functions expand, otherwise all do. */
  ghost predicate Expandable(fs: seq<ModuleFunction>, functions: Functions, taskMode: bool) {
    forall p :: 0 <= p < |fs| && (!taskMode || fs[p].analyzed) ==>
      ExpandedAt(fs, p, functions, taskMode).error.None?
  }

  /** What a module result is: the bodies reported, each unrolling its function's. */
  ghost predicate Reports(bodies: seq<(string, seq<Node>)>, positions: seq<nat>, fs: seq<ModuleFunction>,
                          functions: Functions, taskMode: bool) {
    && Expandable(fs, functions, taskMode)
    && ReturnedBodies(bodies, positions, fs, functions, taskMode,
                      exists q :: 0 <= q < |fs| && (fs[q].analyzed || fs[q].function_.inlined))
    && forall j :: 0 <= j < |bodies| ==>
         Unrolls(fs[positions[j]].function_.body, bodies[j].1, functions, taskMode, {bodies[j].0})
  }

  lemma ExpandableNext(fs: seq<ModuleFunction>, functions: Functions, taskMode: bool)
    requires fs != []
    ensures var n := |fs| - 1;
            Expandable(fs, functions, taskMode)
            <==> Expandable(fs[..n], functions, taskMode)
                 && (!taskMode || fs[n].analyzed ==> ExpandedAt(fs, n, functions, taskMode).error.None?)
  {
    hide ExpandBody;
    var n := |fs| - 1;
    assert forall p :: 0 <= p < n ==>
             && fs[..n][p] == fs[p]
             && ExpandedAt(fs[..n], p, functions, taskMode) == ExpandedAt(fs, p, functions, taskMode);
  }

  lemma {:induction false} AllExpand(fs: seq<ModuleFunction>, functions: Functions, taskMode: bool, hasRoles: bool)
    ensures ExpandAll(fs, functions, taskMode, hasRoles).error.None? <==> Expandable(fs, functions, taskMode)
  {
    hide ExpandBody, Expandable;
    if fs == [] {
      NothingExpandable(functions, taskMode);
    } else {
      AllExpand(fs[..|fs| - 1], functions, taskMode, hasRoles);
      ExpandableNext(fs, functions, taskMode);
    }
  }

  lemma NothingExpandable(functions: Functions, taskMode: bool)
    ensures Expandable([], functions, taskMode)
  {
  }

  lemma ReturnedNext(bodies: seq<(string, seq<Node>)>, positions: seq<nat>, fs: seq<ModuleFunction>,
                     functions: Functions, taskMode: bool, hasRoles: bool)
    requires fs != []
    requires ReturnedBodies(bodies, positions, fs[..|fs| - 1], functions, taskMode, hasRoles)
    ensures var n := |fs| - 1;
            if Returned(fs, n, taskMode, hasRoles) then
              ReturnedBodies(bodies + [(fs[n].name, ExpandedAt(fs, n, functions, taskMode).nodes)], positions + [n],
                             fs, functions, taskMode, hasRoles)
            else ReturnedBodies(bodies, positions, fs, functions, taskMode, hasRoles)
  {
    hide ExpandBody;
    var n := |fs| - 1;
    var front := fs[..n];
    forall p | 0 <= p < n
      ensures Returned(fs, p, taskMode, hasRoles) <==> Returned(front, p, taskMode, hasRoles)
      ensures ExpandedAt(fs, p, functions, taskMode) == ExpandedAt(front, p, functions, taskMode)
      ensures fs[p] == front[p]
    {
    }
    hide ExpandedAt, Returned;
    MoreReturned(positions, n);
  }

  lemma {:induction false} AllReturned(fs: seq<ModuleFunction>, functions: Functions, taskMode: bool, hasRoles: bool)
    returns (positions: seq<nat>)
    requires ExpandAll(fs, functions, taskMode, hasRoles).error.None?
    ensures ReturnedBodies(ExpandAll(fs, functions, taskMode, hasRoles).bodies, positions, fs, functions, taskMode,
                           hasRoles)
  {
    hide ExpandBody, ReturnedBodies;
    if fs == [] {
      positions := [];
      NothingReturned(functions, taskMode, hasRoles);
    } else {
      var n := |fs| - 1;
      positions := AllReturned(fs[..n], functions, taskMode, hasRoles);
      ReturnedNext(ExpandAll(fs[..n], functions, taskMode, hasRoles).bodies, positions, fs, functions, taskMode,
                   hasRoles);
      if Returned(fs, n, taskMode, hasRoles) {
        positions := positions + [n];
      } else {
        var bodies := ExpandAll(fs[..n], functions, taskMode, hasRoles).bodies;
        assert bodies + [] == bodies;
      }
    }
  }

  lemma NothingReturned(functions: Functions, taskMode: bool, hasRoles: bool)
    ensures ReturnedBodies([], [], [], functions, taskMode, hasRoles)
  {
  }

  lemma MoreReturned(positions: seq<nat>, n: nat)
    ensures (positions + [n])[|positions|] == n && forall p :: p in positions ==> p in positions + [n]
  {
  }

  lemma ModuleReports(fs: seq<ModuleFunction>, functions: Functions, taskMode: bool) returns (positions: seq<nat>)
    ensures var all := ExpandAll(fs, functions, taskMode, HasRoles(fs));
            && (all.error.None? ==> Reports(all.bodies, positions, fs, functions, taskMode))
            && (all.error.None? && all.bodies == [] && taskMode ==> forall p :: 0 <= p < |fs| ==> !fs[p].analyzed)
  {
    hide ExpandAll, Unrolls;
    var all := ExpandAll(fs, functions, taskMode, HasRoles(fs));
    positions := [];
    AllExpand(fs, functions, taskMode, HasRoles(fs));
    if all.error.None? {
      positions := AllReturned(fs, functions, taskMode, HasRoles(fs));
      assert forall p :: 0 <= p < |fs| && fs[p].analyzed ==> Returned(fs, p, taskMode, HasRoles(fs));
      forall j | 0 <= j < |all.bodies|
        ensures Unrolls(fs[positions[j]].function_.body, all.bodies[j].1, functions, taskMode, {all.bodies[j].0})
      {
        assert Returned(fs, positions[j], taskMode, HasRoles(fs));
        RootUnrolls(fs, positions[j], functions, taskMode);
      }
    }
  }

  /** The first function that is refused, and why: the reasons are tried in this order. */
  ghost predicate RefusedAt(fs: seq<ModuleFunction>, taskMode: bool, i: int, e: ModuleError) {
    && 0 <= i < |fs| && WellFormedModule(fs[..i], taskMode)
    && if fs[i].name == "" then e == EmptyName
       else if exists k :: 0 <= k < i && fs[k].name == fs[i].name then e == DuplicateName
       else e == ConflictingRoles && taskMode && fs[i].analyzed && fs[i].function_.inlined
  }

  lemma DefinedBefore(fs: seq<ModuleFunction>, i: nat)
    requires i < |fs|
    ensures fs[i].name in FunctionsOf(fs[..i]) <==> exists k :: 0 <= k < i && fs[k].name == fs[i].name
  {
    if fs[i].name in FunctionsOf(fs[..i]) {
      var k :| 0 <= k < i && fs[..i][k].name == fs[i].name;
      assert fs[k].name == fs[i].name;
    }
    if k :| 0 <= k < i && fs[k].name == fs[i].name {
      assert fs[..i][k].name == fs[i].name;
    }
  }

  method CollectFunctions(fs: seq<ModuleFunction>, taskMode: bool)
    returns (r: Result<Functions, ModuleError>, hasRoles: bool)
    ensures r.Ok? <==> WellFormedModule(fs, taskMode)
    ensures r.Err? ==> !r.error.Expanding? && r.error != NoTaskRoot
    ensures r.Err? ==> exists i :: RefusedAt(fs, taskMode, i, r.error)
    ensures r.Ok? ==> r.value == FunctionsOf(fs) && hasRoles == HasRoles(fs)
  {
    hide WellFormedModule, HasRoles, FunctionsOf;
    var functions: Functions := map[];
    hasRoles := false;
    NoFunctions(taskMode);
    for i := 0 to |fs|
      invariant WellFormedModule(fs[..i], taskMode)
      invariant functions == FunctionsOf(fs[..i]) && hasRoles == HasRoles(fs[..i])
    {
      var f := fs[i];
      assert fs[..i + 1] == fs[..i] + [f];
      NextFunction(fs[..i], f, taskMode);
      if WellFormedModule(fs, taskMode) {
        PrefixWellFormed(fs, i + 1, taskMode);
      }
      DefinedBefore(fs, i);
      if f.name == "" {
        assert RefusedAt(fs, taskMode, i, EmptyName);
        return Err(EmptyName), hasRoles;
      }
      if f.name in functions {
        assert RefusedAt(fs, taskMode, i, DuplicateName);
        return Err(DuplicateName), hasRoles;
      }
      functions := functions[f.name := f.function_];
      if taskMode && f.analyzed && f.function_.inlined {
        assert RefusedAt(fs, taskMode, i, ConflictingRoles);
        return Err(ConflictingRoles), hasRoles;
      }
      hasRoles := hasRoles || f.analyzed || f.function_.inlined;
    }
    assert fs[..|fs|] == fs;
    r := Ok(functions);
  }

  /**
   * Expand a module. It succeeds exactly when the module is well formed, every processed function expands,
   * all charges together fit the budget, and task mode finds a root. The bodies are then the expansions of the
   * reported functions, in order: every body unrolls its function's.
   */
  method ExpandModule(fs: seq<ModuleFunction>, taskMode: bool, budget: ExpansionBudget)
    returns (r: Result<seq<(string, seq<Node>)>, ModuleError>, ghost positions: seq<nat>)
    requires budget.Valid()
    modifies budget`expandedNodes, budget`maximumInlineDepth
    ensures budget.Valid()
    ensures var e := ExpandAll(fs, FunctionsOf(fs), taskMode, HasRoles(fs));
            var m := Budgeted(e.charges, old(budget.expandedNodes), old(budget.maximumInlineDepth),
                              budget.nodeLimit, budget.depthLimit);
            && (r.Ok? <==> WellFormedModule(fs, taskMode) && e.error.None? && m.error.None?
                           && (taskMode ==> e.bodies != []))
            && (r.Ok? ==>
                  r.value == e.bodies && budget.expandedNodes == m.used && budget.maximumInlineDepth == m.deepest)
    ensures r.Ok? ==> Reports(r.value, positions, fs, FunctionsOf(fs), taskMode)
    ensures r.Err? && r.error in {EmptyName, DuplicateName, ConflictingRoles} ==>
              exists i :: RefusedAt(fs, taskMode, i, r.error)
    ensures r == Err(NoTaskRoot) ==> taskMode && forall p :: 0 <= p < |fs| ==> !fs[p].analyzed
  {
    positions := ModuleReports(fs, FunctionsOf(fs), taskMode);
    hide Reports;
    hide ExpandBody, Budgeted, WellFormedModule, HasRoles, ExpandAll, FunctionsOf;
    var functions, hasRoles := CollectFunctions(fs, taskMode);
    if functions.Err? {
      return Err(functions.error), positions;
    }
    ghost var used, deepest := budget.expandedNodes, budget.maximumInlineDepth;
    var bodies: seq<(string, seq<Node>)> := [];
    ghost var charges: seq<Charge> := [];
    NothingCharged(used, deepest, budget.nodeLimit, budget.depthLimit);
    NothingExpanded(functions.value, taskMode, hasRoles);
    for i := 0 to |fs|
      invariant budget.Valid()
      invariant ExpandAll(fs[..i], functions.value, taskMode, hasRoles) == ModuleResult(bodies, charges, None)
      invariant Budgeted(charges, used, deepest, budget.nodeLimit, budget.depthLimit)
                == Meter(budget.expandedNodes, budget.maximumInlineDepth, None)
    {
      var f := fs[i];
      ExpandNext(fs, i, functions.value, taskMode, hasRoles);
      var selected := f.analyzed || (!taskMode && !hasRoles);
      if taskMode && !selected {
        continue;
      }
      ghost var e := ExpandBody(f.function_.body, functions.value, taskMode, {f.name}, 0);
      BudgetedAppend(charges, e.charges, used, deepest, budget.nodeLimit, budget.depthLimit);
      PrefixDecides(fs, i + 1, functions.value, taskMode, hasRoles);
      var body, error := AppendExpandedBody(f.function_.body, functions.value, {f.name}, taskMode, budget, 0, []);
      if error.Some? {
        if e.error.None? {
          PrefixExhausts(charges + e.charges, ExpandAll(fs, functions.value, taskMode, hasRoles).charges,
                         used, deepest, budget.nodeLimit, budget.depthLimit);
        }
        return Err(Expanding(error.value)), positions;
      }
      assert [] + e.nodes == e.nodes;
      charges := charges + e.charges;
      if selected {
        bodies := bodies + [(f.name, body)];
      } else {
        assert bodies + [] == bodies;
      }
    }
    assert fs[..|fs|] == fs;
    if taskMode && bodies == [] {
      return Err(NoTaskRoot), positions;
    }
    r := Ok(bodies);
  }

  lemma RootUnrolls(fs: seq<ModuleFunction>, p: nat, functions: Functions, taskMode: bool)
    requires p < |fs| && ExpandedAt(fs, p, functions, taskMode).error.None?
    ensures Unrolls(fs[p].function_.body, ExpandedAt(fs, p, functions, taskMode).nodes, functions, taskMode,
                    {fs[p].name})
  {
    ExpansionUnrolls(fs[p].function_.body, functions, taskMode, {fs[p].name}, 0);
  }

  /** Bodies with nonempty, pairwise different names. */
  ghost predicate NamedApart(bodies: seq<(string, seq<Node>)>) {
    && (forall i :: 0 <= i < |bodies| ==> bodies[i].0 != "")
    && forall i, j :: 0 <= i < j < |bodies| ==> bodies[i].0 != bodies[j].0
  }

  /** The expanded roots of a module, by which its tasks are identified, are named apart. */
  lemma {:induction false} RootsNamedApart(fs: seq<ModuleFunction>, functions: Functions, taskMode: bool,
                                           hasRoles: bool)
    requires WellFormedModule(fs, taskMode)
    ensures NamedApart(ExpandAll(fs, functions, taskMode, hasRoles).bodies)
    ensures forall i :: 0 <= i < |ExpandAll(fs, functions, taskMode, hasRoles).bodies| ==>
              exists k :: 0 <= k < |fs| && fs[k].name == ExpandAll(fs, functions, taskMode, hasRoles).bodies[i].0
  {
    hide ExpandBody, Selected, Processed;
    if fs != [] {
      var front, bodies := fs[..|fs| - 1], ExpandAll(fs, functions, taskMode, hasRoles).bodies;
      var done := ExpandAll(front, functions, taskMode, hasRoles).bodies;
      PrefixWellFormed(fs, |fs| - 1, taskMode);
      RootsNamedApart(front, functions, taskMode, hasRoles);
      forall i | 0 <= i < |bodies|
        ensures bodies[i].0 != "" && exists k :: 0 <= k < |fs| && fs[k].name == bodies[i].0
        ensures i < |done| ==> exists k :: 0 <= k < |fs| - 1 && fs[k].name == bodies[i].0
      {
        if i < |done| {
          var k :| 0 <= k < |front| && front[k].name == done[i].0;
          assert fs[k].name == bodies[i].0;
        } else {
          assert fs[|fs| - 1].name == bodies[i].0;
        }
      }
    }
  }

  /** No expanded body of a module keeps a call that should have been expanded. */
  lemma {:induction false} BodiesKeepOnly(fs: seq<ModuleFunction>, functions: Functions, taskMode: bool,
                                          hasRoles: bool, i: nat)
    requires ExpandAll(fs, functions, taskMode, hasRoles).error.None?
    requires i < |ExpandAll(fs, functions, taskMode, hasRoles).bodies|
    ensures KeepsOnly(ExpandAll(fs, functions, taskMode, hasRoles).bodies[i].1, functions, taskMode)
  {
    hide ExpandBody, KeepsOnly;
    var f := fs[|fs| - 1];
    var done := ExpandAll(fs[..|fs| - 1], functions, taskMode, hasRoles);
    if i < |done.bodies| {
      BodiesKeepOnly(fs[..|fs| - 1], functions, taskMode, hasRoles, i);
    } else {
      BodyKeepsOnly(f.function_.body, functions, taskMode, {f.name}, 0);
    }
  }
}
