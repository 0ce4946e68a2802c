/** The lazily prepared, slot-based traversal of a trace program, against the recursive walk. */
module PreparedTrace {
  import opened Machine
  import opened IndexBinding
  import opened LoopWork
  import opened TraceWalk

  /** A node with what its first execution has prepared so far. */
  datatype PreparedNode =
    | Pending(source: Node)
    | PreparedAccess(source: Node, indices: seq<PreparedIndex>)
    | PreparedLoop(source: Node, variable: string, start: int, startExpression: Option<PreparedIndex>,
                   bound: int, boundExpression: Option<PreparedIndex>, step: int, count: nat, slot: nat,
                   bodyPrepared: bool, body: seq<PreparedNode>)

  // ----- scopes

  /** Inner loops have later slots. */
  ghost predicate Ordered(scope: LoopScope) {
    forall i, j :: 0 <= i < j < |scope| ==> scope[j].1 < scope[i].1
  }

  /** The first slot that no loop of the scope owns. */
  function Floor(scope: LoopScope): (f: nat) {
    if scope == [] then 0 else scope[0].1 + 1
  }

  /** Slots from some point on may grow and change; those below it are kept. */
  ghost predicate KeepsBelow(before: seq<int>, after: seq<int>, floor: nat) {
    floor <= |before| <= |after| && after[..floor] == before[..floor]
  }

  lemma KeepsTransitive(a: seq<int>, b: seq<int>, c: seq<int>, low: nat, high: nat)
    requires KeepsBelow(a, b, low) && KeepsBelow(b, c, high) && low <= high
    ensures KeepsBelow(a, c, low)
  {
    assert c[..low] == c[..high][..low];
    assert b[..low] == b[..high][..low];
  }

  lemma KeepsSelf(values: seq<int>, floor: nat)
    requires floor <= |values|
    ensures KeepsBelow(values, values, floor)
  {
  }

  lemma KeepsGrow(before: seq<int>, after: seq<int>, floor: nat)
    requires KeepsBelow(before, after, floor)
    ensures floor <= |before| <= |after|
  {
  }

  /** Everything a scope can see lies below its floor. */
  lemma HoldsKept(scope: LoopScope, before: seq<int>, after: seq<int>, env: Environment)
    requires Ordered(scope) && Holds(scope, before, env) && KeepsBelow(before, after, Floor(scope))
    ensures Holds(scope, after, env)
  {
    forall i | 0 <= i < |scope|
      ensures scope[i].1 < |after| && after[scope[i].1] == env[i].1
    {
      assert scope[i].1 < Floor(scope);
      assert after[..Floor(scope)][scope[i].1] == before[..Floor(scope)][scope[i].1];
    }
  }

  /** Entering an iteration: the loop's slot is written and its binding becomes the innermost. */
  lemma HoldsInside(scope: LoopScope, values: seq<int>, env: Environment, variable: string, slot: nat, value: int)
    requires Ordered(scope) && Holds(scope, values, env) && EnvIsI64(env) && IsI64(value)
    requires Floor(scope) <= slot < |values|
    ensures var inner := [(variable, slot)] + scope;
            && Ordered(inner) && Floor(inner) == slot + 1 && EnvIsI64([(variable, value)] + env)
            && Holds(inner, values[slot := value], [(variable, value)] + env)
            && KeepsBelow(values, values[slot := value], Floor(scope))
  {
    forall i | 0 <= i < |scope|
      ensures scope[i].1 < slot
    {
      assert scope[i].1 <= scope[0].1;
    }
    var inner, innerEnv := [(variable, slot)] + scope, [(variable, value)] + env;
    assert forall i :: 0 < i < |inner| ==> inner[i] == scope[i - 1] && innerEnv[i] == env[i - 1];
  }

  // ----- what has been prepared is right

  ghost predicate EndpointAs(expression: Option<PreparedIndex>, value: int, endpoint: Endpoint, scope: LoopScope) {
    match endpoint
    case Number(v) => expression.None? && value == v
    case Text(text) => expression.Some? && BoundAs(expression.value, text, scope)
  }

  ghost predicate LoopAs(p: PreparedNode, scope: LoopScope)
    requires p.PreparedLoop?
  {
    && p.source.Loop? && p.variable == p.source.variable && p.step == p.source.step
    && EndpointAs(p.startExpression, p.start, p.source.start, scope)
    && EndpointAs(p.boundExpression, p.bound, p.source.bound, scope)
    && (p.source.start.Number? && p.source.bound.Number? ==>
          LoopIterationCount(p.start, p.bound, p.step) == Some(p.count))
  }

  ghost predicate Sources(body: seq<PreparedNode>, source: Node)
    requires source.Loop?
  {
    |body| == |source.body| && forall i :: 0 <= i < |body| ==> body[i].source == source.body[i]
  }

  /** The prepared parts of a tree agree with its source, for the scope it is executed in. */
  ghost predicate Prepared(p: PreparedNode, scope: LoopScope, slots: nat)
    decreases p
  {
    match p
    case Pending(_) => true
    case PreparedAccess(source, indices) =>
      && source.Access? && |indices| == |source.indices|
      && forall i :: 0 <= i < |indices| ==> BoundAs(indices[i], source.indices[i], scope)
    case PreparedLoop(source, variable, _, _, _, _, _, _, slot, bodyPrepared, body) =>
      && LoopAs(p, scope) && Floor(scope) <= slot < slots
      && (bodyPrepared ==> Sources(body, source))
      && forall i :: 0 <= i < |body| ==> Prepared(body[i], [(variable, slot)] + scope, slots)
  }

  /** Growing the slot vector keeps what has been prepared. */
  lemma {:induction false} PreparedGrows(p: PreparedNode, scope: LoopScope, slots: nat, more: nat)
    requires Prepared(p, scope, slots) && slots <= more
    ensures Prepared(p, scope, more)
    decreases p
  {
    if p.PreparedLoop? {
      forall i | 0 <= i < |p.body|
        ensures Prepared(p.body[i], [(p.variable, p.slot)] + scope, more)
      {
        PreparedGrows(p.body[i], [(p.variable, p.slot)] + scope, slots, more);
      }
    }
  }

  // ----- preparation

  method PrepareIndices(indices: seq<string>, scope: LoopScope) returns (prepared: seq<PreparedIndex>)
    ensures |prepared| == |indices|
    ensures forall i :: 0 <= i < |indices| ==> BoundAs(prepared[i], indices[i], scope)
  {
    hide BoundAs;
    prepared := [];
    for k := 0 to |indices|
      invariant |prepared| == k && forall i :: 0 <= i < k ==> BoundAs(prepared[i], indices[i], scope)
    {
      var p := PrepareBoundAs(indices[k], scope);
      prepared := prepared + [p];
    }
  }

  method PrepareBoundAs(text: string, scope: LoopScope) returns (p: PreparedIndex)
    ensures BoundAs(p, text, scope)
  {
    p := PrepareIndex(text, scope);
  }

  method PrepareEndpoint(endpoint: Endpoint, scope: LoopScope) returns (expression: Option<PreparedIndex>, value: Int64)
    ensures EndpointAs(expression, value, endpoint, scope)
  {
    match endpoint
    case Number(v) =>
      expression, value := None, v;
    case Text(text) =>
      var p := PrepareBoundAs(text, scope);
      expression, value := Some(p), 0;
  }

  /** The children of a loop, still pending. */
  method PrepareBody(loop: PreparedNode, ghost scope: LoopScope, ghost slots: nat) returns (after: PreparedNode)
    requires loop.PreparedLoop? && Prepared(loop, scope, slots)
    ensures after.PreparedLoop? && after == loop.(bodyPrepared := true, body := after.body)
    ensures Prepared(after, scope, slots)
    ensures loop.bodyPrepared ==> after == loop
    ensures !loop.bodyPrepared ==>
              |after.body| == |loop.source.body|
              && forall i :: 0 <= i < |after.body| ==> after.body[i] == Pending(loop.source.body[i])
  {
    if loop.bodyPrepared {
      return loop;
    }
    var body := [];
    for i := 0 to |loop.source.body|
      invariant |body| == i && forall k :: 0 <= k < i ==> body[k] == Pending(loop.source.body[k])
    {
      body := body + [Pending(loop.source.body[i])];
    }
    after := loop.(bodyPrepared := true, body := body);
  }

  // ----- execution

  /** One traversal: the slot values and the accesses sent to the sink. */
  class TraceExecutor {
    var values: seq<int>
    var emitted: seq<Emission>
    const budget: ExpansionBudget

    constructor (budget: ExpansionBudget)
      ensures this.budget == budget && values == [] && emitted == []
    {
      this.budget := budget;
      values, emitted := [], [];
    }

    ghost function LoopLimits(): Limits {
      Limits(budget.singleLoopLimit, budget.cumulativeLoopLimit)
    }

    /** The traversal may run a node of this scope. */
    ghost predicate Ready(scope: LoopScope, env: Environment)
      reads this`values
    {
      Ordered(scope) && Holds(scope, values, env) && EnvIsI64(env) && Floor(scope) <= |values|
    }

    /** Bind a node on first contact; a loop takes a fresh slot. */
    method PrepareNode(node: PreparedNode, scope: LoopScope, ghost env: Environment)
      returns (after: PreparedNode, error: Option<TraceError>)
      requires Ready(scope, env) && Prepared(node, scope, |values|)
      modifies this`values
      ensures Ready(scope, env) && KeepsBelow(old(values), values, Floor(scope))
      ensures error.Some? ==> WalkNode(node.source, env) == Walk([], error)
      ensures error.None? ==> after.source == node.source && !after.Pending? && Prepared(after, scope, |values|)
      ensures !node.Pending? ==> error.None? && after == node && values == old(values)
      ensures node.Pending? && error.None? && after.PreparedLoop? ==>
                after.slot == |old(values)| && values == old(values) + [0] && !after.bodyPrepared
      ensures error.Some? || !after.PreparedLoop? ==> values == old(values)
    {
      after, error := node, None;
      if !node.Pending? {
        return;
      }
      match node.source
      case Unknown(_) =>
        error := Some(UnknownType);
      case Call(_, _, _) =>
        error := Some(UnknownType);
      case Access(_, indices) =>
        var prepared := PrepareIndices(indices, scope);
        after := PreparedAccess(node.source, prepared);
      case Loop(variable, start, bound, step, _) =>
        var startExpression, first := PrepareEndpoint(start, scope);
        var boundExpression, last := PrepareEndpoint(bound, scope);
        var count := 0;
        if startExpression.None? && boundExpression.None? {
          var trips := LoopIterationCount(first, last, step);
          if trips.None? {
            error := Some(ZeroStep);
            return;
          }
          count := trips.value;
        }
        hide WalkNode;
        after := PreparedLoop(node.source, variable, first, startExpression, last, boundExpression, step, count,
                              |values|, false, []);
        values := values + [0];
        HoldsKept(scope, old(values), values, env);
    }

    /** Send an access with its current index values to the sink. */
    method EmitAccess(node: PreparedNode, ghost scope: LoopScope, ghost env: Environment)
      requires Ready(scope, env) && node.PreparedAccess? && Prepared(node, scope, |values|)
      modifies this`emitted
      ensures emitted == old(emitted) + [EmissionOf(node.source.target, node.source.indices, env)]
      ensures var e := emitted[|emitted| - 1];
              && e.target == node.source.target && |e.texts| == |e.numbers| == |node.source.indices|
              && forall i :: 0 <= i < |e.texts| ==> e.texts[i] == EvalSpelling(node.source.indices[i], env)
                                                    && e.numbers[i] == EvalText(node.source.indices[i], env)
    {
      var texts, numbers := [], [];
      for k := 0 to |node.indices|
        invariant |texts| == |numbers| == k
        invariant forall i :: 0 <= i < k ==> texts[i] == EvalSpelling(node.source.indices[i], env)
                                             && numbers[i] == EvalText(node.source.indices[i], env)
        invariant emitted == old(emitted)
      {
        hide EvalSpelling, EvalText, BoundAs, Holds, EnvIsI64, Ordered;
        var text := Evaluate(node.indices[k], values, node.source.indices[k], scope, env);
        var number := EvaluateNumeric(node.indices[k], values, node.source.indices[k], scope, env);
        texts, numbers := texts + [text], numbers + [number];
      }
      assert Emission(node.source.target, texts, numbers) == EmissionOf(node.source.target, node.source.indices, env);
      emitted := emitted + [Emission(node.source.target, texts, numbers)];
    }

    /** The value of a loop endpoint at entry. */
    method EndpointNow(expression: Option<PreparedIndex>, value: int, ghost endpoint: Endpoint,
                       ghost scope: LoopScope, ghost env: Environment)
      returns (v: Option<int>)
      requires Ready(scope, env) && EndpointAs(expression, value, endpoint, scope)
      ensures v == EndpointValue(endpoint, env)
    {
      hide EvalText, BoundAs, Holds, EnvIsI64;
      if expression.Some? {
        v := EvaluateNumeric(expression.value, values, endpoint.text, scope, env);
      } else {
        v := Some(value);
      }
    }

    /** The traversal has done a run since `before`. */
    ghost predicate Did(run: Run, before: seq<Emission>, error: Option<TraceError>)
      reads this`emitted, budget`loopIterations
    {
      emitted == before + run.emitted && budget.loopIterations == run.used && error == run.error
    }

    /**
     * Execute a node: exactly the metered walk of its source, whatever was prepared before, and the
     * result is prepared for the next time.
     */
    method ExecuteNode(node: PreparedNode, scope: LoopScope, ghost env: Environment)
      returns (after: PreparedNode, error: Option<TraceError>)
      requires budget.Valid() && Ready(scope, env) && Prepared(node, scope, |values|)
      modifies this, budget`loopIterations
      ensures budget.Valid()
      ensures Did(Outcome(WalkNode(node.source, env), old(budget.loopIterations), LoopLimits()), old(emitted), error)
      ensures error.None? ==> after.source == node.source && Prepared(after, scope, |values|)
                              && Ready(scope, env) && KeepsBelow(old(values), values, Floor(scope))
      decreases node.source, 3
    {
      hide Holds, EnvIsI64, Prepared, EvalText, EvalSpelling;
      after, error := PrepareNode(node, scope, env);
      if error.Some? {
        return;
      }
      PreparedShape(after, scope, |values|);
      if after.PreparedAccess? {
        EmitAccess(after, scope, env);
        AccessOutcome(node.source, env, budget.loopIterations, LoopLimits());
        return;
      }
      label prepared:
      after, error := ExecuteLoop(after, scope, env);
      if error.None? {
        KeepsTransitive(old(values), old@prepared(values), values, Floor(scope), Floor(scope));
      }
    }

    /** Resolve the endpoints, charge the whole entry, then iterate. */
    method ExecuteLoop(loop: PreparedNode, scope: LoopScope, ghost env: Environment)
      returns (after: PreparedNode, error: Option<TraceError>)
      requires budget.Valid() && Ready(scope, env) && loop.PreparedLoop? && Prepared(loop, scope, |values|)
      modifies this, budget`loopIterations
      ensures budget.Valid()
      ensures Did(Outcome(WalkNode(loop.source, env), old(budget.loopIterations), LoopLimits()), old(emitted), error)
      ensures error.None? ==> after.source == loop.source && Prepared(after, scope, |values|)
                              && Ready(scope, env) && KeepsBelow(old(values), values, Floor(scope))
      decreases loop.source, 2
    {
      hide Holds, EnvIsI64, Prepared, EndpointValue, KeepsBelow, Ordered, WalkWhile, WalkNode, Outcome;
      after, error := loop, None;
      var start, bound, count;
      start, bound, count, error := ResolveEntry(loop, scope, env);
      if error.Some? {
        FailsAtOnce(error.value, budget.loopIterations, LoopLimits());
        return;
      }
      EntryOutcome(loop.source, env, start, bound, budget.loopIterations, LoopLimits());
      var rejected := budget.ConsumeLoopIterations(count);
      if rejected.Some? {
        return after, Some(Exhausted(rejected.value));
      }
      if count == 0 {
        NoMore(loop.source, env, start, bound, 0, budget.loopIterations, LoopLimits());
        KeepsSelf(values, Floor(scope));
        return;
      }
      after := PrepareBody(loop, scope, |values|);
      after, error := Iterate(after, scope, env, start, bound, count);
    }

    /** The endpoints and the trip count of one loop entry. */
    method ResolveEntry(loop: PreparedNode, ghost scope: LoopScope, ghost env: Environment)
      returns (start: int, bound: int, count: nat, error: Option<TraceError>)
      requires Ready(scope, env) && loop.PreparedLoop? && Prepared(loop, scope, |values|)
      ensures loop.source.Loop?
      ensures error.Some? ==> WalkNode(loop.source, env) == Walk([], error)
      ensures error == if EndpointValue(loop.source.start, env).None? then Some(UnresolvedStart)
                       else if EndpointValue(loop.source.bound, env).None? then Some(UnresolvedBound)
                       else if loop.source.step == 0 then Some(ZeroStep) else None
      ensures error.None? ==>
                && loop.source.step != 0
                && EndpointValue(loop.source.start, env) == Some(start)
                && EndpointValue(loop.source.bound, env) == Some(bound)
                && LoopIterationCount(start, bound, loop.source.step) == Some(count)
    {
      hide Holds, EnvIsI64, Prepared, EvalText, EndpointValue, Ordered, WalkWhile;
      PreparedShape(loop, scope, |values|);
      start, bound, count, error := 0, 0, loop.count, None;
      var first := EndpointNow(loop.startExpression, loop.start, loop.source.start, scope, env);
      if first.None? {
        error := Some(UnresolvedStart);
        return;
      }
      var last := EndpointNow(loop.boundExpression, loop.bound, loop.source.bound, scope, env);
      if last.None? {
        error := Some(UnresolvedBound);
        return;
      }
      start, bound := first.value, last.value;
      if loop.startExpression.Some? || loop.boundExpression.Some? {
        var trips := LoopIterationCount(start, bound, loop.step);
        if trips.None? {
          error := Some(ZeroStep);
          return;
        }
        count := trips.value;
      }
      CachedCount(loop, scope, env, start, bound, count);
    }

    /** Run the body once for every induction value, writing it to the loop's slot first. */
    method Iterate(loop: PreparedNode, scope: LoopScope, ghost env: Environment, start: int, ghost bound: int,
                   count: nat)
      returns (after: PreparedNode, error: Option<TraceError>)
      requires budget.Valid() && Ready(scope, env) && loop.PreparedLoop? && loop.bodyPrepared
      requires Prepared(loop, scope, |values|) && loop.source.Loop? && loop.source.step != 0
      requires IsI64(start) && IsI64(bound) && LoopIterationCount(start, bound, loop.source.step) == Some(count)
      modifies this, budget`loopIterations
      ensures budget.Valid()
      ensures Did(Outcome(WalkWhile(loop.source, env, start, bound), old(budget.loopIterations), LoopLimits()),
                  old(emitted), error)
      ensures error.None? ==> after.source == loop.source && Prepared(after, scope, |values|)
                              && Ready(scope, env) && KeepsBelow(old(values), values, Floor(scope))
      decreases loop.source, 1
    {
      hide Holds, EnvIsI64, Prepared, Ordered, KeepsBelow, Outcome, WalkWhile, WalkBody, EndpointAs, LoopAs,
           LoopIterationCount, InductionValue, Underway;
      PreparedShape(loop, scope, |values|);
      after, error := loop, None;
      ghost var node, limits := loop.source, LoopLimits();
      var value, iteration := start, 0;
      KeepsSelf(values, Floor(scope));
      InductionSteps(start, node.step, 0);
      ghost var whole := Outcome(WalkWhile(node, env, start, bound), budget.loopIterations, limits);
      ghost var out: seq<Emission> := [];
      UnderwayStarts(node, env, start, bound, whole, budget.loopIterations, limits);
      while iteration < count
        invariant error.None? && iteration <= count
        invariant iteration < count ==> value == InductionValue(start, node.step, iteration)
        invariant budget.Valid() && Ready(scope, env) && KeepsBelow(old(values), values, Floor(scope))
        invariant after.PreparedLoop? && after.bodyPrepared && after.source == node && after.step == node.step
        invariant Prepared(after, scope, |values|)
        invariant emitted == old(emitted) + out
        invariant Underway(node, env, start, bound, iteration, whole, out, budget.loopIterations, limits)
      {
        ghost var before, used := values, budget.loopIterations;
        UnderwayStep(node, env, start, bound, iteration, count, whole, out, used, limits);
        after, error := RunIteration(after, scope, env, value);
        if error.Some? {
          return;
        }
        out := out + Outcome(WalkBody(node, [(node.variable, value)] + env, 0), used, limits).emitted;
        KeepsTransitive(old(values), before, values, Floor(scope), Floor(scope));
        if iteration + 1 < count {
          // The checked increment cannot overflow.
          assert IsI64(value + after.step);
          value := value + after.step;
        }
        iteration := iteration + 1;
      }
      UnderwayEnds(node, env, start, bound, count, whole, out, budget.loopIterations, limits);
    }

    /** One iteration: write the induction value to the loop's slot and run the body. */
    method RunIteration(loop: PreparedNode, scope: LoopScope, ghost env: Environment, value: int)
      returns (after: PreparedNode, error: Option<TraceError>)
      requires budget.Valid() && Ready(scope, env) && loop.PreparedLoop? && loop.bodyPrepared && loop.source.Loop?
      requires Prepared(loop, scope, |values|) && IsI64(value)
      modifies this, budget`loopIterations
      ensures budget.Valid()
      ensures var inner := [(loop.source.variable, value)] + env;
              Did(Outcome(WalkBody(loop.source, inner, 0), old(budget.loopIterations), LoopLimits()), old(emitted),
                  error)
      ensures error.None? ==>
                && after.PreparedLoop? && after == loop.(body := after.body) && Prepared(after, scope, |values|)
                && Ready(scope, env) && KeepsBelow(old(values), values, Floor(scope))
      decreases loop.source, 0, 1
    {
      hide Holds, EnvIsI64, Prepared, Ordered, KeepsBelow, Outcome, WalkBody, AllPrepared, EndpointAs,
          LoopIterationCount;
      after := loop;
      PreparedShape(loop, scope, |values|);
      values := values[loop.slot := value];
      HoldsInside(scope, old(values), env, loop.variable, loop.slot, value);
      PreparedChildren(loop, scope, |values|);
      label inside:
      var body;
      body, error := ExecuteBody(loop.body, loop.source, [(loop.variable, loop.slot)] + scope,
                                 [(loop.variable, value)] + env);
      if error.Some? {
        return;
      }
      KeepsTransitive(old(values), old@inside(values), values, Floor(scope), loop.slot + 1);
      KeepsGrow(old(values), values, Floor(scope));
      HoldsKept(scope, old(values), values, env);
      PreparedRebuilt(loop, body, scope, |old(values)|, |values|);
      after := loop.(body := body);
    }

    /** Run the children once, in order. */
    method ExecuteBody(body: seq<PreparedNode>, ghost node: Node, scope: LoopScope, ghost env: Environment)
      returns (after: seq<PreparedNode>, error: Option<TraceError>)
      requires budget.Valid() && Ready(scope, env) && node.Loop? && Sources(body, node)
      requires AllPrepared(body, scope, |values|)
      modifies this, budget`loopIterations
      ensures budget.Valid()
      ensures Did(Outcome(WalkBody(node, env, 0), old(budget.loopIterations), LoopLimits()), old(emitted), error)
      ensures error.None? ==> Sources(after, node) && AllPrepared(after, scope, |values|)
                              && Ready(scope, env) && KeepsBelow(old(values), values, Floor(scope))
      decreases node, 0, 0
    {
      hide Holds, EnvIsI64, Prepared, Ordered, KeepsBelow, AllPrepared, WalkNode, WalkBody, Outcome;
      after, error := body, None;
      KeepsSelf(values, Floor(scope));
      ghost var whole := Outcome(WalkBody(node, env, 0), budget.loopIterations, LoopLimits());
      ghost var out: seq<Emission> := [];
      for i := 0 to |body|
        invariant Sources(after, node) && AllPrepared(after, scope, |values|)
        invariant budget.Valid() && Ready(scope, env) && KeepsBelow(old(values), values, Floor(scope))
        invariant emitted == old(emitted) + out
        invariant whole == After(out, Outcome(WalkBody(node, env, i), budget.loopIterations, LoopLimits()))
        invariant error.None?
      {
        label before:
        ghost var used := budget.loopIterations;
        BodyOutcome(node, env, i, used, LoopLimits());
        ChildPrepared(after, i, scope, |values|);
        var child;
        child, error := ExecuteNode(after[i], scope, env);
        if error.Some? {
          return;
        }
        ghost var run := Outcome(WalkNode(node.body[i], env), used, LoopLimits());
        AfterAfter(out, run.emitted, Outcome(WalkBody(node, env, i + 1), run.used, LoopLimits()));
        out := out + run.emitted;
        KeepsTransitive(old(values), old@before(values), values, Floor(scope), Floor(scope));
        KeepsGrow(old@before(values), values, Floor(scope));
        ChildReplaced(after, i, child, scope, |old@before(values)|, |values|);
        after := after[i := child];
      }
      BodyDone(node, env, budget.loopIterations, LoopLimits());
    }
  }

  /**
   * Traverse a whole program: its metered walk in the empty environment. It succeeds exactly when the walk
   * has no error and every entry and their sum fit the limits; then every access was emitted in order and
   * the charged loop work is the sum of the trip counts.
   */
  method VisitPreparedAccesses(node: Node, budget: ExpansionBudget)
    returns (emitted: seq<Emission>, error: Option<TraceError>)
    requires budget.Valid()
    modifies budget`loopIterations
    ensures budget.Valid()
    ensures var limits := Limits(budget.singleLoopLimit, budget.cumulativeLoopLimit);
            Run(emitted, budget.loopIterations, error)
            == Outcome(WalkNode(node, []), old(budget.loopIterations), limits)
    ensures var walk := WalkNode(node, []);
            && (error.None? <==> walk.error.None? && AllWithin(Entries(walk.events), budget.singleLoopLimit)
                                 && old(budget.loopIterations) + Total(Entries(walk.events)) <= budget.cumulativeLoopLimit)
            && (error.None? ==> emitted == Emissions(walk.events)
                                && budget.loopIterations == old(budget.loopIterations) + Total(Entries(walk.events)))
            && emitted <= Emissions(walk.events)
  {
    hide WalkNode, Metered, Entries, Emissions, AllWithin;
    var executor := new TraceExecutor(budget);
    ghost var used := budget.loopIterations;
    BudgetExact(WalkNode(node, []).events, used, executor.LoopLimits());
    var after;
    after, error := executor.ExecuteNode(Pending(node), [], []);
    emitted := executor.emitted;
    assert [] + Outcome(WalkNode(node, []), used, executor.LoopLimits()).emitted == emitted;
  }

  // ----- facts about single steps

  ghost predicate AllPrepared(body: seq<PreparedNode>, scope: LoopScope, slots: nat) {
    forall i :: 0 <= i < |body| ==> Prepared(body[i], scope, slots)
  }

  lemma ChildPrepared(body: seq<PreparedNode>, i: nat, scope: LoopScope, slots: nat)
    requires i < |body| && AllPrepared(body, scope, slots)
    ensures Prepared(body[i], scope, slots)
  {
  }

  lemma ChildReplaced(body: seq<PreparedNode>, i: nat, child: PreparedNode, scope: LoopScope, slots: nat, more: nat)
    requires i < |body| && AllPrepared(body, scope, slots) && slots <= more && Prepared(child, scope, more)
    ensures AllPrepared(body[i := child], scope, more)
  {
    hide Prepared;
    var next := body[i := child];
    forall j | 0 <= j < |next|
      ensures Prepared(next[j], scope, more)
    {
      if j != i {
        PreparedGrows(body[j], scope, slots, more);
      }
    }
  }

  lemma PreparedChildren(p: PreparedNode, scope: LoopScope, slots: nat)
    requires p.PreparedLoop? && Prepared(p, scope, slots)
    ensures AllPrepared(p.body, [(p.variable, p.slot)] + scope, slots)
  {
  }

  /** A loop with its children replaced by prepared ones is prepared. */
  lemma PreparedRebuilt(p: PreparedNode, body: seq<PreparedNode>, scope: LoopScope, slots: nat, more: nat)
    requires p.PreparedLoop? && Prepared(p, scope, slots) && slots <= more && p.source.Loop?
    requires Sources(body, p.source) && AllPrepared(body, [(p.variable, p.slot)] + scope, more)
    ensures Prepared(p.(body := body), scope, more)
  {
    var q := p.(body := body);
    assert LoopAs(q, scope) <==> LoopAs(p, scope);
  }

  /** The first `k` iterations have emitted `out`; the plain loop from there on does the rest of the whole. */
  ghost predicate Underway(node: Node, env: Environment, start: int, bound: int, k: nat, whole: Run,
                           out: seq<Emission>, used: nat, limits: Limits)
    requires node.Loop? && node.step != 0
  {
    whole == After(out, Outcome(WalkWhile(node, env, InductionValue(start, node.step, k), bound), used, limits))
  }

  /** One iteration of the plain loop, metered. The next value is representable if there is one. */
  lemma UnderwayStep(node: Node, env: Environment, start: int, bound: int, k: nat, count: nat, whole: Run,
                     out: seq<Emission>, used: nat, limits: Limits)
    requires node.Loop? && node.step != 0 && IsI64(start) && IsI64(bound)
    requires LoopIterationCount(start, bound, node.step) == Some(count) && k < count
    requires Underway(node, env, start, bound, k, whole, out, used, limits)
    ensures var value := InductionValue(start, node.step, k);
            var run := Outcome(WalkBody(node, [(node.variable, value)] + env, 0), used, limits);
            && IsI64(value) && InductionValue(start, node.step, k + 1) == value + node.step
            && (k + 1 < count ==> IsI64(value + node.step))
            && if run.error.Some? then whole == After(out, run)
               else Underway(node, env, start, bound, k + 1, whole, out + run.emitted, run.used, limits)
  {
    TripCountExact(start, bound, node.step, k);
    TripCountExact(start, bound, node.step, k + 1);
    InductionSteps(start, node.step, k);
    hide WalkBody, WalkWhile, Outcome, InductionValue, LoopIterationCount, Before;
    var value := InductionValue(start, node.step, k);
    WhileOutcome(node, env, value, bound, used, limits);
    var run := Outcome(WalkBody(node, [(node.variable, value)] + env, 0), used, limits);
    AfterAfter(out, run.emitted, Outcome(WalkWhile(node, env, value + node.step, bound), run.used, limits));
  }

  /** One turn of the plain loop, metered. */
  lemma WhileOutcome(node: Node, env: Environment, value: int, bound: int, used: nat, limits: Limits)
    requires node.Loop? && node.step != 0 && Before(value, bound, node.step)
    ensures var run := Outcome(WalkBody(node, [(node.variable, value)] + env, 0), used, limits);
            Outcome(WalkWhile(node, env, value, bound), used, limits)
            == if run.error.Some? then run
               else After(run.emitted, Outcome(WalkWhile(node, env, value + node.step, bound), run.used, limits))
  {
    hide WalkBody;
    OutcomeSeq(WalkBody(node, [(node.variable, value)] + env, 0), WalkWhile(node, env, value + node.step, bound),
               used, limits);
  }

  lemma UnderwayStarts(node: Node, env: Environment, start: int, bound: int, whole: Run, used: nat, limits: Limits)
    requires node.Loop? && node.step != 0 && whole == Outcome(WalkWhile(node, env, start, bound), used, limits)
    ensures Underway(node, env, start, bound, 0, whole, [], used, limits)
  {
    InductionSteps(start, node.step, 0);
    assert [] + whole.emitted == whole.emitted;
  }

  lemma UnderwayEnds(node: Node, env: Environment, start: int, bound: int, count: nat, whole: Run,
                     out: seq<Emission>, used: nat, limits: Limits)
    requires node.Loop? && node.step != 0 && IsI64(start) && IsI64(bound)
    requires LoopIterationCount(start, bound, node.step) == Some(count)
    requires Underway(node, env, start, bound, count, whole, out, used, limits)
    ensures whole == Run(out, used, None)
  {
    NoMore(node, env, start, bound, count, used, limits);
    assert out + [] == out;
  }

  /** One child of the body, metered. */
  lemma BodyOutcome(node: Node, env: Environment, i: nat, used: nat, limits: Limits)
    requires node.Loop? && i < |node.body|
    ensures var run := Outcome(WalkNode(node.body[i], env), used, limits);
            Outcome(WalkBody(node, env, i), used, limits)
            == if run.error.Some? then run
               else After(run.emitted, Outcome(WalkBody(node, env, i + 1), run.used, limits))
  {
    hide WalkNode;
    OutcomeSeq(WalkNode(node.body[i], env), WalkBody(node, env, i + 1), used, limits);
  }

  lemma BodyDone(node: Node, env: Environment, used: nat, limits: Limits)
    requires node.Loop?
    ensures Outcome(WalkBody(node, env, |node.body|), used, limits) == Run([], used, None)
  {
  }

  lemma InductionSteps(start: int, step: int, k: nat)
    ensures InductionValue(start, step, 0) == start
    ensures InductionValue(start, step, k + 1) == InductionValue(start, step, k) + step
  {
  }

  /** After the last iteration the plain loop stops too. */
  lemma NoMore(node: Node, env: Environment, start: int, bound: int, count: nat, used: nat, limits: Limits)
    requires node.Loop? && node.step != 0 && IsI64(start) && IsI64(bound)
    requires LoopIterationCount(start, bound, node.step) == Some(count)
    ensures Outcome(WalkWhile(node, env, InductionValue(start, node.step, count), bound), used, limits)
            == Run([], used, None)
  {
    TripCountExact(start, bound, node.step, count);
  }

  lemma PreparedShape(p: PreparedNode, scope: LoopScope, slots: nat)
    requires Prepared(p, scope, slots) && !p.Pending?
    ensures p.PreparedAccess? ==> p.source.Access?
    ensures p.PreparedLoop? ==> LoopAs(p, scope) && Floor(scope) <= p.slot < slots
    ensures p.PreparedLoop? && p.bodyPrepared ==> Sources(p.body, p.source)
  {
  }

  /** A count cached at preparation is the count of the resolved endpoints. */
  lemma CachedCount(loop: PreparedNode, scope: LoopScope, env: Environment, start: int, bound: int, count: nat)
    requires loop.PreparedLoop? && LoopAs(loop, scope)
    requires EndpointValue(loop.source.start, env) == Some(start)
            && EndpointValue(loop.source.bound, env) == Some(bound)
    requires if loop.startExpression.Some? || loop.boundExpression.Some?
             then LoopIterationCount(start, bound, loop.step) == Some(count) else count == loop.count
    ensures loop.source.step != 0 && LoopIterationCount(start, bound, loop.source.step) == Some(count)
  {
  }

  lemma FailsAtOnce(error: TraceError, used: nat, limits: Limits)
    ensures Outcome(Walk([], Some(error)), used, limits) == Run([], used, Some(error))
  {
  }

  lemma AccessOutcome(node: Node, env: Environment, used: nat, limits: Limits)
    requires node.Access?
    ensures Outcome(WalkNode(node, env), used, limits) == Run([EmissionOf(node.target, node.indices, env)], used, None)
  {
    var events := [Emit(EmissionOf(node.target, node.indices, env))];
    assert events[1..] == [];
    assert Metered(events[1..], used, limits) == Run([], used, None);
  }

  /** Entering a loop charges its trip count, then runs its iterations. */
  lemma EntryOutcome(node: Node, env: Environment, start: int, bound: int, used: nat, limits: Limits)
    requires node.Loop? && node.step != 0
    requires EndpointValue(node.start, env) == Some(start) && EndpointValue(node.bound, env) == Some(bound)
    ensures var count := LoopIterationCount(start, bound, node.step).value;
            Outcome(WalkNode(node, env), used, limits)
            == match LoopCharge(count, used, limits.single, limits.cumulative)
               case Some(error) => Run([], used, Some(Exhausted(error)))
               case None => Outcome(WalkWhile(node, env, start, bound), used + count, limits)
  {
    hide EndpointValue, WalkWhile;
    var count := LoopIterationCount(start, bound, node.step).value;
    var entry, rest := Walk([Enter(count)], None), WalkWhile(node, env, start, bound);
    OutcomeSeq(entry, rest, used, limits);
    assert [Enter(count)][1..] == [];
    if LoopCharge(count, used, limits.single, limits.cumulative).None? {
      var run := Outcome(rest, used + count, limits);
      assert [] + run.emitted == run.emitted;
    }
  }
}
