/** Expansion of inline calls under a structural budget. */
module InlineExpansion {
  import opened Machine
  import opened LoopWork
  import opened TraceWalk
  import opened CallSubstitution

  datatype Function = Function(params: seq<string>, body: seq<Node>, inlined: bool)

  type Functions = map<string, Function>

  datatype ExpandError =
    | UnknownTarget | RecursiveExpansion | ArityMismatch | ObjectArityMismatch | Refused(limit: BudgetError)

  /** What expansion charges, in order: entering an inline call at a depth, or keeping a node. */
  datatype Charge = EnterCall(depth: nat) | KeepNode

  /** The nodes an expansion yields, what it charges, and the error that stops it. */
  datatype Expansion = Expansion(nodes: seq<Node>, charges: seq<Charge>, error: Option<ExpandError>)

  function Then(first: Expansion, second: Expansion): (r: Expansion) {
    if first.error.Some? then first
    else Expansion(first.nodes + second.nodes, first.charges + second.charges, second.error)
  }

  // ----- bindings

  /** Bind keys to values in order; later ones of the same name win. */
  function BindUpTo<T>(keys: seq<string>, values: seq<T>, n: nat): (m: map<string, T>)
    requires n <= |keys| && n <= |values|
    ensures forall key :: key in m <==> key in keys[..n]
  {
    if n == 0 then map[]
    else
      assert keys[..n] == keys[..n - 1] + [keys[n - 1]];
      BindUpTo(keys, values, n - 1)[keys[n - 1] := values[n - 1]]
  }

  function Bindings<T>(keys: seq<string>, values: seq<T>): (m: map<string, T>) {
    BindUpTo(keys, values, Min(|keys|, |values|))
  }

  /** The canonical identity of a formal object. */
  function FormalObject(callee: string, parameter: string): (id: string) {
    "function:" + callee + "::param:" + parameter
  }

  function FormalObjects(callee: string, params: seq<string>): (ids: seq<string>) {
    seq(|params|, i requires 0 <= i < |params| => FormalObject(callee, params[i]))
  }

  /** The actual objects of a call; a call without them binds none. */
  function ActualObjects(call: Node): (targets: seq<string>)
    requires call.Call?
  {
    if call.argObjects.None? then [] else call.argObjects.value
  }

  function NameBindings(function_: Function, call: Node): (m: CallMapping)
    requires call.Call?
  {
    Bindings(function_.params, call.args)
  }

  function ObjectBindings(function_: Function, call: Node): (m: CallMapping)
    requires call.Call?
  {
    Bindings(FormalObjects(call.callee, function_.params), ActualObjects(call))
  }

  function ArityError(function_: Function, call: Node): (error: Option<ExpandError>)
    requires call.Call?
  {
    if |function_.params| != |call.args| then Some(ArityMismatch)
    else if call.argObjects.Some? && |call.argObjects.value| != |call.args| then Some(ObjectArityMismatch)
    else None
  }

  // ----- expansion

  /** Calls to `function_` are replaced; in task mode only inline functions are. */
  predicate Expands(taskMode: bool, function_: Function) {
    !taskMode || function_.inlined
  }

  /** Expand one node: substitute and splice the callee's body, at most once per function on the stack. */
  ghost function ExpandNode(node: Node, functions: Functions, taskMode: bool, stack: set<string>,
                            depth: nat): (r: Expansion)
    decreases functions.Keys - stack, node, 1
  {
    match node
    case Access(_, _) => Expansion([node], [KeepNode], None)
    case Unknown(_) => Expansion([node], [KeepNode], None)
    case Loop(variable, start, bound, step, body) =>
      var inner := ExpandBody(body, functions, taskMode, stack, depth);
      if inner.error.Some? then Expansion([], inner.charges, inner.error)
      else Expansion([Loop(variable, start, bound, step, inner.nodes)], inner.charges + [KeepNode], None)
    case Call(callee, _, _) =>
      if callee !in functions then Expansion([], [], Some(UnknownTarget))
      else if !Expands(taskMode, functions[callee]) then Expansion([node], [KeepNode], None)
      else if callee in stack then Expansion([], [], Some(RecursiveExpansion))
      else
        Then(Expansion([], [EnterCall(depth + 1)], ArityError(functions[callee], node)),
             ExpandBody(SubstitutedBody(functions[callee].body, NameBindings(functions[callee], node),
                                        ObjectBindings(functions[callee], node)),
                        functions, taskMode, stack + {callee}, depth + 1))
  }

  ghost function ExpandBody(body: seq<Node>, functions: Functions, taskMode: bool, stack: set<string>,
                            depth: nat): (r: Expansion)
    decreases functions.Keys - stack, body, 1
  {
    if body == [] then Expansion([], [], None)
    else Then(ExpandNode(body[0], functions, taskMode, stack, depth),
              ExpandBody(body[1..], functions, taskMode, stack, depth))
  }

  // ----- the budget

  datatype Meter = Meter(used: nat, deepest: nat, error: Option<BudgetError>)

  /** Each charge takes one node; entering a call first checks its depth. */
  function Budgeted(charges: seq<Charge>, used: nat, deepest: nat, nodeLimit: nat, depthLimit: nat): (m: Meter)
    decreases |charges|
  {
    if charges == [] then Meter(used, deepest, None)
    else if charges[0].EnterCall? && charges[0].depth > depthLimit then Meter(used, deepest, Some(InlineDepthExceeded))
    else
      var reached := if charges[0].EnterCall? then Max(deepest, charges[0].depth) else deepest;
      if used + 1 > nodeLimit then Meter(used, reached, Some(NodesExhausted))
      else Budgeted(charges[1..], used + 1, reached, nodeLimit, depthLimit)
  }

  lemma {:induction false} BudgetedAppend(first: seq<Charge>, second: seq<Charge>, used: nat, deepest: nat,
                                         nodeLimit: nat, depthLimit: nat)
    ensures var m := Budgeted(first, used, deepest, nodeLimit, depthLimit);
            Budgeted(first + second, used, deepest, nodeLimit, depthLimit)
            == if m.error.Some? then m else Budgeted(second, m.used, m.deepest, nodeLimit, depthLimit)
    decreases |first|
  {
    if first == [] {
      assert first + second == second;
    } else {
      assert (first + second)[1..] == first[1..] + second;
      var reached := if first[0].EnterCall? then Max(deepest, first[0].depth) else deepest;
      if used + 1 <= nodeLimit {
        BudgetedAppend(first[1..], second, used + 1, reached, nodeLimit, depthLimit);
      }
    }
  }

  predicate DepthsWithin(charges: seq<Charge>, depthLimit: nat) {
    forall i :: 0 <= i < |charges| ==> charges[i].EnterCall? ==> charges[i].depth <= depthLimit
  }

  /** The budget admits an expansion exactly when its charges and depths fit, and then it has taken every charge. */
  lemma {:induction false} ExpansionBudgetExact(charges: seq<Charge>, used: nat, deepest: nat, nodeLimit: nat,
                                                depthLimit: nat)
    requires used <= nodeLimit
    ensures var m := Budgeted(charges, used, deepest, nodeLimit, depthLimit);
            && (m.error.None? <==> used + |charges| <= nodeLimit && DepthsWithin(charges, depthLimit))
            && (m.error.None? ==> m.used == used + |charges|)
    decreases |charges|
  {
    if charges != [] {
      var reached := if charges[0].EnterCall? then Max(deepest, charges[0].depth) else deepest;
      assert DepthsWithin(charges, depthLimit) <==>
             (charges[0].EnterCall? ==> charges[0].depth <= depthLimit) && DepthsWithin(charges[1..], depthLimit) by {
        assert charges == [charges[0]] + charges[1..];
      }
      if used + 1 <= nodeLimit {
        ExpansionBudgetExact(charges[1..], used + 1, reached, nodeLimit, depthLimit);
      }
    }
  }

  /** A budget that runs out stops at one charge: a call that is too deep, or else the first node above the limit. */
  lemma {:induction false} ExpansionBudgetStops(charges: seq<Charge>, used: nat, deepest: nat, nodeLimit: nat,
                                                depthLimit: nat)
    returns (n: nat)
    requires used <= nodeLimit && Budgeted(charges, used, deepest, nodeLimit, depthLimit).error.Some?
    ensures n < |charges| && DepthsWithin(charges[..n], depthLimit) && used + n <= nodeLimit
    ensures var m := Budgeted(charges, used, deepest, nodeLimit, depthLimit);
            && m.used == used + n
            && if charges[n].EnterCall? && charges[n].depth > depthLimit then m.error == Some(InlineDepthExceeded)
               else used + n == nodeLimit && m.error == Some(NodesExhausted)
    decreases |charges|
  {
    n := 0;
    if !(charges[0].EnterCall? && charges[0].depth > depthLimit) && used + 1 <= nodeLimit {
      var reached := if charges[0].EnterCall? then Max(deepest, charges[0].depth) else deepest;
      n := ExpansionBudgetStops(charges[1..], used + 1, reached, nodeLimit, depthLimit);
      assert charges[..n + 1] == [charges[0]] + charges[1..][..n];
      n := n + 1;
    }
  }

  /** The reported depth is the greatest one entered. */
  lemma {:induction false} DeepestReached(charges: seq<Charge>, used: nat, deepest: nat, nodeLimit: nat,
                                          depthLimit: nat)
    requires Budgeted(charges, used, deepest, nodeLimit, depthLimit).error.None?
    ensures var m := Budgeted(charges, used, deepest, nodeLimit, depthLimit);
            && deepest <= m.deepest && (m.deepest == deepest || EnterCall(m.deepest) in charges)
            && forall depth: nat :: EnterCall(depth) in charges ==> depth <= m.deepest
    decreases |charges|
  {
    if charges != [] {
      var reached := if charges[0].EnterCall? then Max(deepest, charges[0].depth) else deepest;
      DeepestReached(charges[1..], used + 1, reached, nodeLimit, depthLimit);
      assert charges == [charges[0]] + charges[1..];
    }
  }

  /** The number of nodes of a body, loops included. */
  function NodeCount(body: seq<Node>): (n: nat)
    decreases body
  {
    if body == [] then 0
    else 1 + (if body[0].Loop? then NodeCount(body[0].body) else 0) + NodeCount(body[1..])
  }

  function CallsEntered(charges: seq<Charge>): (n: nat) {
    if charges == [] then 0 else (if charges[0].EnterCall? then 1 else 0) + CallsEntered(charges[1..])
  }

  // ----- the recursive expander

  /** The error a metered expansion reports: the budget's if it ran out first, else its own. */
  function Reported(m: Meter, own: Option<ExpandError>): (error: Option<ExpandError>) {
    match m.error
    case Some(limit) => Some(Refused(limit))
    case None => own
  }

  /** A budget that has taken the charges of an expansion, and the error reported. */
  ghost predicate Charged(e: Expansion, budget: ExpansionBudget, used: nat, deepest: nat, error: Option<ExpandError>)
    reads budget
  {
    var m := Budgeted(e.charges, used, deepest, budget.nodeLimit, budget.depthLimit);
    budget.expandedNodes == m.used && budget.maximumInlineDepth == m.deepest && error == Reported(m, e.error)
  }

  /** Taking the charges of one expansion and then of another is taking those of both. */
  lemma ChargedThen(first: Expansion, second: Expansion, used: nat, deepest: nat, nodeLimit: nat, depthLimit: nat)
    ensures var m := Budgeted(first.charges, used, deepest, nodeLimit, depthLimit);
            var both := Budgeted(Then(first, second).charges, used, deepest, nodeLimit, depthLimit);
            if Reported(m, first.error).Some?
            then both == m && Reported(both, Then(first, second).error) == Reported(m, first.error)
            else
              && both == Budgeted(second.charges, m.used, m.deepest, nodeLimit, depthLimit)
              && Then(first, second).error == second.error && Then(first, second).nodes == first.nodes + second.nodes
  {
    if first.error.None? {
      BudgetedAppend(first.charges, second.charges, used, deepest, nodeLimit, depthLimit);
    }
  }

  /** Charge one node and append it. */
  method Keep(node: Node, budget: ExpansionBudget, expanded: seq<Node>)
    returns (result: seq<Node>, error: Option<ExpandError>)
    requires budget.Valid()
    modifies budget`expandedNodes
    ensures budget.Valid()
    ensures Charged(Expansion([node], [KeepNode], None), budget, old(budget.expandedNodes),
                    budget.maximumInlineDepth, error)
    ensures error.None? ==> result == expanded + [node]
  {
    var rejected := budget.ConsumeExpandedNode();
    assert [KeepNode][1..] == [];
    if rejected.Some? {
      return expanded, Some(Refused(rejected.value));
    }
    result, error := expanded + [node], None;
  }

  /** Expand a node at the end of the output, charging the budget on the way. */
  method AppendExpandedNode(node: Node, functions: Functions, stack: set<string>, taskMode: bool,
                            budget: ExpansionBudget, depth: nat, expanded: seq<Node>)
    returns (result: seq<Node>, error: Option<ExpandError>)
    requires budget.Valid()
    modifies budget`expandedNodes, budget`maximumInlineDepth
    ensures budget.Valid()
    ensures var e := ExpandNode(node, functions, taskMode, stack, depth);
            && Charged(e, budget, old(budget.expandedNodes), old(budget.maximumInlineDepth), error)
            && (error.None? ==> result == expanded + e.nodes)
    decreases functions.Keys - stack, node, 1
  {
    match node
    case Loop(variable, start, bound, step, body) =>
      result, error := ExpandLoop(node, functions, stack, taskMode, budget, depth, expanded);
    case Call(callee, _, _) =>
      if callee !in functions {
        return expanded, Some(UnknownTarget);
      }
      if taskMode && !functions[callee].inlined {
        result, error := Keep(node, budget, expanded);
        return;
      }
      if callee in stack {
        return expanded, Some(RecursiveExpansion);
      }
      result, error := ExpandCall(node, functions, stack, taskMode, budget, depth, expanded);
    case Access(_, _) =>
      result, error := Keep(node, budget, expanded);
    case Unknown(_) =>
      result, error := Keep(node, budget, expanded);
  }

  /** Expand a loop's body apart, then keep the loop around it. */
  method ExpandLoop(node: Node, functions: Functions, stack: set<string>, taskMode: bool,
                    budget: ExpansionBudget, depth: nat, expanded: seq<Node>)
    returns (result: seq<Node>, error: Option<ExpandError>)
    requires budget.Valid() && node.Loop?
    modifies budget`expandedNodes, budget`maximumInlineDepth
    ensures budget.Valid()
    ensures var e := ExpandNode(node, functions, taskMode, stack, depth);
            && Charged(e, budget, old(budget.expandedNodes), old(budget.maximumInlineDepth), error)
            && (error.None? ==> result == expanded + e.nodes)
    decreases functions.Keys - stack, node, 0
  {
    ghost var e := ExpandBody(node.body, functions, taskMode, stack, depth);
    var body;
    body, error := AppendExpandedBody(node.body, functions, stack, taskMode, budget, depth, []);
    var loop := Loop(node.variable, node.start, node.bound, node.step, body);
    ChargedThen(e, Expansion([loop], [KeepNode], None), old(budget.expandedNodes), old(budget.maximumInlineDepth),
                budget.nodeLimit, budget.depthLimit);
    if error.Some? {
      return expanded, error;
    }
    assert [] + e.nodes == e.nodes;
    result, error := Keep(loop, budget, expanded);
  }

  /** Expand the nodes of a body in order. */
  method AppendExpandedBody(body: seq<Node>, functions: Functions, stack: set<string>, taskMode: bool,
                            budget: ExpansionBudget, depth: nat, expanded: seq<Node>)
    returns (result: seq<Node>, error: Option<ExpandError>)
    requires budget.Valid()
    modifies budget`expandedNodes, budget`maximumInlineDepth
    ensures budget.Valid()
    ensures var e := ExpandBody(body, functions, taskMode, stack, depth);
            && Charged(e, budget, old(budget.expandedNodes), old(budget.maximumInlineDepth), error)
            && (error.None? ==> result == expanded + e.nodes)
    decreases functions.Keys - stack, body, 1
  {
    hide ExpandNode, ExpandBody, Midway, Budgeted, Then;
    result, error := expanded, None;
    ghost var done := Expansion([], [], None);
    BodyStarts(body, functions, taskMode, stack, depth);
    NothingCharged(budget.expandedNodes, budget.maximumInlineDepth, budget.nodeLimit, budget.depthLimit);
    for k := 0 to |body|
      invariant budget.Valid() && error.None?
      invariant Midway(body, k, done, functions, taskMode, stack, depth)
      invariant Charged(done, budget, old(budget.expandedNodes), old(budget.maximumInlineDepth), None)
      invariant result == expanded + done.nodes
    {
      ghost var e := ExpandNode(body[k], functions, taskMode, stack, depth);
      StepCharges(body, k, done, functions, taskMode, stack, depth, old(budget.expandedNodes),
                  old(budget.maximumInlineDepth), budget.nodeLimit, budget.depthLimit);
      result, error := AppendExpandedNode(body[k], functions, stack, taskMode, budget, depth, result);
      if error.Some? {
        return;
      }
      done := Then(done, e);
    }
    BodyEnds(body, done, functions, taskMode, stack, depth);
  }

  /** The first `k` nodes of a body have expanded to `done`; the rest decides the rest. */
  ghost predicate Midway(body: seq<Node>, k: nat, done: Expansion, functions: Functions, taskMode: bool,
                         stack: set<string>, depth: nat)
    requires k <= |body|
  {
    done.error.None?
    && ExpandBody(body, functions, taskMode, stack, depth)
       == Then(done, ExpandBody(body[k..], functions, taskMode, stack, depth))
  }

  lemma BodyStarts(body: seq<Node>, functions: Functions, taskMode: bool, stack: set<string>, depth: nat)
    ensures Midway(body, 0, Expansion([], [], None), functions, taskMode, stack, depth)
  {
    hide ExpandNode, ExpandBody;
    var e := ExpandBody(body, functions, taskMode, stack, depth);
    assert body[0..] == body;
    assert [] + e.nodes == e.nodes && [] + e.charges == e.charges;
  }

  lemma NothingCharged(used: nat, deepest: nat, nodeLimit: nat, depthLimit: nat)
    ensures Budgeted([], used, deepest, nodeLimit, depthLimit) == Meter(used, deepest, None)
  {
  }

  lemma BodySteps(body: seq<Node>, k: nat, done: Expansion, functions: Functions, taskMode: bool,
                  stack: set<string>, depth: nat)
    requires k < |body| && Midway(body, k, done, functions, taskMode, stack, depth)
    ensures done.error.None?
    ensures var e := ExpandNode(body[k], functions, taskMode, stack, depth);
            && ExpandBody(body, functions, taskMode, stack, depth)
               == Then(Then(done, e), ExpandBody(body[k + 1..], functions, taskMode, stack, depth))
            && (e.error.None? ==> Midway(body, k + 1, Then(done, e), functions, taskMode, stack, depth))
  {
    hide ExpandNode;
    assert body[k..][1..] == body[k + 1..];
    ThenThen(done, ExpandNode(body[k], functions, taskMode, stack, depth),
             ExpandBody(body[k + 1..], functions, taskMode, stack, depth));
  }

  /** What one more node of a body does to a budget that has taken the charges of the nodes before it. */
  lemma StepCharges(body: seq<Node>, k: nat, done: Expansion, functions: Functions, taskMode: bool,
                    stack: set<string>, depth: nat, used: nat, deepest: nat, nodeLimit: nat, depthLimit: nat)
    requires k < |body| && Midway(body, k, done, functions, taskMode, stack, depth)
    requires Budgeted(done.charges, used, deepest, nodeLimit, depthLimit).error.None?
    ensures var e, whole := ExpandNode(body[k], functions, taskMode, stack, depth),
                            ExpandBody(body, functions, taskMode, stack, depth);
            var m := Budgeted(done.charges, used, deepest, nodeLimit, depthLimit);
            var next := Budgeted(e.charges, m.used, m.deepest, nodeLimit, depthLimit);
            if Reported(next, e.error).Some?
            then
              && Budgeted(whole.charges, used, deepest, nodeLimit, depthLimit) == next
              && Reported(next, whole.error) == Reported(next, e.error)
            else
              && Budgeted(Then(done, e).charges, used, deepest, nodeLimit, depthLimit) == next
              && Then(done, e).nodes == done.nodes + e.nodes && Then(done, e).error.None?
              && Midway(body, k + 1, Then(done, e), functions, taskMode, stack, depth)
  {
    hide ExpandNode, ExpandBody, Midway;
    var e, rest := ExpandNode(body[k], functions, taskMode, stack, depth),
                   ExpandBody(body[k + 1..], functions, taskMode, stack, depth);
    BodySteps(body, k, done, functions, taskMode, stack, depth);
    ChargedThen(done, e, used, deepest, nodeLimit, depthLimit);
    ChargedThen(Then(done, e), rest, used, deepest, nodeLimit, depthLimit);
  }

  lemma ThenThen(a: Expansion, b: Expansion, c: Expansion)
    ensures Then(a, Then(b, c)) == Then(Then(a, b), c)
  {
    if a.error.None? && b.error.None? {
      assert a.nodes + (b.nodes + c.nodes) == (a.nodes + b.nodes) + c.nodes;
      assert a.charges + (b.charges + c.charges) == (a.charges + b.charges) + c.charges;
    }
  }

  lemma BodyEnds(body: seq<Node>, done: Expansion, functions: Functions, taskMode: bool, stack: set<string>, depth: nat)
    requires Midway(body, |body|, done, functions, taskMode, stack, depth)
    ensures ExpandBody(body, functions, taskMode, stack, depth) == done
  {
    assert body[|body|..] == [];
    assert done.nodes + [] == done.nodes && done.charges + [] == done.charges;
  }

  lemma {:induction false} LastBinding<T>(keys: seq<string>, values: seq<T>, n: nat, k: nat)
    requires k < n <= |keys| && n <= |values| && forall j :: k < j < n ==> keys[j] != keys[k]
    ensures keys[k] in BindUpTo(keys, values, n) && BindUpTo(keys, values, n)[keys[k]] == values[k]
  {
    if k < n - 1 {
      LastBinding(keys, values, n - 1, k);
    }
  }

  /** The position is the last of its parameter. */
  predicate LastOf(params: seq<string>, k: int) {
    0 <= k < |params| && forall j :: k < j < |params| ==> params[j] != params[k]
  }

  /**
   * Parameters stand for their arguments, the last of equal ones; formal objects for the objects passed, if the call
   * passes any.
   */
  ghost predicate Binds(names: CallMapping, objects: CallMapping, function_: Function, call: Node)
    requires call.Call?
  {
    && |call.args| == |function_.params|
    && (forall name :: name in names ==> name in function_.params)
    && (forall k :: LastOf(function_.params, k) ==>
          function_.params[k] in names && names[function_.params[k]] == call.args[k])
    && if call.argObjects.None? then objects == map[]
       else
         && |call.argObjects.value| == |function_.params|
         && (forall id :: id in objects ==>
               exists k :: 0 <= k < |function_.params|
                 && id == "function:" + call.callee + "::param:" + function_.params[k])
         && forall k :: LastOf(function_.params, k) ==>
              var id := "function:" + call.callee + "::param:" + function_.params[k];
              id in objects && objects[id] == call.argObjects.value[k]
  }

  lemma SamePrefix(callee: string, a: string, b: string)
    ensures FormalObject(callee, a) == FormalObject(callee, b) ==> a == b
  {
    var prefix := "function:" + callee + "::param:";
    if FormalObject(callee, a) == FormalObject(callee, b) {
      assert a == (prefix + a)[|prefix|..] == (prefix + b)[|prefix|..] == b;
    }
  }

  lemma ParametersBound(function_: Function, call: Node)
    requires call.Call? && ArityError(function_, call).None?
    ensures Binds(NameBindings(function_, call), ObjectBindings(function_, call), function_, call)
  {
    hide BindUpTo;
    var params, ids := function_.params, FormalObjects(call.callee, function_.params);
    assert params[..|params|] == params && ids[..|ids|] == ids;
    forall k | LastOf(params, k)
      ensures params[k] in NameBindings(function_, call) && NameBindings(function_, call)[params[k]] == call.args[k]
      ensures call.argObjects.Some? ==> ids[k] in ObjectBindings(function_, call)
                                        && ObjectBindings(function_, call)[ids[k]] == call.argObjects.value[k]
    {
      LastBinding(params, call.args, |params|, k);
      if call.argObjects.Some? {
        forall j | k < j < |ids|
          ensures ids[j] != ids[k]
        {
          SamePrefix(call.callee, params[j], params[k]);
        }
        LastBinding(ids, call.argObjects.value, |ids|, k);
      }
    }
    if call.argObjects.None? {
      NothingBound<string>(ids);
    }
  }

  /**
   * What a call makes of its callee's accesses: one to a formal object becomes one to the object passed for it, the
   * last of equal parameters; one to any other object, and any when the call passes no objects, keeps its own.
   */
  lemma CalleeAccess(function_: Function, call: Node, target: string, indices: seq<string>)
    requires call.Call? && ArityError(function_, call).None?
    ensures var params := function_.params;
            var names, objects := NameBindings(function_, call), ObjectBindings(function_, call);
            var inlined := SubstitutedNode(Access(target, indices), names, objects);
            && inlined.Access? && inlined.indices == SubstitutedNames(indices, names)
            && (forall k :: LastOf(params, k) && target == "function:" + call.callee + "::param:" + params[k] ==>
                  inlined.target == if call.argObjects.Some? then call.argObjects.value[k] else target)
            && ((forall k :: 0 <= k < |params| ==> target != "function:" + call.callee + "::param:" + params[k]) ==>
                  inlined.target == target)
  {
    hide BindUpTo;
    ParametersBound(function_, call);
  }

  /** A call inside the callee passes on the objects that were passed for formal ones. */
  lemma CalleeCall(function_: Function, call: Node, inner: Node)
    requires call.Call? && inner.Call? && ArityError(function_, call).None?
    ensures var objects := ObjectBindings(function_, call);
            var inlined := SubstitutedNode(inner, NameBindings(function_, call), objects);
            && inlined.Call? && inlined.callee == inner.callee && |inlined.args| == |inner.args|
            && (inlined.argObjects.Some? <==> inner.argObjects.Some?)
            && (inner.argObjects.Some? ==>
                  && |inlined.argObjects.value| == |inner.argObjects.value|
                  && forall i :: 0 <= i < |inner.argObjects.value| ==>
                       var id := inner.argObjects.value[i];
                       inlined.argObjects.value[i] == if id in objects then objects[id] else id)
  {
  }

  lemma NothingBound<T>(keys: seq<string>)
    ensures BindUpTo<T>(keys, [], 0) == map[]
  {
  }

  /** Bind parameters to arguments, in the source's loop. */
  method BindArguments(function_: Function, call: Node) returns (names: CallMapping, objects: CallMapping)
    requires call.Call? && ArityError(function_, call).None?
    ensures names == NameBindings(function_, call) && objects == ObjectBindings(function_, call)
    ensures Binds(names, objects, function_, call)
  {
    hide Binds;
    names, objects := map[], map[];
    var actual := ActualObjects(call);
    ghost var ids := FormalObjects(call.callee, function_.params);
    for k := 0 to |function_.params|
      invariant names == BindUpTo(function_.params, call.args, k)
      invariant |actual| <= |ids| && objects == BindUpTo(ids, actual, Min(k, |actual|))
    {
      var parameter := function_.params[k];
      names := names[parameter := call.args[k]];
      if k < |actual| {
        objects := objects[FormalObject(call.callee, parameter) := actual[k]];
      }
    }
    ParametersBound(function_, call);
  }

  /** Enter an inline call: check depth, charge it, check arity, then splice the substituted body. */
  method ExpandCall(node: Node, functions: Functions, stack: set<string>, taskMode: bool,
                    budget: ExpansionBudget, depth: nat, expanded: seq<Node>)
    returns (result: seq<Node>, error: Option<ExpandError>)
    requires budget.Valid() && node.Call? && node.callee in functions && node.callee !in stack
    requires Expands(taskMode, functions[node.callee])
    modifies budget`expandedNodes, budget`maximumInlineDepth
    ensures budget.Valid()
    ensures var e := ExpandNode(node, functions, taskMode, stack, depth);
            && Charged(e, budget, old(budget.expandedNodes), old(budget.maximumInlineDepth), error)
            && (error.None? ==> result == expanded + e.nodes)
    decreases functions.Keys - stack, node, 0
  {
    hide ExpandBody;
    var function_ := functions[node.callee];
    ghost var entry := Expansion([], [EnterCall(depth + 1)], ArityError(function_, node));
    ghost var inner := ExpandBody(CalleeBody(function_, node), functions, taskMode, stack + {node.callee}, depth + 1);
    ChargedThen(entry, inner, budget.expandedNodes, budget.maximumInlineDepth, budget.nodeLimit, budget.depthLimit);
    result := expanded;
    error := EnterInline(function_, node, budget, depth);
    if error.Some? {
      return;
    }
    assert [] + inner.nodes == inner.nodes;
    result, error := SpliceBody(function_, node, functions, stack + {node.callee}, taskMode, budget, depth + 1,
        expanded);
  }

  /** The callee's body in terms of the caller. */
  ghost function CalleeBody(function_: Function, call: Node): (body: seq<Node>)
    requires call.Call?
  {
    SubstitutedBody(function_.body, NameBindings(function_, call), ObjectBindings(function_, call))
  }

  method EnterInline(function_: Function, call: Node, budget: ExpansionBudget, depth: nat)
    returns (error: Option<ExpandError>)
    requires budget.Valid() && call.Call?
    modifies budget`expandedNodes, budget`maximumInlineDepth
    ensures budget.Valid()
    ensures Charged(Expansion([], [EnterCall(depth + 1)], ArityError(function_, call)), budget,
                    old(budget.expandedNodes), old(budget.maximumInlineDepth), error)
  {
    assert [EnterCall(depth + 1)][1..] == [];
    var rejected := budget.ValidateInlineCallDepth(depth + 1);
    if rejected.Some? {
      return Some(Refused(rejected.value));
    }
    rejected := budget.ConsumeExpandedNode();
    if rejected.Some? {
      return Some(Refused(rejected.value));
    }
    error := ArityError(function_, call);
  }

  /** Substitute and expand the callee's nodes one at a time. */
  method SpliceBody(function_: Function, call: Node, functions: Functions, stack: set<string>, taskMode: bool,
                    budget: ExpansionBudget, depth: nat, expanded: seq<Node>)
    returns (result: seq<Node>, error: Option<ExpandError>)
    requires budget.Valid() && call.Call? && ArityError(function_, call).None?
    modifies budget`expandedNodes, budget`maximumInlineDepth
    ensures budget.Valid()
    ensures var e := ExpandBody(CalleeBody(function_, call), functions, taskMode, stack, depth);
            && Charged(e, budget, old(budget.expandedNodes), old(budget.maximumInlineDepth), error)
            && (error.None? ==> result == expanded + e.nodes)
    decreases functions.Keys - stack, CalleeBody(function_, call), 1
  {
    hide ExpandNode, ExpandBody, Midway, Budgeted, Then, SubstitutedNode;
    var names, objects := BindArguments(function_, call);
    ghost var body := CalleeBody(function_, call);
    result, error := expanded, None;
    ghost var done := Expansion([], [], None);
    BodyStarts(body, functions, taskMode, stack, depth);
    NothingCharged(budget.expandedNodes, budget.maximumInlineDepth, budget.nodeLimit, budget.depthLimit);
    for k := 0 to |function_.body|
      invariant budget.Valid() && error.None?
      invariant Midway(body, k, done, functions, taskMode, stack, depth)
      invariant Charged(done, budget, old(budget.expandedNodes), old(budget.maximumInlineDepth), None)
      invariant result == expanded + done.nodes
    {
      ghost var e := ExpandNode(body[k], functions, taskMode, stack, depth);
      StepCharges(body, k, done, functions, taskMode, stack, depth, old(budget.expandedNodes),
                  old(budget.maximumInlineDepth), budget.nodeLimit, budget.depthLimit);
      var child := SubstituteNode(function_.body[k], names, objects);
      result, error := AppendExpandedNode(child, functions, stack, taskMode, budget, depth, result);
      if error.Some? {
        return;
      }
      done := Then(done, e);
    }
    BodyEnds(body, done, functions, taskMode, stack, depth);
  }
}
