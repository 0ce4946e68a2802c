/** Inline expansion keeps the call-by-value meaning of hygienic programs and leaves no call to expand. */
module ExpansionMeaning {
  import opened Machine
  import opened LoopWork
  import opened TraceWalk
  import opened InlineExpansion
  import opened CallSemantics
  import opened SubstitutionMeaning

  /** The meaning of a body as it stands: no call of it is entered. */
  ghost function RunBody(body: seq<Node>, functions: Functions, taskMode: bool, names: Names):
    (r: Option<seq<Hit>>)
  {
    ExecBody(body, functions, taskMode, names, map[], functions.Keys)
  }

  /** The meaning of one node of such a body. */
  ghost function RunNode(node: Node, functions: Functions, taskMode: bool, names: Names): (r: Option<seq<Hit>>) {
    ExecNode(node, functions, taskMode, names, map[], functions.Keys)
  }

  /**
   * Every call that expansion enters below a node is hygienic: parameters are identifiers, and the callee's
   * body, for the actuals in the terms of the root, has fresh loop variables, endpoints without parameters,
   * and compositions within int64.
   */
  ghost predicate HygienicNode(node: Node, functions: Functions, taskMode: bool, stack: set<string>)
    decreases functions.Keys - stack, node, 1
  {
    match node
    case Access(_, _) => true
    case Unknown(_) => true
    case Loop(_, _, _, _, body) => HygienicNodes(body, functions, taskMode, stack)
    case Call(callee, _, _) =>
      Enterable(node, functions, taskMode, stack) ==>
        && Formals(NameBindings(functions[callee], node))
        && HygienicBody(functions[callee].body, NameBindings(functions[callee], node))
        && HygienicNodes(CalleeBody(functions[callee], node), functions, taskMode, stack + {callee})
  }

  ghost predicate HygienicNodes(body: seq<Node>, functions: Functions, taskMode: bool, stack: set<string>)
    decreases functions.Keys - stack, body, 1
  {
    body == [] || (HygienicNode(body[0], functions, taskMode, stack)
        && HygienicNodes(body[1..], functions, taskMode, stack))
  }

  // ----- the callee's scope

  lemma {:induction false} CalleeRead(params: seq<string>, args: seq<string>, n: nat, names: Names, name: string)
    requires n <= |params| && n <= |args|
    ensures var mapping := BindUpTo(params, args, n);
            Read(name, CalleeNames(params, args, n, names))
            == if name in mapping then ValueOf(mapping[name], names) else None
  {
    if n > 0 {
      hide ValueOf;
      CalleeRead(params, args, n - 1, names, name);
      var rest := CalleeNames(params, args, n - 1, names);
      assert ([(params[n - 1], ValueOf(args[n - 1], names))] + rest)[1..] == rest;
    }
  }

  /** The callee's scope is related to the caller's by the bindings that expansion substitutes. */
  lemma CalleeRelated(function_: Function, call: Node, names: Names)
    requires call.Call? && ArityError(function_, call).None?
    ensures Related(NameBindings(function_, call), CalleeNames(function_.params, call.args, |call.args|, names), names)
  {
    hide ValueOf;
    var inner := CalleeNames(function_.params, call.args, |call.args|, names);
    forall name | Read(name, inner).Some?
      ensures name in NameBindings(function_, call)
      ensures ValueOf(NameBindings(function_, call)[name], names) == Read(name, inner)
    {
      CalleeRead(function_.params, call.args, |call.args|, names, name);
    }
  }

  lemma CalleeObjectsKept(function_: Function, call: Node)
    requires call.Call?
    ensures CalleeObjects(function_, call, map[]) == ObjectBindings(function_, call)
  {
    ObjectsKept(ActualObjects(call));
  }

  // ----- expansion

  lemma {:induction false} RunAppend(a: seq<Node>, b: seq<Node>, functions: Functions, taskMode: bool, names: Names)
    ensures RunBody(a + b, functions, taskMode, names)
            == Join(RunBody(a, functions, taskMode, names), RunBody(b, functions, taskMode, names))
  {
    hide ExecNode;
    var second := RunBody(b, functions, taskMode, names);
    if a == [] {
      assert a + b == b;
      if second.Some? {
        assert [] + second.value == second.value;
      }
    } else {
      assert (a + b)[1..] == a[1..] + b;
      RunAppend(a[1..], b, functions, taskMode, names);
      JoinJoin(RunNode(a[0], functions, taskMode, names), RunBody(a[1..], functions, taskMode, names), second);
    }
  }

  lemma JoinJoin(a: Option<seq<Hit>>, b: Option<seq<Hit>>, c: Option<seq<Hit>>)
    ensures Join(a, Join(b, c)) == Join(Join(a, b), c)
  {
    if a.Some? && b.Some? && c.Some? {
      assert a.value + (b.value + c.value) == (a.value + b.value) + c.value;
    }
  }

  lemma RunOne(node: Node, functions: Functions, taskMode: bool, names: Names)
    ensures RunBody([node], functions, taskMode, names) == RunNode(node, functions, taskMode, names)
  {
    hide ExecNode;
    assert [node][0] == node && RunBody([node][1..], functions, taskMode, names) == Some([]);
    var hits := RunNode(node, functions, taskMode, names);
    if hits.Some? {
      assert hits.value + [] == hits.value;
    }
  }

  /** Running the expansion of a node does exactly what the node does with call-by-value parameters. */
  lemma {:induction false} NodeExpanded(node: Node, functions: Functions, taskMode: bool, names: Names,
                                        stack: set<string>, depth: nat)
    requires ExpandNode(node, functions, taskMode, stack, depth).error.None?
    requires HygienicNode(node, functions, taskMode, stack)
    requires ExecNode(node, functions, taskMode, names, map[], stack).Some?
    ensures RunBody(ExpandNode(node, functions, taskMode, stack, depth).nodes, functions, taskMode, names)
            == ExecNode(node, functions, taskMode, names, map[], stack)
    decreases functions.Keys - stack, node, 1
  {
    hide ValueOf, AllValues, IndexValues, RunBody, ArityError;
    match node
    case Access(_, _) =>
      RunOne(node, functions, taskMode, names);
    case Unknown(_) =>
      RunOne(node, functions, taskMode, names);
    case Loop(variable, start, bound, step, body) =>
      var loop := ExpandNode(node, functions, taskMode, stack, depth).nodes[0];
      RunOne(loop, functions, taskMode, names);
      WhileExpanded(node, functions, taskMode, names, stack, depth, EndpointIn(start, names).value,
                    EndpointIn(bound, names).value);
    case Call(_, _, _) =>
      if Kept(node, functions, taskMode) {
        RunOne(node, functions, taskMode, names);
      } else {
        CallExpanded(node, functions, taskMode, names, stack, depth);
      }
  }

  lemma {:induction false} CallExpanded(node: Node, functions: Functions, taskMode: bool, names: Names,
                                        stack: set<string>, depth: nat)
    requires node.Call? && !Kept(node, functions, taskMode)
    requires ExpandNode(node, functions, taskMode, stack, depth).error.None?
    requires HygienicNode(node, functions, taskMode, stack)
    requires ExecNode(node, functions, taskMode, names, map[], stack).Some?
    ensures RunBody(ExpandNode(node, functions, taskMode, stack, depth).nodes, functions, taskMode, names)
            == ExecNode(node, functions, taskMode, names, map[], stack)
    decreases functions.Keys - stack, node, 0
  {
    hide RunBody, ExecBody, Related, Formals, HygienicBody, HygienicNodes, ExpandBody, Bindings;
    var f, args, inner := functions[node.callee], node.args, stack + {node.callee};
    CalleeRelated(f, node, names);
    CalleeObjectsKept(f, node);
    BodySubstituted(f.body, functions, taskMode, NameBindings(f, node), ObjectBindings(f, node),
                    CalleeNames(f.params, args, |args|, names), names, inner);
    BodyExpanded(CalleeBody(f, node), functions, taskMode, names, inner, depth + 1);
    var body := ExpandBody(CalleeBody(f, node), functions, taskMode, inner, depth + 1);
    assert [] + body.nodes == body.nodes;
  }

  lemma {:induction false} WhileExpanded(node: Node, functions: Functions, taskMode: bool, names: Names,
                                         stack: set<string>, depth: nat, value: int, bound: int)
    requires node.Loop? && node.step != 0 && ExpandNode(node, functions, taskMode, stack, depth).error.None?
    requires HygienicNode(node, functions, taskMode, stack)
    requires ExecWhile(node, functions, taskMode, names, map[], stack, value, bound).Some?
    ensures ExecWhile(ExpandNode(node, functions, taskMode, stack, depth).nodes[0], functions, taskMode, names, map[],
                      functions.Keys, value, bound)
            == ExecWhile(node, functions, taskMode, names, map[], stack, value, bound)
    decreases functions.Keys - stack, node, 0, if node.step > 0 then bound - value else value - bound
  {
    hide ExecBody, HygienicNodes, ExpandBody;
    if Before(value, bound, node.step) {
      BodyExpanded(node.body, functions, taskMode, [(node.variable, Some(value))] + names, stack, depth);
      WhileExpanded(node, functions, taskMode, names, stack, depth, value + node.step, bound);
    }
  }

  lemma {:induction false} BodyExpanded(body: seq<Node>, functions: Functions, taskMode: bool, names: Names,
                                        stack: set<string>, depth: nat)
    requires ExpandBody(body, functions, taskMode, stack, depth).error.None?
    requires HygienicNodes(body, functions, taskMode, stack)
    requires ExecBody(body, functions, taskMode, names, map[], stack).Some?
    ensures RunBody(ExpandBody(body, functions, taskMode, stack, depth).nodes, functions, taskMode, names)
            == ExecBody(body, functions, taskMode, names, map[], stack)
    decreases functions.Keys - stack, body, 1
  {
    hide ExecNode, HygienicNode, ExpandNode;
    if body != [] {
      NodeExpanded(body[0], functions, taskMode, names, stack, depth);
      BodyExpanded(body[1..], functions, taskMode, names, stack, depth);
      RunAppend(ExpandNode(body[0], functions, taskMode, stack, depth).nodes,
                ExpandBody(body[1..], functions, taskMode, stack, depth).nodes, functions, taskMode, names);
    }
  }

  // ----- nothing left to expand

  /** The calls left in a body, loops included, are ones that expansion keeps. */
  predicate KeepsOnly(body: seq<Node>, functions: Functions, taskMode: bool)
    decreases body
  {
    body == [] || (
      && (body[0].Call? ==> body[0].callee in functions && !Expands(taskMode, functions[body[0].callee]))
      && (body[0].Loop? ==> KeepsOnly(body[0].body, functions, taskMode))
      && KeepsOnly(body[1..], functions, taskMode))
  }

  lemma {:induction false} KeepsAppend(a: seq<Node>, b: seq<Node>, functions: Functions, taskMode: bool)
    requires KeepsOnly(a, functions, taskMode) && KeepsOnly(b, functions, taskMode)
    ensures KeepsOnly(a + b, functions, taskMode)
  {
    if a == [] {
      assert a + b == b;
    } else {
      assert (a + b)[1..] == a[1..] + b;
      KeepsAppend(a[1..], b, functions, taskMode);
    }
  }

  /** A successful expansion leaves no call that it should have expanded: in module mode, no call at all. */
  lemma {:induction false} NodeKeepsOnly(node: Node, functions: Functions, taskMode: bool, stack: set<string>,
                                         depth: nat)
    requires ExpandNode(node, functions, taskMode, stack, depth).error.None?
    ensures KeepsOnly(ExpandNode(node, functions, taskMode, stack, depth).nodes, functions, taskMode)
    decreases functions.Keys - stack, node, 1
  {
    hide ExpandBody, ArityError;
    match node
    case Access(_, _) =>
      assert [node][1..] == [];
    case Unknown(_) =>
      assert [node][1..] == [];
    case Loop(_, _, _, _, body) =>
      BodyKeepsOnly(body, functions, taskMode, stack, depth);
      var loop := ExpandNode(node, functions, taskMode, stack, depth).nodes[0];
      assert [loop][1..] == [];
    case Call(callee, _, _) =>
      if Expands(taskMode, functions[callee]) {
        var body := CalleeBody(functions[callee], node);
        BodyKeepsOnly(body, functions, taskMode, stack + {callee}, depth + 1);
        var inner := ExpandBody(body, functions, taskMode, stack + {callee}, depth + 1);
        assert [] + inner.nodes == inner.nodes;
      } else {
        assert [node][1..] == [];
      }
  }

  lemma {:induction false} BodyKeepsOnly(body: seq<Node>, functions: Functions, taskMode: bool, stack: set<string>,
                                         depth: nat)
    requires ExpandBody(body, functions, taskMode, stack, depth).error.None?
    ensures KeepsOnly(ExpandBody(body, functions, taskMode, stack, depth).nodes, functions, taskMode)
    decreases functions.Keys - stack, body, 1
  {
    hide ExpandNode;
    if body != [] {
      NodeKeepsOnly(body[0], functions, taskMode, stack, depth);
      BodyKeepsOnly(body[1..], functions, taskMode, stack, depth);
      KeepsAppend(ExpandNode(body[0], functions, taskMode, stack, depth).nodes,
                  ExpandBody(body[1..], functions, taskMode, stack, depth).nodes, functions, taskMode);
    }
  }

  // ----- what expansion charges

  lemma {:induction false} CountAppend(a: seq<Node>, b: seq<Node>)
    ensures NodeCount(a + b) == NodeCount(a) + NodeCount(b)
  {
    if a == [] {
      assert a + b == b;
    } else {
      assert (a + b)[1..] == a[1..] + b;
      CountAppend(a[1..], b);
    }
  }

  lemma {:induction false} EnteredAppend(a: seq<Charge>, b: seq<Charge>)
    ensures CallsEntered(a + b) == CallsEntered(a) + CallsEntered(b)
  {
    if a == [] {
      assert a + b == b;
    } else {
      assert (a + b)[1..] == a[1..] + b;
      EnteredAppend(a[1..], b);
    }
  }

  /** The charges of an expansion are one for each node it yields and one for each call it enters. */
  lemma {:induction false} NodeCharges(node: Node, functions: Functions, taskMode: bool, stack: set<string>, depth: nat)
    requires ExpandNode(node, functions, taskMode, stack, depth).error.None?
    ensures var e := ExpandNode(node, functions, taskMode, stack, depth);
            |e.charges| == NodeCount(e.nodes) + CallsEntered(e.charges)
    decreases functions.Keys - stack, node, 1
  {
    hide ExpandBody, ArityError;
    assert [KeepNode][1..] == [];
    match node
    case Access(_, _) =>
      assert [node][1..] == [];
    case Unknown(_) =>
      assert [node][1..] == [];
    case Loop(_, _, _, _, body) =>
      BodyCharges(body, functions, taskMode, stack, depth);
      var inner := ExpandBody(body, functions, taskMode, stack, depth);
      EnteredAppend(inner.charges, [KeepNode]);
      var loop := ExpandNode(node, functions, taskMode, stack, depth).nodes[0];
      assert [loop][1..] == [];
    case Call(callee, _, _) =>
      if Expands(taskMode, functions[callee]) {
        var body := CalleeBody(functions[callee], node);
        BodyCharges(body, functions, taskMode, stack + {callee}, depth + 1);
        var inner := ExpandBody(body, functions, taskMode, stack + {callee}, depth + 1);
        assert [] + inner.nodes == inner.nodes;
        EnteredAppend([EnterCall(depth + 1)], inner.charges);
        assert [EnterCall(depth + 1)][1..] == [];
      } else {
        assert [node][1..] == [];
      }
  }

  lemma {:induction false} BodyCharges(body: seq<Node>, functions: Functions, taskMode: bool, stack: set<string>,
                                       depth: nat)
    requires ExpandBody(body, functions, taskMode, stack, depth).error.None?
    ensures var e := ExpandBody(body, functions, taskMode, stack, depth);
            |e.charges| == NodeCount(e.nodes) + CallsEntered(e.charges)
    decreases functions.Keys - stack, body, 1
  {
    hide ExpandNode;
    if body != [] {
      NodeCharges(body[0], functions, taskMode, stack, depth);
      BodyCharges(body[1..], functions, taskMode, stack, depth);
      var first, rest := ExpandNode(body[0], functions, taskMode, stack, depth),
                         ExpandBody(body[1..], functions, taskMode, stack, depth);
      CountAppend(first.nodes, rest.nodes);
      EnteredAppend(first.charges, rest.charges);
    }
  }
}
