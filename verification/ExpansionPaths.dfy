/** The calls that expansion reaches, when it succeeds, and how its result unrolls the program. */
module ExpansionPaths {
  import opened Machine
  import opened TraceWalk
  import opened CallSubstitution
  import opened InlineExpansion

  /** The node is one of a body's, loops included. */
  ghost predicate Occurs(node: Node, body: seq<Node>)
    decreases body
  {
    body != []
    && (body[0] == node || (body[0].Loop? && Occurs(node, body[0].body)) || Occurs(node, body[1..]))
  }

  /** A call to a defined function that is not left as it is. */
  predicate Entered(call: Node, functions: Functions, taskMode: bool)
    requires call.Call?
  {
    call.callee in functions && (!taskMode || functions[call.callee].inlined)
  }

  /** Calls that lead from a body one into another: all but the last are entered, the next is in the callee's body. */
  ghost predicate Chain(calls: seq<Node>, body: seq<Node>, functions: Functions, taskMode: bool)
    decreases |calls|
  {
    calls != [] && calls[0].Call? && Occurs(calls[0], body)
    && (|calls| > 1 ==>
          && Entered(calls[0], functions, taskMode)
          && Chain(calls[1..], functions[calls[0].callee].body, functions, taskMode))
  }

  lemma {:induction false} ChainCalls(calls: seq<Node>, body: seq<Node>, functions: Functions, taskMode: bool)
    requires Chain(calls, body, functions, taskMode)
    ensures forall j :: 0 <= j < |calls| ==> calls[j].Call?
    decreases |calls|
  {
    if |calls| > 1 {
      ChainCalls(calls[1..], functions[calls[0].callee].body, functions, taskMode);
      assert forall j :: 0 < j < |calls| ==> calls[j] == calls[1..][j - 1];
    }
  }

  /** The last call of a chain is active: on the stack, or entered earlier in the chain. */
  ghost predicate Active(calls: seq<Node>, stack: set<string>)
    requires forall j :: 0 <= j < |calls| ==> calls[j].Call?
  {
    calls != []
    && var callee := calls[|calls| - 1].callee;
       callee in stack || exists j :: 0 <= j < |calls| - 1 && calls[j].callee == callee
  }

  /** Why the last call of a chain is rejected. */
  ghost predicate RejectedBy(calls: seq<Node>, functions: Functions, taskMode: bool, stack: set<string>,
                             e: ExpandError) {
    && calls != [] && (forall j :: 0 <= j < |calls| ==> calls[j].Call?)
    && var call := calls[|calls| - 1];
       match e
       case UnknownTarget => call.callee !in functions
       case RecursiveExpansion => Entered(call, functions, taskMode) && Active(calls, stack)
       case ArityMismatch =>
         Entered(call, functions, taskMode) && |functions[call.callee].params| != |call.args|
       case ObjectArityMismatch =>
         && Entered(call, functions, taskMode) && call.argObjects.Some?
         && |call.argObjects.value| != |call.args| == |functions[call.callee].params|
       case Refused(_) => false
  }

  // ----- the errors and charges do not depend on the texts

  /** The same node up to its texts and the objects it names. */
  predicate SameOutline(a: Node, b: Node) {
    match a
    case Access(_, indices) => b.Access? && |b.indices| == |indices|
    case Unknown(_) => a == b
    case Call(callee, args, argObjects) =>
      && b.Call? && b.callee == callee && |b.args| == |args|
      && (b.argObjects.Some? <==> argObjects.Some?)
      && (argObjects.Some? ==> |b.argObjects.value| == |argObjects.value|)
    case Loop(_, _, _, _, _) => false
  }

  lemma {:induction false} NodeTexts(node: Node, mapping: CallMapping, objects: CallMapping, functions: Functions,
                                     taskMode: bool, stack: set<string>, depth: nat)
    ensures var e, f := ExpandNode(SubstitutedNode(node, mapping, objects), functions, taskMode, stack, depth),
                        ExpandNode(node, functions, taskMode, stack, depth);
            e.error == f.error && e.charges == f.charges
    decreases functions.Keys - stack, node, 1
  {
    hide ExpandBody, SubstitutedName;
    match node
    case Access(_, _) =>
    case Unknown(_) =>
    case Loop(_, _, _, _, body) =>
      BodyTexts(body, mapping, objects, functions, taskMode, stack, depth);
    case Call(callee, _, _) =>
      CallTexts(node, SubstitutedNode(node, mapping, objects), functions, taskMode, stack, depth);
  }

  lemma {:induction false} CallTexts(call: Node, other: Node, functions: Functions, taskMode: bool,
                                     stack: set<string>, depth: nat)
    requires SameOutline(call, other) && call.Call?
    ensures var e, f := ExpandNode(other, functions, taskMode, stack, depth),
                        ExpandNode(call, functions, taskMode, stack, depth);
            e.error == f.error && e.charges == f.charges
    decreases functions.Keys - stack, call, 0
  {
    hide ExpandNode;
    if Entered(call, functions, taskMode) && call.callee !in stack
       && ArityError(functions[call.callee], call).None? {
      CallEntered(call, functions, taskMode, stack, depth);
      CallEntered(other, functions, taskMode, stack, depth);
    } else {
      RefusedTexts(call, other, functions, taskMode, stack, depth);
    }
  }

  lemma RefusedTexts(call: Node, other: Node, functions: Functions, taskMode: bool, stack: set<string>, depth: nat)
    requires SameOutline(call, other) && call.Call?
    requires !(Entered(call, functions, taskMode) && call.callee !in stack
               && ArityError(functions[call.callee], call).None?)
    ensures var e, f := ExpandNode(other, functions, taskMode, stack, depth),
                        ExpandNode(call, functions, taskMode, stack, depth);
            e.error == f.error && e.charges == f.charges
  {
    hide ExpandBody;
  }

  /** Entering a call gives the errors and charges of the callee's body as it is written. */
  lemma {:induction false} CalleeTexts(call: Node, functions: Functions, taskMode: bool, stack: set<string>,
                                       depth: nat)
    requires call.Call? && call.callee in functions && call.callee !in stack
    ensures var f := functions[call.callee];
            var e, g := ExpandBody(CalleeBody(f, call), functions, taskMode, stack + {call.callee}, depth + 1),
                        ExpandBody(f.body, functions, taskMode, stack + {call.callee}, depth + 1);
            e.error == g.error && e.charges == g.charges
    decreases functions.Keys - (stack + {call.callee}), functions[call.callee].body, 2
  {
    hide ExpandBody, SubstitutedBody;
    var f := functions[call.callee];
    BodyTexts(f.body, NameBindings(f, call), ObjectBindings(f, call), functions, taskMode, stack + {call.callee},
              depth + 1);
  }

  lemma {:induction false} BodyTexts(body: seq<Node>, mapping: CallMapping, objects: CallMapping,
                                     functions: Functions, taskMode: bool, stack: set<string>, depth: nat)
    ensures var e, f := ExpandBody(SubstitutedBody(body, mapping, objects), functions, taskMode, stack, depth),
                        ExpandBody(body, functions, taskMode, stack, depth);
            e.error == f.error && e.charges == f.charges
    decreases functions.Keys - stack, body, 1
  {
    hide ExpandNode, SubstitutedNode;
    if body != [] {
      NodeTexts(body[0], mapping, objects, functions, taskMode, stack, depth);
      BodyTexts(body[1..], mapping, objects, functions, taskMode, stack, depth);
      var rest := SubstitutedBody(body[1..], mapping, objects);
      assert ([SubstitutedNode(body[0], mapping, objects)] + rest)[1..] == rest;
    }
  }

  /** What expanding a call amounts to when it is entered. */
  lemma {:induction false} CallEntered(call: Node, functions: Functions, taskMode: bool, stack: set<string>,
                                       depth: nat)
    requires call.Call? && Entered(call, functions, taskMode) && call.callee !in stack
    requires ArityError(functions[call.callee], call).None?
    ensures var e := ExpandNode(call, functions, taskMode, stack, depth);
            var inner := ExpandBody(functions[call.callee].body, functions, taskMode, stack + {call.callee}, depth + 1);
            e.error == inner.error && e.charges == [EnterCall(depth + 1)] + inner.charges
    decreases functions.Keys - (stack + {call.callee}), functions[call.callee].body, 3
  {
    hide ExpandBody, SubstitutedBody;
    CalleeTexts(call, functions, taskMode, stack, depth);
  }

  // ----- success

  /** In an expanded body every call was expanded, with its charges among the body's. */
  lemma {:induction false} OccursExpands(call: Node, body: seq<Node>, functions: Functions, taskMode: bool,
                                         stack: set<string>, depth: nat)
    requires Occurs(call, body) && call.Call? && ExpandBody(body, functions, taskMode, stack, depth).error.None?
    ensures var e := ExpandNode(call, functions, taskMode, stack, depth);
            e.error.None?
            && forall c :: c in e.charges ==> c in ExpandBody(body, functions, taskMode, stack, depth).charges
    decreases body
  {
    hide ExpandNode;
    if body[0] == call {
    } else if body[0].Loop? && Occurs(call, body[0].body) {
      LoopExpands(body[0], functions, taskMode, stack, depth);
      OccursExpands(call, body[0].body, functions, taskMode, stack, depth);
    } else {
      OccursExpands(call, body[1..], functions, taskMode, stack, depth);
    }
  }

  lemma LoopExpands(loop: Node, functions: Functions, taskMode: bool, stack: set<string>, depth: nat)
    requires loop.Loop?
    ensures var e, inner := ExpandNode(loop, functions, taskMode, stack, depth),
                            ExpandBody(loop.body, functions, taskMode, stack, depth);
            && e.error == inner.error && inner.charges <= e.charges
            && forall c :: c in e.charges ==> c in inner.charges || c == KeepNode
  {
    hide ExpandBody;
  }

  /** What a call that was expanded without error satisfies. */
  lemma CallAccepted(call: Node, functions: Functions, taskMode: bool, stack: set<string>, depth: nat)
    requires call.Call? && ExpandNode(call, functions, taskMode, stack, depth).error.None?
    ensures call.callee in functions
    ensures Entered(call, functions, taskMode) ==>
              call.callee !in stack && ArityError(functions[call.callee], call).None?
  {
    hide ExpandBody;
  }

  /**
   * After a successful expansion no chain of calls is rejected for any reason, and every call entered is charged at
   * its depth, one more than the calls around it.
   */
  lemma {:induction false} ChainsAccepted(calls: seq<Node>, body: seq<Node>, functions: Functions, taskMode: bool,
                                          stack: set<string>, depth: nat)
    requires Chain(calls, body, functions, taskMode) && ExpandBody(body, functions, taskMode, stack, depth).error.None?
    ensures forall e :: !RejectedBy(calls, functions, taskMode, stack, e)
    ensures var call := calls[|calls| - 1];
            call.Call? && (Entered(call, functions, taskMode) ==>
              EnterCall(depth + |calls|) in ExpandBody(body, functions, taskMode, stack, depth).charges)
    decreases |calls|
  {
    hide ExpandNode, ExpandBody, Occurs;
    var call := calls[0];
    ChainCalls(calls, body, functions, taskMode);
    OccursExpands(call, body, functions, taskMode, stack, depth);
    CallAccepted(call, functions, taskMode, stack, depth);
    if Entered(call, functions, taskMode) {
      CallEntered(call, functions, taskMode, stack, depth);
      if |calls| > 1 {
        ChainsAccepted(calls[1..], functions[call.callee].body, functions, taskMode, stack + {call.callee}, depth + 1);
        LongerChain(calls, functions, taskMode, stack);
      }
    }
  }

  lemma LongerChain(calls: seq<Node>, functions: Functions, taskMode: bool, stack: set<string>)
    requires |calls| > 1 && calls[0].Call?
    requires forall j :: 0 <= j < |calls| ==> calls[j].Call?
    ensures forall e :: RejectedBy(calls, functions, taskMode, stack, e)
                        <==> RejectedBy(calls[1..], functions, taskMode, stack + {calls[0].callee}, e)
  {
    var rest := calls[1..];
    assert forall j :: 0 <= j < |rest| ==> rest[j] == calls[j + 1];
    assert forall j :: 0 < j < |calls| ==> calls[j] == rest[j - 1];
    assert Active(calls, stack) <==> Active(rest, stack + {calls[0].callee}) by {
      if Active(rest, stack + {calls[0].callee}) && rest[|rest| - 1].callee !in stack + {calls[0].callee} {
        var j :| 0 <= j < |rest| - 1 && rest[j].callee == rest[|rest| - 1].callee;
        assert calls[j + 1].callee == calls[|calls| - 1].callee;
      }
    }
  }

  // ----- failure

  lemma ChainLater(calls: seq<Node>, body: seq<Node>, functions: Functions, taskMode: bool)
    requires body != []
    requires Chain(calls, body[1..], functions, taskMode)
             || (body[0].Loop? && Chain(calls, body[0].body, functions, taskMode))
    ensures Chain(calls, body, functions, taskMode)
  {
  }

  /** A failed expansion comes with a chain of calls that is rejected for the reason reported. */
  lemma {:induction false} RejectedChain(body: seq<Node>, functions: Functions, taskMode: bool, stack: set<string>,
                                         depth: nat)
    returns (calls: seq<Node>)
    requires ExpandBody(body, functions, taskMode, stack, depth).error.Some?
    ensures Chain(calls, body, functions, taskMode)
    ensures RejectedBy(calls, functions, taskMode, stack,
                       ExpandBody(body, functions, taskMode, stack, depth).error.value)
    decreases functions.Keys - stack, body, 1
  {
    hide ExpandNode, Chain, RejectedBy;
    var e := ExpandNode(body[0], functions, taskMode, stack, depth);
    if e.error.None? {
      calls := RejectedChain(body[1..], functions, taskMode, stack, depth);
      ChainLater(calls, body, functions, taskMode);
    } else if body[0].Loop? {
      LoopExpands(body[0], functions, taskMode, stack, depth);
      calls := RejectedChain(body[0].body, functions, taskMode, stack, depth);
      ChainLater(calls, body, functions, taskMode);
    } else {
      OnlyCallsFail(body[0], functions, taskMode, stack, depth);
      calls := RejectedCall(body[0], functions, taskMode, stack, depth);
      ChainHere(calls, body, functions, taskMode);
    }
  }

  lemma OnlyCallsFail(node: Node, functions: Functions, taskMode: bool, stack: set<string>, depth: nat)
    requires ExpandNode(node, functions, taskMode, stack, depth).error.Some? && !node.Loop?
    ensures node.Call?
  {
  }

  lemma ChainHere(calls: seq<Node>, body: seq<Node>, functions: Functions, taskMode: bool)
    requires body != [] && calls != [] && calls[0] == body[0] && Chain(calls, [calls[0]], functions, taskMode)
    ensures Chain(calls, body, functions, taskMode)
  {
  }

  lemma {:induction false} RejectedCall(call: Node, functions: Functions, taskMode: bool, stack: set<string>,
                                        depth: nat)
    returns (calls: seq<Node>)
    requires call.Call? && ExpandNode(call, functions, taskMode, stack, depth).error.Some?
    ensures calls != [] && calls[0] == call && Chain(calls, [call], functions, taskMode)
    ensures RejectedBy(calls, functions, taskMode, stack,
                       ExpandNode(call, functions, taskMode, stack, depth).error.value)
    decreases functions.Keys - stack, call, 0
  {
    hide ExpandBody;
    calls := [call];
    if Entered(call, functions, taskMode) && call.callee !in stack
       && ArityError(functions[call.callee], call).None? {
      CallEntered(call, functions, taskMode, stack, depth);
      var rest := RejectedChain(functions[call.callee].body, functions, taskMode, stack + {call.callee}, depth + 1);
      ChainCalls(rest, functions[call.callee].body, functions, taskMode);
      calls := [call] + rest;
      assert calls[1..] == rest;
      assert forall j :: 0 < j < |calls| ==> calls[j] == rest[j - 1];
      LongerChain(calls, functions, taskMode, stack);
    }
  }

  /**
   * Apart from the budget, an expansion succeeds exactly when every call that a chain of entered calls reaches is
   * defined and, if it is entered, fits in arity and repeats no active function; otherwise it reports the reason of
   * such a call.
   */
  lemma ExpansionExact(body: seq<Node>, functions: Functions, taskMode: bool, stack: set<string>, depth: nat)
    ensures ExpandBody(body, functions, taskMode, stack, depth).error.None?
            <==> forall calls, e :: Chain(calls, body, functions, taskMode) ==>
                   !RejectedBy(calls, functions, taskMode, stack, e)
    ensures var error := ExpandBody(body, functions, taskMode, stack, depth).error;
            error.Some? ==> exists calls :: Chain(calls, body, functions, taskMode)
                                            && RejectedBy(calls, functions, taskMode, stack, error.value)
  {
    hide ExpandBody, Chain, RejectedBy;
    var error := ExpandBody(body, functions, taskMode, stack, depth).error;
    if error.Some? {
      var calls := RejectedChain(body, functions, taskMode, stack, depth);
    } else {
      forall calls | Chain(calls, body, functions, taskMode)
        ensures forall e :: !RejectedBy(calls, functions, taskMode, stack, e)
      {
        ChainsAccepted(calls, body, functions, taskMode, stack, depth);
      }
    }
  }

  /** Every depth charged is that of a call entered at the end of a chain. */
  lemma {:induction false} ChargedChain(body: seq<Node>, functions: Functions, taskMode: bool, stack: set<string>,
                                        depth: nat, charged: nat)
    returns (calls: seq<Node>)
    requires EnterCall(charged) in ExpandBody(body, functions, taskMode, stack, depth).charges
    ensures Chain(calls, body, functions, taskMode) && charged == depth + |calls|
    ensures calls[|calls| - 1].Call? && Entered(calls[|calls| - 1], functions, taskMode)
    decreases functions.Keys - stack, body, 1
  {
    hide ExpandNode, Chain;
    var e := ExpandNode(body[0], functions, taskMode, stack, depth);
    if EnterCall(charged) !in e.charges {
      calls := ChargedChain(body[1..], functions, taskMode, stack, depth, charged);
      ChainLater(calls, body, functions, taskMode);
    } else if body[0].Loop? {
      LoopExpands(body[0], functions, taskMode, stack, depth);
      calls := ChargedChain(body[0].body, functions, taskMode, stack, depth, charged);
      ChainLater(calls, body, functions, taskMode);
    } else {
      OnlyCallsEnter(body[0], functions, taskMode, stack, depth, charged);
      calls := ChargedCall(body[0], functions, taskMode, stack, depth, charged);
      ChainHere(calls, body, functions, taskMode);
    }
  }

  lemma OnlyCallsEnter(node: Node, functions: Functions, taskMode: bool, stack: set<string>, depth: nat, charged: nat)
    requires EnterCall(charged) in ExpandNode(node, functions, taskMode, stack, depth).charges && !node.Loop?
    ensures node.Call?
  {
  }

  lemma {:induction false} ChargedCall(call: Node, functions: Functions, taskMode: bool, stack: set<string>,
                                       depth: nat, charged: nat)
    returns (calls: seq<Node>)
    requires call.Call? && EnterCall(charged) in ExpandNode(call, functions, taskMode, stack, depth).charges
    ensures calls != [] && calls[0] == call && Chain(calls, [call], functions, taskMode)
    ensures charged == depth + |calls|
    ensures calls[|calls| - 1].Call? && Entered(calls[|calls| - 1], functions, taskMode)
    decreases functions.Keys - stack, call, 0
  {
    hide ExpandBody;
    calls := [call];
    if charged != depth + 1 {
      CallEntered(call, functions, taskMode, stack, depth);
      var rest := ChargedChain(functions[call.callee].body, functions, taskMode, stack + {call.callee}, depth + 1,
                               charged);
      calls := [call] + rest;
      assert calls[1..] == rest;
    }
  }

  // ----- the shape of the result

  /**
   * The nodes are the body with every entered call replaced by the nodes of its callee's body, in place and in
   * order: loops stay around them, and accesses, calls that are not entered and other nodes are there once each.
   */
  ghost predicate Unrolls(body: seq<Node>, nodes: seq<Node>, functions: Functions, taskMode: bool, stack: set<string>)
    decreases functions.Keys - stack, body
  {
    if body == [] then nodes == []
    else
      match body[0]
      case Loop(variable, start, bound, step, inner) =>
        && nodes != [] && nodes[0].Loop?
        && nodes[0] == Loop(variable, start, bound, step, nodes[0].body)
        && Unrolls(inner, nodes[0].body, functions, taskMode, stack)
        && Unrolls(body[1..], nodes[1..], functions, taskMode, stack)
      case Call(callee, _, _) =>
        if Entered(body[0], functions, taskMode) then
          && callee !in stack
          && exists n :: 0 <= n <= |nodes|
               && Unrolls(functions[callee].body, nodes[..n], functions, taskMode, stack + {callee})
               && Unrolls(body[1..], nodes[n..], functions, taskMode, stack)
        else
          && nodes != [] && SameOutline(body[0], nodes[0])
          && Unrolls(body[1..], nodes[1..], functions, taskMode, stack)
      case Access(_, _) =>
        && nodes != [] && SameOutline(body[0], nodes[0])
        && Unrolls(body[1..], nodes[1..], functions, taskMode, stack)
      case Unknown(_) =>
        && nodes != [] && SameOutline(body[0], nodes[0])
        && Unrolls(body[1..], nodes[1..], functions, taskMode, stack)
  }

  /** Substituting texts and objects does not change what a body unrolls to. */
  lemma {:induction false} UnrollsTexts(body: seq<Node>, mapping: CallMapping, objects: CallMapping,
                                        nodes: seq<Node>, functions: Functions, taskMode: bool, stack: set<string>)
    requires Unrolls(SubstitutedBody(body, mapping, objects), nodes, functions, taskMode, stack)
    ensures Unrolls(body, nodes, functions, taskMode, stack)
    decreases body
  {
    hide SubstitutedName;
    if body != [] {
      var node, rest := SubstitutedNode(body[0], mapping, objects), SubstitutedBody(body[1..], mapping, objects);
      assert ([node] + rest)[1..] == rest && ([node] + rest)[0] == node;
      match body[0]
      case Loop(_, _, _, _, inner) =>
        UnrollsTexts(inner, mapping, objects, nodes[0].body, functions, taskMode, stack);
        UnrollsTexts(body[1..], mapping, objects, nodes[1..], functions, taskMode, stack);
      case Call(callee, _, _) =>
        if Entered(body[0], functions, taskMode) {
          var n :| 0 <= n <= |nodes|
                   && Unrolls(functions[callee].body, nodes[..n], functions, taskMode, stack + {callee})
                   && Unrolls(rest, nodes[n..], functions, taskMode, stack);
          UnrollsTexts(body[1..], mapping, objects, nodes[n..], functions, taskMode, stack);
        } else {
          UnrollsTexts(body[1..], mapping, objects, nodes[1..], functions, taskMode, stack);
        }
      case Access(_, _) =>
        UnrollsTexts(body[1..], mapping, objects, nodes[1..], functions, taskMode, stack);
      case Unknown(_) =>
        UnrollsTexts(body[1..], mapping, objects, nodes[1..], functions, taskMode, stack);
    }
  }

  /** A successful expansion unrolls the body. */
  lemma {:induction false} ExpansionUnrolls(body: seq<Node>, functions: Functions, taskMode: bool,
                                            stack: set<string>, depth: nat)
    requires ExpandBody(body, functions, taskMode, stack, depth).error.None?
    ensures Unrolls(body, ExpandBody(body, functions, taskMode, stack, depth).nodes, functions, taskMode, stack)
    decreases functions.Keys - stack, body
  {
    hide SubstitutedBody, ArityError;
    if body != [] {
      var e, rest := ExpandNode(body[0], functions, taskMode, stack, depth),
                     ExpandBody(body[1..], functions, taskMode, stack, depth);
      var nodes := e.nodes + rest.nodes;
      ExpansionUnrolls(body[1..], functions, taskMode, stack, depth);
      assert nodes[|e.nodes|..] == rest.nodes && nodes[..|e.nodes|] == e.nodes;
      match body[0]
      case Loop(_, _, _, _, inner) =>
        ExpansionUnrolls(inner, functions, taskMode, stack, depth);
      case Call(callee, _, _) =>
        if Entered(body[0], functions, taskMode) {
          var f, within := functions[callee], stack + {callee};
          ExpansionUnrolls(CalleeBody(f, body[0]), functions, taskMode, within, depth + 1);
          var spliced := ExpandBody(CalleeBody(f, body[0]), functions, taskMode, within, depth + 1).nodes;
          assert [] + spliced == spliced;
          UnrollsTexts(f.body, NameBindings(f, body[0]), ObjectBindings(f, body[0]), e.nodes, functions, taskMode,
                       within);
        }
      case Access(_, _) =>
      case Unknown(_) =>
    }
  }
}
