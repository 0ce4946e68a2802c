/** A scoping discipline on the functions that a root can enter, which makes its inline expansion hygienic. */
module ModuleHygiene {
  import opened Machine
  import opened AffineTerms
  import opened AffineText
  import opened AffineFormat
  import opened TraceWalk
  import opened CallSubstitution
  import opened InlineExpansion
  import opened CallSemantics
  import opened SubstitutionMeaning
  import opened ExpansionMeaning
  import NameOrder

  // ----- the discipline

  /** No loop of the node binds the name. */
  predicate NoLoop(node: Node, name: string)
    decreases node
  {
    node.Loop? ==> node.variable != name && forall i :: 0 <= i < |node.body| ==> NoLoop(node.body[i], name)
  }

  /** No loop endpoint of the node mentions the name. */
  ghost predicate NoEndpoint(node: Node, name: string)
    decreases node
  {
    node.Loop? ==>
      && (node.start.Text? ==> !MentionsName(node.start.text, name))
      && (node.bound.Text? ==> !MentionsName(node.bound.text, name))
      && forall i :: 0 <= i < |node.body| ==> NoEndpoint(node.body[i], name)
  }

  /** No call argument of the node mentions the name. */
  ghost predicate NoArgument(node: Node, name: string)
    decreases node
  {
    match node
    case Loop(_, _, _, _, body) => forall i :: 0 <= i < |body| ==> NoArgument(body[i], name)
    case Call(_, args, _) => forall i :: 0 <= i < |args| ==> !MentionsName(args[i], name)
    case Access(_, _) => true
    case Unknown(_) => true
  }

  predicate BodyNoLoop(body: seq<Node>, name: string) {
    forall i :: 0 <= i < |body| ==> NoLoop(body[i], name)
  }

  ghost predicate BodyNoEndpoint(body: seq<Node>, name: string) {
    forall i :: 0 <= i < |body| ==> NoEndpoint(body[i], name)
  }

  ghost predicate BodyNoArgument(body: seq<Node>, name: string) {
    forall i :: 0 <= i < |body| ==> NoArgument(body[i], name)
  }

  /** Parameters are identifiers that no loop of their function rebinds and no endpoint of it mentions. */
  ghost predicate ParametersScoped(function_: Function) {
    forall p :: p in function_.params ==>
      Identifier(p) && BodyNoLoop(function_.body, p) && BodyNoEndpoint(function_.body, p)
  }

  /** No call argument of `caller` mentions a loop variable of `callee`. */
  ghost predicate ArgumentsAvoid(caller: seq<Node>, callee: seq<Node>) {
    forall name :: BodyNoLoop(callee, name) || BodyNoArgument(caller, name)
  }

  // ----- which functions expansion can enter

  /** The node calls a function, maybe inside loops. */
  predicate NodeCalls(node: Node, callee: string)
    decreases node
  {
    match node
    case Access(_, _) => false
    case Unknown(_) => false
    case Loop(_, _, _, _, body) => exists i :: 0 <= i < |body| && NodeCalls(body[i], callee)
    case Call(target, _, _) => target == callee
  }

  /** The body of `caller` has a call to `callee` that expansion replaces. */
  predicate CallsInto(caller: string, callee: string, functions: Functions, taskMode: bool) {
    && caller in functions && callee in functions && Expands(taskMode, functions[callee])
    && exists i :: 0 <= i < |functions[caller].body| && NodeCalls(functions[caller].body[i], callee)
  }

  predicate IsChain(chain: seq<string>, functions: Functions, taskMode: bool) {
    |chain| >= 2 && forall i :: 0 <= i < |chain| - 1 ==> CallsInto(chain[i], chain[i + 1], functions, taskMode)
  }

  /** Calls lead from one function to another. */
  ghost predicate Reaches(caller: string, callee: string, functions: Functions, taskMode: bool) {
    exists chain :: IsChain(chain, functions, taskMode) && chain[0] == caller && chain[|chain| - 1] == callee
  }

  /** The functions that expansion can enter from one. */
  ghost function Below(name: string, functions: Functions, taskMode: bool): (r: set<string>) {
    set g | g in functions && Reaches(name, g, functions, taskMode)
  }

  lemma CallIsBelow(caller: string, callee: string, functions: Functions, taskMode: bool)
    requires CallsInto(caller, callee, functions, taskMode)
    ensures callee in Below(caller, functions, taskMode)
  {
    hide CallsInto;
    var chain := [caller, callee];
    assert IsChain(chain, functions, taskMode) && chain[0] == caller && chain[|chain| - 1] == callee;
    CalleeKnown(caller, callee, functions, taskMode);
  }

  lemma CalleeKnown(caller: string, callee: string, functions: Functions, taskMode: bool)
    requires CallsInto(caller, callee, functions, taskMode)
    ensures callee in functions
  {
  }

  lemma BelowBelow(f: string, g: string, functions: Functions, taskMode: bool)
    requires g in Below(f, functions, taskMode)
    ensures Below(g, functions, taskMode) <= Below(f, functions, taskMode)
  {
    hide CallsInto;
    var first :| IsChain(first, functions, taskMode) && first[0] == f && first[|first| - 1] == g;
    forall h | h in Below(g, functions, taskMode)
      ensures h in Below(f, functions, taskMode)
    {
      var second :| IsChain(second, functions, taskMode) && second[0] == g && second[|second| - 1] == h;
      var chain := first + second[1..];
      forall i | 0 <= i < |chain| - 1
        ensures CallsInto(chain[i], chain[i + 1], functions, taskMode)
      {
        if i < |first| - 1 {
          assert CallsInto(first[i], first[i + 1], functions, taskMode);
        } else {
          var j := i - (|first| - 1);
          assert CallsInto(second[j], second[j + 1], functions, taskMode);
        }
      }
      assert chain[0] == f && chain[|chain| - 1] == h;
    }
  }

  // ----- the discipline for a root

  /** Between a function and those it reaches no argument meets a loop variable. */
  ghost predicate AvoidsBelow(name: string, functions: Functions, taskMode: bool) {
    name in functions
    && forall g :: g in Below(name, functions, taskMode) && g != name ==>
         ArgumentsAvoid(functions[name].body, functions[g].body)
  }

  /**
   * Every function that expansion can enter from the root has its parameters to itself, and no argument of a
   * function on the way mentions a loop variable of a function that it reaches. Functions that the root does
   * not reach, and those that are not expanded, do not matter.
   */
  ghost predicate WellScoped(root: string, functions: Functions, taskMode: bool) {
    && AvoidsBelow(root, functions, taskMode)
    && forall g :: g in Below(root, functions, taskMode) ==>
         ParametersScoped(functions[g]) && AvoidsBelow(g, functions, taskMode)
  }

  lemma ScopedBelow(f: string, g: string, functions: Functions, taskMode: bool)
    requires WellScoped(f, functions, taskMode) && g in Below(f, functions, taskMode)
    ensures WellScoped(g, functions, taskMode) && ParametersScoped(functions[g])
  {
    hide Below, AvoidsBelow, ParametersScoped;
    BelowBelow(f, g, functions, taskMode);
  }

  // ----- compositions stay within int64

  ghost predicate ComposesNode(node: Node, mapping: CallMapping)
    decreases node
  {
    match node
    case Access(_, indices) => forall i :: 0 <= i < |indices| ==> Composes(indices[i], mapping)
    case Loop(_, _, _, _, body) => forall i :: 0 <= i < |body| ==> ComposesNode(body[i], mapping)
    case Call(_, args, _) => forall i :: 0 <= i < |args| ==> Composes(args[i], mapping)
    case Unknown(_) => true
  }

  ghost predicate ComposesBody(body: seq<Node>, mapping: CallMapping) {
    forall i :: 0 <= i < |body| ==> ComposesNode(body[i], mapping)
  }

  /** No composition that expansion performs below a node overflows. */
  ghost predicate ComposesBelow(node: Node, functions: Functions, taskMode: bool, stack: set<string>)
    decreases functions.Keys - stack, node, 1
  {
    match node
    case Access(_, _) => true
    case Unknown(_) => true
    case Loop(_, _, _, _, body) => AllCompose(body, functions, taskMode, stack)
    case Call(callee, _, _) =>
      Enterable(node, functions, taskMode, stack) ==>
        && ComposesBody(functions[callee].body, NameBindings(functions[callee], node))
        && AllCompose(CalleeBody(functions[callee], node), functions, taskMode, stack + {callee})
  }

  ghost predicate AllCompose(body: seq<Node>, functions: Functions, taskMode: bool, stack: set<string>)
    decreases functions.Keys - stack, body, 1
  {
    body == [] || (ComposesBelow(body[0], functions, taskMode, stack)
        && AllCompose(body[1..], functions, taskMode, stack))
  }

  // ----- what a substituted text mentions

  /** A mapping none of whose actuals mention a name. */
  ghost predicate ActualsAvoid(mapping: CallMapping, name: string) {
    forall p :: p in mapping ==> !MentionsName(mapping[p], name)
  }

  lemma {:induction false} ComposeMentions(result: Affine, names: set<string>, terms: map<string, int>,
                                           mapping: CallMapping,
                                           name: string)
    requires names <= terms.Keys && Compose(result, names, terms, mapping).Some?
    requires name !in result.terms && name !in names && ActualsAvoid(mapping, name)
    ensures name !in Compose(result, names, terms, mapping).value.terms
    decreases names
  {
    hide Compose, NameOrder.IsFirst, Added;
    if names == {} {
      ComposeNothing(result, terms, mapping, (x: string) => 0);
    } else {
      NameOrder.FirstExists(names);
      var first :| NameOrder.IsFirst(first, names);
      FirstMember(first, names);
      ComposeStep(result, names, terms, mapping, first);
      var source := Replacement(first, mapping).value;
      AddedKeys(result, source, terms[first]);
      ComposeMentions(Added(result, source, terms[first]).value, names - {first}, terms, mapping, name);
    }
  }

  lemma DeferredUnreadable(text: string)
    ensures ParseAffine(Deferred(text)).None?
  {
    assert Deferred(text)[0] == '(';
    assert ReadTerm(Deferred(text), true).None?;
  }

  /** A substituted text mentions only what the text or an actual mentions. */
  lemma SubstitutedMentions(text: string, mapping: CallMapping, name: string)
    requires !MentionsName(text, name) && ActualsAvoid(mapping, name)
    ensures !MentionsName(SubstitutedName(text, mapping), name)
  {
    hide ParseAffine, Compose, Mentions, FormatAffine;
    if text !in mapping && ParseAffine(text).Some? {
      var e := ParseAffine(text).value;
      DeferredUnreadable(text);
      if Composed(e, mapping).Some? {
        ComposeMentions(Affine(e.constant, map[]), e.terms.Keys, e.terms, mapping, name);
        ParsePrintable(text);
        ComposedPrintable(e, mapping);
        FormatRoundTrip(Composed(e, mapping).value);
      }
    }
  }

  lemma {:induction false} NodeMentions(node: Node, mapping: CallMapping, objects: CallMapping, name: string)
    requires NoArgument(node, name) && ActualsAvoid(mapping, name)
    ensures NoArgument(SubstitutedNode(node, mapping, objects), name)
    decreases node
  {
    hide ActualsAvoid, SubstitutedName, MentionsName;
    match node
    case Access(_, _) =>
    case Unknown(_) =>
    case Loop(_, _, _, _, body) =>
      forall i | 0 <= i < |body|
        ensures NoArgument(SubstitutedNode(body[i], mapping, objects), name)
      {
        NodeMentions(body[i], mapping, objects, name);
      }
    case Call(_, args, _) =>
      forall i | 0 <= i < |args|
        ensures !MentionsName(SubstitutedName(args[i], mapping), name)
      {
        SubstitutedMentions(args[i], mapping, name);
      }
  }

  // ----- scoping makes each call hygienic

  ghost predicate ScopedNode(node: Node, mapping: CallMapping) {
    && (forall p :: p in mapping ==> NoLoop(node, p) && NoEndpoint(node, p))
    && (forall name :: NoLoop(node, name) || ActualsAvoid(mapping, name))
  }

  lemma {:induction false} ScopedIsHygienic(node: Node, mapping: CallMapping)
    requires ScopedNode(node, mapping) && ComposesNode(node, mapping)
    ensures Hygienic(node, mapping)
    decreases node
  {
    hide Composes, ActualsAvoid, MentionsName;
    if node.Loop? {
      FreshVariable(node, mapping);
      forall i | 0 <= i < |node.body|
        ensures Hygienic(node.body[i], mapping)
      {
        ScopedChild(node, mapping, i);
        ScopedIsHygienic(node.body[i], mapping);
      }
    }
  }

  lemma FreshVariable(node: Node, mapping: CallMapping)
    requires node.Loop? && ScopedNode(node, mapping)
    ensures Fresh(node.variable, mapping) && EndpointFree(node.start, mapping) && EndpointFree(node.bound, mapping)
  {
    hide MentionsName;
    assert !NoLoop(node, node.variable);
  }

  lemma ScopedChild(node: Node, mapping: CallMapping, i: nat)
    requires node.Loop? && ScopedNode(node, mapping) && i < |node.body|
    ensures ScopedNode(node.body[i], mapping)
  {
    hide ActualsAvoid, MentionsName;
    forall name
      ensures NoLoop(node.body[i], name) || ActualsAvoid(mapping, name)
    {
      assert NoLoop(node, name) || ActualsAvoid(mapping, name);
    }
  }

  /** Arguments of the node mention no loop variable of a function that can still be entered. */
  ghost predicate ArgumentsScoped(node: Node, functions: Functions, below: set<string>, stack: set<string>) {
    forall h, name :: h in below - stack && h in functions ==>
      BodyNoLoop(functions[h].body, name) || NoArgument(node, name)
  }

  /** The calls of the node that expansion replaces are among some functions. */
  ghost predicate CallsWithin(node: Node, functions: Functions, taskMode: bool, below: set<string>) {
    forall g :: NodeCalls(node, g) && g in functions && Expands(taskMode, functions[g]) ==> g in below
  }

  ghost predicate NodeScoped(node: Node, functions: Functions, taskMode: bool, f: string, stack: set<string>) {
    var below := Below(f, functions, taskMode);
    ArgumentsScoped(node, functions, below, stack) && CallsWithin(node, functions, taskMode, below)
  }

  /** The nodes of a function `f`, in the terms of the root. */
  ghost predicate BodyScoped(body: seq<Node>, functions: Functions, taskMode: bool, f: string, stack: set<string>) {
    forall i :: 0 <= i < |body| ==> NodeScoped(body[i], functions, taskMode, f, stack)
  }

  lemma ActualsScoped(call: Node, functions: Functions, below: set<string>, stack: set<string>, h: string,
                      name: string)
    requires call.Call? && ArgumentsScoped(call, functions, below, stack) && h in below - stack && h in functions
    requires call.callee in functions
    ensures BodyNoLoop(functions[h].body, name) || ActualsAvoid(NameBindings(functions[call.callee], call), name)
  {
    hide MentionsName, BodyNoLoop;
    var f := functions[call.callee];
    if !BodyNoLoop(functions[h].body, name) {
      assert NoArgument(call, name);
      forall p | p in NameBindings(f, call)
        ensures !MentionsName(NameBindings(f, call)[p], name)
      {
        BoundActual(f.params, call.args, Min(|f.params|, |call.args|), p);
      }
    }
  }

  lemma {:induction false} BoundActual(params: seq<string>, args: seq<string>, n: nat, p: string)
    requires n <= |params| && n <= |args| && p in BindUpTo(params, args, n)
    ensures p in params && BindUpTo(params, args, n)[p] in args
  {
    if p != params[n - 1] {
      BoundActual(params, args, n - 1, p);
    }
  }

  /** A node of a well-scoped function is hygienic. */
  lemma {:induction false} NodeHygienic(node: Node, functions: Functions, taskMode: bool, f: string,
                                        stack: set<string>)
    requires WellScoped(f, functions, taskMode) && NodeScoped(node, functions, taskMode, f, stack)
    requires ComposesBelow(node, functions, taskMode, stack)
    ensures HygienicNode(node, functions, taskMode, stack)
    decreases functions.Keys - stack, node, 1
  {
    hide WellScoped, NodeScoped, ArityError, Below;
    match node
    case Access(_, _) =>
    case Unknown(_) =>
    case Loop(_, _, _, _, body) =>
      LoopScoped(node, functions, taskMode, f, stack);
      BodyHygienic(body, functions, taskMode, f, stack);
    case Call(callee, _, _) =>
      if Enterable(node, functions, taskMode, stack) {
        CalleeBelow(node, functions, taskMode, f, stack);
        ScopedBelow(f, callee, functions, taskMode);
        CalleeHygienic(node, functions, taskMode, f, stack);
        CalleeScoped(node, functions, taskMode, f, stack);
        BodyHygienic(CalleeBody(functions[callee], node), functions, taskMode, callee, stack + {callee});
      }
  }

  lemma CalleeBelow(call: Node, functions: Functions, taskMode: bool, f: string, stack: set<string>)
    requires call.Call? && NodeScoped(call, functions, taskMode, f, stack)
    requires call.callee in functions && Expands(taskMode, functions[call.callee])
    ensures call.callee in Below(f, functions, taskMode)
  {
    hide Below, ArgumentsScoped;
    assert NodeCalls(call, call.callee);
  }

  lemma LoopScoped(node: Node, functions: Functions, taskMode: bool, f: string, stack: set<string>)
    requires node.Loop? && NodeScoped(node, functions, taskMode, f, stack)
    ensures BodyScoped(node.body, functions, taskMode, f, stack)
  {
    hide BodyNoLoop, Below;
    var below := Below(f, functions, taskMode);
    forall i | 0 <= i < |node.body|
      ensures NodeScoped(node.body[i], functions, taskMode, f, stack)
    {
      forall h, name | h in below - stack && h in functions
        ensures BodyNoLoop(functions[h].body, name) || NoArgument(node.body[i], name)
      {
        assert BodyNoLoop(functions[h].body, name) || NoArgument(node, name);
      }
      forall g | NodeCalls(node.body[i], g) && g in functions && Expands(taskMode, functions[g])
        ensures g in below
      {
        assert NodeCalls(node, g);
      }
    }
  }

  lemma CalleeHygienic(call: Node, functions: Functions, taskMode: bool, f: string, stack: set<string>)
    requires call.Call? && call.callee in functions.Keys - stack && call.callee in Below(f, functions, taskMode)
    requires ParametersScoped(functions[call.callee]) && NodeScoped(call, functions, taskMode, f, stack)
    requires ComposesBody(functions[call.callee].body, NameBindings(functions[call.callee], call))
    ensures Formals(NameBindings(functions[call.callee], call))
    ensures HygienicBody(functions[call.callee].body, NameBindings(functions[call.callee], call))
  {
    hide ArgumentsScoped, ActualsAvoid, ComposesNode, NoEndpoint, Identifier, Bindings, CallsWithin, Below;
    var callee := functions[call.callee];
    var mapping := NameBindings(callee, call);
    forall p | p in mapping
      ensures p in callee.params
    {
      BoundParameter(callee, call, p);
    }
    forall i | 0 <= i < |callee.body|
      ensures Hygienic(callee.body[i], mapping)
    {
      forall name
        ensures NoLoop(callee.body[i], name) || ActualsAvoid(mapping, name)
      {
        ActualsScoped(call, functions, Below(f, functions, taskMode), stack, call.callee, name);
      }
      assert ScopedNode(callee.body[i], mapping);
      ScopedIsHygienic(callee.body[i], mapping);
    }
  }

  lemma BoundParameter(function_: Function, call: Node, p: string)
    requires call.Call? && p in NameBindings(function_, call)
    ensures p in function_.params
  {
    BoundActual(function_.params, call.args, Min(|function_.params|, |call.args|), p);
  }

  lemma {:induction false} SubstitutedCalls(node: Node, mapping: CallMapping, objects: CallMapping, g: string)
    requires NodeCalls(SubstitutedNode(node, mapping, objects), g)
    ensures NodeCalls(node, g)
    decreases node
  {
    if node.Loop? {
      var body := SubstitutedNode(node, mapping, objects).body;
      var i :| 0 <= i < |body| && NodeCalls(body[i], g);
      SubstitutedCalls(node.body[i], mapping, objects, g);
    }
  }

  /** The callee's substituted nodes are scoped for what the callee reaches. */
  lemma CalleeScoped(call: Node, functions: Functions, taskMode: bool, f: string, stack: set<string>)
    requires call.Call? && call.callee in functions.Keys - stack && call.callee in Below(f, functions, taskMode)
    requires WellScoped(call.callee, functions, taskMode) && NodeScoped(call, functions, taskMode, f, stack)
    ensures BodyScoped(CalleeBody(functions[call.callee], call), functions, taskMode, call.callee,
                       stack + {call.callee})
  {
    hide NodeScoped, WellScoped, Below, Bindings;
    var callee := functions[call.callee];
    forall i | 0 <= i < |callee.body|
      ensures NodeScoped(SubstitutedNode(callee.body[i], NameBindings(callee, call), ObjectBindings(callee, call)),
                         functions, taskMode, call.callee, stack + {call.callee})
    {
      CalleeArguments(call, functions, taskMode, f, stack, i);
      CalleeCalls(call, functions, taskMode, i);
      NodeScopedBy(SubstitutedNode(callee.body[i], NameBindings(callee, call), ObjectBindings(callee, call)),
                   functions, taskMode, call.callee, stack + {call.callee});
    }
  }

  lemma NodeScopedBy(node: Node, functions: Functions, taskMode: bool, f: string, stack: set<string>)
    requires ArgumentsScoped(node, functions, Below(f, functions, taskMode), stack)
    requires CallsWithin(node, functions, taskMode, Below(f, functions, taskMode))
    ensures NodeScoped(node, functions, taskMode, f, stack)
  {
  }

  /** The callee's substituted arguments avoid the functions that can be entered from it. */
  lemma CalleeArguments(call: Node, functions: Functions, taskMode: bool, f: string, stack: set<string>, i: nat)
    requires call.Call? && call.callee in functions.Keys - stack && call.callee in Below(f, functions, taskMode)
    requires WellScoped(call.callee, functions, taskMode) && NodeScoped(call, functions, taskMode, f, stack)
    requires i < |functions[call.callee].body|
    ensures var g := functions[call.callee];
            ArgumentsScoped(SubstitutedNode(g.body[i], NameBindings(g, call), ObjectBindings(g, call)), functions,
                            Below(call.callee, functions, taskMode), stack + {call.callee})
  {
    BelowBelow(f, call.callee, functions, taskMode);
    hide ActualsAvoid, NoArgument, BodyNoLoop, ParametersScoped, Bindings, CallsWithin, Below;
    var g := functions[call.callee];
    var mapping, objects := NameBindings(g, call), ObjectBindings(g, call);
    forall h, name | h in Below(call.callee, functions, taskMode) - (stack + {call.callee}) && h in functions
      ensures BodyNoLoop(functions[h].body, name) || NoArgument(SubstitutedNode(g.body[i], mapping, objects), name)
    {
      if !BodyNoLoop(functions[h].body, name) {
        assert ArgumentsAvoid(g.body, functions[h].body);
        ActualsScoped(call, functions, Below(f, functions, taskMode), stack, h, name);
        ArgumentOf(g.body, i, name);
        NodeMentions(g.body[i], mapping, objects, name);
      }
    }
  }

  lemma ArgumentOf(body: seq<Node>, i: nat, name: string)
    requires i < |body| && BodyNoArgument(body, name)
    ensures NoArgument(body[i], name)
  {
  }

  lemma CalleeCalls(call: Node, functions: Functions, taskMode: bool, i: nat)
    requires call.Call? && call.callee in functions && i < |functions[call.callee].body|
    ensures var g := functions[call.callee];
            CallsWithin(SubstitutedNode(g.body[i], NameBindings(g, call), ObjectBindings(g, call)), functions, taskMode,
                        Below(call.callee, functions, taskMode))
  {
    hide Below, Bindings;
    var g := functions[call.callee];
    var node := SubstitutedNode(g.body[i], NameBindings(g, call), ObjectBindings(g, call));
    forall h | NodeCalls(node, h) && h in functions && Expands(taskMode, functions[h])
      ensures h in Below(call.callee, functions, taskMode)
    {
      SubstitutedCalls(g.body[i], NameBindings(g, call), ObjectBindings(g, call), h);
      CallIsBelow(call.callee, h, functions, taskMode);
    }
  }

  lemma {:induction false} BodyHygienic(body: seq<Node>, functions: Functions, taskMode: bool, f: string,
                                        stack: set<string>)
    requires WellScoped(f, functions, taskMode) && BodyScoped(body, functions, taskMode, f, stack)
    requires AllCompose(body, functions, taskMode, stack)
    ensures HygienicNodes(body, functions, taskMode, stack)
    decreases functions.Keys - stack, body, 1
  {
    hide WellScoped, NodeScoped, HygienicNode, ComposesBelow;
    if body != [] {
      NodeHygienic(body[0], functions, taskMode, f, stack);
      BodyHygienic(body[1..], functions, taskMode, f, stack);
    }
  }

  /** A well-scoped root without coefficient overflow is hygienic: every call that its expansion enters is. */
  lemma RootHygienic(root: string, functions: Functions, taskMode: bool)
    requires WellScoped(root, functions, taskMode) && root in functions
    requires AllCompose(functions[root].body, functions, taskMode, {root})
    ensures HygienicNodes(functions[root].body, functions, taskMode, {root})
  {
    RootScoped(root, functions, taskMode);
    hide WellScoped, HygienicNodes, AllCompose, BodyScoped;
    BodyHygienic(functions[root].body, functions, taskMode, root, {root});
  }

  lemma RootScoped(root: string, functions: Functions, taskMode: bool)
    requires WellScoped(root, functions, taskMode) && root in functions
    ensures BodyScoped(functions[root].body, functions, taskMode, root, {root})
  {
    hide BodyNoLoop, NoArgument, ParametersScoped, Below;
    var body, below := functions[root].body, Below(root, functions, taskMode);
    forall i | 0 <= i < |body|
      ensures NodeScoped(body[i], functions, taskMode, root, {root})
    {
      forall h, name | h in below - {root} && h in functions
        ensures BodyNoLoop(functions[h].body, name) || NoArgument(body[i], name)
      {
        assert ArgumentsAvoid(body, functions[h].body);
      }
      forall g | NodeCalls(body[i], g) && g in functions && Expands(taskMode, functions[g])
        ensures g in below
      {
        CallIsBelow(root, g, functions, taskMode);
      }
    }
  }

  /**
   * Inline expansion preserves meaning. When every call that the expansion of a root enters is hygienic, the
   * expanded body keeps no call that should have been expanded and performs exactly the accesses of the root
   * with call-by-value parameters, whenever these are defined.
   */
  lemma RootExpansion(root: string, functions: Functions, taskMode: bool, names: Names)
    requires root in functions && HygienicNodes(functions[root].body, functions, taskMode, {root})
    requires ExpandBody(functions[root].body, functions, taskMode, {root}, 0).error.None?
    requires ExecBody(functions[root].body, functions, taskMode, names, map[], {root}).Some?
    ensures var expanded := ExpandBody(functions[root].body, functions, taskMode, {root}, 0).nodes;
            && RunBody(expanded, functions, taskMode, names)
               == ExecBody(functions[root].body, functions, taskMode, names, map[], {root})
            && KeepsOnly(expanded, functions, taskMode)
  {
    hide HygienicNodes, ExpandBody, ExecBody;
    BodyExpanded(functions[root].body, functions, taskMode, names, {root}, 0);
    BodyKeepsOnly(functions[root].body, functions, taskMode, {root}, 0);
  }

  /** The same from the scoping discipline alone. */
  lemma ScopedExpansion(root: string, functions: Functions, taskMode: bool, names: Names)
    requires root in functions && WellScoped(root, functions, taskMode)
    requires AllCompose(functions[root].body, functions, taskMode, {root})
    requires ExpandBody(functions[root].body, functions, taskMode, {root}, 0).error.None?
    requires ExecBody(functions[root].body, functions, taskMode, names, map[], {root}).Some?
    ensures var expanded := ExpandBody(functions[root].body, functions, taskMode, {root}, 0).nodes;
            && RunBody(expanded, functions, taskMode, names)
               == ExecBody(functions[root].body, functions, taskMode, names, map[], {root})
            && KeepsOnly(expanded, functions, taskMode)
  {
    hide WellScoped, HygienicNodes, ExpandBody, ExecBody, AllCompose;
    RootHygienic(root, functions, taskMode);
    RootExpansion(root, functions, taskMode, names);
  }

  // ----- roots that share a helper

  /** `for i in [0, 4) { h(i) }` */
  const CALLER: Function := Function([], [Loop("i", Number(0), Number(4), 1, [Call("h", ["i"], None)])], false)

  /** `h(p) { A[p] }` */
  const HELPER: Function := Function(["p"], [Access("A", ["p"])], true)

  const SHARED: Functions := map["a" := CALLER, "b" := CALLER, "h" := HELPER]

  lemma HelperIsLast(f: string, g: string)
    requires f == "a" || f == "h"
    ensures CallsInto(f, g, SHARED, true) ==> f == "a" && g == "h"
  {
    if CallsInto(f, g, SHARED, true) {
      var body := SHARED[f].body;
      var i :| 0 <= i < |body| && NodeCalls(body[i], g);
      if f == "a" {
        var inner := body[i].body;
        var j :| 0 <= j < |inner| && NodeCalls(inner[j], g);
      }
    }
  }

  /** Two roots may use one loop variable for the argument of one helper: neither is below the other. */
  lemma SharedHelper()
    ensures WellScoped("a", SHARED, true)
  {
    hide CallsInto, ParametersScoped;
    forall f, g | (f == "a" || f == "h") && g in Below(f, SHARED, true)
      ensures f == "a" && g == "h"
    {
      var chain :| IsChain(chain, SHARED, true) && chain[0] == f && chain[|chain| - 1] == g;
      assert CallsInto(chain[0], chain[1], SHARED, true);
      HelperIsLast(f, chain[1]);
      if |chain| > 2 {
        assert CallsInto(chain[1], chain[2], SHARED, true);
        HelperIsLast("h", chain[2]);
      }
    }
    HelperScoped();
  }

  lemma HelperScoped()
    ensures ParametersScoped(SHARED["h"]) && ArgumentsAvoid(SHARED["a"].body, SHARED["h"].body)
  {
    assert forall name :: BodyNoLoop(SHARED["h"].body, name);
  }
}
