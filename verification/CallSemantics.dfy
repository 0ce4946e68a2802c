/** The call-by-value meaning of programs with calls, and what substitution does to it. */
module CallSemantics {
  import opened Machine
  import opened AffineTerms
  import opened AffineText
  import opened LoopWork
  import opened TraceWalk
  import opened CallSubstitution
  import opened InlineExpansion

  /** Variables in scope with their values, innermost first; a parameter bound to no integer has none. */
  type Names = seq<(string, Option<int>)>

  ghost function Read(name: string, names: Names): (v: Option<int>) {
    if names == [] then None else if names[0].0 == name then names[0].1 else Read(name, names[1..])
  }

  ghost function ValuesOf(names: Names): (values: string -> int) {
    (name: string) => match Read(name, names) case Some(v) => v case None => 0
  }

  ghost predicate Known(e: Affine, names: Names) {
    forall name :: name in e.terms ==> Read(name, names).Some?
  }

  /** The exact value of a text, if it is an affine expression over known names and fits int64. */
  ghost function ValueOf(text: string, names: Names): (v: Option<int>)
    ensures v.Some? ==> IsI64(v.value)
  {
    match ParseAffine(text)
    case None => None
    case Some(e) =>
      if Known(e, names) && IsI64(Eval(e, ValuesOf(names))) then Some(Eval(e, ValuesOf(names))) else None
  }

  ghost predicate AllValues(texts: seq<string>, names: Names) {
    forall i :: 0 <= i < |texts| ==> ValueOf(texts[i], names).Some?
  }

  ghost function IndexValues(texts: seq<string>, names: Names): (values: seq<int>)
    requires AllValues(texts, names)
  {
    seq(|texts|, i requires 0 <= i < |texts| => ValueOf(texts[i], names).value)
  }

  ghost function EndpointIn(endpoint: Endpoint, names: Names): (v: Option<int>)
    ensures v.Some? ==> IsI64(v.value)
  {
    match endpoint
    case Number(value) => Some(value)
    case Text(text) => ValueOf(text, names)
  }

  /**
   * What a program does, one step at a time: an access; a call that is not entered, with a value for every
   * argument that passes no object; or a node of another type.
   */
  datatype Hit =
    | Hit(target: string, indices: seq<int>)
    | KeptCall(callee: string, arguments: seq<Option<int>>, passed: Option<seq<string>>)
    | Foreign(kind: string)

  function Join(first: Option<seq<Hit>>, second: Option<seq<Hit>>): (r: Option<seq<Hit>>) {
    if first.None? || second.None? then None else Some(first.value + second.value)
  }

  // ----- calls

  /** The first `n` parameters with the values of their arguments; later ones of the same name win. */
  ghost function CalleeNames(params: seq<string>, args: seq<string>, n: nat, names: Names): (r: Names)
    requires n <= |params| && n <= |args|
  {
    if n == 0 then []
    else [(params[n - 1], ValueOf(args[n - 1], names))] + CalleeNames(params, args, n - 1, names)
  }

  /** The formal objects of a call with the actual objects they stand for. */
  function CalleeObjects(function_: Function, call: Node, objects: CallMapping): (m: CallMapping)
    requires call.Call?
  {
    Bindings(FormalObjects(call.callee, function_.params), SubstitutedObjects(ActualObjects(call), objects))
  }

  /** In task mode a call to a function that is not inline is left as it is. */
  predicate Kept(call: Node, functions: Functions, taskMode: bool)
    requires call.Call?
  {
    call.callee in functions && taskMode && !functions[call.callee].inlined
  }

  /** The objects a call passes, in the terms of the root. */
  function PassedObjects(call: Node, objects: CallMapping): (passed: Option<seq<string>>)
    requires call.Call?
  {
    match call.argObjects
    case None => None
    case Some(targets) => Some(SubstitutedObjects(targets, objects))
  }

  predicate PassesObject(passed: Option<seq<string>>, i: int) {
    passed.Some? && 0 <= i < |passed.value| && passed.value[i] != ""
  }

  /** Every argument passes an object or has a value. */
  ghost predicate AllPassed(args: seq<string>, passed: Option<seq<string>>, names: Names) {
    forall i :: 0 <= i < |args| ==> PassesObject(passed, i) || ValueOf(args[i], names).Some?
  }

  ghost function PassedValues(args: seq<string>, passed: Option<seq<string>>, names: Names):
    (values: seq<Option<int>>)
  {
    seq(|args|, i requires 0 <= i < |args| => if PassesObject(passed, i) then None else ValueOf(args[i], names))
  }

  /** A call that execution can enter: known, to be expanded, not active, of the right arity. */
  predicate Enterable(call: Node, functions: Functions, taskMode: bool, stack: set<string>)
    requires call.Call?
  {
    && call.callee in functions && Expands(taskMode, functions[call.callee]) && call.callee !in stack
    && ArityError(functions[call.callee], call).None?
  }

  /**
   * The steps of a node: loops run, calls bind parameters to the values of their arguments and run the callee's
   * body in its own scope, and calls that are left as they are make one step. Nothing if some index, endpoint,
   * argument of a call left as it is, or call to be entered has no meaning.
   */
  ghost function ExecNode(node: Node, functions: Functions, taskMode: bool, names: Names, objects: CallMapping,
                          stack: set<string>): (r: Option<seq<Hit>>)
    decreases functions.Keys - stack, node, 1
  {
    match node
    case Unknown(kind) => Some([Foreign(kind)])
    case Access(target, indices) =>
      if AllValues(indices, names) then Some([Hit(SubstitutedObject(target, objects), IndexValues(indices, names))])
      else None
    case Loop(_, start, bound, step, _) =>
      if EndpointIn(start, names).None? || EndpointIn(bound, names).None? || step == 0 then None
      else
        ExecWhile(node, functions, taskMode, names, objects, stack, EndpointIn(start, names).value,
                  EndpointIn(bound, names).value)
    case Call(callee, args, _) =>
      if Kept(node, functions, taskMode) then
        var passed := PassedObjects(node, objects);
        if AllPassed(args, passed, names) then Some([KeptCall(callee, PassedValues(args, passed, names), passed)])
        else None
      else if !Enterable(node, functions, taskMode, stack) then None
      else
        ExecBody(functions[callee].body, functions, taskMode,
            CalleeNames(functions[callee].params, args, |args|, names),
                 CalleeObjects(functions[callee], node, objects), stack + {callee})
  }

  ghost function ExecWhile(node: Node, functions: Functions, taskMode: bool, names: Names, objects: CallMapping,
                           stack: set<string>, value: int, bound: int): (r: Option<seq<Hit>>)
    requires node.Loop? && node.step != 0
    decreases functions.Keys - stack, node, 0, if node.step > 0 then bound - value else value - bound
  {
    if !Before(value, bound, node.step) then Some([])
    else
      Join(ExecBody(node.body, functions, taskMode, [(node.variable, Some(value))] + names, objects, stack),
           ExecWhile(node, functions, taskMode, names, objects, stack, value + node.step, bound))
  }

  ghost function ExecBody(body: seq<Node>, functions: Functions, taskMode: bool, names: Names, objects: CallMapping,
                          stack: set<string>): (r: Option<seq<Hit>>)
    decreases functions.Keys - stack, body, 1
  {
    if body == [] then Some([])
    else
      Join(ExecNode(body[0], functions, taskMode, names, objects, stack),
           ExecBody(body[1..], functions, taskMode, names, objects, stack))
  }

  // ----- more names, same meaning

  /** `more` knows everything that `less` knows. */
  ghost predicate Extends(less: Names, more: Names) {
    forall name :: Read(name, less).Some? ==> Read(name, more) == Read(name, less)
  }

  lemma {:induction false} SumSame(terms: map<string, int>, a: string -> int, b: string -> int)
    requires forall name :: name in terms ==> a(name) == b(name)
    ensures SumTerms(terms, a) == SumTerms(terms, b)
    decreases terms.Keys
  {
    if terms != map[] {
      var name :| name in terms;
      SumRemove(terms, name, a);
      SumRemove(terms, name, b);
      SumSame(terms - {name}, a, b);
    }
  }

  lemma ValueExtends(text: string, less: Names, more: Names)
    requires Extends(less, more) && ValueOf(text, less).Some?
    ensures ValueOf(text, more) == ValueOf(text, less)
  {
    hide ParseAffine, SumTerms, Read;
    SumSame(ParseAffine(text).value.terms, ValuesOf(less), ValuesOf(more));
  }

  lemma IndicesExtend(texts: seq<string>, less: Names, more: Names)
    requires Extends(less, more) && AllValues(texts, less)
    ensures AllValues(texts, more) && IndexValues(texts, more) == IndexValues(texts, less)
  {
    hide ValueOf, Extends;
    forall i | 0 <= i < |texts|
      ensures ValueOf(texts[i], more) == ValueOf(texts[i], less)
    {
      ValueExtends(texts[i], less, more);
    }
  }

  lemma EndpointExtends(endpoint: Endpoint, less: Names, more: Names)
    requires Extends(less, more) && EndpointIn(endpoint, less).Some?
    ensures EndpointIn(endpoint, more) == EndpointIn(endpoint, less)
  {
    hide ValueOf, Extends;
    if endpoint.Text? {
      ValueExtends(endpoint.text, less, more);
    }
  }

  /** Arguments with a value keep it, maybe in another spelling and scope. */
  ghost predicate ArgumentsKept(args: seq<string>, less: Names, actuals: seq<string>, more: Names) {
    |args| == |actuals|
    && forall i :: 0 <= i < |args| ==> ValueOf(args[i], less).Some? ==>
        ValueOf(actuals[i], more) == ValueOf(args[i], less)
  }

  lemma {:induction false} CalleeExtends(params: seq<string>, args: seq<string>, less: Names, actuals: seq<string>,
                                         more: Names, n: nat)
    requires n <= |params| && n <= |args| && ArgumentsKept(args, less, actuals, more)
    ensures Extends(CalleeNames(params, args, n, less), CalleeNames(params, actuals, n, more))
  {
    hide ValueOf, Extends;
    if n > 0 {
      CalleeExtends(params, args, less, actuals, more, n - 1);
      PushExtends((params[n - 1], ValueOf(args[n - 1], less)), (params[n - 1], ValueOf(actuals[n - 1], more)),
                  CalleeNames(params, args, n - 1, less), CalleeNames(params, actuals, n - 1, more));
    } else {
      NothingExtends();
    }
  }

  lemma NothingExtends()
    ensures Extends([], [])
  {
  }

  lemma ArgumentsExtend(args: seq<string>, less: Names, more: Names)
    requires Extends(less, more)
    ensures ArgumentsKept(args, less, args, more)
  {
    hide ValueOf, Extends;
    forall i | 0 <= i < |args| && ValueOf(args[i], less).Some?
      ensures ValueOf(args[i], more) == ValueOf(args[i], less)
    {
      ValueExtends(args[i], less, more);
    }
  }

  /** Arguments with kept values pass the same. */
  lemma PassedKept(args: seq<string>, less: Names, actuals: seq<string>, more: Names, passed: Option<seq<string>>)
    requires ArgumentsKept(args, less, actuals, more) && AllPassed(args, passed, less)
    ensures AllPassed(actuals, passed, more)
    ensures PassedValues(actuals, passed, more) == PassedValues(args, passed, less)
  {
    hide ValueOf, PassesObject;
  }

  lemma PushExtends(a: (string, Option<int>), b: (string, Option<int>), less: Names, more: Names)
    requires Extends(less, more) && a.0 == b.0 && (a.1.Some? ==> b == a)
    ensures Extends([a] + less, [b] + more)
  {
    assert ([a] + less)[1..] == less && ([b] + more)[1..] == more;
  }

  /** Knowing more names never changes what a program that has a meaning does. */
  lemma {:induction false} NodeExtends(node: Node, functions: Functions, taskMode: bool, less: Names, more: Names,
                                       objects: CallMapping, stack: set<string>)
    requires Extends(less, more) && ExecNode(node, functions, taskMode, less, objects, stack).Some?
    ensures ExecNode(node, functions, taskMode, more, objects, stack)
            == ExecNode(node, functions, taskMode, less, objects, stack)
    decreases functions.Keys - stack, node, 1
  {
    hide Extends, ValueOf, AllValues, IndexValues, EndpointIn, AllPassed, PassedValues, ArgumentsKept;
    match node
    case Unknown(_) =>
    case Access(_, indices) =>
      IndicesExtend(indices, less, more);
    case Loop(_, start, bound, _, _) =>
      EndpointExtends(start, less, more);
      EndpointExtends(bound, less, more);
      WhileExtends(node, functions, taskMode, less, more, objects, stack, EndpointIn(start, less).value,
                   EndpointIn(bound, less).value);
    case Call(callee, args, _) =>
      ArgumentsExtend(args, less, more);
      if Kept(node, functions, taskMode) {
        PassedKept(args, less, args, more, PassedObjects(node, objects));
      } else {
        var params := functions[callee].params;
        CalleeExtends(params, args, less, args, more, |args|);
        BodyExtends(functions[callee].body, functions, taskMode, CalleeNames(params, args, |args|, less),
                    CalleeNames(params, args, |args|, more), CalleeObjects(functions[callee], node, objects),
                    stack + {callee});
      }
  }

  lemma {:induction false} WhileExtends(node: Node, functions: Functions, taskMode: bool, less: Names, more: Names,
                                        objects: CallMapping, stack: set<string>, value: int, bound: int)
    requires node.Loop? && node.step != 0
    requires Extends(less, more) && ExecWhile(node, functions, taskMode, less, objects, stack, value, bound).Some?
    ensures ExecWhile(node, functions, taskMode, more, objects, stack, value, bound)
            == ExecWhile(node, functions, taskMode, less, objects, stack, value, bound)
    decreases functions.Keys - stack, node, 0, if node.step > 0 then bound - value else value - bound
  {
    hide Extends, ExecBody;
    if Before(value, bound, node.step) {
      var entry := (node.variable, Some(value));
      PushExtends(entry, entry, less, more);
      BodyExtends(node.body, functions, taskMode, [entry] + less, [entry] + more, objects, stack);
      WhileExtends(node, functions, taskMode, less, more, objects, stack, value + node.step, bound);
    }
  }

  lemma {:induction false} BodyExtends(body: seq<Node>, functions: Functions, taskMode: bool, less: Names, more: Names,
                                       objects: CallMapping, stack: set<string>)
    requires Extends(less, more) && ExecBody(body, functions, taskMode, less, objects, stack).Some?
    ensures ExecBody(body, functions, taskMode, more, objects, stack)
            == ExecBody(body, functions, taskMode, less, objects, stack)
    decreases functions.Keys - stack, body, 1
  {
    hide Extends, ExecNode;
    if body != [] {
      NodeExtends(body[0], functions, taskMode, less, more, objects, stack);
      BodyExtends(body[1..], functions, taskMode, less, more, objects, stack);
    }
  }
}
