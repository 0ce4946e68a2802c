/** The executor's walk of an expanded program is its call-by-value meaning, up to the first call left in it. */
module ExpandedTrace {
  import opened Machine
  import opened AffineTerms
  import opened AffineText
  import opened IndexBinding
  import opened IndexMeaning
  import opened LoopWork
  import opened TraceWalk
  import opened CallSubstitution
  import opened InlineExpansion
  import opened CallSemantics
  import opened ExpansionMeaning
  import opened ModuleHygiene

  /** The environment's bindings as known names. */
  function NamesOf(env: Environment): (names: Names) {
    seq(|env|, i requires 0 <= i < |env| => (env[i].0, Some(env[i].1)))
  }

  /** Every emitted index has a numeric value. */
  ghost predicate Numeric(events: seq<Event>) {
    forall i :: 0 <= i < |events| ==> events[i].Emit? ==>
      forall k :: 0 <= k < |events[i].emission.numbers| ==> events[i].emission.numbers[k].Some?
  }

  /** A walk with every index numeric that ran to its end or to a node that nobody runs. */
  ghost predicate Resolved(walk: Walk) {
    (walk.error.None? || walk.error == Some(UnknownType)) && Numeric(walk.events)
  }

  function HitOf(e: Emission): (h: Hit) {
    Hit(e.target, seq(|e.numbers|, k requires 0 <= k < |e.numbers| =>
      match e.numbers[k] case Some(v) => v case None => 0))
  }

  /** The accesses among the events. */
  function Hits(events: seq<Event>): (hits: seq<Hit>) {
    if events == [] then []
    else (match events[0] case Emit(emission) => [HitOf(emission)] case Enter(_) => []) + Hits(events[1..])
  }

  predicate AllAccesses(hits: seq<Hit>) {
    forall i :: 0 <= i < |hits| ==> hits[i].Hit?
  }

  /** The accesses before the first step that is none. */
  function Leading(hits: seq<Hit>): (r: seq<Hit>) {
    if hits == [] || !hits[0].Hit? then [] else [hits[0]] + Leading(hits[1..])
  }

  /**
   * A walk performs steps: exactly the accesses, up to the first call that was left or node of another type, which
   * it rejects; with every index numeric.
   */
  ghost predicate Performs(walk: Walk, hits: seq<Hit>) {
    && Numeric(walk.events) && Hits(walk.events) == Leading(hits)
    && walk.error == if AllAccesses(hits) then None else Some(UnknownType)
  }

  lemma {:induction false} LeadingAppend(a: seq<Hit>, b: seq<Hit>)
    ensures Leading(a + b) == if AllAccesses(a) then a + Leading(b) else Leading(a)
    ensures AllAccesses(a) ==> Leading(a) == a
  {
    if a == [] {
      assert a + b == b;
    } else {
      assert (a + b)[1..] == a[1..] + b && (a + b)[0] == a[0];
      LeadingAppend(a[1..], b);
      FirstAccess(a);
      hide AllAccesses;
      assert [a[0]] + (a[1..] + Leading(b)) == a + Leading(b);
    }
  }

  lemma FirstAccess(hits: seq<Hit>)
    requires hits != []
    ensures AllAccesses(hits) <==> hits[0].Hit? && AllAccesses(hits[1..])
  {
    assert hits == [hits[0]] + hits[1..];
  }

  /** One walk after another performs one sequence of steps after the other. */
  lemma PerformsSeq(first: Walk, second: Walk, a: seq<Hit>, b: seq<Hit>)
    requires Performs(first, a) && (first.error.None? ==> Performs(second, b))
    ensures Performs(Seq(first, second), a + b)
  {
    hide Hits, Leading;
    LeadingAppend(a, b);
    if first.error.None? {
      HitsAppend(first.events, second.events);
      NumericJoin(first.events, second.events);
      assert AllAccesses(a + b) <==> AllAccesses(b) by {
        assert forall i :: 0 <= i < |b| ==> b[i] == (a + b)[|a| + i];
      }
    } else {
      assert !AllAccesses(a + b) by {
        var i :| 0 <= i < |a| && !a[i].Hit?;
        assert !(a + b)[i].Hit?;
      }
    }
  }

  lemma NumericJoin(a: seq<Event>, b: seq<Event>)
    requires Numeric(a) && Numeric(b)
    ensures Numeric(a + b)
  {
    var all := a + b;
    forall i | 0 <= i < |all| && all[i].Emit?
      ensures forall k :: 0 <= k < |all[i].emission.numbers| ==> all[i].emission.numbers[k].Some?
    {
      assert all[i] == if i < |a| then a[i] else b[i - |a|];
    }
  }

  /** The loop variables of a node are identifiers. */
  predicate LoopsNamed(node: Node)
    decreases node
  {
    node.Loop? ==> Identifier(node.variable) && forall i :: 0 <= i < |node.body| ==> LoopsNamed(node.body[i])
  }

  lemma {:induction false} HitsAppend(a: seq<Event>, b: seq<Event>)
    ensures Hits(a + b) == Hits(a) + Hits(b)
  {
    hide HitOf;
    if a == [] {
      assert a + b == b;
    } else {
      assert (a + b)[1..] == a[1..] + b && (a + b)[0] == a[0];
      HitsAppend(a[1..], b);
    }
  }

  lemma NumericParts(a: seq<Event>, b: seq<Event>)
    requires Numeric(a + b)
    ensures Numeric(a) && Numeric(b)
  {
    forall i | 0 <= i < |a| && a[i].Emit?
      ensures forall k :: 0 <= k < |a[i].emission.numbers| ==> a[i].emission.numbers[k].Some?
    {
      assert (a + b)[i] == a[i];
    }
    forall i | 0 <= i < |b| && b[i].Emit?
      ensures forall k :: 0 <= k < |b[i].emission.numbers| ==> b[i].emission.numbers[k].Some?
    {
      assert (a + b)[|a| + i] == b[i];
    }
  }

  lemma ResolvedSeq(first: Walk, second: Walk)
    requires Resolved(Seq(first, second))
    ensures Resolved(first) && (first.error.None? ==> Resolved(second))
  {
    hide Numeric, Hits;
    if first.error.None? {
      NumericParts(first.events, second.events);
    }
  }

  // ----- values

  lemma {:induction false} ReadIsLookup(name: string, env: Environment)
    ensures CallSemantics.Read(name, NamesOf(env)) == Lookup(name, env)
  {
    if env != [] {
      assert NamesOf(env)[1..] == NamesOf(env[1..]);
      ReadIsLookup(name, env[1..]);
    }
  }

  lemma NamesPush(variable: string, value: int, env: Environment)
    ensures NamesOf([(variable, value)] + env) == [(variable, Some(value))] + NamesOf(env)
  {
  }

  /** A text with a meaning evaluates to it, if it evaluates at all. */
  lemma TextAgrees(text: string, env: Environment)
    requires BindsIdentifiers(env) && EnvIsI64(env)
    requires ValueOf(text, NamesOf(env)).Some? && EvalText(text, env).Some?
    ensures EvalText(text, env) == ValueOf(text, NamesOf(env))
  {
    hide ParseAffine, EvalText, BindsIdentifiers, EnvIsI64, SumTerms, Lookup, CallSemantics.Read;
    var e := ParseAffine(text).value;
    forall name | name in e.terms
      ensures Lookup(name, env).Some? && Values(env)(name) == ValuesOf(NamesOf(env))(name)
    {
      ReadIsLookup(name, env);
    }
    SumSame(e.terms, Values(env), ValuesOf(NamesOf(env)));
    EvalTextIsExact(text, env);
  }

  lemma AccessAgrees(target: string, indices: seq<string>, env: Environment)
    requires BindsIdentifiers(env) && EnvIsI64(env) && AllValues(indices, NamesOf(env))
    requires Resolved(Walk([Emit(EmissionOf(target, indices, env))], None))
    ensures HitOf(EmissionOf(target, indices, env)) == Hit(target, IndexValues(indices, NamesOf(env)))
  {
    hide ValueOf, EvalText, EvalSpelling, BindsIdentifiers, EnvIsI64;
    var event := Emit(EmissionOf(target, indices, env));
    assert [event][0] == event;
    forall i | 0 <= i < |indices|
      ensures EvalText(indices[i], env) == ValueOf(indices[i], NamesOf(env))
    {
      assert event.emission.numbers[i] == EvalText(indices[i], env);
      TextAgrees(indices[i], env);
    }
  }

  lemma EndpointAgrees(endpoint: Endpoint, env: Environment)
    requires BindsIdentifiers(env) && EnvIsI64(env)
    requires EndpointIn(endpoint, NamesOf(env)).Some? && EndpointValue(endpoint, env).Some?
    ensures EndpointValue(endpoint, env) == EndpointIn(endpoint, NamesOf(env))
  {
    hide ValueOf, EvalText;
    if endpoint.Text? {
      TextAgrees(endpoint.text, env);
    }
  }

  // ----- programs

  /** A numeric walk of a node performs exactly the steps of its meaning. */
  lemma {:induction false} NodeWalks(node: Node, functions: Functions, taskMode: bool, env: Environment)
    requires BindsIdentifiers(env) && EnvIsI64(env) && LoopsNamed(node)
    requires Resolved(WalkNode(node, env)) && RunNode(node, functions, taskMode, NamesOf(env)).Some?
    ensures Performs(WalkNode(node, env), RunNode(node, functions, taskMode, NamesOf(env)).value)
    decreases node, 2
  {
    hide BindsIdentifiers, EnvIsI64, AllValues, IndexValues, EndpointIn, EndpointValue, Resolved, WalkWhile,
        ExecWhile, NamesOf, Performs, AllPassed, PassedValues;
    match node
    case Unknown(kind) =>
      StopsAt(Foreign(kind));
    case Call(callee, args, _) =>
      StopsAt(RunNode(node, functions, taskMode, NamesOf(env)).value[0]);
    case Access(target, indices) =>
      AccessAgrees(target, indices, env);
      OneHit(EmissionOf(target, indices, env));
      NothingSubstituted(target);
    case Loop(_, start, bound, step, _) =>
      LoopResolved(node, env);
      EndpointAgrees(start, env);
      EndpointAgrees(bound, env);
      var first, end := EndpointIn(start, NamesOf(env)).value, EndpointIn(bound, NamesOf(env)).value;
      WhileWalks(node, functions, taskMode, env, first, end);
      EntryPerforms(LoopIterationCount(first, end, step).value);
      var hits := RunNode(node, functions, taskMode, NamesOf(env)).value;
      PerformsSeq(Walk([Enter(LoopIterationCount(first, end, step).value)], None), WalkWhile(node, env, first, end),
                  [], hits);
      assert [] + hits == hits;
  }

  /** Nothing is performed before a step that is no access. */
  lemma StopsAt(hit: Hit)
    requires !hit.Hit?
    ensures Performs(Walk([], Some(UnknownType)), [hit])
  {
    assert ![hit][0].Hit?;
  }

  lemma EntryPerforms(count: nat)
    ensures Performs(Walk([Enter(count)], None), []) && Performs(SILENT, [])
  {
    var events := [Enter(count)];
    assert events[1..] == [] && Hits(events) == [] + Hits(events[1..]);
  }

  lemma OneHit(emission: Emission)
    requires Resolved(Walk([Emit(emission)], None))
    ensures Performs(Walk([Emit(emission)], None), [HitOf(emission)])
  {
    assert [Emit(emission)][0] == Emit(emission) && Hits([Emit(emission)][1..]) == [];
    assert [HitOf(emission)][0] == HitOf(emission) && Leading([HitOf(emission)][1..]) == [];
  }

  lemma NothingSubstituted(target: string)
    ensures SubstitutedObject(target, map[]) == target
  {
  }

  lemma LoopResolved(node: Node, env: Environment)
    requires node.Loop? && Resolved(WalkNode(node, env))
    ensures EndpointValue(node.start, env).Some? && EndpointValue(node.bound, env).Some? && node.step != 0
    ensures Resolved(WalkWhile(node, env, EndpointValue(node.start, env).value, EndpointValue(node.bound, env).value))
  {
    hide EndpointValue, WalkWhile;
    var first, end := EndpointValue(node.start, env).value, EndpointValue(node.bound, env).value;
    ResolvedSeq(Walk([Enter(LoopIterationCount(first, end, node.step).value)], None), WalkWhile(node, env, first, end));
  }

  /** The meaning of the iterations from a value on. */
  ghost function RunWhile(node: Node, functions: Functions, taskMode: bool, names: Names, value: int, bound: int):
    (r: Option<seq<Hit>>)
    requires node.Loop? && node.step != 0
  {
    ExecWhile(node, functions, taskMode, names, map[], functions.Keys, value, bound)
  }

  lemma {:induction false} WhileWalks(node: Node, functions: Functions, taskMode: bool, env: Environment, value: int,
                                      bound: int)
    requires BindsIdentifiers(env) && EnvIsI64(env) && LoopsNamed(node) && node.Loop? && node.step != 0
    requires IsI64(bound) && Resolved(WalkWhile(node, env, value, bound))
    requires Before(value, bound, node.step) ==> IsI64(value)
    requires RunWhile(node, functions, taskMode, NamesOf(env), value, bound).Some?
    ensures Performs(WalkWhile(node, env, value, bound),
                     RunWhile(node, functions, taskMode, NamesOf(env), value, bound).value)
    decreases node, 1, if node.step > 0 then bound - value else value - bound
  {
    hide BindsIdentifiers, EnvIsI64, Resolved, WalkBody, ExecBody, NamesOf, Performs;
    EntryPerforms(0);
    if Before(value, bound, node.step) {
      var inner := [(node.variable, value)] + env;
      ResolvedSeq(WalkBody(node, inner, 0), WalkWhile(node, env, value + node.step, bound));
      NamesPush(node.variable, value, env);
      PushedNames(node.variable, value, env);
      BodyWalks(node, functions, taskMode, inner, 0);
      assert node.body[0..] == node.body;
      if WalkBody(node, inner, 0).error.None? {
        WhileWalks(node, functions, taskMode, env, value + node.step, bound);
      }
      PerformsSeq(WalkBody(node, inner, 0), WalkWhile(node, env, value + node.step, bound),
                  RunBody(node.body, functions, taskMode, NamesOf(inner)).value,
                  RunWhile(node, functions, taskMode, NamesOf(env), value + node.step, bound).value);
    }
  }

  lemma PushedNames(variable: string, value: int, env: Environment)
    requires BindsIdentifiers(env) && EnvIsI64(env) && Identifier(variable) && IsI64(value)
    ensures BindsIdentifiers([(variable, value)] + env) && EnvIsI64([(variable, value)] + env)
  {
  }

  lemma {:induction false} BodyWalks(node: Node, functions: Functions, taskMode: bool, env: Environment, i: nat)
    requires BindsIdentifiers(env) && EnvIsI64(env) && LoopsNamed(node) && node.Loop? && i <= |node.body|
    requires Resolved(WalkBody(node, env, i)) && RunBody(node.body[i..], functions, taskMode, NamesOf(env)).Some?
    ensures Performs(WalkBody(node, env, i), RunBody(node.body[i..], functions, taskMode, NamesOf(env)).value)
    decreases node, 0, |node.body| - i
  {
    hide BindsIdentifiers, EnvIsI64, Resolved, WalkNode, ExecNode, NamesOf, Performs;
    EntryPerforms(0);
    if i < |node.body| {
      ResolvedSeq(WalkNode(node.body[i], env), WalkBody(node, env, i + 1));
      assert node.body[i..][1..] == node.body[i + 1..];
      NodeWalks(node.body[i], functions, taskMode, env);
      if WalkNode(node.body[i], env).error.None? {
        BodyWalks(node, functions, taskMode, env, i + 1);
      }
      PerformsSeq(WalkNode(node.body[i], env), WalkBody(node, env, i + 1),
                  RunNode(node.body[i], functions, taskMode, NamesOf(env)).value,
                  RunBody(node.body[i + 1..], functions, taskMode, NamesOf(env)).value);
    }
  }

  // ----- a whole root

  /** The traversals of a root's nodes, one after another. */
  ghost function WalkRoot(body: seq<Node>): (w: Walk) {
    if body == [] then SILENT else Seq(WalkNode(body[0], []), WalkRoot(body[1..]))
  }

  lemma {:induction false} RootWalks(body: seq<Node>, functions: Functions, taskMode: bool)
    requires BodyNamed(body) && Resolved(WalkRoot(body)) && RunBody(body, functions, taskMode, []).Some?
    ensures Performs(WalkRoot(body), RunBody(body, functions, taskMode, []).value)
  {
    hide Resolved, WalkNode, ExecNode, LoopsNamed, Performs;
    EntryPerforms(0);
    if body != [] {
      ResolvedSeq(WalkNode(body[0], []), WalkRoot(body[1..]));
      assert NamesOf([]) == [];
      NodeWalks(body[0], functions, taskMode, []);
      if WalkNode(body[0], []).error.None? {
        RootWalks(body[1..], functions, taskMode);
      }
      PerformsSeq(WalkNode(body[0], []), WalkRoot(body[1..]), RunNode(body[0], functions, taskMode, []).value,
                  RunBody(body[1..], functions, taskMode, []).value);
    }
  }

  // ----- no value is lost

  /** No index or endpoint text of a node can lose its value in a partial sum. */
  ghost predicate KeepsValues(node: Node)
    decreases node
  {
    match node
    case Access(_, indices) => forall i :: 0 <= i < |indices| ==> NeverLost(indices[i])
    case Loop(_, start, bound, _, body) =>
      && (start.Text? ==> NeverLost(start.text)) && (bound.Text? ==> NeverLost(bound.text))
      && forall i :: 0 <= i < |body| ==> KeepsValues(body[i])
    case Call(_, _, _) => true
    case Unknown(_) => true
  }

  /** A text with a meaning that cannot be lost evaluates to it. */
  lemma TextResolves(text: string, env: Environment)
    requires BindsIdentifiers(env) && EnvIsI64(env) && NeverLost(text) && ValueOf(text, NamesOf(env)).Some?
    ensures EvalText(text, env) == ValueOf(text, NamesOf(env))
  {
    hide ParseAffine, EvalText, BindsIdentifiers, EnvIsI64, SumTerms, Lookup, CallSemantics.Read, FitsWide;
    var e := ParseAffine(text).value;
    forall name | name in e.terms
      ensures Lookup(name, env).Some? && Values(env)(name) == ValuesOf(NamesOf(env))(name)
    {
      ReadIsLookup(name, env);
    }
    SumSame(e.terms, Values(env), ValuesOf(NamesOf(env)));
    assert BindsAll(e, env);
    EvalTextIsExact(text, env);
  }

  lemma AccessResolves(target: string, indices: seq<string>, env: Environment)
    requires BindsIdentifiers(env) && EnvIsI64(env) && AllValues(indices, NamesOf(env))
    requires forall i :: 0 <= i < |indices| ==> NeverLost(indices[i])
    ensures Resolved(Walk([Emit(EmissionOf(target, indices, env))], None))
  {
    hide ValueOf, EvalText, EvalSpelling, BindsIdentifiers, EnvIsI64, NeverLost;
    forall i | 0 <= i < |indices|
      ensures EvalText(indices[i], env).Some?
    {
      TextResolves(indices[i], env);
    }
  }

  lemma EndpointResolves(endpoint: Endpoint, env: Environment)
    requires BindsIdentifiers(env) && EnvIsI64(env) && EndpointIn(endpoint, NamesOf(env)).Some?
    requires endpoint.Text? ==> NeverLost(endpoint.text)
    ensures EndpointValue(endpoint, env) == EndpointIn(endpoint, NamesOf(env))
  {
    hide ValueOf, EvalText, NeverLost;
    if endpoint.Text? {
      TextResolves(endpoint.text, env);
    }
  }

  lemma ResolvedJoin(first: Walk, second: Walk)
    requires Resolved(first) && Resolved(second)
    ensures Resolved(Seq(first, second))
  {
    var all := first.events + second.events;
    forall i | 0 <= i < |all| && all[i].Emit?
      ensures forall k :: 0 <= k < |all[i].emission.numbers| ==> all[i].emission.numbers[k].Some?
    {
      assert all[i] == if i < |first.events| then first.events[i] else second.events[i - |first.events|];
    }
  }

  /**
   * The walk of a node with a meaning runs to its end, or to a node that nobody runs, with every index numeric, when
   * no value can be lost.
   */
  lemma {:induction false} NodeResolves(node: Node, functions: Functions, taskMode: bool, env: Environment)
    requires BindsIdentifiers(env) && EnvIsI64(env) && LoopsNamed(node) && KeepsValues(node)
    requires RunNode(node, functions, taskMode, NamesOf(env)).Some?
    ensures Resolved(WalkNode(node, env))
    decreases node, 2
  {
    hide BindsIdentifiers, EnvIsI64, EndpointIn, EndpointValue, Resolved, WalkWhile, ExecWhile, NamesOf, NeverLost,
        AllValues, IndexValues;
    EntryResolves(0);
    match node
    case Unknown(_) =>
    case Call(_, _, _) =>
    case Access(target, indices) =>
      AccessResolves(target, indices, env);
    case Loop(_, start, bound, step, _) =>
      EndpointResolves(start, env);
      EndpointResolves(bound, env);
      var first, end := EndpointValue(start, env).value, EndpointValue(bound, env).value;
      WhileResolves(node, functions, taskMode, env, first, end);
      EntryResolves(LoopIterationCount(first, end, step).value);
      ResolvedJoin(Walk([Enter(LoopIterationCount(first, end, step).value)], None), WalkWhile(node, env, first, end));
  }

  lemma EntryResolves(count: nat)
    ensures Resolved(Walk([Enter(count)], None)) && Resolved(SILENT) && Resolved(Walk([], Some(UnknownType)))
  {
  }

  lemma {:induction false} WhileResolves(node: Node, functions: Functions, taskMode: bool, env: Environment, value: int,
                                         bound: int)
    requires BindsIdentifiers(env) && EnvIsI64(env) && LoopsNamed(node) && KeepsValues(node)
    requires node.Loop? && node.step != 0 && IsI64(bound)
    requires Before(value, bound, node.step) ==> IsI64(value)
    requires RunWhile(node, functions, taskMode, NamesOf(env), value, bound).Some?
    ensures Resolved(WalkWhile(node, env, value, bound))
    decreases node, 1, if node.step > 0 then bound - value else value - bound
  {
    hide BindsIdentifiers, EnvIsI64, Resolved, WalkBody, ExecBody, NamesOf, NeverLost;
    EntryResolves(0);
    if Before(value, bound, node.step) {
      var inner := [(node.variable, value)] + env;
      NamesPush(node.variable, value, env);
      PushedNames(node.variable, value, env);
      assert node.body[0..] == node.body;
      BodyResolves(node, functions, taskMode, inner, 0);
      WhileResolves(node, functions, taskMode, env, value + node.step, bound);
      ResolvedJoin(WalkBody(node, inner, 0), WalkWhile(node, env, value + node.step, bound));
    }
  }

  lemma {:induction false} BodyResolves(node: Node, functions: Functions, taskMode: bool, env: Environment, i: nat)
    requires BindsIdentifiers(env) && EnvIsI64(env) && LoopsNamed(node) && KeepsValues(node)
    requires node.Loop? && i <= |node.body|
    requires RunBody(node.body[i..], functions, taskMode, NamesOf(env)).Some?
    ensures Resolved(WalkBody(node, env, i))
    decreases node, 0, |node.body| - i
  {
    hide BindsIdentifiers, EnvIsI64, Resolved, WalkNode, ExecNode, NamesOf, NeverLost;
    EntryResolves(0);
    if i < |node.body| {
      assert node.body[i..][1..] == node.body[i + 1..];
      NodeResolves(node.body[i], functions, taskMode, env);
      BodyResolves(node, functions, taskMode, env, i + 1);
      ResolvedJoin(WalkNode(node.body[i], env), WalkBody(node, env, i + 1));
    }
  }

  lemma {:induction false} RootResolves(body: seq<Node>, functions: Functions, taskMode: bool)
    requires BodyNamed(body) && RunBody(body, functions, taskMode, []).Some?
    requires forall i :: 0 <= i < |body| ==> KeepsValues(body[i])
    ensures Resolved(WalkRoot(body))
  {
    hide Resolved, WalkNode, ExecNode, LoopsNamed, KeepsValues;
    EntryResolves(0);
    if body != [] {
      assert NamesOf([]) == [];
      NodeResolves(body[0], functions, taskMode, []);
      RootResolves(body[1..], functions, taskMode);
      ResolvedJoin(WalkNode(body[0], []), WalkRoot(body[1..]));
    }
  }

  // ----- expansion keeps loop variables

  predicate BodyNamed(body: seq<Node>) {
    forall i :: 0 <= i < |body| ==> LoopsNamed(body[i])
  }

  predicate FunctionsNamed(functions: Functions) {
    forall f :: f in functions ==> BodyNamed(functions[f].body)
  }

  lemma {:induction false} SubstitutedNamed(node: Node, mapping: CallMapping, objects: CallMapping)
    requires LoopsNamed(node)
    ensures LoopsNamed(SubstitutedNode(node, mapping, objects))
    decreases node
  {
    if node.Loop? {
      forall i | 0 <= i < |node.body|
        ensures LoopsNamed(SubstitutedNode(node.body[i], mapping, objects))
      {
        SubstitutedNamed(node.body[i], mapping, objects);
      }
    }
  }

  lemma {:induction false} ExpandedNamed(node: Node, functions: Functions, taskMode: bool, stack: set<string>,
                                         depth: nat)
    requires LoopsNamed(node) && FunctionsNamed(functions)
    requires ExpandNode(node, functions, taskMode, stack, depth).error.None?
    ensures BodyNamed(ExpandNode(node, functions, taskMode, stack, depth).nodes)
    decreases functions.Keys - stack, node, 1
  {
    hide ExpandBody, ArityError;
    match node
    case Access(_, _) =>
    case Unknown(_) =>
    case Loop(_, _, _, _, body) =>
      ExpandedBodyNamed(body, functions, taskMode, stack, depth);
    case Call(callee, _, _) =>
      if Expands(taskMode, functions[callee]) {
        var f := functions[callee];
        forall i | 0 <= i < |f.body|
          ensures LoopsNamed(SubstitutedNode(f.body[i], NameBindings(f, node), ObjectBindings(f, node)))
        {
          SubstitutedNamed(f.body[i], NameBindings(f, node), ObjectBindings(f, node));
        }
        ExpandedBodyNamed(CalleeBody(f, node), functions, taskMode, stack + {callee}, depth + 1);
        var inner := ExpandBody(CalleeBody(f, node), functions, taskMode, stack + {callee}, depth + 1);
        assert [] + inner.nodes == inner.nodes;
      }
  }

  lemma {:induction false} ExpandedBodyNamed(body: seq<Node>, functions: Functions, taskMode: bool,
                                             stack: set<string>, depth: nat)
    requires BodyNamed(body) && FunctionsNamed(functions)
    requires ExpandBody(body, functions, taskMode, stack, depth).error.None?
    ensures BodyNamed(ExpandBody(body, functions, taskMode, stack, depth).nodes)
    decreases functions.Keys - stack, body, 1
  {
    hide ExpandNode, LoopsNamed;
    if body != [] {
      ExpandedNamed(body[0], functions, taskMode, stack, depth);
      ExpandedBodyNamed(body[1..], functions, taskMode, stack, depth);
    }
  }

  /**
   * End to end: when every call that the expansion of a root enters is hygienic, executing the expansion performs,
   * with every index numeric, exactly the accesses of the root with call-by-value parameters, whenever these are
   * defined: to the end if the root makes no other step, and otherwise up to its first call that is not entered or
   * node of another type, where execution stops with an error. It takes loop variables of the expansion that are
   * identifiers, as those of the functions make them (`ExpandedBodyNamed`), and texts that cannot lose a value in a
   * partial sum, as texts over at most four names cannot (`FourNamesNeverLost`).
   */
  lemma ExecutedExpansion(root: string, functions: Functions, taskMode: bool)
    requires root in functions && HygienicNodes(functions[root].body, functions, taskMode, {root})
    requires ExpandBody(functions[root].body, functions, taskMode, {root}, 0).error.None?
    requires ExecBody(functions[root].body, functions, taskMode, [], map[], {root}).Some?
    requires var expanded := ExpandBody(functions[root].body, functions, taskMode, {root}, 0).nodes;
             BodyNamed(expanded) && forall i :: 0 <= i < |expanded| ==> KeepsValues(expanded[i])
    ensures var walk := WalkRoot(ExpandBody(functions[root].body, functions, taskMode, {root}, 0).nodes);
            Performs(walk, ExecBody(functions[root].body, functions, taskMode, [], map[], {root}).value)
  {
    hide HygienicNodes, ExpandBody, ExecBody, Resolved, RunBody, WalkRoot, LoopsNamed, KeepsValues, Performs;
    RootExpansion(root, functions, taskMode, []);
    RootResolves(ExpandBody(functions[root].body, functions, taskMode, {root}, 0).nodes, functions, taskMode);
    RootWalks(ExpandBody(functions[root].body, functions, taskMode, {root}, 0).nodes, functions, taskMode);
  }
}
