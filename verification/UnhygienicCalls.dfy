/** Modules outside the scoping discipline, on which inline expansion changes the meaning. */
module UnhygienicCalls {
  import opened Machine
  import opened AffineTerms
  import opened AffineText
  import opened AffineFormat
  import opened TraceWalk
  import opened CallSubstitution
  import opened InlineExpansion
  import opened CallSemantics
  import opened SubstitutionMeaning
  import opened ExpansionMeaning
  import ModuleHygiene
  import NameOrder

  /** `for i in [start, start + 1) { f(argument) }` */
  ghost function CallerOf(start: Int64, argument: string): (node: Node)
    requires IsI64(start + 1)
  {
    Loop("i", Number(start), Number(start + 1), 1, [Call("f", [argument], None)])
  }

  /** `for i in [5, 6) { f(i) }` */
  const CALLER: Node := Loop("i", Number(5), Number(6), 1, [Call("f", ["i"], None)])

  /** `f(p) { for i in [0, 1) A[p] }`: its loop variable occurs in the actual. */
  const CAPTURING: Function := Function(["p"], [Loop("i", Number(0), Number(1), 1, [Access("A", ["p"])])], true)

  /** `f(p) { for j in [4, p) A[j] }`: its loop endpoint mentions the parameter. */
  const BOUNDED: Function := Function(["p"], [Loop("j", Number(4), Text("p"), 1, [Access("A", ["j"])])], true)

  /** `f(p) { for p in [0, 1) A[p] }`: its loop rebinds the parameter. */
  const REBINDING: Function := Function(["p"], [Loop("p", Number(0), Number(1), 1, [Access("A", ["p"])])], true)

  /** The expression of one name with a coefficient. */
  function Scaled(coefficient: int, name: string): (e: Affine) {
    Affine(0, map[name := coefficient])
  }

  /** `9223372036854775807*p` */
  ghost function LargeIndex(): (text: string) {
    FormatAffine(Scaled(I64_MAX, "p"))
  }

  /** `f(p) { for j in [0, 1) A[9223372036854775807*p] }`: the index overflows when `p` is replaced by `2*i`. */
  ghost function Scaling(): (f: Function) {
    Function(["p"], [Loop("j", Number(0), Number(1), 1, [Access("A", [LargeIndex()])])], true)
  }

  lemma IdentifierValue(name: string, names: Names)
    requires Identifier(name) && (Read(name, names).Some? ==> IsI64(Read(name, names).value))
    ensures ValueOf(name, names) == Read(name, names)
  {
    hide ParseAffine, SumTerms, Read;
    IdentifierParse(name);
    NameValue(name, names);
  }

  /** A loop that runs exactly once runs its body once. */
  lemma OneTurn(node: Node, functions: Functions, names: Names, objects: CallMapping, stack: set<string>, start: Int64)
    requires node.Loop? && node.step == 1 && node.start == Number(start)
    requires EndpointIn(node.bound, names) == Some(start + 1)
    ensures var body := ExecBody(node.body, functions, false, [(node.variable, Some(start))] + names, objects, stack);
            ExecNode(node, functions, false, names, objects, stack) == body
  {
    hide ExecBody;
    var body := ExecBody(node.body, functions, false, [(node.variable, Some(start))] + names, objects, stack);
    assert ExecWhile(node, functions, false, names, objects, stack, start + 1, start + 1) == Some([]);
    if body.Some? {
      assert body.value + [] == body.value;
    }
  }

  lemma OneNode(node: Node, functions: Functions, names: Names, objects: CallMapping, stack: set<string>)
    ensures ExecBody([node], functions, false, names, objects, stack) == ExecNode(node, functions, false, names,
            objects, stack)
  {
    hide ExecNode;
    assert [node][0] == node && ExecBody([node][1..], functions, false, names, objects, stack) == Some([]);
    var hits := ExecNode(node, functions, false, names, objects, stack);
    if hits.Some? {
      assert hits.value + [] == hits.value;
    }
  }

  lemma OneAccess(target: string, index: string, functions: Functions, names: Names, stack: set<string>, value: int)
    requires Identifier(index) && Read(index, names) == Some(value) && IsI64(value)
    ensures ExecNode(Access(target, [index]), functions, false, names, map[], stack) == Some([Hit(target, [value])])
  {
    hide ParseAffine, SumTerms, Read;
    IdentifierValue(index, names);
    OneIndex(target, index, functions, names, stack, value);
  }

  lemma OneIndex(target: string, index: string, functions: Functions, names: Names, stack: set<string>, value: int)
    requires ValueOf(index, names) == Some(value)
    ensures ExecNode(Access(target, [index]), functions, false, names, map[], stack) == Some([Hit(target, [value])])
  {
    hide ValueOf;
    assert IndexValues([index], names) == [value];
  }

  lemma CallRuns(f: Function, names: Names, argument: string, value: int)
    requires f.params == ["p"] && ValueOf(argument, names) == Some(value)
    ensures ExecNode(Call("f", [argument], None), map["f" := f], false, names, map[], {})
            == ExecBody(f.body, map["f" := f], false, [("p", Some(value))], map[], {"f"})
  {
    hide ValueOf, ExecBody;
    var call, functions := Call("f", [argument], None), map["f" := f];
    assert CalleeNames(["p"], [argument], 0, names) == [];
    assert CalleeNames(["p"], [argument], 1, names) == [("p", Some(value))];
    assert {} + {"f"} == {"f"};
    assert Enterable(call, functions, false, {});
    assert CalleeObjects(f, call, map[]) == map[];
  }

  lemma CallExpands(f: Function, node: Node, start: Int64, argument: string)
    requires f.params == ["p"] && f.body == [node] && node.Loop? && |node.body| == 1 && node.body[0].Access?
    requires IsI64(start + 1)
    ensures var caller := CallerOf(start, argument);
            var inner := Access(node.body[0].target, SubstitutedNames(node.body[0].indices, map["p" := argument]));
            ExpandNode(caller, map["f" := f], false, {}, 0)
            == Expansion([caller.(body := [node.(body := [inner])])],
                         [EnterCall(1), KeepNode, KeepNode, KeepNode], None)
  {
    hide SubstitutedName;
    var call, functions := Call("f", [argument], None), map["f" := f];
    var mapping: CallMapping := map["p" := argument];
    assert BindUpTo(["p"], [argument], 0) == map[];
    assert NameBindings(f, call) == mapping;
    assert ObjectBindings(f, call) == map[];
    var inner := Access(node.body[0].target, SubstitutedNames(node.body[0].indices, mapping));
    OneSubstituted(node.body[0], mapping);
    OneSubstituted(node, mapping);
    assert node.body == [node.body[0]];
    var loop := node.(body := [inner]);
    assert CalleeBody(f, call) == [loop];
    OneExpanded(inner, functions, {"f"}, 1);
    OneExpanded(loop, functions, {"f"}, 1);
    var kept := Expansion([loop], [KeepNode, KeepNode], None);
    assert ExpandBody([loop], functions, false, {"f"}, 1) == kept;
    assert {} + {"f"} == {"f"};
    assert ExpandNode(call, functions, false, {}, 0) == Then(Expansion([], [EnterCall(1)], None), kept);
    assert [] + kept.nodes == kept.nodes;
    OneExpanded(call, functions, {}, 0);
  }

  lemma OneSubstituted(node: Node, mapping: CallMapping)
    ensures SubstitutedBody([node], mapping, map[]) == [SubstitutedNode(node, mapping, map[])]
  {
    assert [node][1..] == [];
  }

  lemma OneExpanded(node: Node, functions: Functions, stack: set<string>, depth: nat)
    ensures ExpandBody([node], functions, false, stack, depth) == ExpandNode(node, functions, false, stack, depth)
  {
    hide ExpandNode;
    assert [node][0] == node && ExpandBody([node][1..], functions, false, stack, depth) == Expansion([], [], None);
    var e := ExpandNode(node, functions, false, stack, depth);
    assert e.nodes + [] == e.nodes && e.charges + [] == e.charges;
  }

  /** By value the caller makes some steps; its expansion succeeds and makes other ones, or has no meaning. */
  ghost predicate Turns(functions: Functions, caller: Node, steps: seq<Hit>, expanded: Option<seq<Hit>>) {
    && ExecNode(caller, functions, false, [], map[], {}) == Some(steps)
    && ExpandNode(caller, functions, false, {}, 0).error.None?
    && RunBody(ExpandNode(caller, functions, false, {}, 0).nodes, functions, false, []) == expanded
  }

  /** Capture: by value the call accesses `A[5]`; the expansion accesses `A[0]` instead. */
  lemma CapturedActual()
    ensures Turns(map["f" := CAPTURING], CALLER, [Hit("A", [5])], Some([Hit("A", [0])]))
  {
    hide ParseAffine, ExecNode, ExecBody, ExpandNode, RunBody, SubstitutedName;
    var functions, call := map["f" := CAPTURING], CALLER.body[0];
    var names: Names := [("i", Some(5))] + [];
    OneTurn(CALLER, functions, [], map[], {}, 5);
    OneNode(call, functions, names, map[], {});
    IdentifierValue("i", names);
    CallRuns(CAPTURING, names, "i", 5);
    var loop := CAPTURING.body[0];
    OneNode(loop, functions, [("p", Some(5))], map[], {"f"});
    OneTurn(loop, functions, [("p", Some(5))], map[], {"f"}, 0);
    var inside: Names := [("i", Some(0))] + [("p", Some(5))];
    OneNode(loop.body[0], functions, inside, map[], {"f"});
    OneAccess("A", "p", functions, inside, {"f"}, 5);

    CallExpands(CAPTURING, loop, 5, "i");
    FormalReplaced();
    assert SubstitutedNames(["p"], map["p" := "i"]) == ["i"];
    var captured := loop.(body := [Access("A", ["i"])]);
    var expanded := CALLER.(body := [captured]);
    RunOne(expanded, functions, false, []);
    OneTurn(expanded, functions, [], map[], functions.Keys, 5);
    OneNode(captured, functions, names, map[], functions.Keys);
    OneTurn(captured, functions, names, map[], functions.Keys, 0);
    var clobbered: Names := [("i", Some(0))] + names;
    OneNode(captured.body[0], functions, clobbered, map[], functions.Keys);
    OneAccess("A", "i", functions, clobbered, functions.Keys, 0);
  }

  lemma FormalReplaced()
    ensures SubstitutedName("p", map["p" := "i"]) == "i"
  {
  }

  /** An endpoint that mentions a parameter: by value the call accesses `A[4]`; the expansion has no meaning. */
  lemma ParameterInEndpoint()
    ensures Turns(map["f" := BOUNDED], CALLER, [Hit("A", [4])], None)
  {
    hide ParseAffine, ExecNode, ExecBody, ExpandNode, RunBody, SubstitutedName, ValueOf;
    var functions, call := map["f" := BOUNDED], CALLER.body[0];
    var names: Names := [("i", Some(5))] + [];
    OneTurn(CALLER, functions, [], map[], {}, 5);
    OneNode(call, functions, names, map[], {});
    IdentifierValue("i", names);
    CallRuns(BOUNDED, names, "i", 5);
    var loop := BOUNDED.body[0];
    OneNode(loop, functions, [("p", Some(5))], map[], {"f"});
    IdentifierValue("p", [("p", Some(5))]);
    OneTurn(loop, functions, [("p", Some(5))], map[], {"f"}, 4);
    var inside: Names := [("j", Some(4))] + [("p", Some(5))];
    OneNode(loop.body[0], functions, inside, map[], {"f"});
    OneAccess("A", "j", functions, inside, {"f"}, 4);

    CallExpands(BOUNDED, loop, 5, "i");
    var left := loop.(body := [Access("A", SubstitutedNames(["j"], map["p" := "i"]))]);
    var expanded := CALLER.(body := [left]);
    RunOne(expanded, functions, false, []);
    OneTurn(expanded, functions, [], map[], functions.Keys, 5);
    OneNode(left, functions, names, map[], functions.Keys);
    IdentifierValue("p", names);
    Unbounded(left, functions, names);
  }

  lemma Unbounded(node: Node, functions: Functions, names: Names)
    requires node.Loop? && EndpointIn(node.bound, names).None?
    ensures RunNode(node, functions, false, names) == None
  {
  }

  /** A loop that rebinds the parameter: by value the call accesses `A[0]`; the expansion accesses `A[5]`. */
  lemma ReboundParameter()
    ensures Turns(map["f" := REBINDING], CALLER, [Hit("A", [0])], Some([Hit("A", [5])]))
  {
    hide ParseAffine, ExecNode, ExecBody, ExpandNode, RunBody, SubstitutedName, ValueOf;
    var functions, call := map["f" := REBINDING], CALLER.body[0];
    var names: Names := [("i", Some(5))] + [];
    OneTurn(CALLER, functions, [], map[], {}, 5);
    OneNode(call, functions, names, map[], {});
    IdentifierValue("i", names);
    CallRuns(REBINDING, names, "i", 5);
    var loop := REBINDING.body[0];
    OneNode(loop, functions, [("p", Some(5))], map[], {"f"});
    OneTurn(loop, functions, [("p", Some(5))], map[], {"f"}, 0);
    var inside: Names := [("p", Some(0))] + [("p", Some(5))];
    OneNode(loop.body[0], functions, inside, map[], {"f"});
    OneAccess("A", "p", functions, inside, {"f"}, 0);

    CallExpands(REBINDING, loop, 5, "i");
    FormalReplaced();
    assert SubstitutedNames(["p"], map["p" := "i"]) == ["i"];
    var replaced := loop.(body := [Access("A", ["i"])]);
    var expanded := CALLER.(body := [replaced]);
    RunOne(expanded, functions, false, []);
    OneTurn(expanded, functions, [], map[], functions.Keys, 5);
    OneNode(replaced, functions, names, map[], functions.Keys);
    OneTurn(replaced, functions, names, map[], functions.Keys, 0);
    var unbound: Names := [("p", Some(0))] + names;
    OneNode(replaced.body[0], functions, unbound, map[], functions.Keys);
    assert unbound[1..] == names;
    OneAccess("A", "i", functions, unbound, functions.Keys, 5);
  }

  lemma ScaledParse(coefficient: int, name: string)
    requires Identifier(name) && IsI64(coefficient) && coefficient != 0
    ensures ParseAffine(FormatAffine(Scaled(coefficient, name))) == Some(Scaled(coefficient, name))
  {
    hide ParseAffine, FormatAffine, Identifier;
    FormatRoundTrip(Scaled(coefficient, name));
  }

  /** A scaled name has its value times the coefficient. */
  lemma ScaledValue(coefficient: int, name: string, names: Names, value: int)
    requires Identifier(name) && IsI64(coefficient) && coefficient != 0
    requires Read(name, names) == Some(value) && IsI64(coefficient * value)
    ensures ValueOf(FormatAffine(Scaled(coefficient, name)), names) == Some(coefficient * value)
  {
    hide ParseAffine, FormatAffine, Identifier, Read;
    ScaledParse(coefficient, name);
    SumRemove(Scaled(coefficient, name).terms, name, ValuesOf(names));
    assert Scaled(coefficient, name).terms - {name} == map[];
  }

  /** Twice the largest coefficient does not fit, so the composition is deferred. */
  lemma LargeIndexDeferred()
    ensures SubstitutedName(LargeIndex(), map["p" := FormatAffine(Scaled(2, "i"))]) == Deferred(LargeIndex())
  {
    hide ParseAffine, FormatAffine;
    var argument := FormatAffine(Scaled(2, "i"));
    var mapping: CallMapping := map["p" := argument];
    var e := Scaled(I64_MAX, "p");
    ScaledParse(I64_MAX, "p");
    ScaledParse(2, "i");
    IdentifierParse("p");
    assert e.terms["p"] == I64_MAX;
    assert LargeIndex() != "p" by {
      assert Scaled(1, "p").terms["p"] == 1;
    }
    assert {"p"} == e.terms.Keys;
    assert NameOrder.IsFirst("p", {"p"});
    ComposeStep(Affine(0, map[]), e.terms.Keys, e.terms, mapping, "p");
    assert Scaled(2, "i").terms["i"] == 2;
    assert AddScaled(0, 2, I64_MAX).None?;
    assert Added(Affine(0, map[]), Scaled(2, "i"), I64_MAX).None?;
  }

  /** An overflowing composition: by value the call accesses `A[0]`; the expansion has no meaning. */
  lemma OverflowingComposition()
    ensures Turns(map["f" := Scaling()], CallerOf(0, FormatAffine(Scaled(2, "i"))), [Hit("A", [0])], None)
  {
    hide ParseAffine, ExecNode, ExecBody, ExpandNode, RunBody, SubstitutedName, ValueOf, FormatAffine, LargeIndex;
    var argument := FormatAffine(Scaled(2, "i"));
    var functions, caller := map["f" := Scaling()], CallerOf(0, argument);
    var call, loop := caller.body[0], Scaling().body[0];
    var names: Names := [("i", Some(0))] + [];
    OneTurn(caller, functions, [], map[], {}, 0);
    OneNode(call, functions, names, map[], {});
    ScaledValue(2, "i", names, 0);
    CallRuns(Scaling(), names, argument, 0);
    OneNode(loop, functions, [("p", Some(0))], map[], {"f"});
    OneTurn(loop, functions, [("p", Some(0))], map[], {"f"}, 0);
    var inside: Names := [("j", Some(0))] + [("p", Some(0))];
    OneNode(loop.body[0], functions, inside, map[], {"f"});
    LargeIndexValue(inside);
    OneIndex("A", LargeIndex(), functions, inside, {"f"}, 0);

    CallExpands(Scaling(), loop, 0, argument);
    LargeIndexDeferred();
    assert SubstitutedNames([LargeIndex()], map["p" := argument]) == [Deferred(LargeIndex())];
    var deferred := loop.(body := [Access("A", [Deferred(LargeIndex())])]);
    var expanded := caller.(body := [deferred]);
    RunOne(expanded, functions, false, []);
    OneTurn(expanded, functions, [], map[], functions.Keys, 0);
    OneNode(deferred, functions, names, map[], functions.Keys);
    OneTurn(deferred, functions, names, map[], functions.Keys, 0);
    var within: Names := [("j", Some(0))] + names;
    OneNode(deferred.body[0], functions, within, map[], functions.Keys);
    ModuleHygiene.DeferredUnreadable(LargeIndex());
    Unreadable("A", Deferred(LargeIndex()), functions, within);
  }

  lemma LargeIndexValue(names: Names)
    requires names == [("j", Some(0))] + [("p", Some(0))]
    ensures ValueOf(LargeIndex(), names) == Some(0)
  {
    hide ValueOf, FormatAffine;
    assert names[1..] == [("p", Some(0))];
    assert Read("p", names) == Some(0);
    ScaledValue(I64_MAX, "p", names, 0);
  }

  lemma Unreadable(target: string, index: string, functions: Functions, names: Names)
    requires ParseAffine(index).None?
    ensures RunNode(Access(target, [index]), functions, false, names) == None
  {
    hide ParseAffine;
    assert ValueOf([index][0], names).None?;
  }
}
