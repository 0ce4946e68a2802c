/** Substituting actuals for formals keeps the meaning of hygienic nodes. */
module SubstitutionMeaning {
  import opened Machine
  import opened AffineTerms
  import opened AffineText
  import opened AffineFormat
  import opened LoopWork
  import opened TraceWalk
  import opened CallSubstitution
  import opened InlineExpansion
  import opened CallSemantics
  import IndexMeaning
  import NameOrder

  /** What a callee knows, its caller knows through the mapping: formals by their actuals, other names directly. */
  ghost predicate Related(mapping: CallMapping, inner: Names, outer: Names) {
    forall name :: Read(name, inner).Some? ==>
      (if name in mapping then ValueOf(mapping[name], outer) else Read(name, outer)) == Read(name, inner)
  }

  /** Formals are identifiers. */
  ghost predicate Formals(mapping: CallMapping) {
    forall name :: name in mapping ==> Identifier(name)
  }

  /** A text composes: no actual of its names is unreadable, or the composition stays within int64. */
  ghost predicate Composes(text: string, mapping: CallMapping) {
    text in mapping || ParseAffine(text).None?
    || (exists name :: name in ParseAffine(text).value.terms && Replacement(name, mapping).None?)
    || Composed(ParseAffine(text).value, mapping).Some?
  }

  ghost predicate MentionsName(text: string, name: string) {
    ParseAffine(text).Some? && name in ParseAffine(text).value.terms
  }

  /** A loop variable can be kept under a mapping: it is no formal and occurs in no actual. */
  ghost predicate Fresh(variable: string, mapping: CallMapping) {
    variable !in mapping && forall name :: name in mapping ==> !MentionsName(mapping[name], variable)
  }

  ghost predicate EndpointFree(endpoint: Endpoint, mapping: CallMapping) {
    endpoint.Text? ==> forall name :: name in mapping ==> !MentionsName(endpoint.text, name)
  }

  /**
   * Substitution is safe for a node: its loop variables are fresh, its loop endpoints mention no formal, and
   * its indices and arguments compose without overflow.
   */
  ghost predicate Hygienic(node: Node, mapping: CallMapping)
    decreases node
  {
    match node
    case Access(_, indices) => forall i :: 0 <= i < |indices| ==> Composes(indices[i], mapping)
    case Loop(variable, start, bound, _, body) =>
      && Fresh(variable, mapping) && EndpointFree(start, mapping) && EndpointFree(bound, mapping)
      && forall i :: 0 <= i < |body| ==> Hygienic(body[i], mapping)
    case Call(_, args, _) => forall i :: 0 <= i < |args| ==> Composes(args[i], mapping)
    case Unknown(_) => true
  }

  ghost predicate HygienicBody(body: seq<Node>, mapping: CallMapping) {
    forall i :: 0 <= i < |body| ==> Hygienic(body[i], mapping)
  }

  // ----- values

  lemma NameValue(name: string, names: Names)
    ensures Known(Affine(0, map[name := 1]), names) <==> Read(name, names).Some?
    ensures Eval(Affine(0, map[name := 1]), ValuesOf(names)) == ValuesOf(names)(name)
  {
    var one := map[name := 1];
    SumRemove(one, name, ValuesOf(names));
    assert one - {name} == map[];
    assert name in one;
  }

  /** The replacement of a known name has its value outside. */
  lemma ReplacementValue(name: string, mapping: CallMapping, inner: Names, outer: Names)
    requires Related(mapping, inner, outer) && Read(name, inner).Some?
    ensures Replacement(name, mapping).Some? && Known(Replacement(name, mapping).value, outer)
    ensures Eval(Replacement(name, mapping).value, ValuesOf(outer)) == ValuesOf(inner)(name)
  {
    hide ParseAffine, Eval, Known;
    if name !in mapping {
      NameValue(name, outer);
    }
  }

  lemma AddedKnown(target: Affine, source: Affine, coefficient: int, names: Names)
    requires Added(target, source, coefficient).Some? && Known(target, names) && Known(source, names)
    ensures Known(Added(target, source, coefficient).value, names)
  {
    hide Read, AddFits;
  }

  /** Composition keeps the exact value. */
  lemma {:induction false} ComposeValue(result: Affine, names: set<string>, terms: map<string, int>,
                                        mapping: CallMapping,
                                        inner: Names, outer: Names)
    requires Related(mapping, inner, outer) && Known(result, outer) && names <= terms.Keys
    requires (forall name :: name in names ==> Read(name, inner).Some?) && Compose(result, names, terms, mapping).Some?
    ensures var r := Compose(result, names, terms, mapping).value;
            && Known(r, outer)
            && Eval(r, ValuesOf(outer))
               == Eval(result, ValuesOf(outer)) + SumTerms(IndexMeaning.Kept(terms, names), ValuesOf(inner))
    decreases names
  {
    hide Compose, Related, Known, NameOrder.IsFirst, SumTerms, ValuesOf, Read, IndexMeaning.Kept, Eval, Replacement,
        Added;
    if names == {} {
      ComposeNothing(result, terms, mapping, ValuesOf(inner));
    } else {
      NameOrder.FirstExists(names);
      var name :| NameOrder.IsFirst(name, names);
      FirstMember(name, names);
      ComposeStep(result, names, terms, mapping, name);
      ReplacementValue(name, mapping, inner, outer);
      var source := Replacement(name, mapping).value;
      AddedValue(result, source, terms[name], ValuesOf(outer));
      AddedKnown(result, source, terms[name], outer);
      ComposeValue(Added(result, source, terms[name]).value, names - {name}, terms, mapping, inner, outer);
      IndexMeaning.SumKept(names, terms, name, ValuesOf(inner));
    }
  }

  lemma AddedValue(target: Affine, source: Affine, coefficient: int, values: string -> int)
    requires Added(target, source, coefficient).Some?
    ensures Eval(Added(target, source, coefficient).value, values)
            == Eval(target, values) + coefficient * Eval(source, values)
  {
    AddEval(target, source, coefficient, values);
  }

  lemma ComposeNothing(result: Affine, terms: map<string, int>, mapping: CallMapping, values: string -> int)
    ensures Compose(result, {}, terms, mapping) == Some(result)
    ensures SumTerms(IndexMeaning.Kept(terms, {}), values) == 0
  {
    assert IndexMeaning.Kept(terms, {}) == map[];
  }

  lemma ComposedValue(e: Affine, mapping: CallMapping, inner: Names, outer: Names)
    requires Related(mapping, inner, outer) && Known(e, inner) && Composed(e, mapping).Some?
    ensures Known(Composed(e, mapping).value, outer)
    ensures Eval(Composed(e, mapping).value, ValuesOf(outer)) == Eval(e, ValuesOf(inner))
  {
    hide Compose, Related, Read;
    ComposeValue(Affine(e.constant, map[]), e.terms.Keys, e.terms, mapping, inner, outer);
    assert IndexMeaning.Kept(e.terms, e.terms.Keys) == e.terms;
  }

  /** Composition of a printable expression can be printed and read back. */
  lemma {:induction false} ComposePrintable(result: Affine, names: set<string>, terms: map<string, int>,
                                            mapping: CallMapping)
    requires Printable(result) && names <= terms.Keys && (forall name :: name in names ==> Identifier(name))
    requires Compose(result, names, terms, mapping).Some?
    ensures Printable(Compose(result, names, terms, mapping).value)
    decreases names
  {
    hide Compose, NameOrder.IsFirst, Replacement, Added, Printable, Identifier;
    if names == {} {
      ComposeNothing(result, terms, mapping, (x: string) => 0);
    } else {
      NameOrder.FirstExists(names);
      var name :| NameOrder.IsFirst(name, names);
      FirstMember(name, names);
      ComposeStep(result, names, terms, mapping, name);
      ReplacementPrintable(name, mapping);
      AddedPrintable(result, Replacement(name, mapping).value, terms[name]);
      ComposePrintable(Added(result, Replacement(name, mapping).value, terms[name]).value, names - {name}, terms,
          mapping);
    }
  }

  /** A text that has a value in the callee has the same value outside after substitution. */
  lemma SubstitutedValue(text: string, mapping: CallMapping, inner: Names, outer: Names)
    requires Related(mapping, inner, outer) && Formals(mapping) && Composes(text, mapping)
    requires ValueOf(text, inner).Some?
    ensures ValueOf(SubstitutedName(text, mapping), outer) == ValueOf(text, inner)
  {
    hide Related, ParseAffine, Compose, Composed, Known, Eval, FormatAffine, Read, Mentions;
    var e := ParseAffine(text).value;
    if text in mapping {
      FormalValue(text, mapping, inner, outer);
    } else {
      AllReadable(e, mapping, inner, outer);
      ComposedValue(e, mapping, inner, outer);
      if Mentions(e, mapping) {
        ParsePrintable(text);
        ComposedPrintable(e, mapping);
        FormatRoundTrip(Composed(e, mapping).value);
      } else {
        UnmentionedValue(e, mapping, inner, outer);
      }
    }
  }

  lemma ComposedPrintable(e: Affine, mapping: CallMapping)
    requires Printable(e) && Composed(e, mapping).Some?
    ensures Printable(Composed(e, mapping).value)
  {
    hide Identifier, Compose;
    ConstantPrintable(e);
    ComposePrintable(Affine(e.constant, map[]), e.terms.Keys, e.terms, mapping);
  }

  /** Every name of a text with a value has a readable replacement. */
  lemma AllReadable(e: Affine, mapping: CallMapping, inner: Names, outer: Names)
    requires Related(mapping, inner, outer) && Known(e, inner)
    ensures !exists name :: name in e.terms && Replacement(name, mapping).None?
  {
    hide Related, Replacement, Read;
    forall name | name in e.terms
      ensures Replacement(name, mapping).Some?
    {
      ReplacementValue(name, mapping, inner, outer);
    }
  }

  lemma FormalValue(name: string, mapping: CallMapping, inner: Names, outer: Names)
    requires Related(mapping, inner, outer) && Formals(mapping) && name in mapping && ValueOf(name, inner).Some?
    ensures ValueOf(mapping[name], outer) == ValueOf(name, inner)
  {
    hide ParseAffine, SumTerms;
    IdentifierParse(name);
    NameValue(name, inner);
  }

  /** An identifier parses as itself. */
  lemma IdentifierParse(name: string)
    requires Identifier(name)
    ensures ParseAffine(name) == Some(Affine(0, map[name := 1]))
  {
    var e := Affine(0, map[name := 1]);
    assert Printable(e);
    FormatRoundTrip(e);
    SingleFormat(name);
  }

  lemma SingleFormat(name: string)
    requires name != ""
    ensures FormatAffine(Affine(0, map[name := 1])) == name
  {
    var e := Affine(0, map[name := 1]);
    assert e.terms.Keys == {name};
    assert NameOrder.IsFirst(name, {name});
    NameOrder.SortedStep({name}, name);
    assert {name} - {name} == {};
    assert NameOrder.Sorted({name}) == [name];
    FormatTermAt(e, 0);
    FormatTermsEnd(e);
    var t := Term("", "", name);
    assert TermOf(1, name, true) == t;
    assert FormatTerms(e) == [t];
    assert [t][1..] == [] && SumText([t][1..]) == "";
    assert TermText(t) == name && name + "" == name;
    assert FormatAffine(e) == SumText([t]);
  }

  lemma UnmentionedValue(e: Affine, mapping: CallMapping, inner: Names, outer: Names)
    requires Related(mapping, inner, outer) && Known(e, inner) && !Mentions(e, mapping)
    ensures Known(e, outer) && Eval(e, ValuesOf(outer)) == Eval(e, ValuesOf(inner))
  {
    hide ParseAffine, SumTerms, Read, ValueOf;
    forall name | name in e.terms
      ensures Read(name, outer) == Read(name, inner)
    {
      assert name !in mapping;
    }
    SumSame(e.terms, ValuesOf(inner), ValuesOf(outer));
  }

  // ----- nodes

  lemma SubstitutedIndices(texts: seq<string>, mapping: CallMapping, inner: Names, outer: Names)
    requires Related(mapping, inner, outer) && Formals(mapping) && AllValues(texts, inner)
    requires forall i :: 0 <= i < |texts| ==> Composes(texts[i], mapping)
    ensures AllValues(SubstitutedNames(texts, mapping), outer)
    ensures IndexValues(SubstitutedNames(texts, mapping), outer) == IndexValues(texts, inner)
  {
    hide ValueOf, Related, Composes, SubstitutedName, Formals;
    forall i | 0 <= i < |texts|
      ensures ValueOf(SubstitutedName(texts[i], mapping), outer) == ValueOf(texts[i], inner)
    {
      SubstitutedValue(texts[i], mapping, inner, outer);
    }
  }

  /** Loop endpoints are not rewritten, so they must not mention formals. */
  lemma EndpointValueKept(endpoint: Endpoint, mapping: CallMapping, inner: Names, outer: Names)
    requires Related(mapping, inner, outer) && EndpointFree(endpoint, mapping) && EndpointIn(endpoint, inner).Some?
    ensures EndpointIn(endpoint, outer) == EndpointIn(endpoint, inner)
  {
    hide ParseAffine, Related, Known, Eval, Read;
    if endpoint.Text? {
      UnmentionedValue(ParseAffine(endpoint.text).value, mapping, inner, outer);
    }
  }

  /** A fresh loop variable can be pushed on both sides. */
  lemma RelatedInside(mapping: CallMapping, inner: Names, outer: Names, variable: string, value: Option<int>)
    requires Related(mapping, inner, outer) && Fresh(variable, mapping)
    ensures Related(mapping, [(variable, value)] + inner, [(variable, value)] + outer)
  {
    var pushedIn, pushedOut := [(variable, value)] + inner, [(variable, value)] + outer;
    assert pushedIn[1..] == inner && pushedOut[1..] == outer;
    forall name | Read(name, pushedIn).Some?
      ensures (if name in mapping then ValueOf(mapping[name], pushedOut) else Read(name, pushedOut)) == Read(name,
              pushedIn)
    {
      if name in mapping {
        ValuePushed(mapping[name], outer, variable, value);
      }
    }
  }

  lemma ValuePushed(text: string, names: Names, variable: string, value: Option<int>)
    requires ValueOf(text, names).Some? && !MentionsName(text, variable)
    ensures ValueOf(text, [(variable, value)] + names) == ValueOf(text, names)
  {
    hide ParseAffine, SumTerms;
    var pushed := [(variable, value)] + names;
    assert pushed[1..] == names;
    SumSame(ParseAffine(text).value.terms, ValuesOf(names), ValuesOf(pushed));
  }

  lemma SubstitutedArguments(args: seq<string>, mapping: CallMapping, inner: Names, outer: Names)
    requires Related(mapping, inner, outer) && Formals(mapping)
    requires forall i :: 0 <= i < |args| ==> Composes(args[i], mapping)
    ensures ArgumentsKept(args, inner, SubstitutedNames(args, mapping), outer)
  {
    hide ValueOf, Related, Composes, SubstitutedName, Formals;
    forall i | 0 <= i < |args| && ValueOf(args[i], inner).Some?
      ensures ValueOf(SubstitutedName(args[i], mapping), outer) == ValueOf(args[i], inner)
    {
      SubstitutedValue(args[i], mapping, inner, outer);
    }
  }

  lemma ObjectsKept(targets: seq<string>)
    ensures SubstitutedObjects(targets, map[]) == targets
  {
  }

  /** The callee's node after substitution, run by the caller, does what the callee's node does in its own scope. */
  lemma {:induction false} NodeSubstituted(node: Node, functions: Functions, taskMode: bool, mapping: CallMapping,
                                           objects: CallMapping, inner: Names, outer: Names, stack: set<string>)
    requires Related(mapping, inner, outer) && Formals(mapping) && Hygienic(node, mapping)
    requires ExecNode(node, functions, taskMode, inner, objects, stack).Some?
    ensures ExecNode(SubstitutedNode(node, mapping, objects), functions, taskMode, outer, map[], stack)
            == ExecNode(node, functions, taskMode, inner, objects, stack)
    decreases node, 1
  {
    hide Related, Formals, Fresh, EndpointFree, Composes, ValueOf, AllValues, IndexValues, EndpointIn, SubstitutedName;
    match node
    case Unknown(_) =>
    case Access(_, indices) =>
      SubstitutedIndices(indices, mapping, inner, outer);
    case Loop(_, start, bound, _, _) =>
      EndpointValueKept(start, mapping, inner, outer);
      EndpointValueKept(bound, mapping, inner, outer);
      WhileSubstituted(node, functions, taskMode, mapping, objects, inner, outer, stack, EndpointIn(start, inner).value,
                       EndpointIn(bound, inner).value);
    case Call(_, _, _) =>
      if Kept(node, functions, taskMode) {
        KeptSubstituted(node, functions, taskMode, mapping, objects, inner, outer, stack);
        return;
      }
      CallSubstituted(node, functions, taskMode, mapping, objects, inner, outer, stack);
  }

  /** A call that is left as it is passes the same values and objects. */
  lemma KeptSubstituted(node: Node, functions: Functions, taskMode: bool, mapping: CallMapping,
                        objects: CallMapping, inner: Names, outer: Names, stack: set<string>)
    requires Related(mapping, inner, outer) && Formals(mapping) && Hygienic(node, mapping)
    requires node.Call? && Kept(node, functions, taskMode)
    requires ExecNode(node, functions, taskMode, inner, objects, stack).Some?
    ensures ExecNode(SubstitutedNode(node, mapping, objects), functions, taskMode, outer, map[], stack)
            == ExecNode(node, functions, taskMode, inner, objects, stack)
  {
    hide Related, Formals, Composes, ValueOf, SubstitutedName, ArgumentsKept, AllPassed, PassedValues;
    SubstitutedArguments(node.args, mapping, inner, outer);
    PassedKept(node.args, inner, SubstitutedNames(node.args, mapping), outer, PassedObjects(node, objects));
    if node.argObjects.Some? {
      ObjectsKept(SubstitutedObjects(node.argObjects.value, objects));
    }
  }

  lemma CallSubstituted(node: Node, functions: Functions, taskMode: bool, mapping: CallMapping,
                        objects: CallMapping, inner: Names, outer: Names, stack: set<string>)
    requires Related(mapping, inner, outer) && Formals(mapping) && Hygienic(node, mapping)
    requires node.Call? && !Kept(node, functions, taskMode)
    requires ExecNode(node, functions, taskMode, inner, objects, stack).Some?
    ensures ExecNode(SubstitutedNode(node, mapping, objects), functions, taskMode, outer, map[], stack)
            == ExecNode(node, functions, taskMode, inner, objects, stack)
  {
    hide Related, Formals, Composes, ValueOf, SubstitutedName, ExecBody, Extends, Bindings, ArgumentsKept;
    var f, args := functions[node.callee], node.args;
    SubstitutedArguments(args, mapping, inner, outer);
    CalleeExtends(f.params, args, inner, SubstitutedNames(args, mapping), outer, |args|);
    ObjectsKept(SubstitutedObjects(ActualObjects(node), objects));
    BodyExtends(f.body, functions, taskMode, CalleeNames(f.params, args, |args|, inner),
                CalleeNames(f.params, SubstitutedNames(args, mapping), |args|, outer),
                CalleeObjects(f, node, objects), stack + {node.callee});
  }

  lemma {:induction false} WhileSubstituted(node: Node, functions: Functions, taskMode: bool, mapping: CallMapping,
                                            objects: CallMapping, inner: Names, outer: Names, stack: set<string>,
                                            value: int, bound: int)
    requires node.Loop? && node.step != 0
    requires Related(mapping, inner, outer) && Formals(mapping) && Hygienic(node, mapping)
    requires ExecWhile(node, functions, taskMode, inner, objects, stack, value, bound).Some?
    ensures ExecWhile(SubstitutedNode(node, mapping, objects), functions, taskMode, outer, map[], stack, value, bound)
            == ExecWhile(node, functions, taskMode, inner, objects, stack, value, bound)
    decreases node, 0, if node.step > 0 then bound - value else value - bound
  {
    hide Related, Formals, Fresh, EndpointFree, Composes, ExecBody, SubstitutedBody;
    if Before(value, bound, node.step) {
      RelatedInside(mapping, inner, outer, node.variable, Some(value));
      BodySubstituted(node.body, functions, taskMode, mapping, objects, [(node.variable, Some(value))] + inner,
                      [(node.variable, Some(value))] + outer, stack);
      WhileSubstituted(node, functions, taskMode, mapping, objects, inner, outer, stack, value + node.step, bound);
    }
  }

  lemma {:induction false} BodySubstituted(body: seq<Node>, functions: Functions, taskMode: bool, mapping: CallMapping,
                                           objects: CallMapping, inner: Names, outer: Names, stack: set<string>)
    requires Related(mapping, inner, outer) && Formals(mapping) && HygienicBody(body, mapping)
    requires ExecBody(body, functions, taskMode, inner, objects, stack).Some?
    ensures ExecBody(SubstitutedBody(body, mapping, objects), functions, taskMode, outer, map[], stack)
            == ExecBody(body, functions, taskMode, inner, objects, stack)
    decreases body, 1
  {
    hide Related, Formals, Hygienic, ExecNode, SubstitutedNode;
    if body != [] {
      NodeSubstituted(body[0], functions, taskMode, mapping, objects, inner, outer, stack);
      BodySubstituted(body[1..], functions, taskMode, mapping, objects, inner, outer, stack);
      var rest := SubstitutedBody(body[1..], mapping, objects);
      assert ([SubstitutedNode(body[0], mapping, objects)] + rest)[1..] == rest;
    }
  }
}
