/** Rewriting a callee's index texts and object identities for one call. */
module CallSubstitution {
  import opened Machine
  import opened AffineTerms
  import opened AffineText
  import opened AffineFormat
  import opened NameOrder
  import opened TraceWalk

  /** Simultaneous formal-to-actual bindings. */
  type CallMapping = map<string, string>

  // ----- names

  /** What a name stands for: its actual, or itself. */
  ghost function Replacement(name: string, mapping: CallMapping): (e: Option<Affine>) {
    if name in mapping then ParseAffine(mapping[name]) else Some(Affine(0, map[name := 1]))
  }

  /** Replace names one by one in map order; an unreadable actual or an overflow fails. */
  ghost function Compose(result: Affine, names: set<string>, terms: map<string, int>,
                         mapping: CallMapping): (r: Option<Affine>)
    requires names <= terms.Keys
    decreases names
  {
    if names == {} then Some(result)
    else
      FirstExists(names);
      var name :| IsFirst(name, names);
      match Replacement(name, mapping)
      case None => None
      case Some(e) =>
        match Added(result, e, terms[name])
        case None => None
        case Some(next) => Compose(next, names - {name}, terms, mapping)
  }

  ghost function Composed(e: Affine, mapping: CallMapping): (r: Option<Affine>) {
    Compose(Affine(e.constant, map[]), e.terms.Keys, e.terms, mapping)
  }

  ghost predicate Mentions(e: Affine, mapping: CallMapping) {
    exists name :: name in e.terms && name in mapping
  }

  /** A text that no reader accepts, so that the failure stays visible and no formal name is left to capture. */
  function Deferred(text: string): (r: string) {
    "(" + text + ")"
  }

  ghost function SubstitutedName(text: string, mapping: CallMapping): (r: string) {
    if text in mapping then mapping[text]
    else
      match ParseAffine(text)
      case None => text
      case Some(e) =>
        match Composed(e, mapping)
        case None => Deferred(text)
        case Some(result) => if Mentions(e, mapping) then FormatAffine(result) else text
  }

  /** Composition with a given name first. */
  ghost function Next(result: Affine, names: set<string>, terms: map<string, int>, mapping: CallMapping, name: string):
    (r: Option<Affine>)
    requires names <= terms.Keys && name in names
  {
    match Replacement(name, mapping)
    case None => None
    case Some(e) =>
      match Added(result, e, terms[name])
      case None => None
      case Some(next) => Compose(next, names - {name}, terms, mapping)
  }

  lemma ComposeStep(result: Affine, names: set<string>, terms: map<string, int>, mapping: CallMapping, name: string)
    requires names <= terms.Keys && IsFirst(name, names)
    ensures Compose(result, names, terms, mapping) == Next(result, names, terms, mapping, name)
  {
    hide Replacement, Added;
    var first :| IsFirst(first, names)
                 && Compose(result, names, terms, mapping) == Next(result, names, terms, mapping, first);
    FirstUnique(first, name, names);
  }

  /** Replacements are normalized over identifiers. */
  lemma ReplacementPrintable(name: string, mapping: CallMapping)
    requires Identifier(name) && Replacement(name, mapping).Some?
    ensures Printable(Replacement(name, mapping).value)
  {
    hide ParseAffine, Identifier;
    if name in mapping {
      ParseMeaning(mapping[name], (x: string) => 0);
    }
  }

  lemma AddedPrintable(target: Affine, source: Affine, coefficient: int)
    requires Printable(target) && Printable(source) && Added(target, source, coefficient).Some?
    ensures Printable(Added(target, source, coefficient).value)
  {
    hide Normal, AddFits, Identifier;
    AddKeepsNormal(target, source, coefficient);
  }

  /** The loop of the rewriter over the terms. */
  method ComposeTerms(e: Affine, mapping: CallMapping) returns (result: Option<Affine>, changed: bool)
    requires Printable(e)
    ensures result == Composed(e, mapping)
    ensures result.Some? ==> Printable(result.value) && (changed <==> Mentions(e, mapping))
  {
    hide IsFirst, ParseAffine, Compose, Added, Printable, Identifier;
    var rest := e.terms.Keys;
    var sum := Affine(e.constant, map[]);
    changed := false;
    ConstantPrintable(e);
    while rest != {}
      invariant rest <= e.terms.Keys && Printable(sum)
      invariant Composed(e, mapping) == Compose(sum, rest, e.terms, mapping)
      invariant changed <==> exists name :: name in e.terms && name !in rest && name in mapping
      decreases rest
    {
      var name := FirstName(rest);
      FirstMember(name, rest);
      ComposeStep(sum, rest, e.terms, mapping, name);
      MemberIdentifier(e, name);
      changed := changed || name in mapping;
      var replacement := Some(Affine(0, map[name := 1]));
      if name in mapping {
        replacement := ParseAffineExpression(mapping[name]);
      }
      if replacement.None? {
        return None, changed;
      }
      ReplacementPrintable(name, mapping);
      var next := AddChecked(sum, replacement.value, e.terms[name]);
      if next.None? {
        return None, changed;
      }
      AddedPrintable(sum, replacement.value, e.terms[name]);
      sum := next.value;
      rest := rest - {name};
    }
    ComposeEnds(sum, e.terms, mapping);
    result := Some(sum);
  }

  lemma ComposeEnds(sum: Affine, terms: map<string, int>, mapping: CallMapping)
    ensures Compose(sum, {}, terms, mapping) == Some(sum)
  {
  }

  lemma FirstMember(name: string, names: set<string>)
    requires IsFirst(name, names)
    ensures name in names
  {
  }

  lemma ConstantPrintable(e: Affine)
    requires Printable(e)
    ensures Printable(Affine(e.constant, map[]))
  {
  }

  lemma MemberIdentifier(e: Affine, name: string)
    requires Printable(e) && name in e.terms
    ensures Identifier(name)
  {
  }

  method AddChecked(target: Affine, source: Affine, coefficient: int) returns (r: Option<Affine>)
    ensures r == Added(target, source, coefficient)
  {
    r := AddAffineExpression(target, source, coefficient);
  }

  method SubstituteName(text: string, mapping: CallMapping) returns (r: string)
    ensures r == SubstitutedName(text, mapping)
  {
    hide ParseAffine, Composed, Mentions, Printable, FormatAffine;
    if text in mapping {
      return mapping[text];
    }
    var expression := ParseAffineExpression(text);
    if expression.Some? {
      ParsePrintable(text);
      var result, changed := ComposeTerms(expression.value, mapping);
      if result.None? {
        return Deferred(text);
      }
      if changed {
        var formatted := FormatAffineExpression(result.value);
        return formatted;
      }
    }
    r := text;
  }

  lemma ParsePrintable(text: string)
    requires ParseAffine(text).Some?
    ensures Printable(ParseAffine(text).value)
  {
    hide ParseAffine, Identifier;
    ParseMeaning(text, (x: string) => 0);
  }

  lemma UnmentionedStep(result: Affine, name: string, value: int)
    requires IsI64(result.constant) && name !in result.terms && IsI64(value)
    ensures Added(result, Affine(0, map[name := 1]), value).Some?
    ensures Added(result, Affine(0, map[name := 1]), value).value.constant == result.constant
    ensures Added(result, Affine(0, map[name := 1]), value).value.terms.Keys <= result.terms.Keys + {name}
  {
    var one := Affine(0, map[name := 1]);
    assert AddFits(result, one, value);
    AddedKeys(result, one, value);
  }

  /** Composition over names that are no formals never fails. */
  lemma {:induction false} UnmentionedComposes(result: Affine, names: set<string>, terms: map<string, int>,
                                               mapping: CallMapping)
    requires names <= terms.Keys && names !! mapping.Keys && names !! result.terms.Keys && IsI64(result.constant)
    requires forall name :: name in names ==> IsI64(terms[name])
    ensures Compose(result, names, terms, mapping).Some?
    decreases names
  {
    hide Compose, Added;
    if names == {} {
      ComposeEnds(result, terms, mapping);
    } else {
      FirstExists(names);
      var name :| IsFirst(name, names);
      FirstMember(name, names);
      ComposeStep(result, names, terms, mapping, name);
      UnmentionedStep(result, name, terms[name]);
      var next := Added(result, Affine(0, map[name := 1]), terms[name]).value;
      UnmentionedComposes(next, names - {name}, terms, mapping);
    }
  }

  /**
   * Substitution touches a text only where a formal is named: a formal itself becomes its actual, and any other text
   * that names no formal, or that is no expression, stays as it is.
   */
  lemma SubstitutionTouches(text: string, mapping: CallMapping)
    ensures text in mapping ==> SubstitutedName(text, mapping) == mapping[text]
    ensures text !in mapping
            && (ParseAffine(text).Some? ==> !exists name :: name in ParseAffine(text).value.terms && name in mapping)
            ==> SubstitutedName(text, mapping) == text
  {
    hide ParseAffine, Compose, FormatAffine, Identifier;
    if text !in mapping && ParseAffine(text).Some? && !Mentions(ParseAffine(text).value, mapping) {
      var e := ParseAffine(text).value;
      ParsePrintable(text);
      UnmentionedComposes(Affine(e.constant, map[]), e.terms.Keys, e.terms, mapping);
    }
  }

  // ----- nodes

  function SubstitutedObject(target: string, objects: CallMapping): (r: string) {
    if target in objects then objects[target] else target
  }

  ghost function SubstitutedNames(texts: seq<string>, mapping: CallMapping): (r: seq<string>)
    ensures |r| == |texts| && forall i :: 0 <= i < |texts| ==> r[i] == SubstitutedName(texts[i], mapping)
  {
    seq(|texts|, i requires 0 <= i < |texts| => SubstitutedName(texts[i], mapping))
  }

  function SubstitutedObjects(targets: seq<string>, objects: CallMapping): (r: seq<string>)
    ensures |r| == |targets| && forall i :: 0 <= i < |targets| ==> r[i] == SubstitutedObject(targets[i], objects)
  {
    seq(|targets|, i requires 0 <= i < |targets| => SubstitutedObject(targets[i], objects))
  }

  /** The callee's node in terms of the caller. Loop variables and loop endpoints stay as they are. */
  ghost function SubstitutedNode(node: Node, mapping: CallMapping, objects: CallMapping): (r: Node)
    decreases node
  {
    match node
    case Access(target, indices) => Access(SubstitutedObject(target, objects), SubstitutedNames(indices, mapping))
    case Loop(variable, start, bound, step, body) =>
      Loop(variable, start, bound, step, SubstitutedBody(body, mapping, objects))
    case Call(callee, args, argObjects) =>
      Call(callee, SubstitutedNames(args, mapping),
           match argObjects
           case None => None
           case Some(targets) => Some(SubstitutedObjects(targets, objects)))
    case Unknown(_) => node
  }

  ghost function SubstitutedBody(body: seq<Node>, mapping: CallMapping, objects: CallMapping): (r: seq<Node>)
    ensures |r| == |body| && forall i :: 0 <= i < |body| ==> r[i] == SubstitutedNode(body[i], mapping, objects)
    decreases body
  {
    if body == [] then []
    else [SubstitutedNode(body[0], mapping, objects)] + SubstitutedBody(body[1..], mapping, objects)
  }

  method SubstituteNames(texts: seq<string>, mapping: CallMapping) returns (r: seq<string>)
    ensures r == SubstitutedNames(texts, mapping)
  {
    hide SubstitutedName;
    r := [];
    for k := 0 to |texts|
      invariant |r| == k && forall i :: 0 <= i < k ==> r[i] == SubstitutedName(texts[i], mapping)
    {
      var text := SubstituteName(texts[k], mapping);
      r := r + [text];
    }
  }

  method SubstituteNode(node: Node, mapping: CallMapping, objects: CallMapping) returns (r: Node)
    ensures r == SubstitutedNode(node, mapping, objects)
    decreases node
  {
    hide SubstitutedName;
    match node
    case Access(target, indices) =>
      var texts := SubstituteNames(indices, mapping);
      r := Access(SubstitutedObject(target, objects), texts);
    case Loop(variable, start, bound, step, body) =>
      var inner := [];
      for k := 0 to |body|
        invariant |inner| == k && forall i :: 0 <= i < k ==> inner[i] == SubstitutedNode(body[i], mapping, objects)
      {
        var child := SubstituteNode(body[k], mapping, objects);
        inner := inner + [child];
      }
      assert inner == SubstitutedBody(body, mapping, objects);
      r := Loop(variable, start, bound, step, inner);
    case Call(callee, args, argObjects) =>
      var texts := SubstituteNames(args, mapping);
      r := Call(callee, texts,
                if argObjects.None? then None else Some(SubstitutedObjects(argObjects.value, objects)));
    case Unknown(_) =>
      r := node;
  }
}
