/** Index and endpoint expressions bound once to loop slots, against re-reading their text in an environment. */
module IndexBinding {
  import opened Machine
  import opened AffineText
  import opened AffineFormat
  import opened NameOrder

  const I128_MIN: int := -0x8000_0000_0000_0000_0000_0000_0000_0000
  const I128_MAX: int := 0x7FFF_FFFF_FFFF_FFFF_FFFF_FFFF_FFFF_FFFF

  /** The lexical scope: loop variables with their slots, innermost first. */
  type LoopScope = seq<(string, nat)>

  /** The same scope carrying values instead of slots. */
  type Environment = seq<(string, int)>

  function FindSlot(name: string, scope: LoopScope): (slot: Option<nat>)
    ensures slot.Some? ==> exists i :: 0 <= i < |scope| && scope[i] == (name, slot.value)
  {
    if scope == [] then None
    else if scope[0].0 == name then Some(scope[0].1)
    else
      var slot := FindSlot(name, scope[1..]);
      assert slot.Some? ==> exists i :: 0 <= i < |scope| - 1 && scope[1..][i] == scope[i + 1] == (name, slot.value);
      slot
  }

  function Lookup(name: string, env: Environment): (v: Option<int>) {
    if env == [] then None else if env[0].0 == name then Some(env[0].1) else Lookup(name, env[1..])
  }

  // ----- exact integers

  predicate Space(c: char) {
    c == ' ' || c == '\t' || c == '\n' || c == '\r' || c as int == 11 || c as int == 12
  }

  function SkipSpaces(s: string): string {
    if s != "" && Space(s[0]) then SkipSpaces(s[1..]) else s
  }

  /** A whole text that `stoll` consumes: spaces, a sign, digits, within int64. */
  function ParseExactInteger(s: string): (v: Option<int>)
    ensures v.Some? ==> IsI64(v.value)
  {
    var t := SkipSpaces(s);
    var signed := t != "" && SignChar(t[0]);
    var digits := if signed then t[1..] else t;
    if digits == "" || TakeDigits(digits) != |digits| then None
    else
      assert digits[..|digits|] == digits;
      var value: int := if signed && t[0] == '-' then -(DecimalValue(digits) as int) else DecimalValue(digits);
      if IsI64(value) then Some(value) else None
  }

  /** A text is spaces, an optional sign and digits. */
  ghost predicate SpelledAs(s: string, spaces: string, sign: string, digits: string) {
    && s == spaces + sign + digits && sign in {"", "+", "-"} && digits != "" && AllDigits(digits)
    && forall i :: 0 <= i < |spaces| ==> Space(spaces[i])
  }

  lemma {:induction false} SpacesSkipped(spaces: string, rest: string)
    requires (forall i :: 0 <= i < |spaces| ==> Space(spaces[i])) && (rest == "" || !Space(rest[0]))
    ensures SkipSpaces(spaces + rest) == rest
  {
    if spaces == "" {
      assert spaces + rest == rest;
    } else {
      assert (spaces + rest)[1..] == spaces[1..] + rest;
      SpacesSkipped(spaces[1..], rest);
    }
  }

  /** Every such text within int64 is read as the integer it spells, and any other is not read. */
  lemma ExactIntegerReads(s: string, spaces: string, sign: string, digits: string)
    requires SpelledAs(s, spaces, sign, digits)
    ensures var v: int := if sign == "-" then -(DecimalValue(digits) as int) else DecimalValue(digits);
            ParseExactInteger(s) == if IsI64(v) then Some(v) else None
  {
    hide DecimalValue, TakeDigits;
    assert Digit(digits[0]);
    var rest := sign + digits;
    assert s == spaces + rest;
    SpacesSkipped(spaces, rest);
    assert digits + "" == digits;
    TakeDigitsAll(digits, "");
    if sign == "" {
      assert rest == digits;
    } else {
      assert rest[0] == sign[0] && rest[1..] == digits;
    }
  }

  lemma {:induction false} SpacesBefore(s: string) returns (spaces: string)
    ensures s == spaces + SkipSpaces(s) && forall i :: 0 <= i < |spaces| ==> Space(spaces[i])
  {
    spaces := "";
    if s != "" && Space(s[0]) {
      var rest := SpacesBefore(s[1..]);
      spaces := [s[0]] + rest;
    }
  }

  lemma ExactIntegerSpelled(s: string) returns (spaces: string, sign: string, digits: string)
    requires ParseExactInteger(s).Some?
    ensures SpelledAs(s, spaces, sign, digits)
  {
    hide DecimalValue, TakeDigits, SkipSpaces, Space;
    spaces := SpacesBefore(s);
    sign, digits := SignBefore(SkipSpaces(s));
    assert spaces + (sign + digits) == spaces + sign + digits;
    assert digits[..|digits|] == digits;
  }

  lemma SignBefore(t: string) returns (sign: string, digits: string)
    ensures t == sign + digits && sign in {"", "+", "-"}
    ensures digits == if t != "" && SignChar(t[0]) then t[1..] else t
  {
    sign, digits := "", t;
    if t != "" && SignChar(t[0]) {
      sign, digits := [t[0]], t[1..];
    }
  }

  /** The first sign after the first character. */
  function FirstSign(s: string, from: nat): (p: Option<nat>)
    ensures p.Some? ==> from <= p.value < |s| && SignChar(s[p.value])
    decreases |s| - from
  {
    if from >= |s| then None else if SignChar(s[from]) then Some(from) else FirstSign(s, from + 1)
  }

  // ----- binding

  /** An expression bound to slots, with its original spelling and fallbacks. */
  datatype PreparedIndex = PreparedIndex(
    expression: string, slot: Option<nat>, literal: Option<int>, offset: int,
    constant: Option<int>, terms: seq<(nat, int)>)

  function Unbound(expression: string): PreparedIndex {
    PreparedIndex(expression, None, None, 0, None, [])
  }

  /** The legacy form `variable±integer`, when its variable is in scope. */
  function SlotWithOffset(expression: string, scope: LoopScope): (r: Option<(nat, int)>) {
    match FirstSign(expression, 1)
    case None => None
    case Some(p) =>
      match (FindSlot(expression[..p], scope), ParseExactInteger(expression[p..]))
      case (Some(base), Some(offset)) => Some((base, offset))
      case _ => None
  }

  /** The slots of the names with their coefficients, up to the first unbound name. */
  ghost function BoundTerms(names: seq<string>, terms: map<string, int>, scope: LoopScope): (r: Option<seq<(nat, int)>>)
    requires forall name :: name in names ==> name in terms
  {
    if names == [] then Some([])
    else
      match FindSlot(names[0], scope)
      case None => None
      case Some(slot) => Joined([(slot, terms[names[0]])], BoundTerms(names[1..], terms, scope))
  }

  /** What the constructor binds, as far as evaluation can see it. */
  ghost function Bound(expression: string, scope: LoopScope): (p: PreparedIndex) {
    var p := Unbound(expression);
    match FindSlot(expression, scope)
    case Some(slot) => p.(slot := Some(slot))
    case None =>
      var literal := ParseExactInteger(expression);
      match SlotWithOffset(expression, scope)
      case Some((base, offset)) => p.(literal := literal, slot := Some(base), offset := offset)
      case None =>
        if literal.Some? then p.(literal := literal)
        else
          match ParseAffine(expression)
          case None => p
          case Some(e) =>
            match BoundSet(e.terms.Keys, e.terms, scope)
            case None => p
            case Some(terms) => p.(constant := Some(e.constant), terms := terms)
  }

  /**
   * An index as the constructor leaves it: a failed binding may leave terms behind, but never a constant to
   * use them with.
   */
  ghost predicate BoundAs(p: PreparedIndex, text: string, scope: LoopScope) {
    && (p.constant.Some? ==> p == Bound(text, scope))
    && (p.constant.None? ==> p.(terms := []) == Bound(text, scope))
  }

  /** The constructor. */
  method PrepareIndex(expression: string, scope: LoopScope) returns (p: PreparedIndex)
    ensures BoundAs(p, expression, scope)
  {
    hide ParseAffine, FindSlot, ParseExactInteger, Sorted;
    p := Unbound(expression);
    var slot := FindSlot(expression, scope);
    if slot.Some? {
      p := p.(slot := slot);
      return;
    }
    p := p.(literal := ParseExactInteger(expression));
    var position := FirstSign(expression, 1);
    if position.Some? {
      var base := FindSlot(expression[..position.value], scope);
      var offset := ParseExactInteger(expression[position.value..]);
      if base.Some? && offset.Some? {
        p := p.(slot := base, offset := offset.value);
        return;
      }
    }
    if p.literal.Some? {
      return;
    }
    var affine := ParseAffineExpression(expression);
    if affine.None? {
      return;
    }
    var terms, complete := BindTerms(affine.value.terms, scope);
    p := p.(terms := terms);
    if complete {
      p := p.(constant := Some(affine.value.constant));
    }
  }

  /** The slots of all names of a set, in map order. */
  ghost function BoundSet(names: set<string>, terms: map<string, int>, scope: LoopScope): (r: Option<seq<(nat, int)>>)
    requires names <= terms.Keys
  {
    BoundTerms(Sorted(names), terms, scope)
  }

  lemma BoundSetStep(names: set<string>, terms: map<string, int>, scope: LoopScope, name: string)
    requires names <= terms.Keys && IsFirst(name, names)
    ensures BoundSet(names, terms, scope)
            == match FindSlot(name, scope)
               case None => None
               case Some(slot) => Joined([(slot, terms[name])], BoundSet(names - {name}, terms, scope))
  {
    SortedStep(names, name);
    assert Sorted(names)[1..] == Sorted(names - {name});
  }

  /** Bind the terms in map order; stop at the first name without a slot. */
  method BindTerms(terms: map<string, int>, scope: LoopScope) returns (bound: seq<(nat, int)>, complete: bool)
    ensures complete <==> BoundSet(terms.Keys, terms, scope).Some?
    ensures complete ==> bound == BoundSet(terms.Keys, terms, scope).value
  {
    hide FindSlot, IsFirst, BoundSet;
    bound := [];
    var rest := terms.Keys;
    BoundAppend([], (0, 0), BoundSet(rest, terms, scope));
    while rest != {}
      invariant rest <= terms.Keys
      invariant BoundSet(terms.Keys, terms, scope) == Joined(bound, BoundSet(rest, terms, scope))
      decreases rest
    {
      var name := FirstName(rest);
      IsFirstMember(name, rest);
      BoundSetStep(rest, terms, scope, name);
      var slot := FindSlot(name, scope);
      if slot.None? {
        return bound, false;
      }
      BoundAppend(bound, (slot.value, terms[name]), BoundSet(rest - {name}, terms, scope));
      bound := bound + [(slot.value, terms[name])];
      rest := rest - {name};
    }
    BoundComplete(bound, terms, scope);
    complete := true;
  }

  lemma IsFirstMember(name: string, names: set<string>)
    requires IsFirst(name, names)
    ensures name in names
  {
  }

  lemma SortedMembers(names: set<string>)
    ensures forall name :: name in Sorted(names) <==> name in names
  {
  }

  lemma BoundComplete(bound: seq<(nat, int)>, terms: map<string, int>, scope: LoopScope)
    ensures Joined(bound, BoundSet({}, terms, scope)) == Some(bound)
  {
    assert bound + [] == bound;
  }

  ghost function Joined(bound: seq<(nat, int)>, more: Option<seq<(nat, int)>>): (r: Option<seq<(nat, int)>>) {
    match more
    case None => None
    case Some(terms) => Some(bound + terms)
  }

  lemma BoundAppend(bound: seq<(nat, int)>, next: (nat, int), more: Option<seq<(nat, int)>>)
    ensures Joined(bound, Joined([next], more)) == Joined(bound + [next], more)
    ensures Joined([], more) == more
  {
    if more.Some? {
      assert bound + ([next] + more.value) == (bound + [next]) + more.value;
      assert [] + more.value == more.value;
    }
  }

  // ----- evaluation

  /** Add the terms in order in 128 bits; a sum that leaves them fails. */
  ghost function WideSum(total: int, terms: seq<(nat, int)>, values: seq<int>): (r: Option<int>)
    requires forall i :: 0 <= i < |terms| ==> terms[i].0 < |values|
    decreases |terms|
  {
    if terms == [] then Some(total)
    else
      var next := total + terms[0].1 * values[terms[0].0];
      if I128_MIN <= next <= I128_MAX then WideSum(next, terms[1..], values) else None
  }

  /** Every slot the expression uses exists. */
  ghost predicate Evaluable(p: PreparedIndex, values: seq<int>) {
    && (p.slot.Some? ==> p.slot.value < |values|)
    && (p.constant.Some? ==> forall i :: 0 <= i < |p.terms| ==> p.terms[i].0 < |values|)
  }

  ghost function NumericValue(p: PreparedIndex, values: seq<int>): (r: Option<int>)
    requires Evaluable(p, values)
  {
    if p.constant.Some? then
      match WideSum(p.constant.value, p.terms, values)
      case Some(v) => if IsI64(v) then Some(v) else None
      case None => None
    else if p.slot.None? then p.literal
    else
      var resolved := values[p.slot.value] + p.offset;
      if IsI64(resolved) then Some(resolved) else p.literal
  }

  /** The accumulating loop of `evaluate_affine`. */
  method EvaluateAffine(constant: int, terms: seq<(nat, int)>, values: seq<int>) returns (r: Option<int>)
    requires forall i :: 0 <= i < |terms| ==> terms[i].0 < |values|
    ensures r == match WideSum(constant, terms, values)
                 case Some(v) => if IsI64(v) then Some(v) else None
                 case None => None
  {
    var total := constant;
    for i := 0 to |terms|
      invariant WideSum(constant, terms, values) == WideSum(total, terms[i..], values)
    {
      var next := total + terms[i].1 * values[terms[i].0];
      assert terms[i..][1..] == terms[i + 1..];
      if !(I128_MIN <= next <= I128_MAX) {
        return None;
      }
      total := next;
    }
    r := if IsI64(total) then Some(total) else None;
  }

  // ----- slots agree with environments

  /** The scope's slots hold the environment's values. */
  ghost predicate Holds(scope: LoopScope, values: seq<int>, env: Environment) {
    && |scope| == |env|
    && forall i :: 0 <= i < |scope| ==>
         scope[i].0 == env[i].0 && scope[i].1 < |values| && values[scope[i].1] == env[i].1
  }

  /** The same text re-read in an environment each time: the unprepared evaluation. */
  ghost function EvalText(text: string, env: Environment): (v: Option<int>) {
    match Lookup(text, env)
    case Some(v) => if IsI64(v) then Some(v) else None
    case None =>
      var literal := ParseExactInteger(text);
      match OffsetForm(text, env)
      case Some(sum) => if IsI64(sum) then Some(sum) else literal
      case None =>
        if literal.Some? then literal
        else
          match ParseAffine(text)
          case None => None
          case Some(e) =>
            match EvalNames(e.constant, Sorted(e.terms.Keys), e.terms, env)
            case Some(v) => if IsI64(v) then Some(v) else None
            case None => None
  }

  /** `variable±integer` in an environment, before the range check. */
  ghost function OffsetForm(text: string, env: Environment): (sum: Option<int>) {
    match FirstSign(text, 1)
    case None => None
    case Some(p) =>
      match (Lookup(text[..p], env), ParseExactInteger(text[p..]))
      case (Some(base), Some(offset)) => Some(base + offset)
      case _ => None
  }

  /** Coefficient times value, name by name, within 128 bits; absent when a name is unbound. */
  ghost function EvalNames(total: int, names: seq<string>, terms: map<string, int>, env: Environment): (v: Option<int>)
    requires forall name :: name in names ==> name in terms
    decreases |names|
  {
    if names == [] then Some(total)
    else
      match Lookup(names[0], env)
      case None => None
      case Some(value) =>
        var next := total + terms[names[0]] * value;
        if I128_MIN <= next <= I128_MAX then EvalNames(next, names[1..], terms, env) else None
  }

  lemma {:induction false} FindIsLookup(name: string, scope: LoopScope, values: seq<int>, env: Environment)
    requires Holds(scope, values, env)
    ensures FindSlot(name, scope).Some? <==> Lookup(name, env).Some?
    ensures FindSlot(name, scope).Some? ==>
              FindSlot(name, scope).value < |values| && values[FindSlot(name, scope).value] == Lookup(name, env).value
  {
    if scope != [] && scope[0].0 != name {
      FindIsLookup(name, scope[1..], values, env[1..]);
    }
  }

  lemma {:induction false} BoundIsEvalNames(total: int, names: seq<string>, terms: map<string, int>, scope: LoopScope,
                                            values: seq<int>, env: Environment)
    requires forall name :: name in names ==> name in terms
    requires Holds(scope, values, env)
    ensures var bound := BoundTerms(names, terms, scope);
            && (bound.None? ==> EvalNames(total, names, terms, env).None?)
            && (bound.Some? ==>
                  && (forall i :: 0 <= i < |bound.value| ==> bound.value[i].0 < |values|)
                  && EvalNames(total, names, terms, env) == WideSum(total, bound.value, values))
    decreases |names|
  {
    if names != [] {
      hide FindSlot, Lookup, Holds;
      FindIsLookup(names[0], scope, values, env);
      var slot, rest := FindSlot(names[0], scope), BoundTerms(names[1..], terms, scope);
      if slot.Some? {
        var next := total + terms[names[0]] * values[slot.value];
        BoundIsEvalNames(next, names[1..], terms, scope, values, env);
        if rest.Some? {
          assert ([(slot.value, terms[names[0]])] + rest.value)[1..] == rest.value;
        }
      }
    }
  }

  /** Environment values are int64 values. */
  ghost predicate EnvIsI64(env: Environment) {
    forall i :: 0 <= i < |env| ==> IsI64(env[i].1)
  }

  lemma {:induction false} LookupIsI64(name: string, env: Environment)
    requires EnvIsI64(env) && Lookup(name, env).Some?
    ensures IsI64(Lookup(name, env).value)
  {
    if env[0].0 != name {
      LookupIsI64(name, env[1..]);
    }
  }

  /** Binding once and evaluating by slot is re-reading the text in the environment. */
  lemma BoundIsEvalText(text: string, scope: LoopScope, values: seq<int>, env: Environment)
    requires Holds(scope, values, env) && EnvIsI64(env)
    ensures Evaluable(Bound(text, scope), values)
    ensures NumericValue(Bound(text, scope), values) == EvalText(text, env)
  {
    hide ParseExactInteger, FindSlot, Lookup, Sorted, Holds, EnvIsI64, BoundTerms, EvalNames, WideSum;
    FindIsLookup(text, scope, values, env);
    if Lookup(text, env).Some? {
      LookupIsI64(text, env);
    }
    if FirstSign(text, 1).Some? {
      FindIsLookup(text[..FirstSign(text, 1).value], scope, values, env);
    }
    if ParseAffine(text).Some? {
      var e := ParseAffine(text).value;
      SortedMembers(e.terms.Keys);
      BoundIsEvalNames(e.constant, Sorted(e.terms.Keys), e.terms, scope, values, env);
    }
  }

  // ----- the string form an access stream carries

  function IntegerText(v: int): (s: string) {
    if v < 0 then "-" + DecimalText(-v) else DecimalText(v)
  }

  /** The printed form of an integer reads back as it: only a negative one has a sign, and there is no leading zero. */
  lemma IntegerRoundTrip(v: int)
    requires IsI64(v)
    ensures ParseExactInteger(IntegerText(v)) == Some(v)
    ensures var s := IntegerText(v);
            s != "" && (s[0] == '-' <==> v < 0) && s[0] != '+' && (s[0] == '0' ==> s == "0")
  {
    hide DecimalText, TakeDigits, DecimalValue;
    var s := IntegerText(v);
    var digits := DecimalText(if v < 0 then -v else v);
    assert digits + "" == digits;
    TakeDigitsAll(digits, "");
    assert Digit(digits[0]);
    if v < 0 {
      assert s[1..] == digits;
    }
  }

  /** The substituted integer, or the original spelling when there is none. */
  ghost function TextValue(p: PreparedIndex, values: seq<int>): (s: string)
    requires Evaluable(p, values)
  {
    var affine := if p.constant.Some? then NumericValue(p, values) else None;
    if affine.Some? then IntegerText(affine.value)
    else if p.slot.Some? && IsI64(values[p.slot.value] + p.offset) then IntegerText(values[p.slot.value] + p.offset)
    else p.expression
  }

  /** The spelling an index takes in an environment: integer literals and unresolved texts stay as written. */
  ghost function EvalSpelling(text: string, env: Environment): (s: string) {
    if Lookup(text, env).None? && OffsetForm(text, env).None? && ParseExactInteger(text).Some? then text
    else if OffsetForm(text, env).Some? && Lookup(text, env).None? && !IsI64(OffsetForm(text, env).value) then text
    else
      match EvalText(text, env)
      case Some(v) => IntegerText(v)
      case None => text
  }

  /** The first sign of a text after its first character. */
  predicate SignAt(text: string, p: int) {
    1 <= p < |text| && SignChar(text[p]) && forall q :: 1 <= q < p ==> !SignChar(text[q])
  }

  lemma {:induction false} FirstSignAt(text: string, from: nat, p: int)
    requires from <= p < |text| && SignChar(text[p]) && forall q :: from <= q < p ==> !SignChar(text[q])
    ensures FirstSign(text, from) == Some(p)
    decreases |text| - from
  {
    if from < p {
      FirstSignAt(text, from + 1, p);
    }
  }

  lemma {:induction false} NoSign(text: string, from: nat)
    requires forall q :: from <= q < |text| ==> !SignChar(text[q])
    ensures FirstSign(text, from) == None
    decreases |text| - from
  {
    if from < |text| {
      NoSign(text, from + 1);
    }
  }

  /** `variable±integer`, split at the first sign. */
  ghost predicate OffsetText(text: string, env: Environment, p: int, base: int, offset: int) {
    SignAt(text, p) && Lookup(text[..p], env) == Some(base) && ParseExactInteger(text[p..]) == Some(offset)
  }

  /**
   * What a text can mean, first to last: a variable; a variable plus an integer, if the sum fits; an integer; and
   * only then an affine expression.
   */
  lemma TextPriority(text: string, env: Environment)
    requires EnvIsI64(env)
    ensures Lookup(text, env).Some? ==> EvalText(text, env) == Lookup(text, env)
    ensures forall p, base, offset :: Lookup(text, env).None? && OffsetText(text, env, p, base, offset) ==>
              EvalText(text, env) == if IsI64(base + offset) then Some(base + offset) else ParseExactInteger(text)
    ensures Lookup(text, env).None? && (forall p, base, offset :: !OffsetText(text, env, p, base, offset)) ==>
              ParseExactInteger(text).Some? ==> EvalText(text, env) == ParseExactInteger(text)
  {
    hide ParseExactInteger, ParseAffine, EvalNames, EnvIsI64, Lookup;
    if Lookup(text, env).Some? {
      LookupIsI64(text, env);
    }
    forall p, base, offset | OffsetText(text, env, p, base, offset)
      ensures OffsetForm(text, env) == Some(base + offset)
    {
      FirstSignAt(text, 1, p);
    }
    if OffsetForm(text, env).Some? {
      var p := FirstSign(text, 1).value;
      FirstSignIsAt(text, 1);
      assert OffsetText(text, env, p, Lookup(text[..p], env).value, ParseExactInteger(text[p..]).value);
    }
  }

  lemma {:induction false} FirstSignIsAt(text: string, from: nat)
    requires FirstSign(text, from).Some?
    ensures var p := FirstSign(text, from).value;
            from <= p < |text| && SignChar(text[p]) && forall q :: from <= q < p ==> !SignChar(text[q])
    decreases |text| - from
  {
    if !SignChar(text[from]) {
      FirstSignIsAt(text, from + 1);
    }
  }

  /** The spelling reads back as the value; a text without a value stays as written. */
  lemma SpellingMeaning(text: string, env: Environment)
    requires EnvIsI64(env)
    ensures match EvalText(text, env)
            case Some(v) => ParseExactInteger(EvalSpelling(text, env)) == Some(v)
                            && EvalSpelling(text, env) in {text, IntegerText(v)}
            case None => EvalSpelling(text, env) == text
  {
    hide ParseExactInteger, ParseAffine, EvalNames, EnvIsI64, Lookup, IntegerText, OffsetForm;
    if EvalText(text, env).Some? {
      EvaluatedIsI64(text, env);
      IntegerRoundTrip(EvalText(text, env).value);
    }
  }

  lemma EvaluatedIsI64(text: string, env: Environment)
    requires EvalText(text, env).Some?
    ensures IsI64(EvalText(text, env).value)
  {
    hide ParseAffine, EvalNames, Lookup, OffsetForm;
  }

  lemma BoundIsEvalSpelling(text: string, scope: LoopScope, values: seq<int>, env: Environment)
    requires Holds(scope, values, env) && EnvIsI64(env)
    ensures Evaluable(Bound(text, scope), values)
    ensures TextValue(Bound(text, scope), values) == EvalSpelling(text, env)
  {
    hide ParseExactInteger, FindSlot, Lookup, Sorted, Holds, EnvIsI64, BoundTerms, EvalNames, WideSum, IntegerText;
    BoundIsEvalText(text, scope, values, env);
    FindIsLookup(text, scope, values, env);
    if Lookup(text, env).Some? {
      LookupIsI64(text, env);
    }
    if FirstSign(text, 1).Some? {
      FindIsLookup(text[..FirstSign(text, 1).value], scope, values, env);
    }
  }

  /** Evaluating a prepared index is re-reading its text, in both forms. */
  lemma IndexValue(p: PreparedIndex, text: string, scope: LoopScope, values: seq<int>, env: Environment)
    requires BoundAs(p, text, scope) && Holds(scope, values, env) && EnvIsI64(env)
    ensures Evaluable(p, values) && NumericValue(p, values) == EvalText(text, env)
    ensures TextValue(p, values) == EvalSpelling(text, env)
  {
    hide Bound, EvalText, EvalSpelling, Holds, EnvIsI64;
    BoundIsEvalText(text, scope, values, env);
    BoundIsEvalSpelling(text, scope, values, env);
    TermsUnused(p, values);
  }

  /** Without a constant the terms are never read. */
  lemma TermsUnused(p: PreparedIndex, values: seq<int>)
    requires Evaluable(if p.constant.None? then p.(terms := []) else p, values)
    ensures Evaluable(p, values)
    ensures p.constant.None? ==>
              && NumericValue(p, values) == NumericValue(p.(terms := []), values)
              && TextValue(p, values) == TextValue(p.(terms := []), values)
  {
  }

  // ----- evaluation by slot

  /** The numeric value of a prepared index is that of its text, re-read with the variables its slots hold. */
  method EvaluateNumeric(p: PreparedIndex, values: seq<int>, ghost text: string, ghost scope: LoopScope,
                         ghost env: Environment)
    returns (r: Option<int>)
    requires BoundAs(p, text, scope) && Holds(scope, values, env) && EnvIsI64(env)
    ensures r == EvalText(text, env)
  {
    hide EvalText, BoundAs, Holds, EnvIsI64;
    IndexValue(p, text, scope, values, env);
    if p.constant.Some? {
      r := EvaluateAffine(p.constant.value, p.terms, values);
      return;
    }
    if p.slot.None? {
      return p.literal;
    }
    var resolved := values[p.slot.value] + p.offset;
    r := if IsI64(resolved) then Some(resolved) else p.literal;
  }

  /** The spelling of a prepared index is the one its text takes with the variables its slots hold. */
  method Evaluate(p: PreparedIndex, values: seq<int>, ghost text: string, ghost scope: LoopScope,
                  ghost env: Environment)
    returns (s: string)
    requires BoundAs(p, text, scope) && Holds(scope, values, env) && EnvIsI64(env)
    ensures s == EvalSpelling(text, env)
  {
    hide EvalSpelling, EvalText, BoundAs, Holds, EnvIsI64, IntegerText;
    IndexValue(p, text, scope, values, env);
    if p.constant.Some? {
      var value := EvaluateAffine(p.constant.value, p.terms, values);
      if value.Some? {
        return IntegerText(value.value);
      }
    }
    if p.slot.Some? {
      var resolved := values[p.slot.value] + p.offset;
      if IsI64(resolved) {
        return IntegerText(resolved);
      }
    }
    s := p.expression;
  }
}
