/** Evaluating an index text is evaluating the affine expression it spells. */
module IndexMeaning {
  import opened Machine
  import opened AffineTerms
  import opened AffineText
  import opened AffineFormat
  import opened NameOrder
  import opened IndexBinding

  /** The environment as an assignment to all names; unbound names are zero. */
  ghost function Values(env: Environment): (values: string -> int) {
    (name: string) => match Lookup(name, env) case Some(v) => v case None => 0
  }

  /** Loop variables are identifiers. */
  ghost predicate BindsIdentifiers(env: Environment) {
    forall i :: 0 <= i < |env| ==> Identifier(env[i].0)
  }

  ghost predicate BindsAll(e: Affine, env: Environment) {
    forall name :: name in e.terms ==> Lookup(name, env).Some?
  }

  // ----- what the 128-bit accumulator holds

  predicate Wide(v: int) {
    I128_MIN <= v <= I128_MAX
  }

  ghost function Members(names: seq<string>): (r: set<string>) {
    set name | name in names
  }

  /** The coefficients of some names only. */
  ghost function Kept(terms: map<string, int>, names: set<string>): (r: map<string, int>) {
    map name | name in terms && name in names :: terms[name]
  }

  /** The exact sum of a total and the terms of the first `k` names. */
  ghost function PrefixSum(total: int, names: seq<string>, terms: map<string, int>, values: string -> int, k: nat):
    (v: int)
    requires k <= |names|
  {
    total + SumTerms(Kept(terms, Members(names[..k])), values)
  }

  /** Every prefix with at least one term fits 128 bits. */
  ghost predicate PrefixesFit(total: int, names: seq<string>, terms: map<string, int>, values: string -> int) {
    forall k :: 0 < k <= |names| ==> Wide(PrefixSum(total, names, terms, values, k))
  }

  /** The constant plus the exact terms of the first names, in name order, fits 128 bits for every number of them. */
  ghost predicate FitsWide(e: Affine, env: Environment) {
    PrefixesFit(e.constant, Sorted(e.terms.Keys), e.terms, Values(env))
  }

  lemma {:induction false} BoundIsIdentifier(name: string, env: Environment)
    requires BindsIdentifiers(env) && Lookup(name, env).Some?
    ensures Identifier(name)
  {
    if env[0].0 != name {
      BoundIsIdentifier(name, env[1..]);
    }
  }

  // ----- the exact sum of the coefficients

  ghost predicate NamesOnce(names: seq<string>, terms: map<string, int>) {
    && (forall i, j :: 0 <= i < j < |names| ==> names[i] != names[j])
    && forall name :: name in names ==> name in terms
  }

  /** No name, no sum. */
  lemma PrefixNone(total: int, names: seq<string>, terms: map<string, int>, values: string -> int)
    ensures PrefixSum(total, names, terms, values, 0) == total
  {
    assert Kept(terms, Members(names[..0])) == map[];
  }

  /** One more name adds its term. */
  lemma PrefixNext(total: int, names: seq<string>, terms: map<string, int>, values: string -> int, k: nat)
    requires NamesOnce(names, terms) && k < |names|
    ensures names[k] in terms
    ensures PrefixSum(total, names, terms, values, k + 1)
            == PrefixSum(total, names, terms, values, k) + terms[names[k]] * values(names[k])
  {
    hide SumTerms, Kept;
    var more := Members(names[..k + 1]);
    assert names[..k + 1] == names[..k] + [names[k]];
    assert more - {names[k]} == Members(names[..k]);
    SumKept(more, terms, names[k], values);
  }

  /** Taking the first name into the total. */
  lemma PrefixTail(total: int, names: seq<string>, terms: map<string, int>, values: string -> int, k: nat)
    requires NamesOnce(names, terms) && k < |names|
    ensures names[0] in terms
    ensures PrefixSum(total, names, terms, values, k + 1)
            == PrefixSum(total + terms[names[0]] * values(names[0]), names[1..], terms, values, k)
  {
    hide SumTerms, Kept;
    var more := Members(names[..k + 1]);
    assert names[..k + 1] == [names[0]] + names[1..][..k];
    assert more - {names[0]} == Members(names[1..][..k]);
    SumKept(more, terms, names[0], values);
  }

  /** All prefixes fit exactly when the first does and those after it do. */
  lemma PrefixesSplit(total: int, names: seq<string>, terms: map<string, int>, values: string -> int)
    requires NamesOnce(names, terms) && names != []
    ensures names[0] in terms
    ensures var next := total + terms[names[0]] * values(names[0]);
            PrefixesFit(total, names, terms, values)
            <==> Wide(next) && PrefixesFit(next, names[1..], terms, values)
  {
    hide PrefixSum, Wide;
    var next := total + terms[names[0]] * values(names[0]);
    PrefixTail(total, names, terms, values, 0);
    PrefixNone(next, names[1..], terms, values);
    forall k | 0 <= k < |names|
      ensures PrefixSum(total, names, terms, values, k + 1) == PrefixSum(next, names[1..], terms, values, k)
    {
      PrefixTail(total, names, terms, values, k);
    }
    if PrefixesFit(total, names, terms, values) {
      forall k | 0 < k <= |names[1..]|
        ensures Wide(PrefixSum(next, names[1..], terms, values, k))
      {
        assert Wide(PrefixSum(total, names, terms, values, k + 1));
      }
      assert Wide(PrefixSum(total, names, terms, values, 1));
    }
    if Wide(next) && PrefixesFit(next, names[1..], terms, values) {
      forall k | 0 < k <= |names|
        ensures Wide(PrefixSum(total, names, terms, values, k))
      {
        var j: nat := k - 1;
        assert j > 0 ==> Wide(PrefixSum(next, names[1..], terms, values, j));
        assert PrefixSum(total, names, terms, values, j + 1) == PrefixSum(next, names[1..], terms, values, j);
      }
    }
  }

  /** The accumulating sum has a value exactly when every prefix fits, and it is the exact sum. */
  lemma {:induction false} NamesExact(total: int, names: seq<string>, terms: map<string, int>, env: Environment)
    requires NamesOnce(names, terms) && forall name :: name in names ==> Lookup(name, env).Some?
    ensures EvalNames(total, names, terms, env)
            == if PrefixesFit(total, names, terms, Values(env))
               then Some(PrefixSum(total, names, terms, Values(env), |names|)) else None
    decreases |names|
  {
    hide PrefixSum, Lookup;
    if names == [] {
      PrefixNone(total, names, terms, Values(env));
    } else {
      hide PrefixesFit;
      assert Lookup(names[0], env).Some?;
      var next := total + terms[names[0]] * Values(env)(names[0]);
      PrefixesSplit(total, names, terms, Values(env));
      PrefixTail(total, names, terms, Values(env), |names| - 1);
      if Wide(next) {
        NamesExact(next, names[1..], terms, env);
      }
    }
  }

  lemma SumKept(names: set<string>, terms: map<string, int>, name: string, values: string -> int)
    requires names <= terms.Keys && name in names
    ensures SumTerms(Kept(terms, names), values)
            == terms[name] * values(name) + SumTerms(Kept(terms, names - {name}), values)
  {
    hide SumTerms;
    SumRemove(Kept(terms, names), name, values);
    assert Kept(terms, names) - {name} == Kept(terms, names - {name});
  }

  // ----- the short forms spell the same sums

  lemma MeaningOne(t: Term, values: string -> int)
    requires WellFormed(t)
    ensures WellFormedSum([t]) && SumText([t]) == TermText(t)
    ensures Meaning([t], values) == Factor(t) * if t.name == "" then 1 else values(t.name)
  {
    assert [t][1..] == [];
    assert [t][..0] == [];
  }

  lemma MeaningTwo(t: Term, u: Term, values: string -> int)
    requires WellFormed(t) && WellFormed(u) && u.sign != ""
    ensures WellFormedSum([t, u]) && SumText([t, u]) == TermText(t) + TermText(u)
    ensures Meaning([t, u], values)
            == Meaning([t], values) + Factor(u) * if u.name == "" then 1 else values(u.name)
  {
    MeaningOne(u, values);
    assert [t, u][1..] == [u];
    assert [t, u][..1] == [t];
  }

  /** The names that a sum's terms carry. */
  ghost function TermNames(ts: seq<Term>): (names: set<string>) {
    set i | 0 <= i < |ts| && ts[i].name != "" :: ts[i].name
  }

  lemma {:induction false} AccumulateKeys(ts: seq<Term>)
    requires WellFormedSum(ts) && Accumulate(ts).Some?
    ensures Accumulate(ts).value.terms.Keys <= TermNames(ts)
  {
    if ts != [] {
      hide WellFormed, Factor;
      var front, last := ts[..|ts| - 1], ts[|ts| - 1];
      AccumulateKeys(front);
      forall name | name in TermNames(front)
        ensures name in TermNames(ts)
      {
        var i :| 0 <= i < |front| && front[i].name != "" && front[i].name == name;
        assert ts[i].name == name;
      }
      AddedKeys(Accumulate(front).value, TermAffine(last, Factor(last)), 1);
    }
  }

  /** A text parsed as a sum has at most the names of the sum. */
  lemma ParsedKeys(text: string, ts: seq<Term>)
    requires ParseAffine(text).Some? && ReadSum(text, true) == Some(ts)
    ensures ParseAffine(text).value.terms.Keys <= TermNames(ts)
  {
    ReadSumSound(text, true);
    AccumulateKeys(ts);
  }

  /** A product of two int64 values: the smallest is that of the two extremes, the largest that of the minimum. */
  lemma ProductBound(c: int, v: int)
    requires IsI64(c) && IsI64(v)
    ensures I64_MIN * I64_MAX <= c * v <= I64_MIN * I64_MIN
  {
    var m: nat := -I64_MIN;
    if c >= 0 && v >= 0 {
      ProductOrder(c, m, v);
      ProductOrder(v, m, m);
    } else if c < 0 && v < 0 {
      assert c * v == (-c) * (-v);
      ProductOrder(-c, m, -v);
      ProductOrder(-v, m, m);
    } else if c < 0 {
      assert c * v == -((-c) * v);
      ProductOrder(-c, m, v);
      ProductOrder(v, I64_MAX, m);
    } else {
      assert c * v == -((-v) * c);
      ProductOrder(-v, m, c);
      ProductOrder(c, I64_MAX, m);
    }
  }

  lemma SortedNames(e: Affine)
    ensures NamesOnce(Sorted(e.terms.Keys), e.terms) && |Sorted(e.terms.Keys)| == |e.terms.Keys|
    ensures PrefixSum(e.constant, Sorted(e.terms.Keys), e.terms, Values([]), 0) == e.constant
  {
    PrefixNone(e.constant, Sorted(e.terms.Keys), e.terms, Values([]));
  }

  lemma KeptAll(terms: map<string, int>, names: seq<string>)
    requires forall name :: name in names <==> name in terms
    ensures Kept(terms, Members(names)) == terms
  {
  }

  /** The value of an expression is the sum of all its terms in name order. */
  lemma WholeSum(e: Affine, values: string -> int)
    ensures PrefixSum(e.constant, Sorted(e.terms.Keys), e.terms, values, |Sorted(e.terms.Keys)|) == Eval(e, values)
  {
    hide SumTerms, Sorted;
    var names := Sorted(e.terms.Keys);
    assert names[..|names|] == names;
    KeptAll(e.terms, names);
  }

  /** One term of an expression in name order, and how far it can move the sum. */
  lemma NextTerm(e: Affine, env: Environment, k: nat)
    requires Normal(e) && BindsAll(e, env) && EnvIsI64(env) && k < |Sorted(e.terms.Keys)|
    ensures var names := Sorted(e.terms.Keys);
            I64_MIN * I64_MAX
            <= PrefixSum(e.constant, names, e.terms, Values(env), k + 1)
               - PrefixSum(e.constant, names, e.terms, Values(env), k)
            <= I64_MIN * I64_MIN
  {
    hide EnvIsI64, Lookup, PrefixSum, Sorted;
    SortedNames(e);
    var names := Sorted(e.terms.Keys);
    PrefixNext(e.constant, names, e.terms, Values(env), k);
    LookupIsI64(names[k], env);
    ProductBound(e.terms[names[k]], Values(env)(names[k]));
  }

  /** With at most one name no partial sum can leave 128 bits. */
  lemma OneNameFits(e: Affine, env: Environment, name: string)
    requires Normal(e) && e.terms.Keys <= {name} && BindsAll(e, env) && EnvIsI64(env)
    ensures FitsWide(e, env)
  {
    hide EnvIsI64, Lookup, PrefixSum, Sorted, BindsAll;
    SortedNames(e);
    PrefixNone(e.constant, Sorted(e.terms.Keys), e.terms, Values(env));
    SubsetCount(e.terms.Keys, {name});
    forall k | 0 < k <= |Sorted(e.terms.Keys)|
      ensures Wide(PrefixSum(e.constant, Sorted(e.terms.Keys), e.terms, Values(env), k))
    {
      NextTerm(e, env, k - 1);
    }
  }

  /** With at most four names a value that fits int64 is never lost in a partial sum. */
  lemma FourNamesFit(e: Affine, env: Environment)
    requires Normal(e) && BindsAll(e, env) && EnvIsI64(env) && |e.terms.Keys| <= 4
    requires IsI64(Eval(e, Values(env)))
    ensures FitsWide(e, env)
  {
    hide EnvIsI64, Lookup, PrefixSum, Sorted, BindsAll, Eval;
    var names := Sorted(e.terms.Keys);
    SortedNames(e);
    PrefixNone(e.constant, names, e.terms, Values(env));
    WholeSum(e, Values(env));
    forall k | 0 <= k < |names|
      ensures I64_MIN * I64_MAX
              <= PrefixSum(e.constant, names, e.terms, Values(env), k + 1)
                 - PrefixSum(e.constant, names, e.terms, Values(env), k)
              <= I64_MIN * I64_MIN
    {
      NextTerm(e, env, k);
    }
    var p := seq(|names| + 1, k requires 0 <= k <= |names| => PrefixSum(e.constant, names, e.terms, Values(env), k));
    FourStepsStayWide(p);
    forall k | 0 < k <= |names|
      ensures Wide(PrefixSum(e.constant, names, e.terms, Values(env), k))
    {
      assert Wide(p[k]);
    }
  }

  /** At most four steps of bounded size between two int64 values stay within 128 bits. */
  lemma FourStepsStayWide(p: seq<int>)
    requires 1 <= |p| <= 5 && IsI64(p[0]) && IsI64(p[|p| - 1])
    requires forall k :: 0 <= k < |p| - 1 ==> I64_MIN * I64_MAX <= p[k + 1] - p[k] <= I64_MIN * I64_MIN
    ensures forall k :: 0 <= k < |p| ==> Wide(p[k])
  {
    forall k | 0 <= k < |p|
      ensures Wide(p[k])
    {
      if k == 2 && |p| > 3 {
        assert p[3] - p[2] >= I64_MIN * I64_MAX && p[1] - p[0] >= I64_MIN * I64_MAX;
      }
    }
  }

  /** A bound name on its own. */
  lemma NameMeaning(name: string, values: string -> int)
    requires Identifier(name) && ParseAffine(name).Some?
    ensures Eval(ParseAffine(name).value, values) == values(name)
    ensures ParseAffine(name).value.terms.Keys <= {name}
  {
    hide Meaning, ParseAffine, ReadSum, Eval;
    var t := Term("", "", name);
    MeaningOne(t, values);
    assert TermText(t) == name;
    ReadingIsUnique(name, [t]);
    ParsedKeys(name, [t]);
    ParseMeaning(name, values);
  }

  /** A signed or unsigned run of digits. */
  lemma DigitsMeaning(sign: string, digits: string, values: string -> int)
    requires sign == "" || (|sign| == 1 && SignChar(sign[0]))
    requires digits != "" && AllDigits(digits) && ParseAffine(sign + digits).Some?
    ensures Eval(ParseAffine(sign + digits).value, values) == Factor(Term(sign, digits, ""))
    ensures ParseAffine(sign + digits).value.terms.Keys <= {}
  {
    hide Meaning, ParseAffine, AllDigits, ReadSum, Eval;
    var t := Term(sign, digits, "");
    MeaningOne(t, values);
    assert TermText(t) == sign + digits;
    ReadingIsUnique(sign + digits, [t]);
    ParsedKeys(sign + digits, [t]);
    ParseMeaning(sign + digits, values);
  }

  /** A bound name followed by a signed run of digits. */
  lemma OffsetMeaning(name: string, sign: string, digits: string, values: string -> int)
    requires Identifier(name) && |sign| == 1 && SignChar(sign[0]) && digits != "" && AllDigits(digits)
    requires ParseAffine(name + (sign + digits)).Some?
    ensures Eval(ParseAffine(name + (sign + digits)).value, values) == values(name) + Factor(Term(sign, digits, ""))
    ensures ParseAffine(name + (sign + digits)).value.terms.Keys <= {name}
  {
    hide Meaning, ParseAffine, AllDigits, ReadSum, Eval;
    var t, u := Term("", "", name), Term(sign, digits, "");
    MeaningOne(t, values);
    MeaningTwo(t, u, values);
    assert TermText(t) == name && TermText(u) == sign + digits;
    ReadingIsUnique(name + (sign + digits), [t, u]);
    ParsedKeys(name + (sign + digits), [t, u]);
    ParseMeaning(name + (sign + digits), values);
  }

  /** An exact integer without leading space is a signed run of digits. */
  lemma ExactIntegerForm(s: string) returns (sign: string, digits: string)
    requires s != "" && !Space(s[0]) && ParseExactInteger(s).Some?
    ensures s == sign + digits && (sign == "" || (|sign| == 1 && SignChar(sign[0])))
    ensures digits != "" && AllDigits(digits)
    ensures ParseExactInteger(s).value == Factor(Term(sign, digits, ""))
    ensures SignChar(s[0]) ==> |sign| == 1
  {
    sign := if SignChar(s[0]) then s[..1] else "";
    digits := if SignChar(s[0]) then s[1..] else s;
    assert digits[..|digits|] == digits;
  }

  lemma AffineStart(text: string)
    requires ParseAffine(text).Some?
    ensures text != "" && !Space(text[0])
  {
    assert ReadTerm(text, true).Some?;
  }

  /** A text that begins like an identifier is no integer. */
  lemma IdentifierIsNoInteger(text: string)
    requires text != "" && IdentifierStart(text[0])
    ensures ParseExactInteger(text) == None
  {
  }

  lemma OffsetText(text: string, env: Environment)
    requires BindsIdentifiers(env) && ParseAffine(text).Some? && OffsetForm(text, env).Some?
    ensures OffsetForm(text, env).value == Eval(ParseAffine(text).value, Values(env))
    ensures ParseExactInteger(text) == None
    ensures exists name :: ParseAffine(text).value.terms.Keys <= {name}
  {
    hide ParseAffine, ParseExactInteger, Eval, Identifier, BindsIdentifiers, AllDigits, Factor;
    var p := FirstSign(text, 1).value;
    var name, tail := text[..p], text[p..];
    assert text == name + tail;
    BoundIsIdentifier(name, env);
    var sign, digits := ExactIntegerForm(tail);
    OffsetMeaning(name, sign, digits, Values(env));
    IdentifierStarts(name, text);
    IdentifierIsNoInteger(text);
  }

  lemma IdentifierStarts(name: string, text: string)
    requires Identifier(name) && name <= text
    ensures text != "" && IdentifierStart(text[0])
  {
  }

  lemma LiteralText(text: string, env: Environment)
    requires ParseAffine(text).Some? && ParseExactInteger(text).Some?
    ensures ParseExactInteger(text).value == Eval(ParseAffine(text).value, Values(env))
    ensures ParseAffine(text).value.terms.Keys <= {}
  {
    hide ParseAffine, ParseExactInteger, Eval, AllDigits, Factor;
    AffineStart(text);
    var sign, digits := ExactIntegerForm(text);
    DigitsMeaning(sign, digits, Values(env));
  }

  /**
   * An index over bound names has a value exactly when the exact integer value of the affine expression the
   * text spells fits int64 and so does, in 128 bits, the constant plus the exact terms of any first names in
   * name order; it is then that value.
   */
  lemma EvalTextIsExact(text: string, env: Environment)
    requires BindsIdentifiers(env) && EnvIsI64(env) && ParseAffine(text).Some? && BindsAll(ParseAffine(text).value, env)
    ensures var exact := Eval(ParseAffine(text).value, Values(env));
            EvalText(text, env)
            == if IsI64(exact) && FitsWide(ParseAffine(text).value, env) then Some(exact) else None
  {
    hide ParseAffine, ParseExactInteger, Eval, Identifier, BindsIdentifiers, OffsetForm, Sorted, EvalNames, EnvIsI64,
         FitsWide, Normal, BindsAll;
    var e := ParseAffine(text).value;
    ParseMeaning(text, Values(env));
    if Lookup(text, env).Some? {
      BoundIsIdentifier(text, env);
      NameMeaning(text, Values(env));
      LookupIsI64(text, env);
      OneNameFits(e, env, text);
    } else if OffsetForm(text, env).Some? {
      OffsetText(text, env);
      var name :| e.terms.Keys <= {name};
      OneNameFits(e, env, name);
    } else if ParseExactInteger(text).Some? {
      LiteralText(text, env);
      OneNameFits(e, env, "");
    } else {
      GeneralText(text, env);
    }
  }

  /** An index over at most four bound names has exactly its value, whenever that fits int64. */
  lemma FourNamesExact(text: string, env: Environment)
    requires BindsIdentifiers(env) && EnvIsI64(env) && ParseAffine(text).Some? && BindsAll(ParseAffine(text).value, env)
    requires |ParseAffine(text).value.terms.Keys| <= 4
    ensures var exact := Eval(ParseAffine(text).value, Values(env));
            EvalText(text, env) == if IsI64(exact) then Some(exact) else None
  {
    hide ParseAffine, EvalText, Eval, BindsIdentifiers, EnvIsI64, FitsWide, BindsAll, Normal;
    EvalTextIsExact(text, env);
    ParseMeaning(text, Values(env));
    if IsI64(Eval(ParseAffine(text).value, Values(env))) {
      FourNamesFit(ParseAffine(text).value, env);
    }
  }

  /** In no int64 environment that gives the text a value fitting int64 does a partial sum leave 128 bits. */
  ghost predicate NeverLost(text: string) {
    ParseAffine(text).Some? ==>
      var e := ParseAffine(text).value;
      forall env: Environment ::
        EnvIsI64(env) && BindsAll(e, env) && IsI64(Eval(e, Values(env))) ==> FitsWide(e, env)
  }

  /** At most four names are enough for that. */
  lemma FourNamesNeverLost(text: string)
    requires ParseAffine(text).Some? ==> |ParseAffine(text).value.terms.Keys| <= 4
    ensures NeverLost(text)
  {
    hide ParseAffine, EnvIsI64, BindsAll, Eval, FitsWide, Normal;
    if ParseAffine(text).Some? {
      var e := ParseAffine(text).value;
      ParseMeaning(text, Values([]));
      forall env: Environment | EnvIsI64(env) && BindsAll(e, env) && IsI64(Eval(e, Values(env)))
        ensures FitsWide(e, env)
      {
        FourNamesFit(e, env);
      }
    }
  }

  /** The general form is evaluated term by term. */
  lemma GeneralText(text: string, env: Environment)
    requires ParseAffine(text).Some? && Lookup(text, env).None? && OffsetForm(text, env).None?
    requires ParseExactInteger(text).None? && BindsAll(ParseAffine(text).value, env)
    ensures var e := ParseAffine(text).value;
            EvalText(text, env)
            == if IsI64(Eval(e, Values(env))) && FitsWide(e, env) then Some(Eval(e, Values(env))) else None
  {
    hide ParseAffine, ParseExactInteger, Eval, OffsetForm, Sorted, EvalNames, PrefixSum, PrefixesFit, Lookup;
    var e := ParseAffine(text).value;
    SortedMembers(e.terms.Keys);
    SortedNames(e);
    NamesExact(e.constant, Sorted(e.terms.Keys), e.terms, env);
    WholeSum(e, Values(env));
  }

  // ----- five names are too many

  const FIVE_NAMES: Affine :=
    Affine(0, map["a" := I64_MIN, "b" := I64_MIN, "c" := I64_MIN, "d" := I64_MIN, "e" := -2])

  const FIVE_VALUES: Environment :=
    [("a", I64_MIN), ("b", I64_MIN), ("c", I64_MAX), ("d", I64_MAX), ("e", I64_MAX)]

  lemma {:induction false} LookupAt(env: Environment, i: nat)
    requires i < |env| && forall j :: 0 <= j < i ==> env[j].0 != env[i].0
    ensures Lookup(env[i].0, env) == Some(env[i].1)
  {
    if i > 0 {
      assert env[1..][i - 1] == env[i];
      LookupAt(env[1..], i - 1);
    }
  }

  /** The five values are those of five different identifiers. */
  lemma FiveValues()
    ensures BindsIdentifiers(FIVE_VALUES) && EnvIsI64(FIVE_VALUES) && BindsAll(FIVE_NAMES, FIVE_VALUES)
    ensures Printable(FIVE_NAMES)
    ensures var v := Values(FIVE_VALUES);
            v("a") == v("b") == I64_MIN && v("c") == v("d") == v("e") == I64_MAX
  {
    hide Lookup;
    forall i | 0 <= i < 5
      ensures Lookup(FIVE_VALUES[i].0, FIVE_VALUES) == Some(FIVE_VALUES[i].1)
    {
      LookupAt(FIVE_VALUES, i);
    }
    assert FIVE_VALUES[0].0 == "a" && FIVE_VALUES[1].0 == "b" && FIVE_VALUES[2].0 == "c";
    assert FIVE_VALUES[3].0 == "d" && FIVE_VALUES[4].0 == "e";
  }

  /** A list in increasing order is the sorted list of its members. */
  lemma {:induction false} SortedOf(s: seq<string>)
    requires forall i, j :: 0 <= i < j < |s| ==> NameOrder.Before(s[i], s[j])
    ensures Sorted(Members(s)) == s
  {
    hide NameOrder.Before, Sorted;
    if s == [] {
      assert Members(s) == {};
      SortedNothing();
    } else {
      forall other | other in Members(s) && other != s[0]
        ensures NameOrder.Before(s[0], other)
      {
        var j :| 0 <= j < |s| && s[j] == other;
      }
      BeforeTotal(s[0], s[0]);
      assert Members(s) - {s[0]} == Members(s[1..]);
      SortedStep(Members(s), s[0]);
      SortedOf(s[1..]);
    }
  }

  const FIVE: seq<string> := ["a", "b", "c", "d", "e"]

  lemma FiveSorted()
    ensures Sorted(FIVE_NAMES.terms.Keys) == FIVE
  {
    hide Sorted;
    forall i, j | 0 <= i < j < 5
      ensures NameOrder.Before(FIVE[i], FIVE[j])
    {
      assert |FIVE[i]| == |FIVE[j]| == 1 && FIVE[i][0] < FIVE[j][0];
    }
    assert Members(FIVE) == FIVE_NAMES.terms.Keys;
    SortedOf(FIVE);
  }

  ghost function FivePrefix(k: nat): (v: int)
    requires k <= 5
  {
    PrefixSum(0, FIVE, FIVE_NAMES.terms, Values(FIVE_VALUES), k)
  }

  /** One of the five terms. */
  lemma FiveTerm(k: nat, name: string, coefficient: int, value: int)
    requires k < 5 && FIVE[k] == name && name in FIVE_NAMES.terms && FIVE_NAMES.terms[name] == coefficient
    requires Values(FIVE_VALUES)(name) == value
    ensures FivePrefix(k + 1) == FivePrefix(k) + coefficient * value
  {
    hide PrefixSum, Sorted, Values;
    FiveSorted();
    SortedNames(FIVE_NAMES);
    PrefixNext(0, FIVE, FIVE_NAMES.terms, Values(FIVE_VALUES), k);
  }

  lemma FiveNamesSteps()
    ensures FivePrefix(0) == 0
    ensures FivePrefix(1) == I64_MIN * I64_MIN
    ensures FivePrefix(2) == FivePrefix(1) + I64_MIN * I64_MIN
    ensures FivePrefix(3) == FivePrefix(2) + I64_MIN * I64_MAX
    ensures FivePrefix(4) == FivePrefix(3) + I64_MIN * I64_MAX
    ensures FivePrefix(5) == FivePrefix(4) + -2 * I64_MAX
  {
    hide PrefixSum, Sorted, Values;
    FiveValues();
    PrefixNone(0, FIVE, FIVE_NAMES.terms, Values(FIVE_VALUES));
    assert FivePrefix(0) == 0;
    hide FivePrefix;
    FiveTerm(0, "a", I64_MIN, I64_MIN);
    FiveTerm(1, "b", I64_MIN, I64_MIN);
    FiveTerm(2, "c", I64_MIN, I64_MAX);
    FiveTerm(3, "d", I64_MIN, I64_MAX);
    FiveTerm(4, "e", -2, I64_MAX);
  }

  /** The sum is 2, but the first two terms already add up to 2^127. */
  lemma FiveNamesSum()
    ensures Eval(FIVE_NAMES, Values(FIVE_VALUES)) == 2 && !FitsWide(FIVE_NAMES, FIVE_VALUES)
  {
    hide PrefixSum, Sorted, Values, Eval;
    FiveSorted();
    FiveNamesSteps();
    WholeSum(FIVE_NAMES, Values(FIVE_VALUES));
    assert !Wide(FivePrefix(2));
  }

  /**
   * Five names are too many: the text of an expression over five int64 variables whose exact value is 2 has
   * no numeric value, because its first two terms leave 128 bits.
   */
  lemma FiveNamesLost()
    ensures var text := FormatAffine(FIVE_NAMES);
            && ParseAffine(text) == Some(FIVE_NAMES) && |FIVE_NAMES.terms.Keys| == 5
            && Eval(FIVE_NAMES, Values(FIVE_VALUES)) == 2 && EvalText(text, FIVE_VALUES) == None
  {
    hide Values, FitsWide, EvalText, ParseAffine, FormatAffine, Eval, BindsIdentifiers, EnvIsI64, BindsAll, Printable;
    FiveValues();
    FiveNamesSum();
    FormatRoundTrip(FIVE_NAMES);
    EvalTextIsExact(FormatAffine(FIVE_NAMES), FIVE_VALUES);
    assert FIVE_NAMES.terms.Keys == {"a", "b", "c", "d", "e"};
  }
}
