/** Printing affine expressions, reading them back, and the imperative parser and printer. */
module AffineFormat {
  import opened Machine
  import opened AffineTerms
  import opened AffineText
  import opened NameOrder

  // ----- printing

  /** The signed term the printer writes for a coefficient. */
  function TermOf(value: int, name: string, first: bool): (t: Term) {
    var magnitude: nat := if value < 0 then -value else value;
    Term(if value < 0 then "-" else if first then "" else "+",
         if name == "" || magnitude != 1 then DecimalText(magnitude) else "", name)
  }

  lemma TermOfFacts(value: int, name: string, first: bool)
    requires name == "" || Identifier(name)
    ensures WellFormed(TermOf(value, name, first)) && Factor(TermOf(value, name, first)) == value
    ensures !first ==> TermOf(value, name, first).sign != ""
  {
  }

  /** The terms of an expression in map order, with the constant last. */
  ghost function FormatTerms(e: Affine): (ts: seq<Term>) {
    var names := Sorted(e.terms.Keys);
    seq(|names|, i requires 0 <= i < |names| => TermOf(e.terms[names[i]], names[i], i == 0))
    + if e.constant != 0 || names == [] then [TermOf(e.constant, "", names == [])] else []
  }

  ghost function FormatAffine(e: Affine): (s: string) {
    SumText(FormatTerms(e))
  }

  /** Normalized over valid identifiers. */
  ghost predicate Printable(e: Affine) {
    Normal(e) && forall name :: name in e.terms ==> Identifier(name)
  }

  ghost function Restricted(terms: map<string, int>, names: seq<string>): (r: map<string, int>) {
    map name | name in terms && name in names :: terms[name]
  }

  lemma FormatTermsWellFormed(e: Affine)
    requires Printable(e)
    ensures WellFormedSum(FormatTerms(e)) && FormatTerms(e) != []
  {
    var names, ts := Sorted(e.terms.Keys), FormatTerms(e);
    forall i | 0 <= i < |ts|
      ensures WellFormed(ts[i]) && (i > 0 ==> ts[i].sign != "")
    {
      if i < |names| {
        assert names[i] in e.terms;
        TermOfFacts(e.terms[names[i]], names[i], i == 0);
      } else {
        TermOfFacts(e.constant, "", names == []);
      }
    }
  }

  /** Each name in map order has its term at its own place. */
  lemma FormatTermAt(e: Affine, i: nat)
    requires i < |Sorted(e.terms.Keys)|
    ensures var names, ts := Sorted(e.terms.Keys), FormatTerms(e);
            && i < |ts| && names[i] in e.terms
            && ts[i] == TermOf(e.terms[names[i]], names[i], i == 0)
  {
    assert Sorted(e.terms.Keys)[i] in Sorted(e.terms.Keys);
  }

  /** After the names comes the constant, or nothing. */
  lemma FormatTermsEnd(e: Affine)
    ensures var names, ts := Sorted(e.terms.Keys), FormatTerms(e);
            && |names| <= |ts|
            && (e.constant != 0 || names == [] ==> ts == ts[..|names|] + [TermOf(e.constant, "", names == [])])
            && (e.constant == 0 && names != [] ==> ts == ts[..|names|])
  {
  }

  /**
   * A term writes a value: a sign where it is negative or not first, and the magnitude without leading zeros, left
   * out where a name has it one.
   */
  ghost predicate WritesTerm(t: Term, value: int, name: string, first: bool) {
    && t.name == name && t.sign == (if value < 0 then "-" else if first then "" else "+")
    && if name != "" && (value == 1 || value == -1) then t.digits == ""
       else
         && t.digits != "" && AllDigits(t.digits) && (t.digits[0] == '0' ==> t.digits == "0")
         && DecimalValue(t.digits) == if value < 0 then -value else value
  }

  /** The terms write an expression: every name once, in increasing order, then the constant unless it adds nothing. */
  ghost predicate Writes(ts: seq<Term>, e: Affine) {
    var n := |e.terms|;
    && n <= |ts| && (forall i, j :: 0 <= i < j < n ==> NameOrder.Before(ts[i].name, ts[j].name))
    && (forall i :: 0 <= i < n ==> ts[i].name in e.terms && WritesTerm(ts[i], e.terms[ts[i].name], ts[i].name, i == 0))
    && if e.constant != 0 || n == 0 then |ts| == n + 1 && WritesTerm(ts[n], e.constant, "", n == 0) else |ts| == n
  }

  lemma TermWritten(value: int, name: string, first: bool)
    ensures WritesTerm(TermOf(value, name, first), value, name, first)
  {
  }

  lemma FormatWrites(e: Affine)
    ensures Writes(FormatTerms(e), e)
  {
    hide TermOf, WritesTerm, NameOrder.Before, Sorted;
    var names, ts := Sorted(e.terms.Keys), FormatTerms(e);
    SortedIncreases(e.terms.Keys);
    assert |e.terms| == |e.terms.Keys|;
    forall i | 0 <= i < |names|
      ensures ts[i].name == names[i] && names[i] in e.terms
              && WritesTerm(ts[i], e.terms[names[i]], names[i], i == 0)
    {
      FormatTermAt(e, i);
      NamedTerm(e.terms[names[i]], names[i], i == 0);
      TermWritten(e.terms[names[i]], names[i], i == 0);
    }
    TermWritten(e.constant, "", names == []);
  }

  /** Entering a coefficient under a new name never overflows. */
  lemma AddNewName(terms: map<string, int>, name: string, value: int)
    requires name !in terms && value != 0 && IsI64(value)
    ensures Added(Affine(0, terms), Affine(0, map[name := value]), 1) == Some(Affine(0, terms[name := value]))
  {
    var source := map[name := value];
    assert value * 1 == value;
    assert AddFits(Affine(0, terms), Affine(0, source), 1);
    assert AddResult(Affine(0, terms), Affine(0, source), 1).terms == terms[name := value];
  }

  lemma RestrictedStep(terms: map<string, int>, names: seq<string>, n: nat)
    requires n < |names| && names[n] in terms && forall i, j :: 0 <= i < j < |names| ==> names[i] != names[j]
    ensures names[n] !in Restricted(terms, names[..n])
    ensures Restricted(terms, names[..n + 1]) == Restricted(terms, names[..n])[names[n] := terms[names[n]]]
  {
    assert names[..n + 1] == names[..n] + [names[n]];
  }

  /** The first `n` printed terms add up to the first `n` coefficients. */
  lemma {:induction false} AccumulateNames(e: Affine, n: nat)
    requires Printable(e) && n <= |Sorted(e.terms.Keys)| <= |FormatTerms(e)|
    requires WellFormedSum(FormatTerms(e))
    ensures Accumulate(FormatTerms(e)[..n]) == Some(Affine(0, Restricted(e.terms, Sorted(e.terms.Keys)[..n])))
  {
    hide FormatTerms, WellFormed, Sorted, Accumulate, Restricted;
    var names, ts := Sorted(e.terms.Keys), FormatTerms(e);
    if n == 0 {
      AccumulateNothing(e.terms, names, ts);
    } else {
      AccumulateNames(e, n - 1);
      AccumulateName(e, names, ts, n - 1);
    }
  }

  lemma AccumulateNothing(terms: map<string, int>, names: seq<string>, ts: seq<Term>)
    ensures Accumulate(ts[..0]) == Some(Affine(0, Restricted(terms, names[..0])))
  {
    assert Restricted(terms, names[..0]) == map[];
  }

  lemma AccumulateName(e: Affine, names: seq<string>, ts: seq<Term>, n: nat)
    requires Printable(e) && names == Sorted(e.terms.Keys) && ts == FormatTerms(e) && WellFormedSum(ts)
    requires n < |names| <= |ts| && Accumulate(ts[..n]) == Some(Affine(0, Restricted(e.terms, names[..n])))
    ensures Accumulate(ts[..n + 1]) == Some(Affine(0, Restricted(e.terms, names[..n + 1])))
  {
    hide FormatTerms, Accumulate, Restricted, Added, WellFormed, Factor, TermOf, Sorted, Normal;
    FormatTermAt(e, n);
    var name := names[n];
    TermOfFacts(e.terms[name], name, n == 0);
    NamedTerm(e.terms[name], name, n == 0);
    RestrictedStep(e.terms, names, n);
    CoefficientIsI64(e, name);
    AddNewName(Restricted(e.terms, names[..n]), name, e.terms[name]);
    AccumulateStep(ts[..n + 1]);
    assert ts[..n + 1][..n] == ts[..n];
  }

  lemma CoefficientIsI64(e: Affine, name: string)
    requires Normal(e) && name in e.terms
    ensures IsI64(e.terms[name]) && e.terms[name] != 0
  {
  }

  lemma NamedTerm(value: int, name: string, first: bool)
    ensures TermOf(value, name, first).name == name
  {
  }

  lemma AccumulateStep(ts: seq<Term>)
    requires WellFormedSum(ts) && ts != []
    ensures var last := ts[|ts| - 1];
            Accumulate(ts) == match Accumulate(ts[..|ts| - 1])
                              case None => None
                              case Some(e) => if IsI64(Factor(last)) then Added(e, TermAffine(last, Factor(last)), 1)
                                  else None
  {
  }

  lemma AccumulateFormat(e: Affine)
    requires Printable(e) && WellFormedSum(FormatTerms(e))
    ensures Accumulate(FormatTerms(e)) == Some(e)
  {
    hide FormatTerms, Accumulate, WellFormed, Factor, TermOf, Restricted, Added, Sorted;
    var names, ts := Sorted(e.terms.Keys), FormatTerms(e);
    FormatTermsEnd(e);
    AccumulateNames(e, |names|);
    RestrictedAll(e.terms, names);
    assert names[..|names|] == names;
    if e.constant != 0 || names == [] {
      AccumulateStep(ts);
      TermOfFacts(e.constant, "", names == []);
      NamedTerm(e.constant, "", names == []);
      assert ts[..|ts| - 1] == ts[..|names|];
      AddConstant(e.terms, e.constant);
    }
  }

  lemma RestrictedAll(terms: map<string, int>, names: seq<string>)
    requires forall name :: name in names <==> name in terms
    ensures Restricted(terms, names) == terms
  {
  }

  /** Parser and printer undo each other: a printed expression is read back exactly. */
  lemma FormatRoundTrip(e: Affine)
    requires Printable(e)
    ensures ParseAffine(FormatAffine(e)) == Some(e)
  {
    hide FormatTerms, Accumulate, WellFormed;
    FormatTermsWellFormed(e);
    ReadSumComplete(FormatTerms(e), true);
    AccumulateFormat(e);
    SumTextNonempty(FormatTerms(e));
  }

  lemma AddConstant(terms: map<string, int>, constant: int)
    requires IsI64(constant)
    ensures Added(Affine(0, terms), Affine(constant, map[]), 1) == Some(Affine(constant, terms))
  {
    assert constant * 1 == constant;
    assert AddResult(Affine(0, terms), Affine(constant, map[]), 1).terms == terms;
  }

  lemma SumTextNonempty(ts: seq<Term>)
    requires WellFormedSum(ts) && ts != []
    ensures SumText(ts) != ""
  {
    ReadTermComplete(ts[0], "", true);
  }

  lemma {:induction false} SumTextAppend(ts: seq<Term>, t: Term)
    ensures SumText(ts + [t]) == SumText(ts) + TermText(t)
  {
    if ts == [] {
      assert ts + [t] == [t] && [t][1..] == [];
    } else {
      assert (ts + [t])[1..] == ts[1..] + [t];
      SumTextAppend(ts[1..], t);
    }
  }

  /** The printer has written the first `done` names and has `rest` to go. */
  ghost predicate Printed(e: Affine, rest: set<string>, done: nat, text: string) {
    var names := Sorted(e.terms.Keys);
    && done <= |names| <= |FormatTerms(e)| && rest <= e.terms.Keys && Sorted(rest) == names[done..]
    && text == SumText(FormatTerms(e)[..done])
  }

  lemma PrintStarts(e: Affine)
    ensures Printed(e, e.terms.Keys, 0, "")
  {
    FormatTermsEnd(e);
    assert FormatTerms(e)[..0] == [];
    assert Sorted(e.terms.Keys)[0..] == Sorted(e.terms.Keys);
  }

  lemma SumTextNext(ts: seq<Term>, n: nat)
    requires n < |ts|
    ensures SumText(ts[..n + 1]) == SumText(ts[..n]) + TermText(ts[n])
  {
    assert ts[..n + 1] == ts[..n] + [ts[n]];
    SumTextAppend(ts[..n], ts[n]);
  }

  lemma TailStep(names: seq<string>, done: nat, name: string, tail: seq<string>)
    requires done <= |names| && names[done..] == [name] + tail
    ensures done < |names| && names[done] == name && names[done + 1..] == tail
  {
    assert names[done] == names[done..][0];
    assert names[done + 1..] == names[done..][1..];
  }

  /** Writing the next name in map order keeps the printer in step. */
  lemma PrintStep(e: Affine, rest: set<string>, done: nat, text: string, name: string)
    requires Printed(e, rest, done, text) && IsFirst(name, rest)
    ensures name in e.terms
    ensures Printed(e, rest - {name}, done + 1, text + TermText(TermOf(e.terms[name], name, text == "")))
  {
    hide FormatTerms, TermOf, TermText, SumText, IsFirst, Sorted;
    var names, ts := Sorted(e.terms.Keys), FormatTerms(e);
    SortedStep(rest, name);
    TailStep(names, done, name, Sorted(rest - {name}));
    FormatTermAt(e, done);
    PrintedEmpty(e, done);
    SumTextNext(ts, done);
  }

  lemma PrintEnds(e: Affine, done: nat, text: string)
    requires Printed(e, {}, done, text)
    ensures FormatAffine(e)
            == text + if e.constant != 0 || text == "" then TermText(TermOf(e.constant, "", text == "")) else ""
  {
    hide FormatTerms, TermOf, TermText, SumText;
    var names, ts := Sorted(e.terms.Keys), FormatTerms(e);
    SortedNothing();
    FormatTermsEnd(e);
    PrintedEmpty(e, done);
    SumTextAppend(ts[..done], TermOf(e.constant, "", names == []));
  }

  /** Every printed term has a name or digits. */
  lemma TermOfText(value: int, name: string, first: bool)
    ensures TermText(TermOf(value, name, first)) != ""
  {
  }

  /** Nothing is written exactly before the first term. */
  lemma PrintedEmpty(e: Affine, done: nat)
    requires done <= |FormatTerms(e)|
    ensures SumText(FormatTerms(e)[..done]) == "" <==> done == 0
  {
    if done > 0 {
      var names, ts := Sorted(e.terms.Keys), FormatTerms(e);
      assert ts[..done][0] == ts[0];
      if names != [] {
        FormatTermAt(e, 0);
        TermOfText(e.terms[names[0]], names[0], true);
      } else {
        TermOfText(e.constant, "", true);
      }
    }
  }

  /** The printer's loop over the map, then the constant. */
  method FormatAffineExpression(e: Affine) returns (result: string)
    ensures result == FormatAffine(e)
    ensures exists ts :: Writes(ts, e) && result == SumText(ts)
  {
    FormatWrites(e);
    assert FormatAffine(e) == SumText(FormatTerms(e));
    hide Printed, TermOf, TermText, FormatAffine, IsFirst, Writes, FormatTerms, SumText;
    result := "";
    var rest := e.terms.Keys;
    ghost var done := 0;
    PrintStarts(e);
    while rest != {}
      invariant rest <= e.terms.Keys && Printed(e, rest, done, result)
      decreases rest
    {
      var name := FirstName(rest);
      PrintStep(e, rest, done, result, name);
      result := result + TermText(TermOf(e.terms[name], name, result == ""));
      rest := rest - {name};
      done := done + 1;
    }
    PrintEnds(e, done, result);
    if e.constant != 0 || result == "" {
      result := result + TermText(TermOf(e.constant, "", result == ""));
    }
  }

  lemma SortedNothing()
    ensures Sorted({}) == []
  {
  }

  // ----- parsing

  lemma {:induction false} AccumulateFails(ts: seq<Term>, n: nat)
    requires WellFormedSum(ts) && n <= |ts| && Accumulate(ts[..n]) == None
    ensures Accumulate(ts) == None
    decreases |ts| - n
  {
    if n < |ts| {
      assert ts[..n + 1][..n] == ts[..n];
      AccumulateFails(ts, n + 1);
    } else {
      assert ts[..n] == ts;
    }
  }

  /** The largest magnitude of a coefficient with the given sign. */
  function MagnitudeLimit(negative: bool): nat {
    I64_MAX as nat + if negative then 1 else 0
  }

  /** Read a run of digits with the overflow test before each step. */
  method ScanMagnitude(text: string, start: nat, negative: bool) returns (magnitude: Option<nat>, position: nat)
    requires start <= |text|
    ensures start <= position <= |text|
    ensures AllDigits(text[start..start + TakeDigits(text[start..])])
    ensures var value := DecimalValue(text[start..start + TakeDigits(text[start..])]);
            magnitude == if value <= MagnitudeLimit(negative) then Some(value) else None
    ensures magnitude.Some? ==> position == start + TakeDigits(text[start..])
  {
    var limit := MagnitudeLimit(negative);
    var m: nat := 0;
    position := start;
    ghost var n := TakeDigits(text[start..]);
    ghost var run := text[start..start + n];
    assert run == text[start..][..n];
    assert run[..0] == "" && DecimalValue("") == 0;
    hide DecimalValue, AllDigits, TakeDigits, Digit;
    DigitRun(text, start, start);
    while position < |text| && Digit(text[position])
      invariant start <= position <= start + n && m == DecimalValue(run[..position - start]) <= limit
      invariant position < |text| && Digit(text[position]) <==> position < start + n
    {
      var value := DigitValue(text[position]);
      DecimalStep(run, position - start);
      DecimalGrows(run, position - start + 1);
      MagnitudeStep(m, value, limit);
      if m > (limit - value) / 10 {
        magnitude := None;
        return;
      }
      m := m * 10 + value;
      position := position + 1;
      DigitRun(text, start, position);
    }
    assert run[..n] == run;
    magnitude := Some(m);
  }

  lemma DigitRun(text: string, start: nat, position: nat)
    requires start <= |text| && start <= position <= start + TakeDigits(text[start..])
    ensures position < |text| && Digit(text[position]) <==> position < start + TakeDigits(text[start..])
  {
    var n := TakeDigits(text[start..]);
    if position < start + n {
      assert text[start..][..n][position - start] == text[position];
    } else if start + n < |text| {
      assert text[start..][n] == text[start + n];
    }
  }

  /** The test before a step rejects exactly the steps that leave the limit. */
  lemma MagnitudeStep(m: nat, value: nat, limit: nat)
    requires value <= 9 <= limit
    ensures m > (limit - value) / 10 <==> m * 10 + value > limit
  {
  }

  lemma DecimalStep(s: string, n: nat)
    requires AllDigits(s) && n < |s|
    ensures DecimalValue(s[..n + 1]) == 10 * DecimalValue(s[..n]) + DigitValue(s[n])
  {
    assert s[..n + 1][..n] == s[..n];
  }

  /** Read a run of identifier characters. */
  method ScanName(text: string, start: nat) returns (position: nat)
    requires start <= |text|
    ensures position == start + TakeName(text[start..])
  {
    position := start;
    ghost var n := TakeName(text[start..]);
    while position < |text| && (IdentifierStart(text[position]) || Digit(text[position]))
      invariant start <= position <= start + n
    {
      assert text[start..][position - start] == text[position];
      position := position + 1;
    }
    assert n < |text[start..]| ==> text[start..][n] == text[start + n];
  }

  /** The coefficient the source builds without leaving int64: `-(magnitude - 1) - 1` when negative. */
  function SignedCoefficient(magnitude: nat, negative: bool): (c: int)
    requires magnitude <= MagnitudeLimit(negative)
    ensures c == if negative then -(magnitude as int) else magnitude
    ensures IsI64(c)
  {
    if negative && magnitude != 0 then -(magnitude - 1) - 1 else magnitude
  }

  /** One round of the parser's loop: the term at `position` and the position after it. */
  method ParseTerm(text: string, start: nat) returns (r: Option<(Affine, nat)>)
    requires start < |text|
    ensures r.Some? <==> ReadTerm(text[start..], start == 0).Some?
                         && IsI64(ReadFactor(text[start..], start == 0))
    ensures r.Some? ==>
              var (t, rest) := ReadTerm(text[start..], start == 0).value;
              && r.value.0 == TermAffine(t, ReadFactor(text[start..], start == 0))
              && start < r.value.1 <= |text| && rest == text[r.value.1..]
  {
    var position, negative := start, false;
    var s := text[start..];
    assert s[0] == text[start];
    if SignChar(text[position]) {
      negative := text[position] == '-';
      position := position + 1;
    } else if position != 0 {
      return None;
    }
    ghost var body := text[position..];
    assert body == if SignChar(s[0]) then s[1..] else s;
    var parsed := ParseBody(text, position, negative);
    ReadFactorOfBody(s, start == 0, body, negative);
    r := parsed;
  }

  /** The factor of the term at the front of a text, zero when there is none. */
  function ReadFactor(s: string, first: bool): (c: int)
    requires s != ""
  {
    match ReadTerm(s, first)
    case None => 0
    case Some((t, rest)) => ReadTermSound(s, first); Factor(t)
  }

  /** The signed factor of the unsigned part of a term. */
  function BodyFactor(digits: string, negative: bool): (c: int)
    requires AllDigits(digits)
  {
    var magnitude := if digits == "" then 1 else DecimalValue(digits);
    if negative then -magnitude else magnitude
  }

  lemma ReadFactorOfBody(s: string, first: bool, body: string, negative: bool)
    requires s != "" && (SignChar(s[0]) || first) && body == (if SignChar(s[0]) then s[1..] else s)
    requires negative == (s[0] == '-')
    ensures ReadTerm(s, first).Some? <==> ReadBody(body).Some?
    ensures ReadBody(body).Some? ==>
              var (digits, name, rest) := ReadBody(body).value;
              && ReadTerm(s, first).value.0.name == name && ReadTerm(s, first).value.1 == rest
              && AllDigits(digits) && ReadFactor(s, first) == BodyFactor(digits, negative)
  {
    hide ReadBody;
    if ReadBody(body).Some? {
      ReadBodySound(body);
      assert SignChar(s[0]) ==> s[..1][0] == s[0];
    }
  }

  /** The part of a round after the sign. */
  method ParseBody(text: string, start: nat, negative: bool) returns (r: Option<(Affine, nat)>)
    requires start <= |text|
    ensures ReadBody(text[start..]).Some? ==> AllDigits(ReadBody(text[start..]).value.0)
    ensures r.Some? <==> ReadBody(text[start..]).Some? && IsI64(BodyFactor(ReadBody(text[start..]).value.0, negative))
    ensures r.Some? ==>
              var (digits, name, rest) := ReadBody(text[start..]).value;
              && r.value.0 == TermAffine(Term("", digits, name), BodyFactor(digits, negative))
              && start < r.value.1 <= |text| && rest == text[r.value.1..]
  {
    if ReadBody(text[start..]).Some? {
      ReadBodySound(text[start..]);
    }
    if start == |text| {
      return None;
    }
    assert text[start..][0] == text[start];
    if Digit(text[start]) {
      r := ParseNumeric(text, start, negative);
    } else {
      r := ParseNamed(text, start, if negative then -1 else 1);
    }
  }

  /** A name with its coefficient. */
  method ParseNamed(text: string, position: nat, coefficient: int) returns (r: Option<(Affine, nat)>)
    requires position <= |text|
    ensures r.Some? <==> ReadName(text[position..]).Some?
    ensures r.Some? ==>
              var (name, rest) := ReadName(text[position..]).value;
              && name != "" && r.value.0 == Affine(0, map[name := coefficient])
              && position < r.value.1 <= |text| && rest == text[r.value.1..]
  {
    if position == |text| || !IdentifierStart(text[position]) {
      assert position < |text| ==> text[position..][0] == text[position];
      return None;
    }
    var end := ScanName(text, position);
    ReadNameSound(text[position..]);
    assert text[position..][..end - position] == text[position..end];
    assert text[position..][end - position..] == text[end..];
    r := Some((Affine(0, map[text[position..end] := coefficient]), end));
  }

  /** Digits, possibly followed by a star and a name. */
  method ParseNumeric(text: string, start: nat, negative: bool) returns (r: Option<(Affine, nat)>)
    requires start < |text| && Digit(text[start])
    ensures ReadBody(text[start..]).Some? ==> AllDigits(ReadBody(text[start..]).value.0)
    ensures r.Some? <==> ReadBody(text[start..]).Some? && IsI64(BodyFactor(ReadBody(text[start..]).value.0, negative))
    ensures r.Some? ==>
              var (digits, name, rest) := ReadBody(text[start..]).value;
              && r.value.0 == TermAffine(Term("", digits, name), BodyFactor(digits, negative))
              && start < r.value.1 <= |text| && rest == text[r.value.1..]
  {
    hide DecimalValue, ReadName;
    ghost var body := text[start..];
    ghost var n := TakeDigits(body);
    assert body[0] == text[start];
    assert body[..n] == text[start..start + n] && body[n..] == text[start + n..];
    assert n < |body| ==> body[n] == text[start + n] && body[n + 1..] == text[start + n + 1..];
    var magnitude, position := ScanMagnitude(text, start, negative);
    if magnitude.None? {
      return None;
    }
    var coefficient := SignedCoefficient(magnitude.value, negative);
    if position < |text| && text[position] == '*' {
      r := ParseNamed(text, position + 1, coefficient);
    } else {
      r := Some((Affine(coefficient, map[]), position));
    }
  }

  function Prepend(done: seq<Term>, more: Option<seq<Term>>): (r: Option<seq<Term>>) {
    match more
    case None => None
    case Some(ts) => Some(done + ts)
  }

  /** The parser has read `done` and added it up to `result`; the rest of the text decides the rest. */
  ghost predicate Reading(text: string, position: nat, done: seq<Term>, result: Affine) {
    && position <= |text| && (position == 0 <==> done == [])
    && WellFormedSum(done) && Accumulate(done) == Some(result)
    && ReadSum(text, true) == Prepend(done, ReadSum(text[position..], position == 0))
  }

  lemma ReadingStarts(text: string)
    ensures Reading(text, 0, [], ZERO)
  {
    assert text[0..] == text;
    assert forall ts: seq<Term> :: [] + ts == ts;
  }

  /** Reading one more term moves it from the rest to the terms done. */
  lemma ReadOneMore(text: string, s: string, done: seq<Term>, t: Term, rest: string, first: bool)
    requires s != "" && ReadTerm(s, first) == Some((t, rest))
    requires ReadSum(text, true) == Prepend(done, ReadSum(s, first))
    ensures ReadSum(text, true) == Prepend(done + [t], ReadSum(rest, false))
  {
    hide ReadTerm;
    ReadTermSound(s, first);
    var more := ReadSum(rest, false);
    if more.Some? {
      assert done + ([t] + more.value) == (done + [t]) + more.value;
    }
  }

  /** One more term, whatever it adds up to. */
  lemma AddOneMore(done: seq<Term>, result: Affine, t: Term)
    requires WellFormed(t) && (done != [] ==> t.sign != "")
    requires WellFormedSum(done) && Accumulate(done) == Some(result)
    ensures WellFormedSum(done + [t])
    ensures Accumulate(done + [t]) == if IsI64(Factor(t)) then Added(result, TermAffine(t, Factor(t)), 1) else None
  {
    hide WellFormed, Factor, Added, TermAffine;
    AccumulateStep(done + [t]);
    assert (done + [t])[..|done|] == done;
  }

  /** A term that cannot be added fails the whole text. */
  lemma ReadingFails(text: string, front: seq<Term>, rest: string)
    requires WellFormedSum(front) && Accumulate(front) == None
    requires ReadSum(text, true) == Prepend(front, ReadSum(rest, false))
    ensures ParseAffine(text) == None
  {
    if ReadSum(text, true).Some? {
      ReadSumSound(text, true);
      var ts := ReadSum(text, true).value;
      assert ts[..|front|] == front;
      AccumulateFails(ts, |front|);
    }
  }

  lemma ReadingEnds(text: string, done: seq<Term>, result: Affine)
    requires text != "" && Reading(text, |text|, done, result)
    ensures ParseAffine(text) == Some(result)
  {
    assert text[|text|..] == "";
    assert done + [] == done;
  }

  lemma ReadingStuck(text: string, position: nat, done: seq<Term>, result: Affine)
    requires Reading(text, position, done, result) && position < |text|
    requires ReadTerm(text[position..], position == 0).None?
    ensures ParseAffine(text) == None
  {
  }

  /** The parser: a loop over signed terms that rejects on syntax or int64 overflow. */
  method ParseAffineExpression(text: string) returns (r: Option<Affine>)
    ensures r == ParseAffine(text)
  {
    if text == "" {
      return None;
    }
    hide Reading, ReadTerm, ParseAffine, AddResult, AddFits, Accumulate, ReadSum, Factor;
    var result, position: nat := ZERO, 0;
    ghost var done: seq<Term> := [];
    ReadingStarts(text);
    while position < |text|
      invariant position <= |text| && Reading(text, position, done, result)
    {
      r, position, done := ParseRound(text, position, done, result);
      if r.None? {
        return;
      }
      result := r.value;
    }
    ReadingEnds(text, done, result);
    r := Some(result);
  }

  /** One round: parse a term and add it. */
  method ParseRound(text: string, position: nat, ghost done: seq<Term>, result: Affine)
    returns (r: Option<Affine>, next: nat, ghost more: seq<Term>)
    requires position < |text| && Reading(text, position, done, result)
    ensures r.None? ==> ParseAffine(text) == None
    ensures r.Some? ==> position < next <= |text| && Reading(text, next, more, r.value)
  {
    hide ReadTerm, ParseAffine, AddResult, AddFits, Accumulate, ReadSum;
    next, more := position, done;
    var parsed := ParseTerm(text, position);
    if ReadTerm(text[position..], position == 0).None? {
      ReadingStuck(text, position, done, result);
      return None, next, more;
    }
    ghost var (t, rest) := ReadTerm(text[position..], position == 0).value;
    ReadTermSound(text[position..], position == 0);
    ReadOneMore(text, text[position..], done, t, rest, position == 0);
    AddOneMore(done, result, t);
    more := done + [t];
    if parsed.None? {
      ReadingFails(text, more, rest);
      return None, next, more;
    }
    r := AddAffineExpression(result, parsed.value.0, 1);
    if r.None? {
      ReadingFails(text, more, rest);
    } else {
      next := parsed.value.1;
    }
  }
}
