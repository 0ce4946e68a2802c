/** Affine expressions as finite maps from names to coefficients, with checked int64 arithmetic. */
module AffineTerms {
  import opened Machine

  /** A constant and coefficients by name; normalized when no coefficient is zero. */
  datatype Affine = Affine(constant: int, terms: map<string, int>)

  const ZERO: Affine := Affine(0, map[])

  /** Constant and coefficients are int64 values and no coefficient is zero. */
  ghost predicate Normal(e: Affine) {
    IsI64(e.constant) && forall name :: name in e.terms ==> IsI64(e.terms[name]) && e.terms[name] != 0
  }

  function Coefficient(terms: map<string, int>, name: string): (c: int) {
    if name in terms then terms[name] else 0
  }

  /** The value of the terms in an environment. */
  ghost function SumTerms(terms: map<string, int>, env: string -> int): (v: int)
    decreases |terms|
  {
    if terms == map[] then 0
    else
      var name :| name in terms;
      terms[name] * env(name) + SumTerms(terms - {name}, env)
  }

  ghost function Eval(e: Affine, env: string -> int): (v: int) {
    e.constant + SumTerms(e.terms, env)
  }

  /** Any name may be taken out first. */
  lemma {:induction false} SumRemove(terms: map<string, int>, name: string, env: string -> int)
    requires name in terms
    ensures SumTerms(terms, env) == terms[name] * env(name) + SumTerms(terms - {name}, env)
    decreases |terms|
  {
    var first :| first in terms && SumTerms(terms, env) == terms[first] * env(first) + SumTerms(terms - {first}, env);
    if first != name {
      SumRemove(terms - {first}, name, env);
      SumRemove(terms - {name}, first, env);
      assert terms - {first} - {name} == terms - {name} - {first};
    }
  }

  /** A coefficient map with one coefficient set; a zero coefficient is erased. */
  function WithCoefficient(terms: map<string, int>, name: string, value: int): (r: map<string, int>) {
    if value == 0 then terms - {name} else terms[name := value]
  }

  lemma SumWith(terms: map<string, int>, name: string, value: int, env: string -> int)
    ensures SumTerms(WithCoefficient(terms, name, value), env)
            == SumTerms(terms, env) + (value - Coefficient(terms, name)) * env(name)
  {
    var rest := terms - {name};
    if name in terms {
      SumRemove(terms, name, env);
    } else {
      assert rest == terms;
    }
    assert SumTerms(terms, env) == SumTerms(rest, env) + Coefficient(terms, name) * env(name);
    if value != 0 {
      var r := terms[name := value];
      SumRemove(r, name, env);
      assert r - {name} == rest;
    }
    assert SumTerms(WithCoefficient(terms, name, value), env) == SumTerms(rest, env) + value * env(name);
  }

  // ----- checked addition

  /** `add_scaled`: the scaled product and the sum both fit int64. */
  function AddScaled(target: int, value: int, coefficient: int): (r: Option<int>)
    ensures r.Some? <==> IsI64(value * coefficient) && IsI64(target + value * coefficient)
    ensures r.Some? ==> r.value == target + value * coefficient
  {
    if IsI64(value * coefficient) && IsI64(target + value * coefficient) then Some(target + value * coefficient)
        else None
  }

  /** The sum fits int64 at every coefficient and at the constant. */
  ghost predicate AddFits(target: Affine, source: Affine, coefficient: int) {
    && AddScaled(target.constant, source.constant, coefficient).Some?
    && forall name :: name in source.terms ==>
         AddScaled(Coefficient(target.terms, name), source.terms[name], coefficient).Some?
  }

  /** The exact scaled sum, normalized where `source` has terms. */
  ghost function AddResult(target: Affine, source: Affine, coefficient: int): (r: Affine) {
    Affine(target.constant + source.constant * coefficient,
           map name | name in target.terms.Keys + source.terms.Keys
                      && (name in source.terms ==>
                            Coefficient(target.terms, name) + source.terms[name] * coefficient != 0)
             :: Coefficient(target.terms, name) + Coefficient(source.terms, name) * coefficient)
  }

  /** The result with only the names outside `rest` added yet. */
  ghost function PartialTerms(target: map<string, int>, source: map<string, int>, coefficient: int, rest: set<string>):
    (r: map<string, int>)
  {
    map name | name in target.Keys + (source.Keys - rest)
               && (name in source.Keys - rest ==> Coefficient(target, name) + source[name] * coefficient != 0)
      :: if name in source.Keys - rest then Coefficient(target, name) + source[name] * coefficient
         else Coefficient(target, name)
  }

  lemma PartialStep(target: map<string, int>, source: map<string, int>, coefficient: int, rest: set<string>,
                    name: string)
    requires name in rest && rest <= source.Keys
    ensures Coefficient(PartialTerms(target, source, coefficient, rest), name) == Coefficient(target, name)
    ensures PartialTerms(target, source, coefficient, rest - {name})
            == WithCoefficient(PartialTerms(target, source, coefficient, rest), name,
                               Coefficient(target, name) + source[name] * coefficient)
  {
  }

  lemma PartialEnds(target: Affine, source: Affine, coefficient: int)
    ensures PartialTerms(target.terms, source.terms, coefficient, source.terms.Keys) == target.terms
    ensures AddResult(target, source, coefficient)
            == Affine(target.constant + source.constant * coefficient,
                      PartialTerms(target.terms, source.terms, coefficient, {}))
  {
  }

  /** The coefficients of the names outside `rest` fit. */
  ghost predicate FitOutside(target: Affine, source: Affine, coefficient: int, rest: set<string>) {
    forall name :: name in source.terms && name !in rest ==>
      AddScaled(Coefficient(target.terms, name), source.terms[name], coefficient).Some?
  }

  lemma FitEnds(target: Affine, source: Affine, coefficient: int)
    ensures FitOutside(target, source, coefficient, source.terms.Keys)
    ensures AddFits(target, source, coefficient)
            <==> AddScaled(target.constant, source.constant, coefficient).Some?
                 && FitOutside(target, source, coefficient, {})
  {
  }

  lemma FitStep(target: Affine, source: Affine, coefficient: int, rest: set<string>, name: string)
    requires name in rest && rest <= source.terms.Keys && FitOutside(target, source, coefficient, rest)
    ensures AddScaled(Coefficient(target.terms, name), source.terms[name], coefficient).Some?
            <==> FitOutside(target, source, coefficient, rest - {name})
    ensures AddFits(target, source, coefficient) ==>
              AddScaled(Coefficient(target.terms, name), source.terms[name], coefficient).Some?
  {
    hide AddScaled, Coefficient;
  }

  /** Add a scaled expression in place, name by name; any overflow fails. */
  method AddAffineExpression(target: Affine, source: Affine, coefficient: int) returns (r: Option<Affine>)
    ensures r.Some? <==> AddFits(target, source, coefficient)
    ensures r.Some? ==> r.value == AddResult(target, source, coefficient)
  {
    var constant := AddScaled(target.constant, source.constant, coefficient);
    if constant.None? {
      return None;
    }
    var terms := target.terms;
    var rest := source.terms.Keys;
    PartialEnds(target, source, coefficient);
    FitEnds(target, source, coefficient);
    hide PartialTerms, AddScaled, AddResult, WithCoefficient, Coefficient, FitOutside, AddFits;
    while rest != {}
      invariant rest <= source.terms.Keys
      invariant terms == PartialTerms(target.terms, source.terms, coefficient, rest)
      invariant FitOutside(target, source, coefficient, rest)
      decreases rest
    {
      var name :| name in rest;
      FitStep(target, source, coefficient, rest, name);
      PartialStep(target.terms, source.terms, coefficient, rest, name);
      var sum := AddScaled(Coefficient(terms, name), source.terms[name], coefficient);
      if sum.None? {
        return None;
      }
      terms := WithCoefficient(terms, name, sum.value);
      rest := rest - {name};
    }
    r := Some(Affine(constant.value, terms));
  }

  /** Checked addition as a function of its arguments. */
  ghost function Added(target: Affine, source: Affine, coefficient: int): (r: Option<Affine>) {
    if AddFits(target, source, coefficient) then Some(AddResult(target, source, coefficient)) else None
  }

  /** Addition brings in no other names. */
  lemma AddedKeys(target: Affine, source: Affine, coefficient: int)
    requires Added(target, source, coefficient).Some?
    ensures Added(target, source, coefficient).value.terms.Keys <= target.terms.Keys + source.terms.Keys
  {
  }

  /** Addition keeps expressions normalized. */
  lemma AddKeepsNormal(target: Affine, source: Affine, coefficient: int)
    requires Normal(target) && AddFits(target, source, coefficient)
    ensures Normal(AddResult(target, source, coefficient))
  {
  }

  lemma {:induction false} SumPartial(target: map<string, int>, source: map<string, int>, coefficient: int,
                                      rest: set<string>, env: string -> int)
    requires rest <= source.Keys
    ensures SumTerms(PartialTerms(target, source, coefficient, rest), env)
            == SumTerms(target, env) + coefficient * SumTerms(source - rest, env)
    decreases source.Keys - rest
  {
    if source.Keys - rest == {} {
      NothingLeft(source.Keys, rest);
      assert PartialTerms(target, source, coefficient, rest) == target;
      assert source - rest == map[];
    } else {
      var name :| name in source.Keys - rest;
      SumPartial(target, source, coefficient, rest + {name}, env);
      SumPartialStep(target, source, coefficient, rest, name, env);
    }
  }

  lemma NothingLeft<T>(all: set<T>, done: set<T>)
    requires done <= all && all - done == {}
    ensures done == all
  {
    assert all == done + (all - done);
  }

  lemma SumPartialStep(target: map<string, int>, source: map<string, int>, coefficient: int,
                       rest: set<string>, name: string, env: string -> int)
    requires rest <= source.Keys && name in source.Keys - rest
    requires SumTerms(PartialTerms(target, source, coefficient, rest + {name}), env)
             == SumTerms(target, env) + coefficient * SumTerms(source - (rest + {name}), env)
    ensures SumTerms(PartialTerms(target, source, coefficient, rest), env)
            == SumTerms(target, env) + coefficient * SumTerms(source - rest, env)
  {
    hide SumTerms, PartialTerms;
    var more := rest + {name};
    PartialStep(target, source, coefficient, more, name);
    assert more - {name} == rest;
    SumWith(PartialTerms(target, source, coefficient, more), name,
            Coefficient(target, name) + source[name] * coefficient, env);
    SumRemove(source - rest, name, env);
    assert source - rest - {name} == source - more;
    ScaleSum(coefficient, source[name], env(name), SumTerms(source - more, env));
  }

  lemma ScaleSum(c: int, s: int, v: int, t: int)
    ensures c * (s * v + t) == (s * c) * v + c * t
  {
  }

  /** The checked sum has the exact value of the scaled sum, in every environment. */
  lemma AddEval(target: Affine, source: Affine, coefficient: int, env: string -> int)
    ensures Eval(AddResult(target, source, coefficient), env) == Eval(target, env) + coefficient * Eval(source, env)
  {
    hide PartialTerms, SumTerms, AddResult;
    PartialEnds(target, source, coefficient);
    SumPartial(target.terms, source.terms, coefficient, {}, env);
    assert source.terms - {} == source.terms;
    DistributeScale(coefficient, source.constant, SumTerms(source.terms, env));
  }

  lemma DistributeScale(coefficient: int, a: int, b: int)
    ensures coefficient * (a + b) == a * coefficient + coefficient * b
  {
  }
}
