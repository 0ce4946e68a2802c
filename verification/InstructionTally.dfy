/** Opcode counts with totals, and checked accumulation in unsigned 64-bit arithmetic. */
module InstructionTally {
  import opened Machine

  /** Static occurrences and dynamic executions. */
  datatype Count = Count(stat: nat, dyn: nat)

  datatype Counts = Counts(stat: nat, dyn: nat, opcodes: map<string, Count>)

  const EMPTY: Counts := Counts(0, 0, map[])

  function At(opcodes: map<string, Count>, opcode: string): (c: Count) {
    if opcode in opcodes then opcodes[opcode] else Count(0, 0)
  }

  /** The sum of all counts. */
  ghost function TotalOf(opcodes: map<string, Count>): (c: Count)
    decreases |opcodes|
  {
    if opcodes == map[] then Count(0, 0)
    else
      var opcode :| opcode in opcodes;
      var rest := TotalOf(opcodes - {opcode});
      Count(opcodes[opcode].stat + rest.stat, opcodes[opcode].dyn + rest.dyn)
  }

  /** Totals are the sums over the opcodes. */
  ghost predicate Balanced(c: Counts) {
    TotalOf(c.opcodes) == Count(c.stat, c.dyn)
  }

  lemma {:induction false} TotalRemove(opcodes: map<string, Count>, opcode: string)
    requires opcode in opcodes
    ensures var rest := TotalOf(opcodes - {opcode});
            TotalOf(opcodes) == Count(opcodes[opcode].stat + rest.stat, opcodes[opcode].dyn + rest.dyn)
    decreases |opcodes|
  {
    var first :| first in opcodes
                 && TotalOf(opcodes) == Count(opcodes[first].stat + TotalOf(opcodes - {first}).stat,
                                              opcodes[first].dyn + TotalOf(opcodes - {first}).dyn);
    if first != opcode {
      TotalRemove(opcodes - {first}, opcode);
      TotalRemove(opcodes - {opcode}, first);
      assert opcodes - {first} - {opcode} == opcodes - {opcode} - {first};
    }
  }

  /** Entering more occurrences raises the total by as much, and no entry exceeds the total. */
  lemma TotalRaise(opcodes: map<string, Count>, opcode: string, more: Count)
    ensures var entry := At(opcodes, opcode);
            var raised := opcodes[opcode := Count(entry.stat + more.stat, entry.dyn + more.dyn)];
            && TotalOf(raised) == Count(TotalOf(opcodes).stat + more.stat, TotalOf(opcodes).dyn + more.dyn)
            && entry.stat <= TotalOf(opcodes).stat && entry.dyn <= TotalOf(opcodes).dyn
  {
    var entry := At(opcodes, opcode);
    var raised := opcodes[opcode := Count(entry.stat + more.stat, entry.dyn + more.dyn)];
    var rest := opcodes - {opcode};
    TotalRemove(raised, opcode);
    assert raised - {opcode} == rest;
    if opcode in opcodes {
      TotalRemove(opcodes, opcode);
    } else {
      assert rest == opcodes;
    }
  }

  // ----- checked arithmetic

  function CheckedMultiply(left: nat, right: nat): (r: Option<nat>)
    requires left <= U64_MAX
    ensures r == if left * right <= U64_MAX then Some(left * right) else None
  {
    MultiplyLimit(left, right);
    if right != 0 && left > U64_MAX / right then None else Some(left * right)
  }

  lemma MultiplyLimit(left: nat, right: nat)
    ensures right != 0 ==> (left > U64_MAX / right <==> left * right > U64_MAX)
    ensures right == 0 ==> left * right == 0
  {
    if right != 0 {
      var q, r := U64_MAX / right, U64_MAX % right;
      Division(U64_MAX, right);
      if left > q {
        ProductOrder(q + 1, left, right);
        assert (q + 1) * right == q * right + right;
      } else {
        ProductOrder(left, q, right);
      }
    }
  }

  lemma Division(a: nat, b: nat)
    requires b > 0
    ensures a == (a / b) * b + a % b && a % b < b
  {
  }

  /** Add to one opcode and to the totals; any sum beyond 64 bits fails. */
  function Accumulate(target: Counts, opcode: string, more: Count): (r: Option<Counts>) {
    var entry := At(target.opcodes, opcode);
    if entry.stat + more.stat > U64_MAX || entry.dyn + more.dyn > U64_MAX
       || target.stat + more.stat > U64_MAX || target.dyn + more.dyn > U64_MAX then None
    else
      Some(Counts(target.stat + more.stat, target.dyn + more.dyn,
                  target.opcodes[opcode := Count(entry.stat + more.stat, entry.dyn + more.dyn)]))
  }

  /** For balanced counts only the totals can overflow, and balance is kept. */
  lemma AccumulateExact(target: Counts, opcode: string, more: Count)
    requires Balanced(target)
    ensures Accumulate(target, opcode, more).Some?
            <==> target.stat + more.stat <= U64_MAX && target.dyn + more.dyn <= U64_MAX
    ensures Accumulate(target, opcode, more).Some? ==> Balanced(Accumulate(target, opcode, more).value)
  {
    TotalRaise(target.opcodes, opcode, more);
  }

  // ----- including weighted counts

  /** Source counts of one opcode, repeated. */
  function Repeated(c: Count, executions: nat): (r: Count) {
    Count(c.stat, c.dyn * executions)
  }

  /** The target with the opcodes of a set included. */
  ghost function IncludedOpcodes(target: map<string, Count>, source: map<string, Count>, done: set<string>,
                                 executions: nat):
    (r: map<string, Count>)
    requires done <= source.Keys
  {
    map opcode | opcode in target.Keys + done ::
      if opcode in done
      then Count(At(target, opcode).stat + source[opcode].stat,
          At(target, opcode).dyn + source[opcode].dyn * executions)
      else At(target, opcode)
  }

  /** The exact sum of the target and the repeated source. */
  ghost function Included(target: Counts, source: Counts, executions: nat): (r: Counts) {
    Counts(target.stat + source.stat, target.dyn + source.dyn * executions,
           IncludedOpcodes(target.opcodes, source.opcodes, source.opcodes.Keys, executions))
  }

  ghost predicate IncludeFits(target: Counts, source: Counts, executions: nat) {
    target.stat + source.stat <= U64_MAX && target.dyn + source.dyn * executions <= U64_MAX
  }

  /** The part of a source that a set of opcodes holds. */
  ghost function Part(source: map<string, Count>, done: set<string>): (r: map<string, Count>) {
    map opcode | opcode in source && opcode in done :: source[opcode]
  }

  /** The loop has included the opcodes outside `rest`. */
  ghost predicate Including(target: Counts, source: Counts, executions: nat, rest: set<string>, sum: Counts) {
    && rest <= source.opcodes.Keys && Balanced(sum)
    && var part := TotalOf(Part(source.opcodes, source.opcodes.Keys - rest));
       sum == Counts(target.stat + part.stat, target.dyn + part.dyn * executions,
                     IncludedOpcodes(target.opcodes, source.opcodes, source.opcodes.Keys - rest, executions))
  }

  lemma IncludingStarts(target: Counts, source: Counts, executions: nat)
    requires Balanced(target)
    ensures Including(target, source, executions, source.opcodes.Keys, target)
  {
    assert source.opcodes.Keys - source.opcodes.Keys == {};
    assert Part(source.opcodes, {}) == map[];
    assert IncludedOpcodes(target.opcodes, source.opcodes, {}, executions) == target.opcodes;
  }

  lemma PartStep(source: map<string, Count>, rest: set<string>, opcode: string)
    requires opcode in rest && rest <= source.Keys
    ensures var before, after := TotalOf(Part(source, source.Keys - rest)),
            TotalOf(Part(source, source.Keys - (rest - {opcode})));
            after == Count(before.stat + source[opcode].stat, before.dyn + source[opcode].dyn)
  {
    var after := Part(source, source.Keys - (rest - {opcode}));
    TotalRemove(after, opcode);
    assert after - {opcode} == Part(source, source.Keys - rest);
  }

  lemma {:induction false} PartBelow(source: map<string, Count>, done: set<string>)
    ensures TotalOf(Part(source, done)).stat <= TotalOf(source).stat
    ensures TotalOf(Part(source, done)).dyn <= TotalOf(source).dyn
    decreases source.Keys - done
  {
    if source.Keys <= done {
      assert Part(source, done) == source;
    } else {
      var opcode :| opcode in source && opcode !in done;
      PartBelow(source, done + {opcode});
      var more := Part(source, done + {opcode});
      TotalRemove(more, opcode);
      assert more - {opcode} == Part(source, done);
    }
  }

  lemma IncludedStep(target: map<string, Count>, source: map<string, Count>, executions: nat, rest: set<string>,
                     opcode: string)
    requires opcode in rest && rest <= source.Keys
    ensures var before := IncludedOpcodes(target, source, source.Keys - rest, executions);
            && At(before, opcode) == At(target, opcode)
            && IncludedOpcodes(target, source, source.Keys - (rest - {opcode}), executions)
               == before[opcode := Count(At(target, opcode).stat + source[opcode].stat,
                                         At(target, opcode).dyn + source[opcode].dyn * executions)]
  {
  }

  /** One opcode more, or a sum that shows the whole does not fit. */
  lemma IncludingStep(target: Counts, source: Counts, executions: nat, rest: set<string>, sum: Counts, opcode: string)
    requires Including(target, source, executions, rest, sum) && opcode in rest && Balanced(source)
    ensures var next := Accumulate(sum, opcode, Repeated(source.opcodes[opcode], executions));
            && (next.None? ==> !IncludeFits(target, source, executions))
            && (next.Some? ==> Including(target, source, executions, rest - {opcode}, next.value))
    ensures source.opcodes[opcode].dyn * executions > U64_MAX ==> !IncludeFits(target, source, executions)
  {
    hide TotalOf, Part, IncludedOpcodes;
    var more := Repeated(source.opcodes[opcode], executions);
    AccumulateExact(sum, opcode, more);
    PartStep(source.opcodes, rest, opcode);
    PartBelow(source.opcodes, source.opcodes.Keys - (rest - {opcode}));
    IncludedStep(target.opcodes, source.opcodes, executions, rest, opcode);
    var before := TotalOf(Part(source.opcodes, source.opcodes.Keys - rest));
    var after := TotalOf(Part(source.opcodes, source.opcodes.Keys - (rest - {opcode})));
    Distribute(before.dyn, source.opcodes[opcode].dyn, executions);
    ProductOrder(after.dyn, source.dyn, executions);
    ProductOrder(source.opcodes[opcode].dyn, after.dyn, executions);
  }

  lemma Distribute(a: nat, b: nat, c: nat)
    ensures (a + b) * c == a * c + b * c
  {
  }

  lemma IncludingEnds(target: Counts, source: Counts, executions: nat, sum: Counts)
    requires Including(target, source, executions, {}, sum) && Balanced(source)
    ensures sum == Included(target, source, executions) && Balanced(sum)
  {
    assert source.opcodes.Keys - {} == source.opcodes.Keys;
    assert Part(source.opcodes, source.opcodes.Keys) == source.opcodes;
  }

  /** Totals are 64-bit values. */
  predicate Small(c: Counts) {
    c.stat <= U64_MAX && c.dyn <= U64_MAX
  }

  /** Entries of balanced counts do not exceed the totals. */
  lemma EntriesSmall(c: Counts)
    requires Balanced(c) && Small(c)
    ensures forall opcode :: opcode in c.opcodes ==> c.opcodes[opcode].dyn <= U64_MAX
  {
    forall opcode | opcode in c.opcodes
      ensures c.opcodes[opcode].dyn <= U64_MAX
    {
      TotalRemove(c.opcodes, opcode);
    }
  }

  /**
   * Include a source, weighted by executions, opcode by opcode. It fails exactly when a total leaves 64 bits;
   * otherwise it is the exact sum, balanced again. The order of the opcodes does not matter.
   */
  method Include(target: Counts, source: Counts, executions: nat) returns (r: Option<Counts>)
    requires Balanced(target) && Balanced(source) && Small(target)
    requires forall opcode :: opcode in source.opcodes ==> source.opcodes[opcode].dyn <= U64_MAX
    ensures r == if IncludeFits(target, source, executions) then Some(Included(target, source, executions)) else None
    ensures r.Some? ==> Balanced(r.value) && Small(r.value)
  {
    hide Including, IncludeFits, Included, Balanced, Accumulate;
    var sum, rest := target, source.opcodes.Keys;
    IncludingStarts(target, source, executions);
    IncludeStartFits(target, source, executions);
    while rest != {}
      invariant rest <= source.opcodes.Keys && Including(target, source, executions, rest, sum)
      invariant rest == {} && source.opcodes != map[] ==> IncludeFits(target, source, executions)
      decreases rest
    {
      var opcode :| opcode in rest;
      IncludingStep(target, source, executions, rest, sum, opcode);
      var dynamic := CheckedMultiply(source.opcodes[opcode].dyn, executions);
      if dynamic.None? {
        return None;
      }
      var next := Accumulate(sum, opcode, Count(source.opcodes[opcode].stat, dynamic.value));
      if next.None? {
        return None;
      }
      IncludingLast(target, source, executions, rest, opcode, sum);
      sum, rest := next.value, rest - {opcode};
    }
    IncludingEnds(target, source, executions, sum);
    IncludedSmall(target, source, executions);
    r := Some(sum);
  }

  lemma IncludedSmall(target: Counts, source: Counts, executions: nat)
    ensures IncludeFits(target, source, executions) ==> Small(Included(target, source, executions))
  {
  }

  /** Nothing to include always fits. */
  lemma IncludeStartFits(target: Counts, source: Counts, executions: nat)
    requires Small(target) && Balanced(source)
    ensures source.opcodes == map[] ==> IncludeFits(target, source, executions)
  {
  }

  /** When the last opcode was accumulated the whole fits. */
  lemma IncludingLast(target: Counts, source: Counts, executions: nat, rest: set<string>, opcode: string, sum: Counts)
    requires Including(target, source, executions, rest, sum) && opcode in rest && Balanced(source)
    requires Accumulate(sum, opcode, Repeated(source.opcodes[opcode], executions)).Some?
    ensures rest - {opcode} == {} ==> IncludeFits(target, source, executions)
  {
    if rest - {opcode} == {} {
      var next := Accumulate(sum, opcode, Repeated(source.opcodes[opcode], executions)).value;
      IncludingStep(target, source, executions, rest, sum, opcode);
      IncludingEnds(target, source, executions, next);
    }
  }

  /** What inclusion does to each opcode. */
  lemma IncludedAt(target: Counts, source: Counts, executions: nat, opcode: string)
    ensures var r := Included(target, source, executions);
            && At(r.opcodes, opcode).stat == At(target.opcodes, opcode).stat + At(source.opcodes, opcode).stat
            && At(r.opcodes, opcode).dyn == At(target.opcodes, opcode).dyn + At(source.opcodes, opcode).dyn * executions
  {
  }
}
