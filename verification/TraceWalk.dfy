/** The meaning of a trace program: a recursive unroll with an environment, metered by a loop budget. */
module TraceWalk {
  import opened Machine
  import opened IndexBinding
  import opened LoopWork

  datatype Endpoint = Number(value: Int64) | Text(text: string)

  /** A MAP node. Calls are expanded before execution; `Unknown` is any other type nobody runs. */
  datatype Node =
    | Access(target: string, indices: seq<string>)
    | Loop(variable: string, start: Endpoint, bound: Endpoint, step: Int64, body: seq<Node>)
    | Call(callee: string, args: seq<string>, argObjects: Option<seq<string>>)
    | Unknown(kind: string)

  /** One emitted access with its index spellings and their numeric values. */
  datatype Emission = Emission(target: string, texts: seq<string>, numbers: seq<Option<int>>)

  datatype TraceError = UnknownType | UnresolvedStart | UnresolvedBound | ZeroStep | Exhausted(limit: BudgetError)

  /** What a program does in order: emit an access, or enter a loop with a trip count. */
  datatype Event = Emit(emission: Emission) | Enter(count: nat)

  /** The events of a run and the error that ends it, if any. */
  datatype Walk = Walk(events: seq<Event>, error: Option<TraceError>)

  ghost function EmissionOf(target: string, indices: seq<string>, env: Environment): (e: Emission) {
    Emission(target,
             seq(|indices|, i requires 0 <= i < |indices| => EvalSpelling(indices[i], env)),
             seq(|indices|, i requires 0 <= i < |indices| => EvalText(indices[i], env)))
  }

  ghost function EndpointValue(endpoint: Endpoint, env: Environment): (v: Option<int>)
    ensures v.Some? ==> IsI64(v.value)
  {
    match endpoint
    case Number(value) => Some(value)
    case Text(text) => EvalTextIsI64(text, env); EvalText(text, env)
  }

  lemma EvalTextIsI64(text: string, env: Environment)
    ensures EvalText(text, env).Some? ==> IsI64(EvalText(text, env).value)
  {
    hide ParseExactInteger, Lookup, EvalNames, OffsetForm;
  }

  /** One walk after another, unless the first fails. */
  function Seq(first: Walk, second: Walk): (w: Walk) {
    if first.error.Some? then first else Walk(first.events + second.events, second.error)
  }

  const SILENT: Walk := Walk([], None)

  /** Unroll a node in an environment, innermost binding first. */
  ghost function WalkNode(node: Node, env: Environment): (w: Walk)
    decreases node, 2
  {
    match node
    case Unknown(_) => Walk([], Some(UnknownType))
    case Call(_, _, _) => Walk([], Some(UnknownType))
    case Access(target, indices) => Walk([Emit(EmissionOf(target, indices, env))], None)
    case Loop(variable, start, bound, step, body) =>
      match EndpointValue(start, env)
      case None => Walk([], Some(UnresolvedStart))
      case Some(first) =>
        match EndpointValue(bound, env)
        case None => Walk([], Some(UnresolvedBound))
        case Some(end) =>
          if step == 0 then Walk([], Some(ZeroStep))
          else
            Seq(Walk([Enter(LoopIterationCount(first, end, step).value)], None), WalkWhile(node, env, first, end))
  }

  /** The plain loop: run the body and step while the condition holds. */
  ghost function WalkWhile(node: Node, env: Environment, value: int, bound: int): (w: Walk)
    requires node.Loop? && node.step != 0
    decreases node, 1, if node.step > 0 then bound - value else value - bound
  {
    if !Before(value, bound, node.step) then SILENT
    else Seq(WalkBody(node, [(node.variable, value)] + env, 0), WalkWhile(node, env, value + node.step, bound))
  }

  /** The body's nodes from index `i` on, in order. */
  ghost function WalkBody(node: Node, env: Environment, i: nat): (w: Walk)
    requires node.Loop? && i <= |node.body|
    decreases node, 0, |node.body| - i
  {
    if i == |node.body| then SILENT else Seq(WalkNode(node.body[i], env), WalkBody(node, env, i + 1))
  }

  // ----- metering

  datatype Limits = Limits(single: nat, cumulative: nat)

  /** The accesses emitted before the first failure, the loop work charged, and the failure. */
  datatype Run = Run(emitted: seq<Emission>, used: nat, error: Option<TraceError>)

  /** Charge each loop entry as it is reached; the first that does not fit ends the run. */
  function Metered(events: seq<Event>, used: nat, limits: Limits): (r: Run)
    decreases |events|
  {
    if events == [] then Run([], used, None)
    else
      match events[0]
      case Emit(emission) => After([emission], Metered(events[1..], used, limits))
      case Enter(count) =>
        match LoopCharge(count, used, limits.single, limits.cumulative)
        case Some(error) => Run([], used, Some(Exhausted(error)))
        case None => Metered(events[1..], used + count, limits)
  }

  function After(emitted: seq<Emission>, run: Run): (r: Run) {
    Run(emitted + run.emitted, run.used, run.error)
  }

  /** A walk under a budget. */
  function Outcome(walk: Walk, used: nat, limits: Limits): (r: Run) {
    var run := Metered(walk.events, used, limits);
    if run.error.Some? then run else run.(error := walk.error)
  }

  lemma {:induction false} MeteredAppend(first: seq<Event>, second: seq<Event>, used: nat, limits: Limits)
    ensures var run := Metered(first, used, limits);
            Metered(first + second, used, limits)
            == if run.error.Some? then run else After(run.emitted, Metered(second, run.used, limits))
    decreases |first|
  {
    if first == [] {
      assert first + second == second;
    } else {
      assert (first + second)[1..] == first[1..] + second;
      match first[0]
      case Emit(emission) =>
        MeteredAppend(first[1..], second, used, limits);
        var run := Metered(first[1..], used, limits);
        AfterAfter([emission], run.emitted, Metered(second, run.used, limits));
      case Enter(count) =>
        if LoopCharge(count, used, limits.single, limits.cumulative).None? {
          MeteredAppend(first[1..], second, used + count, limits);
        }
    }
  }

  lemma AfterAfter(a: seq<Emission>, b: seq<Emission>, run: Run)
    ensures After(a, After(b, run)) == After(a + b, run)
  {
    assert a + (b + run.emitted) == (a + b) + run.emitted;
  }

  /** Budgeted walks compose: the second continues from what the first charged. */
  lemma OutcomeSeq(first: Walk, second: Walk, used: nat, limits: Limits)
    ensures var run := Outcome(first, used, limits);
            Outcome(Seq(first, second), used, limits)
            == if run.error.Some? then run else After(run.emitted, Outcome(second, run.used, limits))
  {
    if first.error.None? {
      MeteredAppend(first.events, second.events, used, limits);
    }
  }

  // ----- what the budget decides

  /** The trip counts of all loop entries that a walk reaches, in order. */
  function Entries(events: seq<Event>): (counts: seq<nat>) {
    if events == [] then []
    else (match events[0] case Emit(_) => [] case Enter(count) => [count]) + Entries(events[1..])
  }

  function Emissions(events: seq<Event>): (emitted: seq<Emission>) {
    if events == [] then []
    else (match events[0] case Emit(emission) => [emission] case Enter(_) => []) + Emissions(events[1..])
  }

  function Total(counts: seq<nat>): (n: nat) {
    if counts == [] then 0 else counts[0] + Total(counts[1..])
  }

  predicate AllWithin(counts: seq<nat>, limit: nat) {
    forall i :: 0 <= i < |counts| ==> counts[i] <= limit
  }

  lemma NoEntries(limit: nat)
    ensures AllWithin([], limit) && Total([]) == 0
  {
  }

  lemma CountFirst(count: nat, counts: seq<nat>, limit: nat)
    ensures AllWithin([count] + counts, limit) <==> count <= limit && AllWithin(counts, limit)
    ensures Total([count] + counts) == count + Total(counts)
    ensures [] + counts == counts
  {
    var all := [count] + counts;
    assert all[1..] == counts && all[0] == count;
    assert forall i :: 0 <= i < |counts| ==> all[i + 1] == counts[i];
    assert forall i :: 0 < i < |all| ==> all[i] == counts[i - 1];
  }

  lemma PrefixAfter<T>(x: seq<T>, shorter: seq<T>, longer: seq<T>)
    requires shorter <= longer
    ensures x + shorter <= x + longer
  {
  }

  /**
   * A run stays within budget exactly when no single entry exceeds its limit and all entries together
   * fit the cumulative one; then it emits everything and has charged the sum of the trip counts.
   * Otherwise it has emitted a prefix.
   */
  lemma {:induction false} BudgetExact(events: seq<Event>, used: nat, limits: Limits)
    requires used <= limits.cumulative
    ensures var run, counts := Metered(events, used, limits), Entries(events);
            && (run.error.None? <==> AllWithin(counts, limits.single) && used + Total(counts) <= limits.cumulative)
            && (run.error.None? ==> run.emitted == Emissions(events) && run.used == used + Total(counts))
            && run.emitted <= Emissions(events)
    decreases |events|
  {
    hide AllWithin, Total;
    if events == [] {
      NoEntries(limits.single);
    } else {
      var rest := events[1..];
      match events[0]
      case Emit(emission) =>
        BudgetExact(rest, used, limits);
        CountFirst(0, Entries(rest), limits.single);
        PrefixAfter([emission], Metered(rest, used, limits).emitted, Emissions(rest));
      case Enter(count) =>
        CountFirst(count, Entries(rest), limits.single);
        assert [] + Emissions(rest) == Emissions(rest);
        if LoopCharge(count, used, limits.single, limits.cumulative).None? {
          BudgetExact(rest, used + count, limits);
        }
    }
  }

  /** The single-loop limit is reported only for an entry that exceeds it. */
  lemma {:induction false} BudgetReport(events: seq<Event>, used: nat, limits: Limits)
    ensures var run := Metered(events, used, limits);
            && (run.error.Some? ==>
                  run.error.value in {Exhausted(SingleLoopExceeded), Exhausted(CumulativeLoopsExceeded)})
            && (run.error == Some(Exhausted(SingleLoopExceeded)) ==> !AllWithin(Entries(events), limits.single))
    decreases |events|
  {
    hide AllWithin, Total;
    if events != [] {
      var rest := events[1..];
      match events[0]
      case Emit(_) =>
        BudgetReport(rest, used, limits);
        CountFirst(0, Entries(rest), limits.single);
      case Enter(count) =>
        CountFirst(count, Entries(rest), limits.single);
        if LoopCharge(count, used, limits.single, limits.cumulative).None? {
          BudgetReport(rest, used + count, limits);
        }
    }
  }

  /**
   * A run that the budget ends stops at one loop entry: everything before it fits and is emitted, and the entry is
   * above the single-loop limit, or else takes the sum above the cumulative one.
   */
  lemma {:induction false} BudgetStops(events: seq<Event>, used: nat, limits: Limits) returns (n: nat)
    requires used <= limits.cumulative && Metered(events, used, limits).error.Some?
    ensures n < |events| && events[n].Enter?
    ensures var run, before := Metered(events, used, limits), used + Total(Entries(events[..n]));
            && AllWithin(Entries(events[..n]), limits.single) && before <= limits.cumulative
            && run.emitted == Emissions(events[..n]) && run.used == before
            && if events[n].count > limits.single then run.error == Some(Exhausted(SingleLoopExceeded))
               else
                 && before + events[n].count > limits.cumulative
                 && run.error == Some(Exhausted(CumulativeLoopsExceeded))
    decreases |events|
  {
    hide AllWithin, Total, Entries, Emissions;
    NothingEntered(events, limits.single);
    n := 0;
    match events[0]
    case Emit(emission) =>
      n := BudgetStops(events[1..], used, limits);
      EventFirst(events, n, limits.single);
      n := n + 1;
    case Enter(count) =>
      if LoopCharge(count, used, limits.single, limits.cumulative).None? {
        n := BudgetStops(events[1..], used + count, limits);
        EventFirst(events, n, limits.single);
        n := n + 1;
      }
  }

  lemma NothingEntered(events: seq<Event>, limit: nat)
    ensures Emissions(events[..0]) == [] && Total(Entries(events[..0])) == 0
    ensures AllWithin(Entries(events[..0]), limit)
  {
  }

  /** What the first event adds to the first `n + 1`. */
  lemma EventFirst(events: seq<Event>, n: nat, limit: nat)
    requires n < |events|
    ensures var rest, all := events[1..][..n], events[..n + 1];
            match events[0]
            case Emit(emission) =>
              && Emissions(all) == [emission] + Emissions(rest) && Total(Entries(all)) == Total(Entries(rest))
              && (AllWithin(Entries(all), limit) <==> AllWithin(Entries(rest), limit))
            case Enter(count) =>
              && Emissions(all) == Emissions(rest) && Total(Entries(all)) == count + Total(Entries(rest))
              && (AllWithin(Entries(all), limit) <==> count <= limit && AllWithin(Entries(rest), limit))
  {
    var rest, all := events[1..][..n], events[..n + 1];
    assert all[0] == events[0] && all[1..] == rest;
    CountFirst(if events[0].Enter? then events[0].count else 0, Entries(rest), limit);
  }

  /** A loop is charged at its entry for exactly the iterations whose value meets the loop condition. */
  lemma EntryIsIterations(loop: Node, env: Environment, k: nat)
    requires loop.Loop? && WalkNode(loop, env).events != []
    ensures EndpointValue(loop.start, env).Some? && EndpointValue(loop.bound, env).Some? && loop.step != 0
    ensures var start, bound := EndpointValue(loop.start, env).value, EndpointValue(loop.bound, env).value;
            var first := WalkNode(loop, env).events[0];
            first.Enter? && (k < first.count <==> Before(start + k * loop.step, bound, loop.step))
  {
    hide EndpointValue, WalkWhile;
    var start, bound := EndpointValue(loop.start, env).value, EndpointValue(loop.bound, env).value;
    TripCountBelow(start, bound, loop.step, k);
  }
}
