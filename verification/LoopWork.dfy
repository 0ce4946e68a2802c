/** Trip counts of counted loops and the expansion budget that meters them. */
module LoopWork {
  import opened Machine

  /** A signed 64-bit expression; the precondition is that it does not overflow. */
  function I64(x: int): (r: int)
    requires IsI64(x)
    ensures r == x
  {
    x
  }

  /** An unsigned 64-bit expression; the precondition is that it does not wrap. */
  function U64(x: int): (r: nat)
    requires 0 <= x <= U64_MAX
    ensures r == x
  {
    x
  }

  function PositiveDistance(lower: int, upper: int): (d: nat)
    requires IsI64(lower) && IsI64(upper) && lower < upper
    ensures d == upper - lower
  {
    if lower < 0 && upper >= 0 then
      var belowZero := U64(U64(I64(-I64(lower + 1))) + 1);
      U64(belowZero + U64(upper))
    else U64(I64(upper - lower))
  }

  function StepMagnitude(step: int): (m: nat)
    requires IsI64(step) && step < 0
    ensures m == -step
  {
    U64(U64(I64(-I64(step + 1))) + 1)
  }

  function CeilDivide(dividend: nat, divisor: nat): (q: nat)
    requires 0 < divisor && dividend <= U64_MAX
  {
    dividend / divisor + if dividend % divisor != 0 then 1 else 0
  }

  /** The trip count; a zero step is rejected. */
  function LoopIterationCount(start: int, bound: int, step: int): (n: Option<nat>)
    requires IsI64(start) && IsI64(bound) && IsI64(step)
    ensures n.None? <==> step == 0
  {
    if step == 0 then None
    else if step > 0 && start < bound then Some(CeilDivide(PositiveDistance(start, bound), U64(step)))
    else if step < 0 && start > bound then Some(CeilDivide(PositiveDistance(bound, start), StepMagnitude(step)))
    else Some(0)
  }

  /** The induction value of iteration `k`. */
  function InductionValue(start: int, step: int, k: nat): int {
    start + k * step
  }

  /** The loop condition for a value of the induction variable. */
  predicate Before(value: int, bound: int, step: int) {
    if step > 0 then value < bound else value > bound
  }

  /** Exactly the multiples `k * divisor` with `k` below the rounded-up quotient are below the dividend. */
  lemma CeilDivideBelow(dividend: nat, divisor: nat, k: nat)
    requires 0 < divisor && dividend <= U64_MAX
    ensures k < CeilDivide(dividend, divisor) <==> k * divisor < dividend
    ensures CeilDivide(dividend, divisor) <= dividend
  {
    var q, r := dividend / divisor, dividend % divisor;
    DivisionForm(dividend, divisor);
    assert dividend == q * divisor + r;
    assert (q - 1) * divisor == q * divisor - divisor;
    assert (q + 1) * divisor == q * divisor + divisor;
    ProductOrder(1, divisor, q);
    if k < q {
      ProductOrder(k, q - 1, divisor);
    } else if k > q {
      ProductOrder(q + 1, k, divisor);
    }
  }

  lemma DivisionForm(a: nat, b: nat)
    requires b > 0
    ensures a == (a / b) * b + a % b && 0 <= a % b < b && a / b >= 0
  {
  }

  /** Iteration `k` runs exactly when its induction value still satisfies the loop condition. */
  lemma TripCountBelow(start: int, bound: int, step: int, k: nat)
    requires IsI64(start) && IsI64(bound) && IsI64(step) && step != 0
    ensures k < LoopIterationCount(start, bound, step).value <==> Before(InductionValue(start, step, k), bound, step)
    ensures LoopIterationCount(start, bound, step).value <= U64_MAX
  {
    var m: nat := if step > 0 then step else -step;
    assert k * step == if step > 0 then k * m else -(k * m);
    ProductOrder(0, k, m);
    if step > 0 && start < bound {
      CeilDivideBelow(bound - start, m, k);
    } else if step < 0 && start > bound {
      CeilDivideBelow(start - bound, m, k);
    }
  }

  /**
   * The trip count is the exact one: every executed iteration satisfies the loop condition with a
   * representable value, and the first value after them does not satisfy it.
   */
  lemma TripCountExact(start: int, bound: int, step: int, k: nat)
    requires IsI64(start) && IsI64(bound) && IsI64(step) && step != 0
    ensures var n := LoopIterationCount(start, bound, step).value;
            && (k < n ==> Before(InductionValue(start, step, k), bound, step) && IsI64(InductionValue(start, step, k)))
            && !Before(InductionValue(start, step, n), bound, step)
  {
    var n := LoopIterationCount(start, bound, step).value;
    TripCountBelow(start, bound, step, k);
    TripCountBelow(start, bound, step, n);
    if k < n {
      ValueBetween(start, bound, step, k);
    }
  }

  lemma ValueBetween(start: int, bound: int, step: int, k: nat)
    requires IsI64(start) && IsI64(bound) && step != 0 && Before(InductionValue(start, step, k), bound, step)
    ensures IsI64(InductionValue(start, step, k))
  {
    if step > 0 {
      ProductOrder(0, k, step);
    } else {
      ProductOrder(0, k, -step);
      assert k * step == -(k * -step);
    }
  }

  /** The count is the only number that separates values satisfying the condition from the rest. */
  lemma TripCountUnique(start: int, bound: int, step: int, n: nat)
    requires IsI64(start) && IsI64(bound) && IsI64(step) && step != 0
    requires n > 0 ==> Before(InductionValue(start, step, n - 1), bound, step)
    requires !Before(InductionValue(start, step, n), bound, step)
    ensures LoopIterationCount(start, bound, step) == Some(n)
  {
    TripCountBelow(start, bound, step, n);
    if n > 0 {
      TripCountBelow(start, bound, step, n - 1);
    }
  }

  // ----- the budget

  datatype BudgetError = NodesExhausted | SingleLoopExceeded | CumulativeLoopsExceeded | InlineDepthExceeded

  /** What a module's expansion and its loops have used up so far. */
  class ExpansionBudget {
    const nodeLimit: nat
    const depthLimit: nat
    const singleLoopLimit: nat
    const cumulativeLoopLimit: nat
    var expandedNodes: nat
    var loopIterations: nat
    var maximumInlineDepth: nat

    ghost predicate Valid()
      reads this
    {
      expandedNodes <= nodeLimit && loopIterations <= cumulativeLoopLimit && maximumInlineDepth <= depthLimit
    }

    constructor (nodeLimit: nat, depthLimit: nat, singleLoopLimit: nat, cumulativeLoopLimit: nat)
      ensures Valid() && expandedNodes == 0 && loopIterations == 0 && maximumInlineDepth == 0
      ensures this.nodeLimit == nodeLimit && this.depthLimit == depthLimit
      ensures this.singleLoopLimit == singleLoopLimit && this.cumulativeLoopLimit == cumulativeLoopLimit
    {
      this.nodeLimit, this.depthLimit := nodeLimit, depthLimit;
      this.singleLoopLimit, this.cumulativeLoopLimit := singleLoopLimit, cumulativeLoopLimit;
      expandedNodes, loopIterations, maximumInlineDepth := 0, 0, 0;
    }

    /** Whether `amount` more fits a limit, in the source's subtraction form. */
    static predicate Fits(used: nat, amount: nat, limit: nat)
      ensures Fits(used, amount, limit) <==> used + amount <= limit
    {
      !(used > limit || amount > limit - used)
    }

    method ConsumeExpandedNode() returns (error: Option<BudgetError>)
      requires Valid()
      modifies this`expandedNodes
      ensures Valid()
      ensures error == if old(expandedNodes) + 1 <= nodeLimit then None else Some(NodesExhausted)
      ensures expandedNodes == old(expandedNodes) + if error.None? then 1 else 0
    {
      if !Fits(expandedNodes, 1, nodeLimit) {
        return Some(NodesExhausted);
      }
      expandedNodes := expandedNodes + 1;
      error := None;
    }

    /** Reserve a whole loop entry before its body runs. */
    method ConsumeLoopIterations(count: nat) returns (error: Option<BudgetError>)
      requires Valid()
      modifies this`loopIterations
      ensures Valid()
      ensures error == LoopCharge(count, old(loopIterations), singleLoopLimit, cumulativeLoopLimit)
      ensures loopIterations == old(loopIterations) + if error.None? then count else 0
    {
      if count > singleLoopLimit {
        return Some(SingleLoopExceeded);
      }
      if !Fits(loopIterations, count, cumulativeLoopLimit) {
        return Some(CumulativeLoopsExceeded);
      }
      loopIterations := loopIterations + count;
      error := None;
    }

    method ValidateInlineCallDepth(depth: nat) returns (error: Option<BudgetError>)
      requires Valid()
      modifies this`maximumInlineDepth
      ensures Valid()
      ensures error == if depth <= depthLimit then None else Some(InlineDepthExceeded)
      ensures maximumInlineDepth == if error.None? then Max(old(maximumInlineDepth), depth) else old(maximumInlineDepth)
    {
      if depth > depthLimit {
        return Some(InlineDepthExceeded);
      }
      if depth > maximumInlineDepth {
        maximumInlineDepth := depth;
      }
      error := None;
    }
  }

  /** The outcome of reserving `count` iterations after `used`. */
  function LoopCharge(count: nat, used: nat, single: nat, cumulative: nat): Option<BudgetError> {
    if count > single then Some(SingleLoopExceeded)
    else if used + count > cumulative then Some(CumulativeLoopsExceeded)
    else None
  }
}
