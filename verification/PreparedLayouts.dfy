/** Legacy row-major layouts, recorded plans, and their agreement with the full metadata walk. */
module PreparedLayouts {
  import opened Machine
  import opened LayoutTypes
  import opened StructuredLayout

  /** A byte range, no range, or a rejection. */
  type Resolution = Result<Option<ByteAccess>, LayoutError>

  // ----- plans

  /** What one step adds for a row of indices. */
  function StepAmount(step: PlanStep, row: seq<int>, structured: bool): (r: Result<Option<int>, LayoutError>)
    requires step.index.Some? ==> step.index.value < |row|
  {
    match step.index
    case None => Ok(Some(step.stride))
    case Some(i) =>
      if structured && row[i] < 0 then Err(IndexNotExact)
      else if structured && row[i] >= step.dimension then Err(IndexExceedsDimension)
      else if !IsI64(row[i] * step.stride) then if structured then Err(IndexedOffsetOverflow) else Ok(None)
      else Ok(Some(row[i] * step.stride))
  }

  predicate StepsFit(steps: seq<PlanStep>, rank: nat) {
    forall i :: 0 <= i < |steps| ==> steps[i].index.Some? ==> steps[i].index.value < rank
  }

  /** Add the steps in order, in int64. */
  function PlanFrom(steps: seq<PlanStep>, row: seq<int>, structured: bool,
                    offset: int): (r: Result<Option<int>, LayoutError>)
    requires StepsFit(steps, |row|)
    decreases |steps|
  {
    if steps == [] then Ok(Some(offset))
    else
      match StepAmount(steps[0], row, structured)
      case Err(e) => Err(e)
      case Ok(None) => Ok(None)
      case Ok(Some(amount)) =>
        if !IsI64(offset + amount) then if structured then Err(OffsetOverflow) else Ok(None)
        else PlanFrom(steps[1..], row, structured, offset + amount)
  }

  /** The byte range at the end of a plan's steps. */
  function Finish(plan: PreparedLayout, offset: int): (r: Resolution) {
    if plan.structured then
      if !IsI64(offset + plan.width) || offset + plan.width > plan.extent then Err(ExceedsExtent)
      else Ok(Some(ByteAccess(offset, plan.width)))
    else if !IsI64(offset * plan.width) then Ok(None)
    else Ok(Some(ByteAccess(offset * plan.width, plan.width)))
  }

  function PlanResolve(plan: PreparedLayout, row: seq<int>): (r: Resolution)
    requires StepsFit(plan.steps, |row|)
  {
    match PlanFrom(plan.steps, row, plan.structured, 0)
    case Err(e) => Err(e)
    case Ok(None) => Ok(None)
    case Ok(Some(offset)) => Finish(plan, offset)
  }

  /** The loop over a plan's steps. */
  method ResolvePlan(plan: PreparedLayout, row: seq<int>) returns (r: Resolution)
    requires StepsFit(plan.steps, |row|)
    ensures r == PlanResolve(plan, row)
  {
    var offset := 0;
    for k := 0 to |plan.steps|
      invariant PlanFrom(plan.steps, row, plan.structured, 0) == PlanFrom(plan.steps[k..], row, plan.structured, offset)
    {
      assert plan.steps[k..][1..] == plan.steps[k + 1..];
      var amount := StepAmount(plan.steps[k], row, plan.structured);
      if amount.Err? {
        return Err(amount.error);
      }
      if amount.value.None? {
        return Ok(None);
      }
      if !IsI64(offset + amount.value.value) {
        return if plan.structured then Err(OffsetOverflow) else Ok(None);
      }
      offset := offset + amount.value.value;
    }
    r := Finish(plan, offset);
  }

  // ----- legacy layouts

  /** A legacy access node; `shape` is absent when missing or no array. */
  datatype LegacyNode = LegacyNode(scalar: bool, elementSize: Option<Int64>, shape: Option<seq<Option<Int64>>>)

  /** The row dimensions of a node of rank at least two. */
  function RowDimensions(node: LegacyNode, rank: nat): (dims: Option<seq<int>>)
    requires rank >= 2
    ensures dims.Some? ==> |dims.value| == rank - 1
  {
    if node.shape.None? || (|node.shape.value| != rank && |node.shape.value| + 1 != rank) then None
    else
      var entries := node.shape.value[|node.shape.value| - (rank - 1)..];
      if exists i :: 0 <= i < |entries| && entries[i].None? then None
      else Some(seq(|entries|, i requires 0 <= i < |entries| => entries[i].value))
  }

  /** Flatten the indices from a position on; every product and sum is checked. */
  function LinearFrom(dims: seq<int>, row: seq<int>, position: nat, linear: int): (r: Option<(int, seq<PlanStep>)>)
    requires |row| == |dims| + 1 && position <= |row|
    decreases |row| - position
  {
    if position == |row| then Some((linear, []))
    else
      match CheckedProduct(1, dims[position..])
      case None => None
      case Some(stride) =>
        var term := row[position] * stride;
        if !IsI64(term) || !IsI64(linear + term) then None
        else
          match LinearFrom(dims, row, position + 1, linear + term)
          case None => None
          case Some((total, steps)) => Some((total, [PlanStep(Some(position), stride, 0)] + steps))
  }

  function LinearIndex(node: LegacyNode, row: seq<int>): (r: Option<(int, seq<PlanStep>)>) {
    if row == [] then if node.scalar then Some((0, [])) else None
    else if |row| == 1 then Some((row[0], [PlanStep(Some(0), 1, 0)]))
    else
      match RowDimensions(node, |row|)
      case None => None
      case Some(dims) => LinearFrom(dims, row, 0, 0)
  }

  function ResolveLegacy(node: LegacyNode, row: seq<int>): (r: Option<(ByteAccess, PreparedLayout)>) {
    if node.elementSize.None? then None
    else
      var size := node.elementSize.value;
      match LinearIndex(node, row)
      case None => None
      case Some((linear, steps)) =>
        if size <= 0 || !IsI64(linear * size) then None
        else Some((ByteAccess(linear * size, size), PreparedLayout(false, size, 0, steps)))
  }

  /** The nested loops: a stride per position, and its term. */
  method Linearize(dims: seq<int>, row: seq<int>) returns (r: Option<(int, seq<PlanStep>)>)
    requires |row| == |dims| + 1
    ensures r == LinearFrom(dims, row, 0, 0)
  {
    hide CheckedProduct;
    var linear, steps := 0, [];
    LinearNext([], PlanStep(None, 0, 0), LinearFrom(dims, row, 0, 0));
    for position := 0 to |row|
      invariant LinearFrom(dims, row, 0, 0) == WithSteps(steps, LinearFrom(dims, row, position, linear))
    {
      var stride := MultiplyDimensions(1, dims, position);
      if stride.None? {
        return None;
      }
      var term := row[position] * stride.value;
      if !IsI64(term) || !IsI64(linear + term) {
        return None;
      }
      var step := PlanStep(Some(position), stride.value, 0);
      LinearNext(steps, step, LinearFrom(dims, row, position + 1, linear + term));
      linear, steps := linear + term, steps + [step];
    }
    assert steps + [] == steps;
    r := Some((linear, steps));
  }

  function WithSteps(steps: seq<PlanStep>, rest: Option<(int, seq<PlanStep>)>): (r: Option<(int, seq<PlanStep>)>) {
    match rest
    case None => None
    case Some((total, more)) => Some((total, steps + more))
  }

  lemma LinearNext(steps: seq<PlanStep>, step: PlanStep, rest: Option<(int, seq<PlanStep>)>)
    ensures WithSteps(steps, WithSteps([step], rest)) == WithSteps(steps + [step], rest)
    ensures WithSteps([], rest) == rest
  {
    if rest.Some? {
      assert steps + ([step] + rest.value.1) == (steps + [step]) + rest.value.1;
      assert [] + rest.value.1 == rest.value.1;
    }
  }

  /** The row dimensions entry by entry. */
  method ReadRowDimensions(node: LegacyNode, rank: nat) returns (dims: Option<seq<int>>)
    requires rank >= 2
    ensures dims == RowDimensions(node, rank)
  {
    if node.shape.None? || (|node.shape.value| != rank && |node.shape.value| + 1 != rank) {
      return None;
    }
    var entries := node.shape.value[|node.shape.value| - (rank - 1)..];
    var shape := [];
    for i := 0 to |entries|
      invariant |shape| == i && forall k :: 0 <= k < i ==> entries[k] == Some(shape[k])
    {
      if entries[i].None? {
        return None;
      }
      shape := shape + [entries[i].value];
    }
    assert shape == seq(|entries|, i requires 0 <= i < |entries| => entries[i].value);
    dims := Some(shape);
  }

  // ----- what a legacy access means

  /** The last entries of a shape are integers. */
  predicate Known(shape: seq<Option<int>>, count: nat) {
    count <= |shape| && forall i :: |shape| - count <= i < |shape| ==> shape[i].Some?
  }

  /** The product of the last entries of a shape. */
  function TrailingVolume(shape: seq<Option<int>>, count: nat): (v: int)
    requires Known(shape, count)
  {
    if count == 0 then 1 else shape[|shape| - count].value * TrailingVolume(shape, count - 1)
  }

  /** The element that the indices of a row select from a position on, in row-major order. */
  function RowOffset(shape: seq<Option<int>>, row: seq<int>, position: nat): (offset: int)
    requires position <= |row| && (row != [] ==> Known(shape, |row| - 1))
    decreases |row| - position
  {
    if position == |row| then 0
    else row[position] * TrailingVolume(shape, |row| - 1 - position) + RowOffset(shape, row, position + 1)
  }

  /** The shape entries; none when there is no shape. */
  function ShapeEntries(node: LegacyNode): (shape: seq<Option<int>>) {
    if node.shape.Some? then node.shape.value else []
  }

  /** The node has an element size, and a shape that fits a row of this rank. */
  ghost predicate RankFits(node: LegacyNode, rank: nat) {
    && node.elementSize.Some? && node.elementSize.value > 0
    && (rank == 0 ==> node.scalar)
    && (rank >= 2 ==> node.shape.Some? && rank - 1 <= |node.shape.value| <= rank)
    && (rank >= 1 ==> Known(ShapeEntries(node), rank - 1))
  }

  /** One element of the node's size, at the row's place in row-major order. */
  ghost predicate LegacyAccess(node: LegacyNode, row: seq<int>, access: ByteAccess) {
    && RankFits(node, |row|)
    && access.size == node.elementSize.value
    && access.offset == access.size * RowOffset(ShapeEntries(node), row, 0)
  }

  predicate PositiveTail(shape: seq<Option<int>>, count: nat)
    requires Known(shape, count)
  {
    forall i :: |shape| - count <= i < |shape| ==> shape[i].value > 0
  }

  predicate NonNegative(row: seq<int>) {
    forall i :: 0 <= i < |row| ==> row[i] >= 0
  }

  /** The product of the first `n` of the last `count` entries. */
  function LeadingVolume(shape: seq<Option<int>>, count: nat, n: nat): (v: int)
    requires Known(shape, count) && n <= count
  {
    if n == 0 then 1 else LeadingVolume(shape, count, n - 1) * shape[|shape| - count + n - 1].value
  }

  ghost predicate VolumesFit(shape: seq<Option<int>>, count: nat, done: nat)
    requires Known(shape, count)
  {
    forall n :: done < n <= count ==> IsI64(LeadingVolume(shape, count, n))
  }

  /** The product of the last `count` entries, multiplied from the left, fits int64 at every step. */
  ghost predicate StrideFits(shape: seq<Option<int>>, count: nat)
    requires Known(shape, count)
  {
    VolumesFit(shape, count, 0)
  }

  /** The stride of a position, its term, and the sum up to and with it fit int64. */
  ghost predicate StepFits(shape: seq<Option<int>>, row: seq<int>, p: nat)
    requires p < |row| && Known(shape, |row| - 1)
  {
    && StrideFits(shape, |row| - 1 - p)
    && IsI64(row[p] * TrailingVolume(shape, |row| - 1 - p))
    && IsI64(RowOffset(shape, row, 0) - RowOffset(shape, row, p + 1))
  }

  /** Every stride on the way, every term, every partial sum and the byte offset fit int64. */
  ghost predicate LegacyFits(node: LegacyNode, row: seq<int>)
    requires RankFits(node, |row|)
  {
    && (|row| >= 2 ==> forall p :: 0 <= p < |row| ==> StepFits(ShapeEntries(node), row, p))
    && IsI64(node.elementSize.value * RowOffset(ShapeEntries(node), row, 0))
  }

  /** A checked product that is accepted is the product. */
  lemma {:induction false} CheckedIsProduct(base: int, dims: seq<int>)
    requires CheckedProduct(base, dims).Some?
    ensures CheckedProduct(base, dims).value == base * Volume(dims)
    decreases |dims|
  {
    if dims != [] {
      CheckedIsProduct(base * dims[0], dims[1..]);
      Associates(base, dims[0], Volume(dims[1..]));
    }
  }

  lemma Associates(a: int, b: int, c: int)
    ensures a * (b * c) == (a * b) * c
  {
  }

  /** The dimensions are the last entries of the shape. */
  ghost predicate AreTrailing(dims: seq<int>, shape: seq<Option<int>>) {
    |dims| <= |shape| && forall i :: 0 <= i < |dims| ==> shape[|shape| - |dims| + i] == Some(dims[i])
  }

  lemma {:induction false} StrideIsVolume(dims: seq<int>, shape: seq<Option<int>>, position: nat)
    requires AreTrailing(dims, shape) && position <= |dims|
    ensures Known(shape, |dims| - position)
    ensures Volume(dims[position..]) == TrailingVolume(shape, |dims| - position)
    decreases |dims| - position
  {
    assert forall i :: |shape| - |dims| <= i < |shape| ==> shape[i] == Some(dims[i - (|shape| - |dims|)]);
    if position < |dims| {
      StrideIsVolume(dims, shape, position + 1);
      assert dims[position..][1..] == dims[position + 1..];
    }
  }

  lemma {:induction false} LinearIsOffset(dims: seq<int>, shape: seq<Option<int>>, row: seq<int>, position: nat,
                                          linear: int)
    requires |row| == |dims| + 1 && position <= |row| && AreTrailing(dims, shape) && Known(shape, |dims|)
    requires LinearFrom(dims, row, position, linear).Some?
    ensures LinearFrom(dims, row, position, linear).value.0 == linear + RowOffset(shape, row, position)
    decreases |row| - position
  {
    hide CheckedProduct;
    if position < |row| {
      var stride := CheckedProduct(1, dims[position..]).value;
      CheckedIsProduct(1, dims[position..]);
      StrideIsVolume(dims, shape, position);
      LinearIsOffset(dims, shape, row, position + 1, linear + row[position] * stride);
    }
  }

  lemma {:induction false} TailPositive(shape: seq<Option<int>>, count: nat, more: nat)
    requires count <= more && Known(shape, more) && PositiveTail(shape, more)
    ensures Known(shape, count) && 0 < TrailingVolume(shape, count) <= TrailingVolume(shape, more)
    decreases more
  {
    if more == 0 {
    } else if count < more {
      TailPositive(shape, count, more - 1);
      PositiveProduct(shape[|shape| - more].value, TrailingVolume(shape, more - 1));
    } else {
      TailPositive(shape, count - 1, more - 1);
      PositiveProduct(shape[|shape| - more].value, TrailingVolume(shape, more - 1));
    }
  }

  lemma NonNegativeTerm(a: int, b: int)
    ensures a >= 0 && b > 0 ==> a * b >= 0
  {
  }

  lemma {:induction false} OffsetNonNegative(shape: seq<Option<int>>, row: seq<int>, position: nat)
    requires position <= |row| && NonNegative(row)
    requires row != [] ==> Known(shape, |row| - 1) && PositiveTail(shape, |row| - 1)
    ensures RowOffset(shape, row, position) >= 0
    decreases |row| - position
  {
    if position < |row| {
      TailPositive(shape, |row| - 1 - position, |row| - 1);
      NonNegativeTerm(row[position], TrailingVolume(shape, |row| - 1 - position));
      OffsetNonNegative(shape, row, position + 1);
    }
  }

  lemma {:induction false} StrideExact(dims: seq<int>, shape: seq<Option<int>>, count: nat, n: nat)
    requires AreTrailing(dims, shape) && count <= |dims| && Known(shape, count) && n <= count
    ensures CheckedProduct(LeadingVolume(shape, count, n), dims[|dims| - count + n..]).Some?
            <==> VolumesFit(shape, count, n)
    decreases count - n
  {
    var rest := dims[|dims| - count + n..];
    if n < count {
      StrideExact(dims, shape, count, n + 1);
      assert rest[1..] == dims[|dims| - count + (n + 1)..] && rest[0] == dims[|dims| - count + n];
    }
  }

  lemma StrideOf(dims: seq<int>, shape: seq<Option<int>>, position: nat)
    requires AreTrailing(dims, shape) && position <= |dims|
    ensures Known(shape, |dims| - position)
    ensures CheckedProduct(1, dims[position..]).Some? <==> StrideFits(shape, |dims| - position)
    ensures CheckedProduct(1, dims[position..]).Some? ==>
              CheckedProduct(1, dims[position..]).value == TrailingVolume(shape, |dims| - position)
  {
    StrideIsVolume(dims, shape, position);
    var count := |dims| - position;
    hide CheckedProduct, VolumesFit;
    StrideExact(dims, shape, count, 0);
    assert dims[|dims| - count + 0..] == dims[position..];
    if CheckedProduct(1, dims[position..]).Some? {
      CheckedIsProduct(1, dims[position..]);
    }
  }

  /** Every step fits exactly when the strides, the terms and the sums do. */
  lemma {:induction false} LinearFits(dims: seq<int>, shape: seq<Option<int>>, row: seq<int>, position: nat)
    requires |row| == |dims| + 1 && position <= |row| && AreTrailing(dims, shape) && Known(shape, |dims|)
    ensures LinearFrom(dims, row, position, RowOffset(shape, row, 0) - RowOffset(shape, row, position)).Some?
            <==> forall p :: position <= p < |row| ==> StepFits(shape, row, p)
    decreases |row| - position
  {
    hide CheckedProduct, StrideFits;
    if position < |row| {
      StrideOf(dims, shape, position);
      LinearFits(dims, shape, row, position + 1);
      FirstFits(shape, row, position);
    }
  }

  lemma FirstFits(shape: seq<Option<int>>, row: seq<int>, position: nat)
    requires position < |row| && Known(shape, |row| - 1)
    ensures (forall p :: position <= p < |row| ==> StepFits(shape, row, p))
            <==> StepFits(shape, row, position) && forall p :: position + 1 <= p < |row| ==> StepFits(shape, row, p)
  {
    hide StepFits;
  }

  lemma RowDimensionsTrail(node: LegacyNode, rank: nat)
    requires rank >= 2
    ensures RowDimensions(node, rank).Some?
            <==> node.shape.Some? && rank - 1 <= |node.shape.value| <= rank && Known(node.shape.value, rank - 1)
    ensures RowDimensions(node, rank).Some? ==> AreTrailing(RowDimensions(node, rank).value, node.shape.value)
  {
    if node.shape.Some? && rank - 1 <= |node.shape.value| <= rank {
      var shape := node.shape.value;
      var entries := shape[|shape| - (rank - 1)..];
      assert forall i :: 0 <= i < |entries| ==> entries[i] == shape[|shape| - (rank - 1) + i];
      assert forall i :: |shape| - (rank - 1) <= i < |shape| ==> shape[i] == entries[i - (|shape| - (rank - 1))];
    }
  }

  lemma LegacyMeaning(node: LegacyNode, row: seq<int>)
    ensures ResolveLegacy(node, row).Some? ==> LegacyAccess(node, row, ResolveLegacy(node, row).value.0)
  {
    hide RowDimensions, LinearFrom;
    if ResolveLegacy(node, row).Some? {
      if |row| >= 2 {
        RowDimensionsTrail(node, |row|);
        LinearIsOffset(RowDimensions(node, |row|).value, node.shape.value, row, 0, 0);
      } else if |row| == 1 {
        assert RowOffset(ShapeEntries(node), row, 1) == 0;
      }
    }
  }

  lemma LegacyExact(node: LegacyNode, row: seq<int>)
    requires RankFits(node, |row|)
    ensures ResolveLegacy(node, row).Some? <==> LegacyFits(node, row)
  {
    hide RowDimensions, LinearFrom, StepFits;
    var shape := ShapeEntries(node);
    if |row| >= 2 {
      RowDimensionsTrail(node, |row|);
      var dims := RowDimensions(node, |row|).value;
      if LinearFrom(dims, row, 0, 0).Some? {
        LinearIsOffset(dims, shape, row, 0, 0);
      }
      LinearFits(dims, shape, row, 0);
    } else if |row| == 1 {
      assert RowOffset(shape, row, 1) == 0;
    }
  }

  /** Partial sums of non-negative terms are at most the sum. */
  lemma {:induction false} SumGrows(shape: seq<Option<int>>, row: seq<int>, p: nat)
    requires p < |row| && NonNegative(row) && Known(shape, |row| - 1) && PositiveTail(shape, |row| - 1)
    ensures 0 <= RowOffset(shape, row, p + 1) <= RowOffset(shape, row, p) <= RowOffset(shape, row, 0)
    decreases p
  {
    OffsetNonNegative(shape, row, p + 1);
    TailPositive(shape, |row| - 1 - p, |row| - 1);
    NonNegativeTerm(row[p], TrailingVolume(shape, |row| - 1 - p));
    if p > 0 {
      SumGrows(shape, row, p - 1);
    }
  }

  lemma {:induction false} LeadingSplits(shape: seq<Option<int>>, count: nat, n: nat)
    requires Known(shape, count) && n <= count && Known(shape, count - n)
    ensures TrailingVolume(shape, count) == LeadingVolume(shape, count, n) * TrailingVolume(shape, count - n)
    decreases n
  {
    if n > 0 {
      LeadingSplits(shape, count, n - 1);
      var before, d, after := LeadingVolume(shape, count, n - 1), shape[|shape| - count + n - 1].value,
                              TrailingVolume(shape, count - n);
      Associates(before, d, after);
    }
  }

  lemma {:induction false} LeadingPositive(shape: seq<Option<int>>, count: nat, n: nat)
    requires Known(shape, count) && n <= count && PositiveTail(shape, count)
    ensures LeadingVolume(shape, count, n) > 0
    decreases n
  {
    if n > 0 {
      LeadingPositive(shape, count, n - 1);
      PositiveProduct(LeadingVolume(shape, count, n - 1), shape[|shape| - count + n - 1].value);
    }
  }

  /** With positive dimensions no stride overflows on the way to one that fits. */
  lemma PositiveStrideFits(shape: seq<Option<int>>, count: nat, most: nat)
    requires count <= most && Known(shape, most) && PositiveTail(shape, most)
    requires TrailingVolume(shape, most) <= I64_MAX
    ensures Known(shape, count) && StrideFits(shape, count)
  {
    hide LeadingVolume, TrailingVolume;
    TailPositive(shape, count, most);
    forall n | 0 < n <= count
      ensures IsI64(LeadingVolume(shape, count, n))
    {
      TailPositive(shape, count - n, most);
      LeadingSplits(shape, count, n);
      LeadingPositive(shape, count, n);
      PositiveProduct(LeadingVolume(shape, count, n), TrailingVolume(shape, count - n));
    }
  }

  /** With positive dimensions and non-negative indices only the largest stride and the byte offset can fail to fit. */
  lemma NonNegativeFits(node: LegacyNode, row: seq<int>)
    requires RankFits(node, |row|) && row != [] && NonNegative(row) && PositiveTail(ShapeEntries(node), |row| - 1)
    ensures TrailingVolume(ShapeEntries(node), |row| - 1) <= I64_MAX
            && node.elementSize.value * RowOffset(ShapeEntries(node), row, 0) <= I64_MAX
            ==> LegacyFits(node, row)
  {
    hide StrideFits;
    var shape, size := ShapeEntries(node), node.elementSize.value;
    OffsetNonNegative(shape, row, 0);
    ScaledBound(size, RowOffset(shape, row, 0));
    if size * RowOffset(shape, row, 0) <= I64_MAX && TrailingVolume(shape, |row| - 1) <= I64_MAX {
      forall p | 0 <= p < |row|
        ensures StepFits(shape, row, p)
      {
        SumGrows(shape, row, p);
        PositiveStrideFits(shape, |row| - 1 - p, |row| - 1);
        TailPositive(shape, |row| - 1 - p, |row| - 1);
        NonNegativeTerm(row[p], TrailingVolume(shape, |row| - 1 - p));
      }
    }
  }

  lemma ScaledBound(size: int, n: int)
    requires size > 0 && n >= 0
    ensures 0 <= n <= size * n == n * size
  {
    assert size * n == (size - 1) * n + n;
    assert (size - 1) * n >= 0;
  }

  /** Raising one index by one moves the access by the element size times the product of the dimensions after it. */
  lemma {:induction false} RaisedIndex(shape: seq<Option<int>>, row: seq<int>, k: nat, position: nat)
    requires k < |row| && position <= |row| && Known(shape, |row| - 1)
    ensures RowOffset(shape, row[k := row[k] + 1], position)
            == RowOffset(shape, row, position) + if position <= k then TrailingVolume(shape, |row| - 1 - k) else 0
    decreases |row| - position
  {
    if position < |row| {
      RaisedIndex(shape, row, k, position + 1);
      var stride := TrailingVolume(shape, |row| - 1 - position);
      assert (row[position] + 1) * stride == row[position] * stride + stride;
    }
  }

  lemma Distributes(a: int, b: int, c: int)
    ensures a * (b + c) == a * b + a * c
  {
  }

  lemma RaisedAccess(node: LegacyNode, row: seq<int>, k: nat, access: ByteAccess, next: ByteAccess)
    requires k < |row| && LegacyAccess(node, row, access) && LegacyAccess(node, row[k := row[k] + 1], next)
    ensures next.offset == access.offset + access.size * TrailingVolume(ShapeEntries(node), |row| - 1 - k)
  {
    var shape := ShapeEntries(node);
    RaisedIndex(shape, row, k, 0);
    Distributes(access.size, RowOffset(shape, row, 0), TrailingVolume(shape, |row| - 1 - k));
  }

  /** Every index from a position on that has a dimension of its own is below it. */
  ghost predicate InBounds(shape: seq<Option<int>>, row: seq<int>, position: nat)
    requires row != [] ==> Known(shape, |row| - 1)
  {
    && (|row| <= |shape| && row != [] && position == 0 ==>
          shape[|shape| - |row|].Some? && 0 <= row[0] < shape[|shape| - |row|].value)
    && forall i :: position <= i < |row| && 0 < i ==> 0 <= row[i] < shape[|shape| - (|row| - i)].value
  }

  lemma {:induction false} OffsetBelow(shape: seq<Option<int>>, row: seq<int>, position: nat)
    requires position <= |row| && (row != [] ==> Known(shape, |row| - 1)) && InBounds(shape, row, position)
    requires position == 0 ==> |row| <= |shape|
    ensures Known(shape, |row| - position)
    ensures 0 <= RowOffset(shape, row, position) < TrailingVolume(shape, |row| - position)
    decreases |row| - position
  {
    if position < |row| {
      OffsetBelow(shape, row, position + 1);
      IndexFits(row[position], shape[|shape| - (|row| - position)].value,
                TrailingVolume(shape, |row| - 1 - position));
    }
  }

  /** Rows in bounds that differ select different elements. */
  lemma {:induction false} OffsetsDiffer(shape: seq<Option<int>>, a: seq<int>, b: seq<int>, position: nat)
    requires |a| == |b| && position <= |a| && a[position..] != b[position..] && Known(shape, |a| - 1)
    requires InBounds(shape, a, position) && InBounds(shape, b, position)
    ensures RowOffset(shape, a, position) != RowOffset(shape, b, position)
    decreases |a| - position
  {
    if a[position] == b[position] {
      assert a[position..] == [a[position]] + a[position + 1..];
      assert b[position..] == [b[position]] + b[position + 1..];
      OffsetsDiffer(shape, a, b, position + 1);
    } else if a[position] < b[position] {
      OffsetsOrdered(shape, a, b, position);
    } else {
      OffsetsOrdered(shape, b, a, position);
    }
  }

  lemma OffsetsOrdered(shape: seq<Option<int>>, a: seq<int>, b: seq<int>, position: nat)
    requires |a| == |b| && position < |a| && a[position] < b[position] && Known(shape, |a| - 1)
    requires InBounds(shape, a, position) && InBounds(shape, b, position)
    ensures RowOffset(shape, a, position) < RowOffset(shape, b, position)
  {
    OffsetBelow(shape, a, position + 1);
    OffsetBelow(shape, b, position + 1);
    DifferentBlocks(a[position], b[position], TrailingVolume(shape, |a| - 1 - position));
  }

  /** Distinct rows in bounds select disjoint bytes, inside the array when the shape has the row's rank. */
  lemma LegacyDisjoint(node: LegacyNode, a: seq<int>, b: seq<int>, first: ByteAccess, second: ByteAccess)
    requires |a| == |b| && a != b && LegacyAccess(node, a, first) && LegacyAccess(node, b, second)
    requires InBounds(ShapeEntries(node), a, 0) && InBounds(ShapeEntries(node), b, 0)
    ensures Disjoint(first, second)
  {
    var shape := ShapeEntries(node);
    assert a[0..] == a && b[0..] == b;
    OffsetsDiffer(shape, a, b, 0);
    var i, j := RowOffset(shape, a, 0), RowOffset(shape, b, 0);
    if i < j {
      DifferentBlocks(i, j, first.size);
    } else {
      DifferentBlocks(j, i, first.size);
    }
  }

  lemma LegacyInside(node: LegacyNode, row: seq<int>, access: ByteAccess)
    requires LegacyAccess(node, row, access) && InBounds(ShapeEntries(node), row, 0)
    requires |row| <= |ShapeEntries(node)|
    ensures Known(ShapeEntries(node), |row|)
    ensures 0 <= access.offset
    ensures access.offset + access.size <= access.size * TrailingVolume(ShapeEntries(node), |row|)
  {
    var shape := ShapeEntries(node);
    OffsetBelow(shape, row, 0);
    IndexFits(RowOffset(shape, row, 0), TrailingVolume(shape, |row|), access.size);
  }

  /**
   * The selected bytes are one element at its row-major place. There is an answer exactly when the rank fits and
   * nothing on the way leaves int64.
   */
  method PrepareLegacy(node: LegacyNode, row: seq<int>) returns (r: Option<(ByteAccess, PreparedLayout)>)
    ensures r == ResolveLegacy(node, row)
    ensures r.Some? ==> LegacyAccess(node, row, r.value.0) && IsI64(r.value.0.offset)
    ensures r.Some? <==> RankFits(node, |row|) && LegacyFits(node, row)
  {
    LegacyMeaning(node, row);
    if RankFits(node, |row|) {
      LegacyExact(node, row);
    }
    hide RowDimensions, LinearFrom, LegacyAccess, RankFits, LegacyFits, PositiveTail;
    if node.elementSize.None? {
      return None;
    }
    var linear: Option<(int, seq<PlanStep>)> := None;
    if row == [] {
      linear := if node.scalar then Some((0, [])) else None;
    } else if |row| == 1 {
      linear := Some((row[0], [PlanStep(Some(0), 1, 0)]));
    } else {
      var dims := ReadRowDimensions(node, |row|);
      if dims.Some? {
        linear := Linearize(dims.value, row);
      }
    }
    var size := node.elementSize.value;
    if linear.None? || size <= 0 || !IsI64(linear.value.0 * size) {
      return None;
    }
    r := Some((ByteAccess(linear.value.0 * size, size), PreparedLayout(false, size, 0, linear.value.1)));
  }

  // ----- dispatch

  /** An access node as both layouts read it. */
  datatype LayoutNode = LayoutNode(access: AccessNode, legacy: LegacyNode)

  predicate HasFieldPath(path: seq<Segment>) {
    exists i :: 0 <= i < |path| && path[i].FieldSegment?
  }

  function Row(row: seq<int>): (r: seq<Option<int>>)
    ensures |r| == |row| && forall i :: 0 <= i < |row| ==> r[i] == Some(row[i])
  {
    seq(|row|, i requires 0 <= i < |row| => Some(row[i]))
  }

  /** The full metadata walk of one access, with the plan it records. */
  function Prepare(node: LayoutNode, row: seq<int>, objects: Objects, structures: Structures):
    (r: Result<Option<(ByteAccess, PreparedLayout)>, LayoutError>)
  {
    if !HasFieldPath(node.access.path) then Ok(ResolveLegacy(node.legacy, row))
    else
      match ResolveStructured(node.access, Row(row), objects, structures)
      case Err(e) => Err(e)
      case Ok(resolved) => Ok(Some(resolved))
  }

  method PrepareAccess(node: LayoutNode, row: seq<int>, objects: Objects, structures: Structures)
    returns (r: Result<Option<(ByteAccess, PreparedLayout)>, LayoutError>)
    ensures r == Prepare(node, row, objects, structures)
    ensures if exists i :: 0 <= i < |node.access.path| && node.access.path[i].FieldSegment? then
              r.Ok? ==> r.value.Some? && AccessLands(node.access, Row(row), objects, structures, r.value.value.0)
            else r.Ok? && (r.value.Some? ==> LegacyAccess(node.legacy, row, r.value.value.0))
  {
    hide ResolveStructured, ResolveLegacy, AccessLands, LegacyAccess;
    var path := node.access.path;
    var structured := false;
    for i := 0 to |path|
      invariant !structured && forall k :: 0 <= k < i ==> !path[k].FieldSegment?
    {
      if path[i].FieldSegment? {
        structured := true;
        break;
      }
    }
    if !structured {
      var resolved := PrepareLegacy(node.legacy, row);
      return Ok(resolved);
    }
    var resolved := PrepareStructured(node.access, Row(row), objects, structures);
    r := match resolved
         case Err(e) => Err(e)
         case Ok(both) => Ok(Some(both));
  }

  /** The byte range of a full walk. */
  function Ranges(r: Result<Option<(ByteAccess, PreparedLayout)>, LayoutError>): (range: Resolution) {
    match r
    case Err(e) => Err(e)
    case Ok(None) => Ok(None)
    case Ok(Some((access, _))) => Ok(Some(access))
  }

  // ----- agreement

  /** What a plan's remaining steps make of a row, as a finished structured walk. */
  function Planned(steps: seq<PlanStep>, row: seq<int>, offset: int, width: int): (r: Result<ByteAccess, LayoutError>)
    requires StepsFit(steps, |row|)
  {
    match PlanFrom(steps, row, true, offset)
    case Err(e) => Err(e)
    case Ok(None) => Err(OffsetOverflow)
    case Ok(Some(total)) => Ok(ByteAccess(total, width))
  }

  function AccessOf(r: Result<Located, LayoutError>): (a: Result<ByteAccess, LayoutError>) {
    match r
    case Err(e) => Err(e)
    case Ok(located) => Ok(located.access)
  }

  lemma {:induction false} WalkFits(structures: Structures, path: seq<Segment>, texts: seq<Option<string>>,
                                    row: seq<Option<int>>, place: Place, extent: int)
    requires |texts| == |row| && WalkPath(structures, path, texts, row, place, extent).Ok?
    ensures StepsFit(WalkPath(structures, path, texts, row, place, extent).value.steps, |row|)
    decreases |path|
  {
    if path != [] {
      hide FieldAt, CheckedProduct;
      var (next, step) := Advance(structures, path[0], texts, row, place).value;
      WalkFits(structures, path[1..], texts, row, next, extent);
    }
  }

  /** One segment for another row: rejected as the plan's step rejects, or the same move with the plan's amount. */
  lemma AdvanceAgrees(structures: Structures, segment: Segment, texts: seq<Option<string>>, first: seq<int>,
                      later: seq<int>,
                      a: Place, b: Place, extent: int)
    requires |texts| == |first| == |later| && Inside(a, extent) && Inside(b, extent)
    requires a.state == b.state && a.position == b.position && Advance(structures, segment, texts, Row(first), a).Ok?
    ensures var (next, step) := Advance(structures, segment, texts, Row(first), a).value;
            && (step.index.Some? ==> step.index.value < |later|)
            && match StepAmount(step, later, true)
               case Err(e) => Advance(structures, segment, texts, Row(later), b) == Err(e)
               case Ok(None) => false
               case Ok(Some(amount)) =>
                 && IsI64(b.offset + amount)
                 && Advance(structures, segment, texts, Row(later), b)
                    == Ok((Place(next.state, b.offset + amount, next.position), step))
  {
    hide FieldAt, CheckedProduct, Extent, StateOf;
    AdvanceInside(structures, segment, texts, Row(first), a, extent);
    AdvanceInside(structures, segment, texts, Row(later), b, extent);
    var step := Advance(structures, segment, texts, Row(first), a).value.1;
    if segment.IndexSegment? && 0 <= later[a.position] < step.dimension {
      IndexInside(later[a.position], b, extent);
    }
  }

  /** A plan recorded for one row gives every later row of the same rank exactly what the full walk gives it. */
  lemma {:induction false} WalkAgrees(structures: Structures, path: seq<Segment>, texts: seq<Option<string>>,
                                      first: seq<int>, later: seq<int>, a: Place, b: Place, extent: int)
    requires |texts| == |first| == |later| && Inside(a, extent) && Inside(b, extent)
    requires a.state == b.state && a.position == b.position
    requires WalkPath(structures, path, texts, Row(first), a, extent).Ok?
    ensures var located := WalkPath(structures, path, texts, Row(first), a, extent).value;
            && StepsFit(located.steps, |later|)
            && AccessOf(WalkPath(structures, path, texts, Row(later), b, extent))
               == Planned(located.steps, later, b.offset, located.access.size)
    decreases |path|
  {
    hide Advance, StepAmount, Extent;
    WalkFits(structures, path, texts, Row(first), a, extent);
    if path == [] {
      WalkInside(structures, path, texts, Row(later), b, extent);
    } else {
      AdvanceAgrees(structures, path[0], texts, first, later, a, b, extent);
      AdvanceInside(structures, path[0], texts, Row(first), a, extent);
      AdvanceInside(structures, path[0], texts, Row(later), b, extent);
      var (nextA, step) := Advance(structures, path[0], texts, Row(first), a).value;
      if StepAmount(step, later, true).Ok? {
        var nextB := Advance(structures, path[0], texts, Row(later), b).value.0;
        WalkAgrees(structures, path[1..], texts, first, later, nextA, nextB, extent);
        var rest := WalkPath(structures, path[1..], texts, Row(first), nextA, extent).value.steps;
        assert ([step] + rest)[1..] == rest;
      }
    }
  }

  lemma StructuredAgrees(node: AccessNode, first: seq<int>, later: seq<int>, objects: Objects, structures: Structures)
    requires |first| == |later| && ResolveStructured(node, Row(first), objects, structures).Ok?
    ensures var plan := ResolveStructured(node, Row(first), objects, structures).value.1;
            && StepsFit(plan.steps, |later|)
            && PlanResolve(plan, later)
               == match ResolveStructured(node, Row(later), objects, structures)
                  case Err(e) => Err(e)
                  case Ok((access, _)) => Ok(Some(access))
  {
    hide WalkPath, PlanFrom, Extent;
    StartInside(node, |first|, objects);
    var (place, extent) := StartOf(node, |first|, objects).value;
    WalkAgrees(structures, node.path, node.indices.value, first, later, place, place, extent);
    WalkInside(structures, node.path, node.indices.value, Row(later), place, extent);
    NeverNone(ResolveStructured(node, Row(first), objects, structures).value.1.steps, later, 0);
  }

  /** A structured plan rejects; it never merely has no range. */
  lemma {:induction false} NeverNone(steps: seq<PlanStep>, row: seq<int>, offset: int)
    requires StepsFit(steps, |row|)
    ensures PlanFrom(steps, row, true, offset) != Ok(None)
    decreases |steps|
  {
    if steps != [] {
      match StepAmount(steps[0], row, true)
      case Err(_) =>
      case Ok(None) =>
      case Ok(Some(amount)) =>
        if IsI64(offset + amount) {
          NeverNone(steps[1..], row, offset + amount);
        }
    }
  }

  lemma {:induction false} LinearAgrees(dims: seq<int>, first: seq<int>, later: seq<int>, position: nat, a: int, b: int)
    requires |first| == |later| == |dims| + 1 && position <= |first| && LinearFrom(dims, first, position, a).Some?
    ensures var steps := LinearFrom(dims, first, position, a).value.1;
            && StepsFit(steps, |later|)
            && PlanFrom(steps, later, false, b)
               == Ok(match LinearFrom(dims, later, position, b) case None => None case Some((total, _)) => Some(total))
            && (LinearFrom(dims, later, position, b).Some? ==> LinearFrom(dims, later, position, b).value.1 == steps)
    decreases |first| - position
  {
    hide CheckedProduct;
    if position < |first| {
      var stride := CheckedProduct(1, dims[position..]).value;
      var termA, termB := first[position] * stride, later[position] * stride;
      LinearAgrees(dims, first, later, position + 1, a + termA, b + termB);
      var rest := LinearFrom(dims, first, position + 1, a + termA).value.1;
      assert ([PlanStep(Some(position), stride, 0)] + rest)[1..] == rest;
    }
  }

  lemma LegacyAgrees(node: LegacyNode, first: seq<int>, later: seq<Int64>)
    requires |first| == |later| && ResolveLegacy(node, first).Some?
    ensures var plan := ResolveLegacy(node, first).value.1;
            && StepsFit(plan.steps, |later|)
            && PlanResolve(plan, later)
               == Ok(match ResolveLegacy(node, later) case None => None case Some((access, _)) => Some(access))
  {
    hide RowDimensions, CheckedProduct;
    if |first| >= 2 {
      LinearAgrees(RowDimensions(node, |first|).value, first, later, 0, 0, 0);
    } else if |first| == 1 {
      OneStep(later);
    }
  }

  lemma OneStep(row: seq<Int64>)
    requires |row| == 1
    ensures PlanFrom([PlanStep(Some(0), 1, 0)], row, false, 0) == Ok(Some(row[0]))
  {
    var step := PlanStep(Some(0), 1, 0);
    assert row[0] * 1 == row[0];
    assert [step][1..] == [];
  }

  /**
   * After a first successful access the recorded plan and the full metadata walk agree on every later row of
   * the same rank, structured or legacy: the same byte range, no range, or the same rejection.
   */
  lemma PlanAgrees(node: LayoutNode, first: seq<Int64>, later: seq<Int64>, objects: Objects, structures: Structures)
    requires |first| == |later|
    requires Prepare(node, first, objects, structures).Ok? && Prepare(node, first, objects, structures).value.Some?
    ensures var plan := Prepare(node, first, objects, structures).value.value.1;
            && StepsFit(plan.steps, |later|)
            && PlanResolve(plan, later) == Ranges(Prepare(node, later, objects, structures))
  {
    hide ResolveStructured, ResolveLegacy, PlanResolve;
    if HasFieldPath(node.access.path) {
      StructuredAgrees(node.access, first, later, objects, structures);
    } else {
      LegacyAgrees(node.legacy, first, later);
    }
  }
}
