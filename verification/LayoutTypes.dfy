/** ABI type metadata: validated type states and their byte extents. */
module LayoutTypes {
  import opened Machine

  /** The shape entry of a type, which may be missing or not an array; an entry of it may be no integer. */
  datatype ShapeMetadata = NoShape | InvalidShape | Dimensions(entries: seq<Option<Int64>>)

  /** Type metadata as found; an integer that is missing or of another JSON type is absent. */
  datatype TypeMetadata = TypeMetadata(kind: string, elementType: string, elementSize: Option<Int64>,
      shape: ShapeMetadata)

  datatype TypeState = TypeState(kind: string, shape: seq<int>, elementType: string, elementSize: int)

  datatype LayoutError =
    | LacksObject | RankDisagrees | PointerObject | MalformedSegment | InvalidIndexTransition | IndexNotExact
    | LacksInteger | NonPositiveSize | BadShape | BadDimension | ExtentOverflow
    | NoStructure | MalformedStructure | StructureSizeDisagrees | FieldNameDisagrees | UnknownField
    | FieldExceeds | FieldSizeDisagrees | IndexExceedsDimension | NotIndexable | NotLeaf
    | StrideOverflow | IndexedOffsetOverflow | OffsetOverflow | ExceedsExtent

  predicate Positive(dims: seq<int>) {
    forall i :: 0 <= i < |dims| ==> dims[i] > 0
  }

  function Volume(dims: seq<int>): (v: int)
    ensures Positive(dims) ==> v > 0
  {
    if dims == [] then 1
    else
      PositiveProduct(dims[0], Volume(dims[1..]));
      dims[0] * Volume(dims[1..])
  }

  lemma PositiveProduct(a: int, b: int)
    ensures a > 0 && b > 0 ==> a * b >= a && a * b >= b
  {
    if a > 0 && b > 0 {
      assert a * b == a + a * (b - 1);
      assert a * b == b + (a - 1) * b;
    }
  }

  /** The byte extent of a type. */
  function Extent(state: TypeState): (e: int) {
    state.elementSize * Volume(state.shape)
  }

  predicate ValidState(state: TypeState) {
    0 < state.elementSize <= I64_MAX && Positive(state.shape)
  }

  lemma ExtentPositive(state: TypeState)
    requires ValidState(state)
    ensures Extent(state) >= state.elementSize > 0
  {
    PositiveProduct(state.elementSize, Volume(state.shape));
  }

  /** An array of `d` rows is `d` times one row. */
  lemma ExtentRows(state: TypeState)
    requires state.shape != []
    ensures Extent(state) == state.shape[0] * Extent(state.(shape := state.shape[1..]))
  {
    Commute(state.elementSize, state.shape[0], Volume(state.shape[1..]));
  }

  lemma Commute(a: int, b: int, c: int)
    ensures a * (b * c) == b * (a * c)
  {
    assert a * (b * c) == (a * b) * c;
    assert b * (a * c) == (b * a) * c;
  }

  // ----- checked products

  /** Multiply the dimensions onto a size from left to right, in int64. */
  function CheckedProduct(base: int, dims: seq<int>): (r: Option<int>)
    decreases |dims|
  {
    if dims == [] then Some(base)
    else if IsI64(base * dims[0]) then CheckedProduct(base * dims[0], dims[1..])
    else None
  }

  /** With positive dimensions no intermediate overflow hides behind a product that fits. */
  lemma {:induction false} CheckedProductExact(base: int, dims: seq<int>)
    requires 0 < base <= I64_MAX && Positive(dims)
    ensures CheckedProduct(base, dims)
            == if base * Volume(dims) <= I64_MAX then Some(base * Volume(dims)) else None
    decreases |dims|
  {
    if dims != [] {
      var next, rest := base * dims[0], Volume(dims[1..]);
      PositiveProduct(base, dims[0]);
      assert Positive(dims[1..]);
      assert base * Volume(dims) == next * rest;
      PositiveProduct(next, rest);
      if IsI64(next) {
        CheckedProductExact(next, dims[1..]);
      }
    }
  }

  // ----- states

  /** The dimensions of a shape, if all are positive integers. */
  function ShapeOf(entries: seq<Option<Int64>>): (shape: Option<seq<int>>)
    ensures shape.Some? <==> forall i :: 0 <= i < |entries| ==> entries[i].Some? && entries[i].value > 0
    ensures shape.Some? ==> |shape.value| == |entries| && forall i :: 0 <= i < |entries| ==>
            shape.value[i] == entries[i].value
  {
    if entries == [] then Some([])
    else
      var rest := ShapeOf(entries[1..]);
      assert forall i :: 0 < i < |entries| ==> entries[i] == entries[1..][i - 1];
      if entries[0].None? || entries[0].value <= 0 then None
      else if rest.None? then
        assert exists i :: 0 <= i < |entries[1..]| && !(entries[1..][i].Some? && entries[1..][i].value > 0);
        assert forall i :: 0 <= i < |entries[1..]| ==> entries[1..][i] == entries[i + 1];
        None
      else Some([entries[0].value] + rest.value)
  }

  function StateOf(metadata: TypeMetadata): (r: Result<TypeState, LayoutError>)
    ensures r.Ok? ==> ValidState(r.value)
  {
    match metadata.elementSize
    case None => Err(LacksInteger)
    case Some(size) =>
      if size <= 0 then Err(NonPositiveSize)
      else
        match metadata.shape
        case NoShape => Ok(TypeState(metadata.kind, [], metadata.elementType, size))
        case InvalidShape => Err(BadShape)
        case Dimensions(entries) =>
          match ShapeOf(entries)
          case None => Err(BadDimension)
          case Some(shape) => Ok(TypeState(metadata.kind, shape, metadata.elementType, size))
  }

  predicate AllPositive(entries: seq<Option<Int64>>) {
    forall i :: 0 <= i < |entries| ==> entries[i].Some? && entries[i].value > 0
  }

  /** The dimensions are the entries found, in order; a missing shape has none. */
  predicate IsShape(shape: seq<int>, metadata: ShapeMetadata) {
    match metadata
    case NoShape => shape == []
    case InvalidShape => false
    case Dimensions(entries) =>
      |shape| == |entries| && forall i :: 0 <= i < |entries| ==> entries[i] == Some(shape[i])
  }

  /** Read the shape entry by entry. */
  method ReadState(metadata: TypeMetadata) returns (r: Result<TypeState, LayoutError>)
    ensures r == StateOf(metadata)
    ensures r.Ok? <==> && metadata.elementSize.Some? && metadata.elementSize.value > 0
                       && !metadata.shape.InvalidShape?
                       && (metadata.shape.Dimensions? ==> AllPositive(metadata.shape.entries))
    ensures r.Ok? ==>
              && r.value.kind == metadata.kind && r.value.elementType == metadata.elementType
              && metadata.elementSize == Some(r.value.elementSize)
              && IsShape(r.value.shape, metadata.shape)
  {
    if metadata.elementSize.None? {
      return Err(LacksInteger);
    }
    if metadata.elementSize.value <= 0 {
      return Err(NonPositiveSize);
    }
    var shape := [];
    match metadata.shape {
      case NoShape =>
      case InvalidShape =>
        return Err(BadShape);
      case Dimensions(entries) =>
        for i := 0 to |entries|
          invariant |shape| == i
          invariant forall k :: 0 <= k < i ==> entries[k].Some? && entries[k].value > 0 && shape[k] == entries[k].value
        {
          if entries[i].None? || entries[i].value <= 0 {
            return Err(BadDimension);
          }
          shape := shape + [entries[i].value];
        }
        assert shape == ShapeOf(entries).value;
    }
    r := Ok(TypeState(metadata.kind, shape, metadata.elementType, metadata.elementSize.value));
  }

  /** The checked multiplication loop, from a given dimension on. */
  method MultiplyDimensions(base: int, shape: seq<int>, from: nat) returns (r: Option<int>)
    requires from <= |shape|
    ensures r == CheckedProduct(base, shape[from..])
  {
    var product := base;
    for i := from to |shape|
      invariant CheckedProduct(base, shape[from..]) == CheckedProduct(product, shape[i..])
    {
      assert shape[i..][1..] == shape[i + 1..];
      if !IsI64(product * shape[i]) {
        return None;
      }
      product := product * shape[i];
    }
    r := Some(product);
  }
}
