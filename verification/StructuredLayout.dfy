/** Walking a structured access path against ABI layouts, recording a plan on the way. */
module StructuredLayout {
  import opened Machine
  import opened LayoutTypes

  datatype ByteAccess = ByteAccess(offset: int, size: int)

  /** A constant displacement, or an index times a stride below a dimension. */
  datatype PlanStep = PlanStep(index: Option<nat>, stride: int, dimension: int)

  datatype Field = Field(index: Option<Int64>, name: Option<string>, offset: Option<Int64>, size: Option<Int64>,
                         type_: TypeMetadata)

  /** A structure layout; `fields` is absent when missing or no array. */
  datatype Structure = Structure(size: Option<Int64>, fields: Option<seq<Field>>)

  type Structures = map<string, Structure>

  datatype Segment =
    | FieldSegment(index: Option<Int64>, name: Option<string>)
    | IndexSegment(text: Option<string>)
    | OtherSegment
    | NoSegment

  /** Where a walk stands: the current type, the byte offset, and the next index position. */
  datatype Place = Place(state: TypeState, offset: int, position: nat)

  /** A finished walk. */
  datatype Located = Located(access: ByteAccess, steps: seq<PlanStep>)

  // ----- steps

  function AddOffset(amount: int, offset: int): (r: Result<int, LayoutError>) {
    if amount < 0 || !IsI64(offset + amount) then Err(OffsetOverflow) else Ok(offset + amount)
  }

  /** The first field with the wanted index, if its name agrees. */
  function FindField(fields: seq<Field>, wanted: int, name: Option<string>): (r: Result<Field, LayoutError>)
    ensures r.Err? ==> r.error in {UnknownField, FieldNameDisagrees}
  {
    if fields == [] then Err(UnknownField)
    else if fields[0].index != Some(wanted) then FindField(fields[1..], wanted, name)
    else if name.None? || fields[0].name != name then Err(FieldNameDisagrees)
    else Ok(fields[0])
  }

  /** Field `k` is the first that carries the wanted index. */
  predicate FirstWith(fields: seq<Field>, wanted: int, k: int) {
    0 <= k < |fields| && fields[k].index == Some(wanted) && forall j :: 0 <= j < k ==> fields[j].index != Some(wanted)
  }

  /** The answer of a lookup by index and name. */
  ghost predicate LooksUp(r: Result<Field, LayoutError>, fields: seq<Field>, wanted: int, name: Option<string>) {
    match r
    case Ok(field) => exists k :: FirstWith(fields, wanted, k) && fields[k] == field && name.Some? && field.name == name
    case Err(FieldNameDisagrees) => exists k :: FirstWith(fields, wanted, k) && (name.None? || fields[k].name != name)
    case Err(e) => e == UnknownField && forall k :: 0 <= k < |fields| ==> fields[k].index != Some(wanted)
  }

  lemma {:induction false} FindFieldLooksUp(fields: seq<Field>, wanted: int, name: Option<string>)
    ensures LooksUp(FindField(fields, wanted, name), fields, wanted, name)
  {
    if fields != [] {
      var r := FindField(fields, wanted, name);
      if fields[0].index == Some(wanted) {
        assert FirstWith(fields, wanted, 0);
      } else {
        FindFieldLooksUp(fields[1..], wanted, name);
        if r.Ok? {
          var k :| FirstWith(fields[1..], wanted, k) && fields[1..][k] == r.value;
          LaterFirst(fields, wanted, k);
        } else if r.error == FieldNameDisagrees {
          var k :| FirstWith(fields[1..], wanted, k) && (name.None? || fields[1..][k].name != name);
          LaterFirst(fields, wanted, k);
        } else {
          assert forall k :: 0 < k < |fields| ==> fields[k] == fields[1..][k - 1];
        }
      }
    }
  }

  lemma LaterFirst(fields: seq<Field>, wanted: int, k: int)
    requires fields != [] && fields[0].index != Some(wanted) && FirstWith(fields[1..], wanted, k)
    ensures FirstWith(fields, wanted, k + 1) && fields[k + 1] == fields[1..][k]
  {
    assert forall j :: 0 < j < |fields| ==> fields[j] == fields[1..][j - 1];
  }

  function FieldAt(structures: Structures, state: TypeState, segment: Segment): (r: Result<Field, LayoutError>)
    requires segment.FieldSegment?
  {
    if state.shape != [] || state.elementType == "" || state.elementType !in structures then Err(NoStructure)
    else
      var structure := structures[state.elementType];
      if structure.fields.None? then Err(MalformedStructure)
      else if structure.size.None? then Err(LacksInteger)
      else if structure.size.value != state.elementSize then Err(StructureSizeDisagrees)
      else if segment.index.None? then Err(LacksInteger)
      else FindField(structure.fields.value, segment.index.value, segment.name)
  }

  /** The scan over a structure's fields. */
  method ScanFields(fields: seq<Field>, wanted: int, name: Option<string>) returns (r: Result<Field, LayoutError>)
    ensures r == FindField(fields, wanted, name) && LooksUp(r, fields, wanted, name)
  {
    FindFieldLooksUp(fields, wanted, name);
    for i := 0 to |fields|
      invariant FindField(fields, wanted, name) == FindField(fields[i..], wanted, name)
    {
      assert fields[i..][1..] == fields[i + 1..];
      if fields[i].index != Some(wanted) {
        continue;
      }
      if name.None? || fields[i].name != name {
        return Err(FieldNameDisagrees);
      }
      return Ok(fields[i]);
    }
    r := Err(UnknownField);
  }

  function SelectField(structures: Structures, segment: Segment,
                       place: Place): (r: Result<(Place, PlanStep), LayoutError>)
    requires segment.FieldSegment?
  {
    match FieldAt(structures, place.state, segment)
    case Err(e) => Err(e)
    case Ok(field) =>
      if field.offset.None? || field.size.None? then Err(LacksInteger)
      else if field.offset.value < 0 || field.size.value <= 0 || field.size.value > place.state.elementSize
              || field.offset.value > place.state.elementSize - field.size.value then Err(FieldExceeds)
      else
        match AddOffset(field.offset.value, place.offset)
        case Err(e) => Err(e)
        case Ok(offset) =>
          match StateOf(field.type_)
          case Err(e) => Err(e)
          case Ok(state) =>
            match CheckedProduct(state.elementSize, state.shape)
            case None => Err(ExtentOverflow)
            case Some(extent) =>
              if extent != field.size.value then Err(FieldSizeDisagrees)
              else Ok((Place(state, offset, place.position), PlanStep(None, field.offset.value, 0)))
  }

  function SelectIndex(index: int, place: Place): (r: Result<(Place, PlanStep), LayoutError>) {
    if place.state.shape == [] then Err(NotIndexable)
    else if index >= place.state.shape[0] then Err(IndexExceedsDimension)
    else
      match CheckedProduct(place.state.elementSize, place.state.shape[1..])
      case None => Err(StrideOverflow)
      case Some(stride) =>
        if !IsI64(index * stride) then Err(IndexedOffsetOverflow)
        else
          match AddOffset(index * stride, place.offset)
          case Err(e) => Err(e)
          case Ok(offset) =>
            Ok((Place(place.state.(shape := place.state.shape[1..]), offset, place.position + 1),
                PlanStep(Some(place.position), stride, place.state.shape[0])))
  }

  /** One path segment; indices must be spelled as in the node and be exact and non-negative. */
  function Advance(structures: Structures, segment: Segment, texts: seq<Option<string>>, row: seq<Option<int>>,
                   place: Place):
    (r: Result<(Place, PlanStep), LayoutError>)
    requires |texts| == |row|
  {
    match segment
    case NoSegment => Err(MalformedSegment)
    case OtherSegment => Err(InvalidIndexTransition)
    case FieldSegment(_, _) => SelectField(structures, segment, place)
    case IndexSegment(text) =>
      if place.position >= |row| || text.None? || texts[place.position] != text then Err(InvalidIndexTransition)
      else if row[place.position].None? || row[place.position].value < 0 then Err(IndexNotExact)
      else SelectIndex(row[place.position].value, place)
  }

  /** The rest of a walk from a place. */
  function WalkPath(structures: Structures, path: seq<Segment>, texts: seq<Option<string>>, row: seq<Option<int>>,
                    place: Place, extent: int): (r: Result<Located, LayoutError>)
    requires |texts| == |row|
    decreases |path|
  {
    if path == [] then
      if place.position != |row| || place.state.shape != [] then Err(NotLeaf)
      else if !IsI64(place.offset + place.state.elementSize) || place.offset + place.state.elementSize > extent then
        Err(ExceedsExtent)
      else Ok(Located(ByteAccess(place.offset, place.state.elementSize), []))
    else
      match Advance(structures, path[0], texts, row, place)
      case Err(e) => Err(e)
      case Ok((next, step)) => Before(step, WalkPath(structures, path[1..], texts, row, next, extent))
  }

  function Before(step: PlanStep, rest: Result<Located, LayoutError>): (r: Result<Located, LayoutError>) {
    match rest
    case Err(e) => Err(e)
    case Ok(located) => Ok(Located(located.access, [step] + located.steps))
  }

  // ----- the walk stays inside the object

  /** The current type lies inside the object. */
  predicate Inside(place: Place, extent: int) {
    ValidState(place.state) && 0 <= place.offset && place.offset + Extent(place.state) <= extent <= I64_MAX
  }

  /** Errors that the static type checks leave unreachable. */
  predicate Unreachable(e: LayoutError) {
    e in {StrideOverflow, IndexedOffsetOverflow, OffsetOverflow, ExceedsExtent}
  }

  lemma IndexFits(index: int, dimension: int, stride: int)
    requires 0 <= index < dimension && stride > 0
    ensures 0 <= index * stride && index * stride + stride <= dimension * stride
  {
    assert (dimension - 1 - index) * stride >= 0;
    assert dimension * stride == (dimension - 1 - index) * stride + index * stride + stride;
  }

  /** A field that lies in its structure and is exactly as large as its type. */
  ghost predicate FieldFits(field: Field, state: TypeState) {
    && field.offset.Some? && field.size.Some? && StateOf(field.type_).Ok?
    && 0 <= field.offset.value && 0 < field.size.value && field.offset.value + field.size.value <= state.elementSize
    && Extent(StateOf(field.type_).value) == field.size.value
  }

  /**
   * A field step is accepted exactly for a field that fits its structure. It lands on the field's type at the
   * field's offset, inside the type it started from; no overflow rejection is reachable.
   */
  lemma FieldInside(structures: Structures, segment: Segment, place: Place, extent: int)
    requires segment.FieldSegment? && Inside(place, extent)
    ensures SelectField(structures, segment, place).Ok?
            <==> FieldAt(structures, place.state, segment).Ok?
                 && FieldFits(FieldAt(structures, place.state, segment).value, place.state)
    ensures match SelectField(structures, segment, place)
            case Err(e) => !Unreachable(e)
            case Ok((next, step)) =>
              var field := FieldAt(structures, place.state, segment).value;
              && next == Place(StateOf(field.type_).value, place.offset + field.offset.value, place.position)
              && Inside(next, extent) && step == PlanStep(None, next.offset - place.offset, 0)
              && next.offset + Extent(next.state) <= place.offset + Extent(place.state)
  {
    hide FindField, Extent;
    match FieldAt(structures, place.state, segment)
    case Err(_) =>
    case Ok(field) =>
      LeafExtent(place.state);
      if StateOf(field.type_).Ok? {
        var state := StateOf(field.type_).value;
        CheckedProductExact(state.elementSize, state.shape);
        ExtentIsProduct(state);
      }
  }

  lemma LeafExtent(state: TypeState)
    ensures state.shape == [] ==> Extent(state) == state.elementSize
  {
  }

  lemma ExtentIsProduct(state: TypeState)
    ensures Extent(state) == state.elementSize * Volume(state.shape)
  {
  }

  /**
   * An index step is accepted exactly for an index below the first dimension. It lands on that element, whose
   * extent is the recorded stride, inside the array; no overflow rejection is reachable.
   */
  lemma IndexInside(index: int, place: Place, extent: int)
    requires 0 <= index && Inside(place, extent)
    ensures SelectIndex(index, place).Ok? <==> place.state.shape != [] && index < place.state.shape[0]
    ensures match SelectIndex(index, place)
            case Err(e) => !Unreachable(e)
            case Ok((next, step)) =>
              && next.state == place.state.(shape := place.state.shape[1..]) && next.position == place.position + 1
              && step == PlanStep(Some(place.position), step.stride, place.state.shape[0])
              && Inside(next, extent) && step.stride == Extent(next.state) > 0
              && next.offset == place.offset + index * step.stride
              && next.offset + Extent(next.state) <= place.offset + Extent(place.state)
  {
    hide Extent;
    if place.state.shape != [] && index < place.state.shape[0] {
      var row := place.state.(shape := place.state.shape[1..]);
      ExtentRows(place.state);
      ExtentPositive(row);
      CheckedProductExact(row.elementSize, row.shape);
      ExtentIsProduct(row);
      IndexFits(index, place.state.shape[0], Extent(row));
    }
  }

  lemma AdvanceInside(structures: Structures, segment: Segment, texts: seq<Option<string>>, row: seq<Option<int>>,
                      place: Place, extent: int)
    requires |texts| == |row| && Inside(place, extent)
    ensures match Advance(structures, segment, texts, row, place)
            case Err(e) => !Unreachable(e)
            case Ok((next, _)) => Inside(next, extent) && place.offset <= next.offset
                                  && next.offset + Extent(next.state) <= place.offset + Extent(place.state)
  {
    hide SelectField, SelectIndex, Extent;
    match segment
    case NoSegment =>
    case OtherSegment =>
    case FieldSegment(_, _) =>
      FieldInside(structures, segment, place, extent);
    case IndexSegment(_) =>
      if place.position < |row| && row[place.position].Some? && row[place.position].value >= 0 {
        var index := row[place.position].value;
        IndexInside(index, place, extent);
        if SelectIndex(index, place).Ok? {
          PositiveOrZero(index, SelectIndex(index, place).value.1.stride);
        }
      }
  }

  lemma PositiveOrZero(a: int, b: int)
    ensures 0 <= a && 0 < b ==> 0 <= a * b
  {
  }

  /**
   * At every place of a walk the current type lies inside the object, so the overflow rejections and the
   * final extent rejection are unreachable, and the access lies inside the type the walk started from.
   */
  lemma {:induction false} WalkInside(structures: Structures, path: seq<Segment>, texts: seq<Option<string>>,
                                      row: seq<Option<int>>, place: Place, extent: int)
    requires |texts| == |row| && Inside(place, extent)
    ensures match WalkPath(structures, path, texts, row, place, extent)
            case Err(e) => !Unreachable(e)
            case Ok(located) =>
              && 0 <= place.offset <= located.access.offset && 0 < located.access.size
              && located.access.offset + located.access.size <= place.offset + Extent(place.state) <= extent
    decreases |path|
  {
    hide Advance, Extent;
    if path == [] {
      LeafExtent(place.state);
    } else {
      AdvanceInside(structures, path[0], texts, row, place, extent);
      if Advance(structures, path[0], texts, row, place).Ok? {
        WalkInside(structures, path[1..], texts, row, Advance(structures, path[0], texts, row, place).value.0, extent);
      }
    }
  }

  // ----- where a path lands

  /** The segment names a field of the structure that the state is one of, and the field fits that structure. */
  ghost predicate NamesField(structures: Structures, state: TypeState, segment: Segment, field: Field) {
    && segment.FieldSegment? && segment.index.Some? && segment.name.Some?
    && state.shape == [] && state.elementType != "" && state.elementType in structures
    && var structure := structures[state.elementType];
       && structure.size == Some(state.elementSize) && structure.fields.Some?
       && field.name == segment.name && FieldFits(field, state)
       && exists k ::
            FirstWith(structure.fields.value, segment.index.value, k) && structure.fields.value[k] == field
  }

  /**
   * A path leads from a type to a leaf at a distance: a field segment moves by the offset of the field it names,
   * an index segment, spelled as in the node, by whole rows, and every index of the row is used once, in order.
   */
  ghost predicate Lands(structures: Structures, path: seq<Segment>, texts: seq<Option<string>>,
                        row: seq<Option<int>>, state: TypeState, position: nat, distance: int, leaf: TypeState)
    requires |texts| == |row|
    decreases |path|
  {
    if path == [] then distance == 0 && state == leaf && leaf.shape == [] && position == |row|
    else if path[0].FieldSegment? then
      exists field ::
        && NamesField(structures, state, path[0], field)
        && Lands(structures, path[1..], texts, row, StateOf(field.type_).value, position,
                 distance - field.offset.value, leaf)
    else
      && path[0].IndexSegment? && state.shape != [] && position < |row| && row[position].Some?
      && path[0].text.Some? && texts[position] == path[0].text
      && 0 <= row[position].value < state.shape[0]
      && var rest := state.(shape := state.shape[1..]);
         Lands(structures, path[1..], texts, row, rest, position + 1,
               distance - row[position].value * Extent(rest), leaf)
  }

  lemma FieldIsNamed(structures: Structures, segment: Segment, place: Place, extent: int) returns (field: Field)
    requires segment.FieldSegment? && Inside(place, extent) && SelectField(structures, segment, place).Ok?
    ensures NamesField(structures, place.state, segment, field)
    ensures field.offset.Some? && StateOf(field.type_).Ok?
    ensures SelectField(structures, segment, place).value.0
            == Place(StateOf(field.type_).value, place.offset + field.offset.value, place.position)
  {
    hide FindField, Extent;
    FieldInside(structures, segment, place, extent);
    var fields := structures[place.state.elementType].fields.value;
    FindFieldLooksUp(fields, segment.index.value, segment.name);
    field := FieldAt(structures, place.state, segment).value;
  }

  /** An accepted walk lands where its path leads. */
  lemma {:induction false} WalkLands(structures: Structures, path: seq<Segment>, texts: seq<Option<string>>,
                                     row: seq<Option<int>>, place: Place, extent: int)
    returns (leaf: TypeState)
    requires |texts| == |row| && Inside(place, extent)
    requires WalkPath(structures, path, texts, row, place, extent).Ok?
    ensures var access := WalkPath(structures, path, texts, row, place, extent).value.access;
            && Lands(structures, path, texts, row, place.state, place.position, access.offset - place.offset, leaf)
            && access.size == leaf.elementSize
    decreases |path|
  {
    hide SelectField, SelectIndex, Extent, NamesField, FieldAt, StateOf;
    if path == [] {
      leaf := place.state;
    } else {
      var next := Advance(structures, path[0], texts, row, place).value.0;
      AdvanceInside(structures, path[0], texts, row, place, extent);
      leaf := WalkLands(structures, path[1..], texts, row, next, extent);
      var access := WalkPath(structures, path, texts, row, place, extent).value.access;
      if path[0].FieldSegment? {
        var field := FieldIsNamed(structures, path[0], place, extent);
        assert Lands(structures, path[1..], texts, row, StateOf(field.type_).value, place.position,
                     access.offset - place.offset - field.offset.value, leaf);
      } else {
        IndexInside(row[place.position].value, place, extent);
      }
    }
  }

  lemma FirstIsFound(fields: seq<Field>, wanted: int, k: int)
    requires FirstWith(fields, wanted, k) && fields[k].name.Some?
    ensures FindField(fields, wanted, fields[k].name) == Ok(fields[k])
  {
    FindFieldLooksUp(fields, wanted, fields[k].name);
  }

  lemma NamedIsSelected(structures: Structures, segment: Segment, place: Place, field: Field, extent: int)
    requires Inside(place, extent) && NamesField(structures, place.state, segment, field)
    ensures SelectField(structures, segment, place).Ok?
    ensures SelectField(structures, segment, place).value.0
            == Place(StateOf(field.type_).value, place.offset + field.offset.value, place.position)
  {
    hide FindField, Extent, StateOf;
    var fields := structures[place.state.elementType].fields.value;
    var k :| FirstWith(fields, segment.index.value, k) && fields[k] == field;
    FirstIsFound(fields, segment.index.value, k);
    FieldInside(structures, segment, place, extent);
  }

  /** A walk is accepted whenever its path leads somewhere. */
  lemma {:induction false} LandsIsAccepted(structures: Structures, path: seq<Segment>, texts: seq<Option<string>>,
                                           row: seq<Option<int>>, place: Place, extent: int, distance: int,
                                           leaf: TypeState)
    requires |texts| == |row| && Inside(place, extent)
    requires Lands(structures, path, texts, row, place.state, place.position, distance, leaf)
    ensures WalkPath(structures, path, texts, row, place, extent).Ok?
    ensures WalkPath(structures, path, texts, row, place, extent).value.access
            == ByteAccess(place.offset + distance, leaf.elementSize)
    decreases |path|
  {
    hide SelectField, SelectIndex, Extent, StateOf;
    if path == [] {
      LeafExtent(place.state);
    } else if path[0].FieldSegment? {
      var field :| && NamesField(structures, place.state, path[0], field)
                   && Lands(structures, path[1..], texts, row, StateOf(field.type_).value, place.position,
                            distance - field.offset.value, leaf);
      NamedIsSelected(structures, path[0], place, field, extent);
      AdvanceInside(structures, path[0], texts, row, place, extent);
      var next := SelectField(structures, path[0], place).value.0;
      LandsIsAccepted(structures, path[1..], texts, row, next, extent, distance - field.offset.value, leaf);
    } else {
      var index := row[place.position].value;
      IndexInside(index, place, extent);
      AdvanceInside(structures, path[0], texts, row, place, extent);
      var next := SelectIndex(index, place).value.0;
      LandsIsAccepted(structures, path[1..], texts, row, next, extent, distance - index * Extent(next.state), leaf);
    }
  }

  /** The bytes of an access are those of a leaf that its path leads to from an object that can be laid out. */
  ghost predicate AccessLands(node: AccessNode, row: seq<Option<int>>, objects: Objects, structures: Structures,
                              access: ByteAccess) {
    && node.target != "" && node.target in objects
    && node.indices.Some? && |node.indices.value| == |row|
    && StateOf(objects[node.target]).Ok?
    && var state := StateOf(objects[node.target]).value;
       && state.kind != "pointer" && Extent(state) <= I64_MAX
       && exists leaf ::
            && Lands(structures, node.path, node.indices.value, row, state, 0, access.offset, leaf)
            && access.size == leaf.elementSize
  }

  lemma StructuredLands(node: AccessNode, row: seq<Option<int>>, objects: Objects, structures: Structures)
    requires ResolveStructured(node, row, objects, structures).Ok?
    ensures AccessLands(node, row, objects, structures, ResolveStructured(node, row, objects, structures).value.0)
  {
    hide WalkPath, Lands, Extent;
    StartInside(node, |row|, objects);
    var (place, extent) := StartOf(node, |row|, objects).value;
    var leaf := WalkLands(structures, node.path, node.indices.value, row, place, extent);
  }

  lemma LandsIsResolved(node: AccessNode, row: seq<Option<int>>, objects: Objects, structures: Structures,
                        access: ByteAccess)
    requires AccessLands(node, row, objects, structures, access)
    ensures ResolveStructured(node, row, objects, structures).Ok?
    ensures ResolveStructured(node, row, objects, structures).value.0 == access
  {
    hide WalkPath, Lands, Extent, StateOf;
    var state := StateOf(objects[node.target]).value;
    CheckedProductExact(state.elementSize, state.shape);
    ExtentIsProduct(state);
    StartInside(node, |row|, objects);
    var (place, extent) := StartOf(node, |row|, objects).value;
    var leaf :| && Lands(structures, node.path, node.indices.value, row, state, 0, access.offset, leaf)
                && access.size == leaf.elementSize;
    LandsIsAccepted(structures, node.path, node.indices.value, row, place, extent, access.offset, leaf);
  }

  function SumOffsets(fields: seq<Field>): (sum: int)
    requires forall i :: 0 <= i < |fields| ==> fields[i].offset.Some?
  {
    if fields == [] then 0 else fields[0].offset.value + SumOffsets(fields[1..])
  }

  /** A chain of fields, each named in the structure of the one before. */
  ghost predicate FieldChain(structures: Structures, state: TypeState, path: seq<Segment>, fields: seq<Field>)
    ensures FieldChain(structures, state, path, fields) ==>
              |fields| == |path| && forall i :: 0 <= i < |fields| ==> fields[i].offset.Some?
    decreases |path|
  {
    if path == [] then fields == []
    else
      && fields != [] && NamesField(structures, state, path[0], fields[0])
      && FieldChain(structures, StateOf(fields[0].type_).value, path[1..], fields[1..])
  }

  /** On a path of fields only, the distance is the sum of the offsets of the fields that its segments name. */
  lemma {:induction false} FieldPathDistance(structures: Structures, path: seq<Segment>, texts: seq<Option<string>>,
                                             row: seq<Option<int>>, state: TypeState, position: nat, distance: int,
                                             leaf: TypeState)
    returns (fields: seq<Field>)
    requires |texts| == |row| && Lands(structures, path, texts, row, state, position, distance, leaf)
    requires forall i :: 0 <= i < |path| ==> path[i].FieldSegment?
    ensures FieldChain(structures, state, path, fields) && distance == SumOffsets(fields)
    ensures path != [] ==> Ok(leaf) == StateOf(fields[|fields| - 1].type_)
    decreases |path|
  {
    hide StateOf;
    if path == [] {
      fields := [];
    } else {
      var field :| && NamesField(structures, state, path[0], field)
                   && Lands(structures, path[1..], texts, row, StateOf(field.type_).value, position,
                            distance - field.offset.value, leaf);
      var rest := FieldPathDistance(structures, path[1..], texts, row, StateOf(field.type_).value, position,
                                    distance - field.offset.value, leaf);
      fields := [field] + rest;
      assert fields[1..] == rest;
    }
  }

  // ----- different rows select different bytes

  predicate Disjoint(a: ByteAccess, b: ByteAccess) {
    a.offset + a.size <= b.offset || b.offset + b.size <= a.offset
  }

  /** Rows agree up to an index position. */
  predicate AgreeBelow(a: seq<Option<int>>, b: seq<Option<int>>, position: nat) {
    |a| == |b| && forall i :: 0 <= i < position && i < |a| ==> a[i] == b[i]
  }

  lemma DifferentBlocks(i: int, j: int, stride: int)
    requires i < j && stride > 0
    ensures i * stride + stride <= j * stride
  {
    assert (j - i - 1) * stride >= 0;
    assert j * stride == (j - i - 1) * stride + i * stride + stride;
  }

  /** Two accepted rows that differ select disjoint byte ranges. */
  lemma {:induction false} RowsDisjoint(structures: Structures, path: seq<Segment>, texts: seq<Option<string>>,
                                        a: seq<Option<int>>, b: seq<Option<int>>, place: Place, extent: int)
    requires |texts| == |a| && a != b && AgreeBelow(a, b, place.position) && Inside(place, extent)
    requires WalkPath(structures, path, texts, a, place, extent).Ok?
    requires WalkPath(structures, path, texts, b, place, extent).Ok?
    ensures Disjoint(WalkPath(structures, path, texts, a, place, extent).value.access,
                     WalkPath(structures, path, texts, b, place, extent).value.access)
    decreases |path|
  {
    hide SelectField, SelectIndex, Extent;
    if path != [] {
      AdvanceInside(structures, path[0], texts, a, place, extent);
      var nextA, nextB := Advance(structures, path[0], texts, a, place).value.0,
                          Advance(structures, path[0], texts, b, place).value.0;
      if path[0].FieldSegment? || a[place.position] == b[place.position] {
        SamePosition(structures, path[0], texts, a, b, place);
        RowsDisjoint(structures, path[1..], texts, a, b, nextA, extent);
      } else {
        AdvanceInside(structures, path[0], texts, b, place, extent);
        WalkInside(structures, path[1..], texts, a, nextA, extent);
        WalkInside(structures, path[1..], texts, b, nextB, extent);
        BlocksDisjoint(a[place.position].value, b[place.position].value, place, extent);
      }
    }
  }

  lemma SamePosition(structures: Structures, segment: Segment, texts: seq<Option<string>>, a: seq<Option<int>>,
                     b: seq<Option<int>>, place: Place)
    requires |texts| == |a| && AgreeBelow(a, b, place.position) && Advance(structures, segment, texts, a, place).Ok?
    requires segment.FieldSegment? || a[place.position] == b[place.position]
    ensures Advance(structures, segment, texts, b, place) == Advance(structures, segment, texts, a, place)
    ensures AgreeBelow(a, b, Advance(structures, segment, texts, a, place).value.0.position)
  {
  }

  lemma BlocksDisjoint(i: int, j: int, place: Place, extent: int)
    requires 0 <= i && 0 <= j && i != j && Inside(place, extent)
    requires SelectIndex(i, place).Ok? && SelectIndex(j, place).Ok?
    ensures var a, b := SelectIndex(i, place).value.0, SelectIndex(j, place).value.0;
            a.offset + Extent(a.state) <= b.offset || b.offset + Extent(b.state) <= a.offset
  {
    hide Extent;
    IndexInside(i, place, extent);
    IndexInside(j, place, extent);
    var stride := SelectIndex(i, place).value.1.stride;
    assert SelectIndex(j, place).value.1.stride == stride;
    if i < j {
      DifferentBlocks(i, j, stride);
    } else {
      DifferentBlocks(j, i, stride);
    }
  }

  // ----- a whole access

  /** A structured access node: its object, its index spellings, and its path. */
  datatype AccessNode = AccessNode(target: string, indices: Option<seq<Option<string>>>, path: seq<Segment>)

  /** The layout recorded by a first successful access. */
  datatype PreparedLayout = PreparedLayout(structured: bool, width: int, extent: int, steps: seq<PlanStep>)

  type Objects = map<string, TypeMetadata>

  /** Where a walk starts, with the extent of the object. */
  function StartOf(node: AccessNode, rank: nat, objects: Objects): (r: Result<(Place, int), LayoutError>) {
    if node.target == "" || node.target !in objects then Err(LacksObject)
    else if node.indices.None? || |node.indices.value| != rank then Err(RankDisagrees)
    else
      match StateOf(objects[node.target])
      case Err(e) => Err(e)
      case Ok(state) =>
        if state.kind == "pointer" then Err(PointerObject)
        else
          match CheckedProduct(state.elementSize, state.shape)
          case None => Err(ExtentOverflow)
          case Some(extent) => Ok((Place(state, 0, 0), extent))
  }

  function ResolveStructured(node: AccessNode, row: seq<Option<int>>, objects: Objects, structures: Structures):
    (r: Result<(ByteAccess, PreparedLayout), LayoutError>)
  {
    match StartOf(node, |row|, objects)
    case Err(e) => Err(e)
    case Ok((place, extent)) =>
      match WalkPath(structures, node.path, node.indices.value, row, place, extent)
      case Err(e) => Err(e)
      case Ok(located) => Ok((located.access, PreparedLayout(true, located.access.size, extent, located.steps)))
  }

  lemma StartInside(node: AccessNode, rank: nat, objects: Objects)
    ensures match StartOf(node, rank, objects)
            case Err(e) => !Unreachable(e)
            case Ok((place, extent)) => Inside(place, extent) && place.offset == 0 && place.position == 0
                                        && extent == Extent(place.state)
  {
    if node.target in objects && StateOf(objects[node.target]).Ok? {
      var state := StateOf(objects[node.target]).value;
      CheckedProductExact(state.elementSize, state.shape);
    }
  }

  /** No structured access is rejected for an overflow or for leaving its object; an accepted one lies inside it. */
  lemma StructuredInside(node: AccessNode, row: seq<Option<int>>, objects: Objects, structures: Structures)
    ensures match ResolveStructured(node, row, objects, structures)
            case Err(e) => !Unreachable(e)
            case Ok((access, plan)) =>
              0 <= access.offset && 0 < access.size && access.offset + access.size <= plan.extent <= I64_MAX
  {
    hide WalkPath, Extent;
    StartInside(node, |row|, objects);
    if StartOf(node, |row|, objects).Ok? {
      var (place, extent) := StartOf(node, |row|, objects).value;
      WalkInside(structures, node.path, node.indices.value, row, place, extent);
    }
  }

  /** Distinct accepted index rows of one access node select disjoint bytes. */
  lemma StructuredDisjoint(node: AccessNode, a: seq<Option<int>>, b: seq<Option<int>>, objects: Objects,
                           structures: Structures)
    requires a != b && ResolveStructured(node, a, objects, structures).Ok?
            && ResolveStructured(node, b, objects, structures).Ok?
    ensures Disjoint(ResolveStructured(node, a, objects, structures).value.0,
                     ResolveStructured(node, b, objects, structures).value.0)
  {
    hide WalkPath, Extent;
    StartInside(node, |a|, objects);
    var (place, extent) := StartOf(node, |a|, objects).value;
    RowsDisjoint(structures, node.path, node.indices.value, a, b, place, extent);
  }

  // ----- the walk as the source runs it

  method SelectFieldHere(structures: Structures, segment: Segment, place: Place)
    returns (r: Result<(Place, PlanStep), LayoutError>)
    requires segment.FieldSegment?
    ensures r == SelectField(structures, segment, place)
  {
    hide FindField, StateOf, CheckedProduct;
    var found := FieldHere(structures, place.state, segment);
    if found.Err? {
      return Err(found.error);
    }
    var field := found.value;
    if field.offset.None? || field.size.None? {
      return Err(LacksInteger);
    }
    var offset, size := field.offset.value, field.size.value;
    if offset < 0 || size <= 0 || size > place.state.elementSize || offset > place.state.elementSize - size {
      return Err(FieldExceeds);
    }
    var moved := AddOffset(offset, place.offset);
    if moved.Err? {
      return Err(moved.error);
    }
    var state := ReadState(field.type_);
    if state.Err? {
      return Err(state.error);
    }
    var extent := MultiplyDimensions(state.value.elementSize, state.value.shape, 0);
    assert state.value.shape[0..] == state.value.shape;
    if extent.None? {
      return Err(ExtentOverflow);
    }
    if extent.value != size {
      return Err(FieldSizeDisagrees);
    }
    r := Ok((Place(state.value, moved.value, place.position), PlanStep(None, offset, 0)));
  }

  method FieldHere(structures: Structures, state: TypeState, segment: Segment) returns (r: Result<Field, LayoutError>)
    requires segment.FieldSegment?
    ensures r == FieldAt(structures, state, segment)
  {
    if state.shape != [] || state.elementType == "" || state.elementType !in structures {
      return Err(NoStructure);
    }
    var structure := structures[state.elementType];
    if structure.fields.None? {
      return Err(MalformedStructure);
    }
    if structure.size.None? {
      return Err(LacksInteger);
    }
    if structure.size.value != state.elementSize {
      return Err(StructureSizeDisagrees);
    }
    if segment.index.None? {
      return Err(LacksInteger);
    }
    r := ScanFields(structure.fields.value, segment.index.value, segment.name);
  }

  method SelectIndexHere(index: int, place: Place) returns (r: Result<(Place, PlanStep), LayoutError>)
    ensures r == SelectIndex(index, place)
  {
    hide CheckedProduct;
    var shape := place.state.shape;
    if shape == [] {
      return Err(NotIndexable);
    }
    if index >= shape[0] {
      return Err(IndexExceedsDimension);
    }
    var stride := MultiplyDimensions(place.state.elementSize, shape, 1);
    if stride.None? {
      return Err(StrideOverflow);
    }
    if !IsI64(index * stride.value) {
      return Err(IndexedOffsetOverflow);
    }
    var offset := AddOffset(index * stride.value, place.offset);
    if offset.Err? {
      return Err(offset.error);
    }
    r := Ok((Place(place.state.(shape := shape[1..]), offset.value, place.position + 1),
             PlanStep(Some(place.position), stride.value, shape[0])));
  }

  method AdvanceHere(structures: Structures, segment: Segment, texts: seq<Option<string>>, row: seq<Option<int>>,
                     place: Place)
    returns (r: Result<(Place, PlanStep), LayoutError>)
    requires |texts| == |row|
    ensures r == Advance(structures, segment, texts, row, place)
  {
    hide SelectField, SelectIndex;
    match segment
    case NoSegment =>
      r := Err(MalformedSegment);
    case OtherSegment =>
      r := Err(InvalidIndexTransition);
    case FieldSegment(_, _) =>
      r := SelectFieldHere(structures, segment, place);
    case IndexSegment(text) =>
      if place.position >= |row| || text.None? || texts[place.position] != text {
        return Err(InvalidIndexTransition);
      }
      var index := row[place.position];
      if index.None? || index.value < 0 {
        return Err(IndexNotExact);
      }
      r := SelectIndexHere(index.value, place);
  }

  /** Steps already recorded, then the rest of the walk. */
  function Recorded(steps: seq<PlanStep>, rest: Result<Located, LayoutError>): (r: Result<Located, LayoutError>) {
    match rest
    case Err(e) => Err(e)
    case Ok(located) => Ok(Located(located.access, steps + located.steps))
  }

  lemma RecordedNext(steps: seq<PlanStep>, step: PlanStep, rest: Result<Located, LayoutError>)
    ensures Recorded(steps, Before(step, rest)) == Recorded(steps + [step], rest)
    ensures Recorded([], rest) == rest
  {
    if rest.Ok? {
      assert steps + ([step] + rest.value.steps) == (steps + [step]) + rest.value.steps;
      assert [] + rest.value.steps == rest.value.steps;
    }
  }

  /** Resolve an access by walking its path, recording the plan. */
  method PrepareStructured(node: AccessNode, row: seq<Option<int>>, objects: Objects, structures: Structures)
    returns (r: Result<(ByteAccess, PreparedLayout), LayoutError>)
    ensures r == ResolveStructured(node, row, objects, structures)
    ensures r.Ok? ==> AccessLands(node, row, objects, structures, r.value.0)
    ensures forall access :: AccessLands(node, row, objects, structures, access) ==> r.Ok? && r.value.0 == access
  {
    if ResolveStructured(node, row, objects, structures).Ok? {
      StructuredLands(node, row, objects, structures);
    }
    forall access | AccessLands(node, row, objects, structures, access)
      ensures ResolveStructured(node, row, objects, structures).Ok?
              && ResolveStructured(node, row, objects, structures).value.0 == access
    {
      LandsIsResolved(node, row, objects, structures, access);
    }
    hide Advance, StateOf, CheckedProduct, AccessLands;
    if node.target == "" || node.target !in objects {
      return Err(LacksObject);
    }
    if node.indices.None? || |node.indices.value| != |row| {
      return Err(RankDisagrees);
    }
    var start := ReadState(objects[node.target]);
    if start.Err? {
      return Err(start.error);
    }
    if start.value.kind == "pointer" {
      return Err(PointerObject);
    }
    var extent := MultiplyDimensions(start.value.elementSize, start.value.shape, 0);
    assert start.value.shape[0..] == start.value.shape;
    if extent.None? {
      return Err(ExtentOverflow);
    }
    var located := WalkHere(structures, node.path, node.indices.value, row, Place(start.value, 0, 0), extent.value);
    if located.Err? {
      return Err(located.error);
    }
    r := Ok((located.value.access,
             PreparedLayout(true, located.value.access.size, extent.value, located.value.steps)));
  }

  /** The loop over the path. */
  method WalkHere(structures: Structures, path: seq<Segment>, texts: seq<Option<string>>, row: seq<Option<int>>,
                  start: Place, extent: int)
    returns (r: Result<Located, LayoutError>)
    requires |texts| == |row|
    ensures r == WalkPath(structures, path, texts, row, start, extent)
  {
    hide Advance;
    var place, steps := start, [];
    RecordedNext([], PlanStep(None, 0, 0), WalkPath(structures, path, texts, row, start, extent));
    assert path[0..] == path;
    for k := 0 to |path|
      invariant WalkPath(structures, path, texts, row, start, extent)
                == Recorded(steps, WalkPath(structures, path[k..], texts, row, place, extent))
    {
      assert path[k..][1..] == path[k + 1..];
      var next := AdvanceHere(structures, path[k], texts, row, place);
      if next.Err? {
        return Err(next.error);
      }
      RecordedNext(steps, next.value.1, WalkPath(structures, path[k + 1..], texts, row, next.value.0, extent));
      place, steps := next.value.0, steps + [next.value.1];
    }
    assert path[|path|..] == [];
    assert steps + [] == steps;
    if place.position != |row| || place.state.shape != [] {
      return Err(NotLeaf);
    }
    var end := place.offset + place.state.elementSize;
    if !IsI64(end) || end > extent {
      return Err(ExceedsExtent);
    }
    r := Ok(Located(ByteAccess(place.offset, place.state.elementSize), steps));
  }
}
