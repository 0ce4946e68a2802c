/** Splitting one resolved byte range into the cache lines it touches. */
module LineMapping {
  import opened Machine
  import opened CacheAddress

  datatype AddressBasis = Absolute | ImageRelative
  datatype AccessOperation = Unknown | Load | Store

  /** The bytes one source access touches, before any cache geometry is chosen. */
  datatype ResolvedAccess = ResolvedAccess(
    objectId: string, objectByteOffset: nat, accessSize: nat, linkedByteAddress: nat,
    addressBasis: AddressBasis, operation: AccessOperation, sourceAccessOrdinal: nat)

  /** One line of a source access: where the access enters it, and which access that was. */
  datatype CacheLineMapping = CacheLineMapping(
    objectId: string, objectByteOffset: nat, addressBasis: AddressBasis, decoded: DecodedAddress,
    sourceObjectByteOffset: nat, sourceAccessSize: nat, sourceLinkedByteAddress: nat,
    operation: AccessOperation, sourceAccessOrdinal: nat, lineSpanOrdinal: nat)

  datatype MapError = InvalidRange | RangeOverflows | InvalidGeometry

  /** The checks made before the first line is delivered, in order. */
  function RangeError(a: ResolvedAccess, g: CacheGeometry): (e: Option<MapError>) {
    if a.objectId == "" || a.accessSize == 0 then Some(InvalidRange)
    else if a.linkedByteAddress > U64_MAX || a.accessSize - 1 > U64_MAX - a.linkedByteAddress then Some(RangeOverflows)
    else if a.objectByteOffset > U64_MAX || a.accessSize - 1 > U64_MAX - a.objectByteOffset then Some(RangeOverflows)
    else if !ValidGeometry(g) then Some(InvalidGeometry)
    else None
  }

  predicate Mappable(a: ResolvedAccess, g: CacheGeometry)
    ensures Mappable(a, g) ==> ValidGeometry(g) && a.accessSize > 0
  {
    RangeError(a, g).None?
  }

  // ----- the lines of a range in closed form

  /** The first byte of the range in its `k`-th line. */
  function LineAddress(a: ResolvedAccess, g: CacheGeometry, k: nat): (n: nat)
    requires Mappable(a, g)
  {
    if k == 0 then a.linkedByteAddress
    else (Quotient(a.linkedByteAddress, g.lineSize) + k) * g.lineSize
  }

  function LineCount(a: ResolvedAccess, g: CacheGeometry): (n: nat)
    requires Mappable(a, g)
    ensures n > 0
  {
    QuotientMonotone(a.linkedByteAddress, a.linkedByteAddress + a.accessSize - 1, g.lineSize);
    Quotient(a.linkedByteAddress + a.accessSize - 1, g.lineSize) - Quotient(a.linkedByteAddress, g.lineSize) + 1
  }

  function MappingAt(a: ResolvedAccess, g: CacheGeometry, address: nat, objectOffset: nat,
                     ordinal: nat): CacheLineMapping
    requires Mappable(a, g)
  {
    CacheLineMapping(a.objectId, objectOffset, a.addressBasis, Decode(address, g),
                     a.objectByteOffset, a.accessSize, a.linkedByteAddress,
                     a.operation, a.sourceAccessOrdinal, ordinal)
  }

  /** The `k`-th row of a range. */
  function LineAt(a: ResolvedAccess, g: CacheGeometry, k: nat): (m: CacheLineMapping)
    requires Mappable(a, g)
  {
    LineAddressGrows(a, g, k);
    MappingAt(a, g, LineAddress(a, g, k), a.objectByteOffset + (LineAddress(a, g, k) - a.linkedByteAddress), k)
  }

  /** Every row of a range, in order. */
  function Lines(a: ResolvedAccess, g: CacheGeometry): (rows: seq<CacheLineMapping>)
    requires Mappable(a, g)
    ensures |rows| == LineCount(a, g) && |rows| > 0
  {
    seq(LineCount(a, g), (k: nat) => LineAt(a, g, k))
  }

  lemma QuotientMonotone(x: nat, y: nat, d: nat)
    requires d > 0 && x <= y
    ensures Quotient(x, d) <= Quotient(y, d)
  {
    var q: int, r: int := Quotient(x, d), Quotient(y, d);
    MultipleBeyond(d, q - r);
    assert d * (q - r) == d * q - d * r;
  }

  lemma QuotientExact(q: nat, d: nat)
    requires d > 0
    ensures Quotient(q * d, d) == q && (q * d) % d == 0
  {
    DivisionUnique(q * d, d, q, 0);
  }

  lemma LineAddressGrows(a: ResolvedAccess, g: CacheGeometry, k: nat)
    requires Mappable(a, g)
    ensures LineAddress(a, g, k) >= a.linkedByteAddress
    ensures Quotient(LineAddress(a, g, k), g.lineSize) == Quotient(a.linkedByteAddress, g.lineSize) + k
  {
    var base, size := a.linkedByteAddress, g.lineSize;
    var q := Quotient(base, size);
    if k > 0 {
      QuotientExact(q + k, size);
      MultipleBeyond(size, k);
      assert (q + k) * size == size * q + size * k;
    }
  }

  /** The rows of a range lie in consecutive blocks. */
  lemma LineBlock(a: ResolvedAccess, g: CacheGeometry, k: nat)
    requires Mappable(a, g) && k < LineCount(a, g)
    ensures Lines(a, g)[k].decoded.block == Quotient(a.linkedByteAddress, g.lineSize) + k
    ensures Lines(a, g)[k].decoded.address == LineAddress(a, g, k)
  {
    LineAddressGrows(a, g, k);
  }

  /** The line of a byte of the range, counted from the first line. */
  function LineOfByte(a: ResolvedAccess, g: CacheGeometry, byte: nat): (k: nat)
    requires Mappable(a, g) && a.linkedByteAddress <= byte < a.linkedByteAddress + a.accessSize
    ensures k < LineCount(a, g)
  {
    QuotientMonotone(a.linkedByteAddress, byte, g.lineSize);
    QuotientMonotone(byte, a.linkedByteAddress + a.accessSize - 1, g.lineSize);
    Quotient(byte, g.lineSize) - Quotient(a.linkedByteAddress, g.lineSize)
  }

  /** Each byte of a range lies in the block of exactly one row, and that row starts at or before it. */
  lemma TilesOnce(a: ResolvedAccess, g: CacheGeometry, byte: nat, j: nat)
    requires Mappable(a, g) && a.linkedByteAddress <= byte < a.linkedByteAddress + a.accessSize
    requires j < LineCount(a, g)
    ensures Lines(a, g)[j].decoded.block == Quotient(byte, g.lineSize) <==> j == LineOfByte(a, g, byte)
    ensures Lines(a, g)[LineOfByte(a, g, byte)].decoded.address <= byte
  {
    hide Lines, LineAt;
    var k := LineOfByte(a, g, byte);
    LineBlock(a, g, j);
    LineBlock(a, g, k);
    LineStartsBefore(a, g, byte);
  }

  lemma LineStartsBefore(a: ResolvedAccess, g: CacheGeometry, byte: nat)
    requires Mappable(a, g) && a.linkedByteAddress <= byte < a.linkedByteAddress + a.accessSize
    ensures LineAddress(a, g, LineOfByte(a, g, byte)) <= byte
  {
    hide RangeError, Quotient;
    QuotientFloor(byte, g.lineSize);
    assert Quotient(a.linkedByteAddress, g.lineSize) + LineOfByte(a, g, byte) == Quotient(byte, g.lineSize);
  }

  lemma QuotientFloor(x: nat, d: nat)
    requires d > 0
    ensures Quotient(x, d) * d <= x
  {
    assert x == d * (x / d) + x % d;
  }

  /** Every row starts inside its source range. */
  lemma LineInRange(a: ResolvedAccess, g: CacheGeometry, k: nat)
    requires Mappable(a, g) && k < LineCount(a, g)
    ensures a.linkedByteAddress <= LineAddress(a, g, k) < a.linkedByteAddress + a.accessSize
  {
    var last := a.linkedByteAddress + a.accessSize - 1;
    LineAddressGrows(a, g, k);
    if k > 0 {
      var q := Quotient(a.linkedByteAddress, g.lineSize);
      assert last == g.lineSize * Quotient(last, g.lineSize) + last % g.lineSize;
      ProductOrder(q + k, Quotient(last, g.lineSize), g.lineSize);
    }
  }

  // ----- provenance

  /** A row tells which bytes of which access it belongs to: every field of the access, and one displacement. */
  ghost predicate CarriesAccess(m: CacheLineMapping, a: ResolvedAccess) {
    && m.objectId == a.objectId && m.addressBasis == a.addressBasis && m.operation == a.operation
    && m.sourceObjectByteOffset == a.objectByteOffset && m.sourceAccessSize == a.accessSize
    && m.sourceLinkedByteAddress == a.linkedByteAddress && m.sourceAccessOrdinal == a.sourceAccessOrdinal
    && a.linkedByteAddress <= m.decoded.address < a.linkedByteAddress + a.accessSize
    && m.objectByteOffset - a.objectByteOffset == m.decoded.address - a.linkedByteAddress
  }

  /** The address of a row and the parts it is decoded into. */
  ghost predicate DecodedBy(d: DecodedAddress, g: CacheGeometry)
    requires ValidGeometry(g)
  {
    && d.block * g.lineSize + d.offset == d.address && d.offset < g.lineSize
    && d.tag * SetCount(g) + d.setIndex == d.block && d.setIndex < SetCount(g)
  }

  /** The `k`-th row of an access: the next block, entered at the start of the access or at the start of the line. */
  ghost predicate IsLine(m: CacheLineMapping, a: ResolvedAccess, g: CacheGeometry, k: nat)
    requires ValidGeometry(g)
  {
    && CarriesAccess(m, a) && m.lineSpanOrdinal == k && DecodedBy(m.decoded, g)
    && m.decoded.block == a.linkedByteAddress / g.lineSize + k
    && (if k == 0 then m.decoded.address == a.linkedByteAddress else m.decoded.offset == 0)
  }

  lemma LineIsLine(a: ResolvedAccess, g: CacheGeometry, k: nat)
    requires Mappable(a, g) && k < LineCount(a, g)
    ensures IsLine(Lines(a, g)[k], a, g, k)
  {
    LineInRange(a, g, k);
    LineBlock(a, g, k);
    var d := Lines(a, g)[k].decoded;
    DecodeRecomposes(d.address, g);
    if k > 0 {
      QuotientExact(Quotient(a.linkedByteAddress, g.lineSize) + k, g.lineSize);
    }
  }

  // ----- the traversal

  /** The loop variables of the line traversal. */
  datatype LineCursor = LineCursor(address: nat, objectOffset: nat, remaining: nat, ordinal: nat)

  function StartCursor(a: ResolvedAccess): LineCursor {
    LineCursor(a.linkedByteAddress, a.objectByteOffset, a.accessSize, 0)
  }

  /** Move past the line at the cursor; at the end of the range the addresses stay. */
  function Advanced(c: LineCursor, g: CacheGeometry): (n: LineCursor)
    requires ValidGeometry(g)
  {
    DecodeRecomposes(c.address, g);
    var available := g.lineSize - Decode(c.address, g).offset;
    var consumed := Min(c.remaining, available);
    var remaining := c.remaining - consumed;
    if remaining != 0 then LineCursor(c.address + consumed, c.objectOffset + consumed, remaining, c.ordinal + 1)
    else c.(remaining := 0, ordinal := c.ordinal + 1)
  }

  /** The cursor stands at the `ordinal`-th line, or has passed the last one. */
  ghost predicate CursorAt(a: ResolvedAccess, g: CacheGeometry, c: LineCursor)
    requires Mappable(a, g)
  {
    if c.remaining == 0 then c.ordinal == LineCount(a, g)
    else
      && c.ordinal < LineCount(a, g) && c.address == LineAddress(a, g, c.ordinal)
      && c.address + c.remaining == a.linkedByteAddress + a.accessSize
      && c.objectOffset - a.objectByteOffset == c.address - a.linkedByteAddress
  }

  lemma CursorStarts(a: ResolvedAccess, g: CacheGeometry)
    requires Mappable(a, g)
    ensures CursorAt(a, g, StartCursor(a))
  {
  }

  /** Every step delivers the next row, without address or offset wrap-around. */
  lemma CursorSteps(a: ResolvedAccess, g: CacheGeometry, c: LineCursor)
    requires Mappable(a, g) && CursorAt(a, g, c) && c.remaining != 0
    ensures CursorAt(a, g, Advanced(c, g)) && Advanced(c, g).ordinal == c.ordinal + 1
    ensures Advanced(c, g).remaining < c.remaining
    ensures c.ordinal < LineCount(a, g)
    ensures var row := MappingAt(a, g, c.address, c.objectOffset, c.ordinal);
            && row == Lines(a, g)[c.ordinal] && row.decoded == Decode(row.decoded.address, g)
            && row.sourceAccessOrdinal == a.sourceAccessOrdinal && row.lineSpanOrdinal == c.ordinal
    ensures Advanced(c, g).address <= U64_MAX && Advanced(c, g).objectOffset <= U64_MAX
  {
    var size, k := g.lineSize, c.ordinal;
    var q := Quotient(a.linkedByteAddress, size);
    LineAddressGrows(a, g, k);
    LineAddressGrows(a, g, k + 1);
    DecodeRecomposes(c.address, g);
    var offset := c.address % size;
    assert c.address == size * (q + k) + offset;
    var available := size - offset;
    assert (q + k + 1) * size == c.address + available;
    var last := a.linkedByteAddress + a.accessSize - 1;
    if c.remaining <= available {
      assert last < size * (q + k) + size;
      DivisionUnique(last, size, q + k, last - size * (q + k));
    } else {
      QuotientMonotone(LineAddress(a, g, k + 1), last, size);
    }
  }

  /** The lines of a source access in address order, or why it has none. */
  method MapCacheLines(a: ResolvedAccess, g: CacheGeometry) returns (r: Result<seq<CacheLineMapping>, MapError>)
    ensures r == match RangeError(a, g) case Some(e) => Err(e) case None => Ok(Lines(a, g))
    ensures r == Err(InvalidRange) <==> a.objectId == "" || a.accessSize == 0
    ensures r == Err(RangeOverflows) <==>
              && a.objectId != "" && a.accessSize > 0
              && (a.linkedByteAddress + a.accessSize - 1 > U64_MAX || a.objectByteOffset + a.accessSize - 1 > U64_MAX)
    ensures r.Ok? <==>
              && a.objectId != "" && a.accessSize > 0 && ValidGeometry(g)
              && a.linkedByteAddress + a.accessSize - 1 <= U64_MAX && a.objectByteOffset + a.accessSize - 1 <= U64_MAX
    ensures r.Ok? ==>
              var last := a.linkedByteAddress + a.accessSize - 1;
              && |r.value| == last / g.lineSize - a.linkedByteAddress / g.lineSize + 1
              && forall k :: 0 <= k < |r.value| ==> IsLine(r.value[k], a, g, k)
  {
    var error := RangeError(a, g);
    if error.Some? {
      return Err(error.value);
    }
    var rows: seq<CacheLineMapping> := [];
    var c := StartCursor(a);
    CursorStarts(a, g);
    while c.remaining != 0
      invariant CursorAt(a, g, c) && |rows| == c.ordinal <= LineCount(a, g)
      invariant rows == Lines(a, g)[..c.ordinal]
      decreases c.remaining
    {
      CursorSteps(a, g, c);
      rows := rows + [MappingAt(a, g, c.address, c.objectOffset, c.ordinal)];
      c := Advanced(c, g);
    }
    assert rows == Lines(a, g);
    forall k | 0 <= k < |rows|
      ensures IsLine(rows[k], a, g, k)
    {
      LineIsLine(a, g, k);
    }
    r := Ok(rows);
  }
}
