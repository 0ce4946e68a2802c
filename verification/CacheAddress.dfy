/** Cache geometry and the partition of an address into tag, set and offset. */
module CacheAddress {
  import opened BinaryIndex

  datatype CacheGeometry = CacheGeometry(lineSize: nat, lineCount: nat, associativity: nat)

  datatype DecodedAddress = DecodedAddress(address: nat, block: nat, tag: nat, setIndex: nat, offset: nat)

  /** `value != 0 && (value & (value - 1)) == 0`. */
  predicate IsPowerOfTwo(value: nat) {
    value != 0 && And(value, value - 1) == 0
  }

  /** The conditions under which a geometry describes a cache. */
  predicate ValidGeometry(g: CacheGeometry) {
    && IsPowerOfTwo(g.lineSize) && IsPowerOfTwo(g.lineCount) && IsPowerOfTwo(g.associativity)
    && g.associativity <= g.lineCount && g.lineCount % g.associativity == 0
  }

  function SetCount(g: CacheGeometry): (n: nat)
    requires ValidGeometry(g)
    ensures n > 0 && n * g.associativity == g.lineCount
  {
    Quotient(g.lineCount, g.associativity)
  }

  /** Truncating division of unsigned words. */
  function Quotient(a: nat, b: nat): (q: nat)
    requires b > 0
    ensures a == b * q + a % b && q == a / b
  {
    a / b
  }

  function Decode(address: nat, g: CacheGeometry): (d: DecodedAddress)
    requires ValidGeometry(g)
    ensures d.address == address
  {
    var sets := SetCount(g);
    var block := Quotient(address, g.lineSize);
    DecodedAddress(address, block, Quotient(block, sets), block % sets, address % g.lineSize)
  }

  /** The bit test accepts exactly the powers of two. */
  lemma {:induction false} PowerOfTwoTest(value: nat)
    ensures IsPowerOfTwo(value) <==> exists w :: value == Pow2(w)
  {
    if value > 0 {
      LowBitTest(value);
      if LowBit(value) == value {
        var w := LowBitExponent(value);
      }
      forall w | value == Pow2(w)
        ensures LowBit(value) == value
      {
        LowBitOfPower(w);
      }
    } else {
      assert forall w :: Pow2(w) > 0;
    }
  }

  /** The set count of a valid geometry is a power of two. */
  lemma SetCountIsPower(g: CacheGeometry)
    requires ValidGeometry(g)
    ensures IsPowerOfTwo(SetCount(g))
  {
    hide IsPowerOfTwo;
    PowerOfTwoTest(g.lineCount);
    PowerOfTwoTest(g.associativity);
    PowerOfTwoTest(SetCount(g));
    var a, b :| g.lineCount == Pow2(a) && g.associativity == Pow2(b);
    var w := PowerQuotient(SetCount(g), a, b);
  }

  lemma {:induction false} PowerQuotient(n: nat, a: nat, b: nat) returns (w: nat)
    requires n * Pow2(b) == Pow2(a)
    ensures n == Pow2(w)
    decreases b
  {
    if b == 0 {
      w := a;
    } else {
      assert n * Pow2(b) == 2 * (n * Pow2(b - 1));
      assert a > 0;
      w := PowerQuotient(n, a - 1, b - 1);
    }
  }

  /** `value & (value - 1)` clears the lowest set bit. */
  lemma {:induction false} LowBitTest(value: nat)
    requires value > 0
    ensures And(value, value - 1) == value - LowBit(value)
  {
    if value % 2 == 0 {
      LowBitTest(value / 2);
      assert (value - 1) / 2 == value / 2 - 1;
    } else {
      assert value / 2 == (value - 1) / 2;
      AndSelf(value / 2);
    }
  }

  lemma {:induction false} AndSelf(x: nat)
    ensures And(x, x) == x
  {
    if x > 0 {
      AndSelf(x / 2);
    }
  }

  lemma {:induction false} LowBitExponent(value: nat) returns (w: nat)
    requires value > 0
    ensures LowBit(value) == Pow2(w)
  {
    if value % 2 == 1 {
      w := 0;
    } else {
      w := LowBitExponent(value / 2);
      w := w + 1;
    }
  }

  lemma {:induction false} LowBitOfPower(w: nat)
    ensures LowBit(Pow2(w)) == Pow2(w)
  {
    if w > 0 {
      LowBitOfPower(w - 1);
      assert Pow2(w) / 2 == Pow2(w - 1);
    }
  }

  /** Decoding loses nothing: tag, set and offset rebuild the address, and are in range. */
  lemma DecodeRecomposes(address: nat, g: CacheGeometry)
    requires ValidGeometry(g)
    ensures var d := Decode(address, g);
            && d.setIndex < SetCount(g) && d.offset < g.lineSize
            && d.block == d.tag * SetCount(g) + d.setIndex
            && address == d.block * g.lineSize + d.offset
  {
  }

  /** Within one set, blocks and tags determine each other. */
  lemma TagsNameBlocks(a: nat, b: nat, sets: nat)
    requires sets > 0 && a % sets == b % sets
    ensures a / sets == b / sets <==> a == b
  {
    assert a == sets * (a / sets) + a % sets;
    assert b == sets * (b / sets) + b % sets;
  }

  lemma DivisionUnique(x: nat, d: nat, q: nat, r: nat)
    requires d > 0 && x == d * q + r && r < d
    ensures x / d == q && x % d == r
  {
    var k := x / d - q;
    assert x == d * (x / d) + x % d;
    assert d * k == r - x % d;
    MultipleBeyond(d, k);
  }

  lemma MultipleBeyond(d: nat, k: int)
    ensures k >= 1 ==> d * k >= d
    ensures k <= -1 ==> d * k <= -(d as int)
  {
  }
}
