/** Fixed-width limits of the C++ types and the option and result types shared by every module. */
module Machine {
  const U64_MAX: nat := 0xFFFF_FFFF_FFFF_FFFF
  const TWO64: nat := 0x1_0000_0000_0000_0000
  const I64_MIN: int := -0x8000_0000_0000_0000
  const I64_MAX: int := 0x7FFF_FFFF_FFFF_FFFF

  datatype Option<+T> = None | Some(value: T)

  /** A value, or the exception the source throws. */
  datatype Result<+T, +E> = Ok(value: T) | Err(error: E)

  predicate IsI64(x: int) {
    I64_MIN <= x <= I64_MAX
  }

  type Int64 = x: int | IsI64(x)

  function Max(a: nat, b: nat): nat {
    if a < b then b else a
  }

  function Min(a: nat, b: nat): nat {
    if a < b then a else b
  }

  /** Checked unsigned addition below an inclusive limit: `csrd_checked_add`. */
  function CheckedAdd(left: nat, right: nat, limit: nat): (r: Option<nat>)
    ensures r.Some? <==> left + right <= limit
    ensures r.Some? ==> r.value == left + right
  {
    if left > limit || right > limit - left then None else Some(left + right)
  }

  lemma ProductOrder(k: int, n: int, d: nat)
    requires k <= n
    ensures k * d <= n * d
  {
  }

  lemma {:induction false} SubsetCount<T>(a: set<T>, b: set<T>)
    requires a <= b
    ensures |a| <= |b|
  {
    assert b == a + (b - a);
  }
}
