/** Fixed-width integers of the C++ source, and the Option type used for null and for exceptions. */
module Machine {

  datatype Option<+T> = None | Some(value: T)

  const TWO_31: int := 0x8000_0000
  const TWO_32: int := 0x1_0000_0000
  const TWO_63: int := 0x8000_0000_0000_0000
  const TWO_64: int := 0x1_0000_0000_0000_0000
  const INT_MAX: int := TWO_31 - 1
  const SHRT_MAX: int := 32767

  type int32 = x: int | -TWO_31 <= x < TWO_31
  type int64 = x: int | -TWO_63 <= x < TWO_63
  type uint64 = x: int | 0 <= x < TWO_64

  /** True when a value survives a trip through a 32-bit column or variable. */
  predicate IsInt32(x: int) {
    -TWO_31 <= x < TWO_31
  }

  /** Conversion to a 32-bit signed integer keeps the low 32 bits. */
  function ToInt32(x: int): (r: int32)
    ensures r == x <==> IsInt32(x)
  {
    if IsInt32(x) then x else (x + TWO_31) % TWO_32 - TWO_31
  }

  /** 64-bit arithmetic wraps modulo 2^64. */
  function ToInt64(x: int): (r: int64)
  {
    if -TWO_63 <= x < TWO_63 then x else (x + TWO_63) % TWO_64 - TWO_63
  }

  /** The cast to an unsigned 64-bit integer. */
  function ToUint64(x: int64): uint64 {
    if x < 0 then x + TWO_64 else x
  }

  /** A cast keeps the low bits: its result differs by a multiple of 2^32. */
  lemma ToInt32KeepsLowBits(x: int) returns (k: int)
    ensures ToInt32(x) == x - k * TWO_32
  {
    k := if IsInt32(x) then 0 else (x + TWO_31) / TWO_32;
  }

  /** The 64-bit casts likewise, by a multiple of 2^64. */
  lemma ToInt64KeepsLowBits(x: int) returns (k: int)
    ensures ToInt64(x) == x - k * TWO_64
    ensures -TWO_63 <= x < TWO_63 ==> k == 0
  {
    k := if -TWO_63 <= x < TWO_63 then 0 else (x + TWO_63) / TWO_64;
  }

  lemma CastBack(x: int64)
    ensures ToInt64(ToUint64(x)) == x
  {
    if x < 0 {
      assert (x + TWO_64 + TWO_63) % TWO_64 == x + TWO_63;
    }
  }

  lemma EmptyOrInhabited(ids: set<int>)
    ensures ids == {} || exists id :: id in ids
  {
    if forall id: int :: id !in ids {
      assert ids == {};
    }
  }
}
