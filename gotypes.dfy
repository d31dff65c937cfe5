/** Go's fixed-width unsigned integers, byte slices and errors, as the two modelled files use them. */
module GoTypes {

  const TWO_TO_THE_32: int := 0x1_0000_0000
  const TWO_TO_THE_64: int := 0x1_0000_0000_0000_0000

  newtype uint32 = x: int | 0 <= x < TWO_TO_THE_32
  newtype uint64 = x: int | 0 <= x < TWO_TO_THE_64

  /** A Go `[]byte`; a nil slice and an empty one are both the empty sequence. */
  type Bytes = seq<bv8>

  /** Go's `uint64(n)` conversion of a non-negative `int`: reduction modulo 2^64. */
  function ToUint64(n: nat): (r: uint64)
    ensures n < TWO_TO_THE_64 ==> r as int == n
  {
    (n % TWO_TO_THE_64) as uint64
  }

  /** Go's `a + b` on `uint64`, which wraps around. */
  function WrappingAdd(a: uint64, b: uint64): (r: uint64)
    ensures a as int + b as int < TWO_TO_THE_64 ==> r as int == a as int + b as int
    ensures a as int + b as int >= TWO_TO_THE_64 ==> r as int == a as int + b as int - TWO_TO_THE_64
  {
    ((a as int + b as int) % TWO_TO_THE_64) as uint64
  }

  /** Go's `a * b` on `uint64`, which wraps around. */
  function WrappingMul(a: uint64, b: uint64): (r: uint64)
    ensures a as int * b as int < TWO_TO_THE_64 ==> r as int == a as int * b as int
  {
    ((a as int * b as int) % TWO_TO_THE_64) as uint64
  }

  /**
   * A Go `error`. The two messages that action/putpollresult.go creates get
   * constructors of their own; cobra's positional-argument check gets one;
   * every error made by code outside the model is `External`.
   */
  datatype Error =
    | EmptyActionProto
    | NilActionToLoad
    | ArgCountOutOfRange(min: nat, max: nat, received: nat)
    | External(message: string)
}
