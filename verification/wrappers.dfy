/** The option type and the 32-bit arithmetic shared by the models. */
module Wrappers {

  datatype Option<+T> = None | Some(value: T)

  const TWO_TO_THE_32: int := 0x1_0000_0000

  /** The values of a C++ `uint32_t`. */
  type uint32 = n: int | 0 <= n < TWO_TO_THE_32

  /** The value a `uint32_t` takes when `n` is assigned to it. */
  function Wrap32(n: int): uint32 {
    n % TWO_TO_THE_32
  }

  lemma WrapSum(n: int, i: int)
    ensures Wrap32(Wrap32(n) + i) == Wrap32(n + i)
  {
  }
}
