/** Shared vocabulary: the source's fixed-width integer, and the failure-carrying wrappers
    used for the C++ exceptions and null pointers of the library. */
module Common {

  const U32Modulus: int := 0x1_0000_0000

  /** C++ `uint32_t`. */
  newtype u32 = x: int | 0 <= x < 0x1_0000_0000

  /** C++'s implicit conversion of an integer value to `uint32_t`: reduction modulo 2^32
      (Dafny's `%` is Euclidean, so a negative value lands in range as the conversion does). */
  function ToU32(x: int): (r: u32)
    ensures (r as int - x) % U32Modulus == 0
    ensures 0 <= x < U32Modulus ==> r as int == x
  {
    (x % U32Modulus) as u32
  }

  /** A nullable pointer / empty weak reference. */
  datatype Option<+T> = None | Some(value: T)

  /** A call that either returns a value or raises an exception. */
  datatype Result<+T, +E> = Success(value: T) | Failure(error: E)

  /** A `void` call that either returns or raises an exception. */
  datatype Outcome<+E> = Pass | Fail(error: E)
}
