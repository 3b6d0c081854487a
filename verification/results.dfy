/** Values for optional fields and for the exceptions the Python code raises. */
module Results {

  datatype Option<+T> = None | Some(value: T)

  /** An operation either returns a value or raises; `Err` carries which exception it was. */
  datatype Result<+T, +E> = Ok(value: T) | Err(error: E)

  /** Identifiers are 128-bit UUIDs in the repository; only equality and order are used here. */
  type Uuid = nat

  type Byte = n: int | 0 <= n < 256

  function Max(a: int, b: int): int {
    if a >= b then a else b
  }

  function Min(a: int, b: int): int {
    if a <= b then a else b
  }
}
