/** What every module shares: bytes, optional values, the smaller and the larger of two reals. */
module Basics {
  type Byte = b: int | 0 <= b < 256
  type Bytes = seq<Byte>

  datatype Option<+T> = None | Some(value: T)

  function Min(x: real, y: real): real { if x < y then x else y }
  function Max(x: real, y: real): real { if x < y then y else x }
}
