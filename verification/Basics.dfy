/** Types shared by every component: bytes, fixed-width integers, hashes and results. */
module Basics {
  datatype Option<+T> = None | Some(value: T) {
    predicate IsFailure() {
      None?
    }

    function PropagateFailure<U>(): Option<U>
      requires None?
    {
      None
    }

    function Extract(): T
      requires Some?
    {
      value
    }
  }

  datatype Result<+T> = Ok(value: T) | Err

  type byte = x: int | 0 <= x < 256

  type Bytes = seq<byte>

  const U64_LIMIT: int := 0x1_0000_0000_0000_0000
  const U64_MAX: int := 0xFFFF_FFFF_FFFF_FFFF

  type u64 = x: int | 0 <= x < U64_LIMIT

  /** Thirty-two bytes: a block hash, an accumulator or a request id. */
  type Hash32 = b: Bytes | |b| == 32 witness seq(32, _ => 0)

  const ZERO_HASH: Hash32 := [
    0, 0, 0, 0, 0, 0, 0, 0, 0, 0, 0, 0, 0, 0, 0, 0, 0, 0, 0, 0, 0, 0, 0, 0, 0, 0, 0, 0, 0, 0, 0, 0]

  /** Twenty bytes: a poster address. */
  type Address = b: Bytes | |b| == 20 witness seq(20, _ => 0)

  const ZERO_ADDRESS: Address := [
    0, 0, 0, 0, 0, 0, 0, 0, 0, 0, 0, 0, 0, 0, 0, 0, 0, 0, 0, 0]

  /** Addition that stops at the largest 64-bit value. */
  function SaturatingAdd(x: u64, y: u64): u64 {
    if x + y < U64_LIMIT then x + y else U64_MAX
  }

  /** Subtraction that stops at zero. */
  function SaturatingSub(x: nat, y: nat): nat {
    if x < y then 0 else x - y
  }

  function Max(x: int, y: int): int {
    if x < y then y else x
  }

  function Min(x: int, y: int): int {
    if x < y then x else y
  }
}
