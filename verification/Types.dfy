/** Shapes shared by the models: bytes, addresses, the widths of the node's integers. */
module Types {

  newtype byte = b: int | 0 <= b < 256

  /** A 20-byte account address. */
  type Address = a: seq<byte> | |a| == 20 witness seq(20, _ => 0)

  const U64_MAX: nat := 0xFFFF_FFFF_FFFF_FFFF
  const U128_MAX: nat := 0xFFFF_FFFF_FFFF_FFFF_FFFF_FFFF_FFFF_FFFF

  type u64 = x: nat | x <= U64_MAX
  type u128 = x: nat | x <= U128_MAX

  datatype Option<+T> = None | Some(value: T)

  datatype Result<+T, +E> = Ok(value: T) | Err(error: E)
}
