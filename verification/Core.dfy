/** Types shared by every component of the model. */
module Core {

  datatype Option<+T> = None | Some(value: T)

  datatype Result<+T, +E> = Ok(value: T) | Err(error: E)

  const U16_MAX: nat := 0xFFFF
  const U32_MODULUS: nat := 0x1_0000_0000
  const U64_MAX: nat := 0xFFFF_FFFF_FFFF_FFFF

  type u16 = n: nat | n <= 0xFFFF
  type u64 = n: nat | n <= 0xFFFF_FFFF_FFFF_FFFF
  type byte = n: nat | n < 256
}
