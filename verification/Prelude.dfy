/** Stock definitions shared by the other modules. */
module Prelude {

  datatype Option<T> = None | Some(value: T)

  const U32_MAX: nat := 0xFFFF_FFFF
  const U64_MAX: nat := 0xFFFF_FFFF_FFFF_FFFF
}
