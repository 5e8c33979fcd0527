/** Declarations of the C ABI that several modules share (vinary_tree_interop.h), and `Option`. */
module Interop {
  datatype Option<T> = None | Some(value: T)

  const MAX_INT32: nat := 0x7fff_ffff
  const MAX_INT64: nat := 0x7fff_ffff_ffff_ffff
  const MAX_UINT64: nat := 0xffff_ffff_ffff_ffff
  const TWO_64: int := 0x1_0000_0000_0000_0000

  // `VtStatus`
  const OK: nat := 0
  const END: nat := 1
  const INVALID_ARGUMENT: nat := 2
  const CLOSED: nat := 6
  const LIMIT_EXCEEDED: nat := 7
  const PROVIDER_ERROR: nat := 8
  const BATCH_IN_USE: nat := 9

  datatype UnitDomain = Byte | UnicodeScalar | U64

  /** A Unicode scalar value: a code point that is not a surrogate. */
  predicate IsScalar(u: nat) {
    u <= 0x10_ffff && !(0xd800 <= u <= 0xdfff)
  }

  /** `VtSemiringValue`: an opaque value or handle, and the mark of the context that issued it. */
  datatype Token = Token(word0: nat, word1: nat)
}
