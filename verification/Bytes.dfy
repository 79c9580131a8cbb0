/** Bytes, byte strings and the machine integers the C code computes with. */
module Bytes {
  type byte = x: int | 0 <= x < 256
  type bytes = seq<byte>

  /** A C string: the bytes before the terminating NUL. */
  type cstring = s: bytes | 0 !in s

  /** An `unsigned long long`; every assignment to one is checked not to wrap. */
  type uint64 = x: int | 0 <= x < UINT64_MODULUS
  type int64 = x: int | INT64_MIN <= x <= INT64_MAX

  const UINT64_MODULUS := 0x1_0000_0000_0000_0000
  const UINT64_MAX := 0xffff_ffff_ffff_ffff
  const INT64_MAX := 0x7fff_ffff_ffff_ffff
  const INT64_MIN := -0x8000_0000_0000_0000
  const INT_MAX := 0x7fff_ffff

  const NUL: byte := 0
  const LF: byte := 10
  const CR: byte := 13
  const SPACE: byte := 32
  const DQUOTE: byte := 34
  const DOLLAR: byte := 36
  const PERCENT: byte := 37
  const SQUOTE: byte := 39
  const STAR: byte := 42
  const PLUS: byte := 43
  const MINUS: byte := 45
  const ZERO: byte := 48
  const COLON: byte := 58
  const BACKSLASH: byte := 92
  const CRLF: bytes := [CR, LF]

  datatype Option<+T> = None | Some(value: T)

  predicate IsDigit(b: byte) {
    ZERO <= b <= ZERO + 9
  }

  /** The bits of `-v` in an unsigned 64-bit register. */
  function NegateU64(v: uint64): (r: uint64)
    ensures (v + r) % UINT64_MODULUS == 0
  {
    if v == 0 then 0 else UINT64_MODULUS - v
  }

  /** The value a 64-bit register has when read as two's complement. */
  function AsSigned(v: uint64): (r: int64)
    ensures (r - v) % UINT64_MODULUS == 0
  {
    if v <= INT64_MAX then v else v - UINT64_MODULUS
  }

  /** The register that holds a signed value in two's complement. */
  function AsUnsigned(v: int64): (r: uint64)
    ensures AsSigned(r) == v
  {
    if v >= 0 then v else v + UINT64_MODULUS
  }
}
