/** Result types and small arithmetic shared by every module. */
module Prelude {

  datatype Option<+T> = None | Some(value: T)

  datatype Result<+T, +E> = Ok(value: T) | Err(error: E)

  function Min(a: int, b: int): int { if a <= b then a else b }

  /** Saturating subtraction, as `saturating_sub` on u64. */
  function SatSub(a: nat, b: nat): nat { if a <= b then 0 else a - b }

  function Max(a: int, b: int): int { if a <= b then b else a }

  /** How many bytes the character takes in UTF-8 (section 3 of RFC 3629). */
  function Utf8Bytes(c: char): nat {
    if c as int < 0x80 then 1 else if c as int < 0x800 then 2 else if c as int < 0x1_0000 then 3 else 4
  }

  /** The length of the string as Rust counts it. */
  function Utf8Len(s: string): nat {
    if s == "" then 0 else Utf8Len(s[..|s| - 1]) + Utf8Bytes(s[|s| - 1])
  }
}
