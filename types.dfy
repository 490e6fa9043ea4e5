/**
 * Machine types shared by every module: bytes, the fixed-width integers of
 * <stdint.h>, and an Option.
 */
module Types {

  /** One octet of the input buffer (a `uint8_t`, or a `char` read as unsigned). */
  newtype byte = x: int | 0 <= x < 0x100

  newtype int8 = x: int | -0x80 <= x < 0x80
  newtype int16 = x: int | -0x8000 <= x < 0x8000
  newtype int32 = x: int | -0x8000_0000 <= x < 0x8000_0000
  newtype int64 = x: int | -0x8000_0000_0000_0000 <= x < 0x8000_0000_0000_0000
  newtype uint8 = x: int | 0 <= x < 0x100
  newtype uint16 = x: int | 0 <= x < 0x1_0000
  newtype uint32 = x: int | 0 <= x < 0x1_0000_0000
  newtype uint64 = x: int | 0 <= x < 0x1_0000_0000_0000_0000

  const INT64_MIN: int := -0x8000_0000_0000_0000
  const INT64_MAX: int := 0x7FFF_FFFF_FFFF_FFFF

  /** A `std::string` is a sequence of bytes; no encoding is attached to it. */
  type bytes = seq<byte>

  datatype Option<T> = None | Some(value: T)

  /** The bytes of an ASCII string literal of the source. */
  function Ascii(s: string): (r: bytes)
    requires forall i :: 0 <= i < |s| ==> s[i] < 128 as char
    ensures |r| == |s|
    ensures forall i :: 0 <= i < |s| ==> r[i] as int == s[i] as int
  {
    if s == [] then [] else [s[0] as int as byte] + Ascii(s[1..])
  }

  /** The byte of one ASCII character. */
  function B(c: char): byte
    requires c < 128 as char
  {
    c as int as byte
  }
}
