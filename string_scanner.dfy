/**
 * The string machine of src/token-stream.cc: the per-byte steps of
 * `scan_regular`, `scan_escaped` and `uescape::scan`, and the UTF-8 encoder
 * `uescape::utf8encode` for the value of a `\uXXXX` escape (section 7 of
 * RFC 7159).
 */
module StringScanner {
  import opened Types
  import opened Utf8

  /** `StringState`: three working states, the final state, and the error states. */
  datatype StringState =
    | SRegular
    | SEscaped
    | SUescape
    | SDones
    | SRegularInvalid
    | SEscapedInvalid
    | SUescapeInvalid
    | SUescapeSurrogate
    | SUnterminated
    | SZero
  {
    predicate IsError()
    {
      !(SRegular? || SEscaped? || SUescape? || SDones?)
    }
  }

  /** `scan_regular`: one byte of unescaped string content. */
  function ScanRegular(c: byte, str: bytes): (r: (StringState, bytes))
    ensures r.0 == SDones <==> c == 0x22
    ensures r.0 == SEscaped <==> c == 0x5C
    ensures r.0 == SRegularInvalid <==> c <= 0x1F
    // every other byte, including those of multi-byte characters, is kept as it is
    ensures r.0 == SRegular <==> c > 0x1F && c != 0x22 && c != 0x5C
    ensures r.1 == if r.0 == SRegular then str + [c] else str
  {
    if c == 0x22 then (SDones, str)
    else if c == 0x5C then (SEscaped, str)
    else if c <= 0x1F then (SRegularInvalid, str)
    else (SRegular, str + [c])
  }

  /** The byte a one-character escape stands for, if `c` is one. */
  function EscapedByte(c: byte): Option<byte>
  {
    match c
    case 0x5C => Some(0x5C)   // \\
    case 0x2F => Some(0x2F)   // \/
    case 0x22 => Some(0x22)   // \"
    case 0x62 => Some(0x08)   // \b
    case 0x66 => Some(0x0C)   // \f
    case 0x6E => Some(0x0A)   // \n
    case 0x72 => Some(0x0D)   // \r
    case 0x74 => Some(0x09)   // \t
    case _ => None
  }

  /** `scan_escaped`: the byte after a backslash. */
  function ScanEscaped(c: byte, str: bytes): (r: (StringState, bytes))
    ensures r.0 == SUescape <==> c == 0x75
    ensures r.0 == SRegular <==> EscapedByte(c).Some?
    ensures r.0 in {SUescape, SRegular, SEscapedInvalid}
    ensures r.1 == if r.0 == SRegular then str + [EscapedByte(c).value] else str
  {
    match c
    case 0x5C => (SRegular, str + [c])
    case 0x2F => (SRegular, str + [c])
    case 0x22 => (SRegular, str + [c])
    case 0x62 => (SRegular, str + [0x08])
    case 0x66 => (SRegular, str + [0x0C])
    case 0x6E => (SRegular, str + [0x0A])
    case 0x72 => (SRegular, str + [0x0D])
    case 0x74 => (SRegular, str + [0x09])
    case 0x75 => (SUescape, str)
    case _ => (SEscapedInvalid, str)
  }

  /** The value of a hexadecimal digit of either case. */
  function HexDigit(c: byte): (r: Option<int>)
    ensures r.Some? ==> 0 <= r.value < 16
    ensures r.Some? <==> (0x30 <= c <= 0x39 || 0x61 <= c <= 0x66 || 0x41 <= c <= 0x46)
  {
    if 0x30 <= c <= 0x39 then Some(c as int - 0x30)
    else if 0x61 <= c <= 0x66 then Some(0x0A + c as int - 0x61)
    else if 0x41 <= c <= 0x46 then Some(0x0A + c as int - 0x41)
    else None
  }

  /** The two fields of `uescape`: digits read so far and the `uint16_t` accumulator. */
  datatype UState = UState(count: nat, value: uint16)

  /** 16 to the power `n`, for the digit counts an escape can have. */
  function Pow16(n: nat): nat
    requires n <= 4
  {
    if n == 0 then 1 else if n == 1 then 0x10 else if n == 2 then 0x100 else if n == 3 then 0x1000 else 0x1_0000
  }

  /** Between escapes `count_` is below 4 and `value_` holds at most `count_` digits. */
  predicate UInv(u: UState)
  {
    u.count < 4 && (u.value as int) < Pow16(u.count)
  }

  /**
   * `uescape::utf8encode`: the value of a complete `\uXXXX` escape appended as
   * UTF-8. Zero and UTF-16 surrogates are errors and append nothing.
   */
  function Utf8Encode(value: int, str: bytes): (r: (StringState, bytes))
    requires 0 <= value < 0x1_0000
    ensures r.0 == SZero <==> value == 0
    ensures r.0 == SUescapeSurrogate <==> 0xD800 <= value <= 0xDFFF
    ensures r.0 in {SZero, SUescapeSurrogate, SRegular}
    ensures r.0 != SRegular ==> r.1 == str
    ensures r.0 == SRegular ==> |str| < |r.1| <= |str| + 3 && r.1[..|str|] == str
  {
    if value == 0 then (SZero, str)
    else if value <= 0x7F then (SRegular, str + [value as byte])
    else if value <= 0x7FF then
      // 0xc0 | (value >> 6), 0x80 | (value & 0x3f): the OR-ed fields are disjoint
      (SRegular, str + [(0xC0 + value / 64) as byte, (0x80 + value % 64) as byte])
    else if 0xD800 <= value <= 0xDFFF then (SUescapeSurrogate, str)
    else
      (SRegular, str + [(0xE0 + value / 4096) as byte, (0x80 + (value / 64) % 64) as byte,
                        (0x80 + value % 64) as byte])
  }

  /** The code point of a UTF-8 character of at most three bytes (section 3 of RFC 3629). */
  function DecodeChar(cs: bytes): int
    requires 1 <= |cs| <= 3
  {
    if |cs| == 1 then cs[0] as int
    else if |cs| == 2 then (cs[0] as int - 0xC0) * 64 + (cs[1] as int - 0x80)
    else (cs[0] as int - 0xE0) * 4096 + (cs[1] as int - 0x80) * 64 + (cs[2] as int - 0x80)
  }

  /**
   * A value that is neither zero nor a surrogate is appended as one well-formed
   * UTF-8 character, which the validator of src/utf8.cc accepts and which
   * decodes back to the value.
   */
  lemma Utf8EncodeCorrect(value: int, str: bytes)
    requires 0 < value < 0x1_0000 && !(0xD800 <= value <= 0xDFFF)
    ensures var (st, out) := Utf8Encode(value, str);
            var e := out[|str|..];
            st == SRegular && out == str + e && Utf8Char(e) && DecodeChar(e) == value && Feed(0, e) == 0
  {
    var (st, out) := Utf8Encode(value, str);
    var e := out[|str|..];
    assert out == str + e;
    if value <= 0x7F {
      assert e == [value as byte];
    } else if value <= 0x7FF {
      EncodeTwo(value);
      assert e == [(0xC0 + value / 64) as byte, (0x80 + value % 64) as byte];
    } else {
      EncodeThree(value);
      assert e == [(0xE0 + value / 4096) as byte, (0x80 + (value / 64) % 64) as byte, (0x80 + value % 64) as byte];
    }
    FeedChar(e, |e|);
  }

  /** The two-byte form of section 3 of RFC 3629 for U+0080..U+07FF. */
  lemma EncodeTwo(value: int)
    requires 0x80 <= value <= 0x7FF
    ensures var e: bytes := [(0xC0 + value / 64) as byte, (0x80 + value % 64) as byte];
            Utf8Char(e) && DecodeChar(e) == value
  {
  }

  /** The three-byte form of section 3 of RFC 3629 for U+0800..U+FFFF without the surrogates. */
  lemma EncodeThree(value: int)
    requires 0x800 <= value < 0x1_0000 && !(0xD800 <= value <= 0xDFFF)
    ensures var e: bytes := [(0xE0 + value / 4096) as byte, (0x80 + (value / 64) % 64) as byte, (0x80 + value % 64) as byte];
            Utf8Char(e) && DecodeChar(e) == value
  {
    var hi, mid, lo := value / 4096, (value / 64) % 64, value % 64;
    assert value == hi * 4096 + mid * 64 + lo;
    assert hi == 0 ==> mid >= 32;
    assert hi == 13 ==> mid < 32;
  }

  /**
   * `uescape::scan`: one hex digit. The accumulator is shifted before the
   * digit is checked; the fourth digit hands the value to the encoder and
   * clears both fields.
   */
  function UScan(u: UState, c: byte, str: bytes): (r: (StringState, UState, bytes))
    requires UInv(u)
    ensures r.0 != SUescapeInvalid <==> HexDigit(c).Some?
    ensures r.0 == SUescape <==> HexDigit(c).Some? && u.count < 3
    ensures r.0 != SUescapeInvalid ==> UInv(r.1)
    ensures r.0 in {SUescape, SUescapeInvalid} ==> r.2 == str
  {
    // value_ *= 0x10 on a uint16_t; by UInv it is below 16^3, so it does not wrap
    var shifted := ((u.value as int * 16) % 0x1_0000) as uint16;
    var d := HexDigit(c);
    if d.None? then (SUescapeInvalid, u.(value := shifted), str)
    else
      var v := ((shifted as int + d.value) % 0x1_0000) as uint16;
      if u.count + 1 == 4 then
        var (st, out) := Utf8Encode(v as int, str);
        (st, UState(0, 0), out)
      else (SUescape, UState(u.count + 1, v), str)
  }

  /**
   * A hex digit is appended to the accumulator without wrapping; the fourth
   * hands the complete value to the encoder.
   */
  lemma UScanDigit(u: UState, c: byte, str: bytes)
    requires UInv(u) && HexDigit(c).Some?
    ensures var r := UScan(u, c, str);
      var value := u.value as int * 16 + HexDigit(c).value;
      value < 0x1_0000 &&
      (u.count < 3 ==> r.1 == UState(u.count + 1, value as uint16) && r.2 == str) &&
      (u.count == 3 ==> r.1 == UState(0, 0) && (r.0, r.2) == Utf8Encode(value, str))
  {
  }

  /** The four digits of a `\uXXXX` escape. */
  predicate IsHex4(h: bytes)
  {
    |h| == 4 && HexDigit(h[0]).Some? && HexDigit(h[1]).Some? && HexDigit(h[2]).Some? && HexDigit(h[3]).Some?
  }

  /** Four hex digits, most significant first, give the value they spell. */
  lemma {:induction false} UScanFour(h: bytes, str: bytes)
    requires IsHex4(h)
    ensures
      var r1 := UScan(UState(0, 0), h[0], str);
      var r2 := UScan(r1.1, h[1], r1.2);
      var r3 := UScan(r2.1, h[2], r2.2);
      r1.0 == SUescape && r2.0 == SUescape && r3.0 == SUescape &&
      var r4 := UScan(r3.1, h[3], r3.2);
      (r4.0, r4.2) == Utf8Encode(HexValue(h), str) && r4.1 == UState(0, 0)
  {
    var d0, d1, d2, d3 := HexDigit(h[0]).value, HexDigit(h[1]).value, HexDigit(h[2]).value, HexDigit(h[3]).value;
    var r1 := UScan(UState(0, 0), h[0], str);
    UScanDigit(UState(0, 0), h[0], str);
    assert r1.1 == UState(1, d0 as uint16) && r1.2 == str;
    var r2 := UScan(r1.1, h[1], r1.2);
    UScanDigit(r1.1, h[1], r1.2);
    assert r2.1 == UState(2, (d0 * 16 + d1) as uint16) && r2.2 == str;
    var r3 := UScan(r2.1, h[2], r2.2);
    UScanDigit(r2.1, h[2], r2.2);
    assert r3.1 == UState(3, ((d0 * 16 + d1) * 16 + d2) as uint16) && r3.2 == str;
    UScanDigit(r3.1, h[3], r3.2);
    assert HexValue(h) == ((d0 * 16 + d1) * 16 + d2) * 16 + d3;
  }

  /** The value of four hex digits read most significant first. */
  function HexValue(h: bytes): (v: int)
    requires IsHex4(h)
    ensures 0 <= v < 0x1_0000
  {
    ((HexDigit(h[0]).value * 16 + HexDigit(h[1]).value) * 16 + HexDigit(h[2]).value) * 16 + HexDigit(h[3]).value
  }

  /**
   * One step of the `scan_string` switch for a working state: the byte read
   * goes to the scanner of that state.
   */
  function StringStep(state: StringState, u: UState, c: byte, str: bytes): (r: (StringState, UState, bytes))
    requires state in {SRegular, SEscaped, SUescape} && UInv(u)
    ensures UInv(r.1) || r.0 == SUescapeInvalid
    ensures state != SUescape ==> r.1 == u
  {
    match state
    case SRegular => var (st, out) := ScanRegular(c, str); (st, u, out)
    case SEscaped => var (st, out) := ScanEscaped(c, str); (st, u, out)
    case SUescape => UScan(u, c, str)
  }

  /**
   * The `scan_string` loop run over bytes that all arrive from a GOOD stream:
   * the state it stops in (SDONES, an error state, or unterminated when the
   * bytes run out), how many bytes it consumed, and the string it built.
   */
  function Decode(state: StringState, u: UState, s: bytes, str: bytes): (r: (StringState, nat, bytes))
    requires state.IsError() || state == SDones || UInv(u)
    ensures r.1 <= |s|
    ensures r.0 == SDones || r.0.IsError()
    decreases |s|
  {
    if state == SDones || state.IsError() then (state, 0, str)
    else if s == [] then (SUnterminated, 0, str)
    else
      var (st, u', str') := StringStep(state, u, s[0], str);
      var r := Decode(st, u', s[1..], str');
      (r.0, r.1 + 1, r.2)
  }

  /** `uescape`, the `\uXXXX` accumulator that `scan_string` keeps for the whole string. */
  class UEscape {
    var count: nat
    var value: uint16

    function Get(): UState
      reads this
    {
      UState(count, value)
    }

    constructor ()
      ensures Get() == UState(0, 0)
    {
      count := 0;
      value := 0;
    }

    method Scan(c: byte, str: bytes) returns (st: StringState, out: bytes)
      requires UInv(Get())
      modifies this
      ensures (st, Get(), out) == UScan(old(Get()), c, str)
    {
      value := ((value as int * 16) % 0x1_0000) as uint16;
      var d := HexDigit(c);
      if d.None? {
        return SUescapeInvalid, str;
      }
      value := ((value as int + d.value) % 0x1_0000) as uint16;
      count := count + 1;
      if count == 4 {
        var res := Utf8Encode(value as int, str);
        count, value := 0, 0;
        return res.0, res.1;
      }
      return SUescape, str;
    }
  }
}
