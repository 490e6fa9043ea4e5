/**
 * The constructors of `Number` in src/number.cc. Each fixed-width unsigned
 * integer is stored as a `uint64_t` under TYPE_UINT, each signed one as an
 * `int64_t` under TYPE_INT, and the three floating types as a `long double`
 * under TYPE_FP; the value is never changed on the way.
 */
module Numbers {
  import opened Types
  import opened Json

  /** `Number()`. */
  function Default(): (n: Number)
    ensures n.Type() == TypeInvalid
  {
    InvalidNumber
  }

  /** `Number(uint8_t)`. */
  function FromUint8(x: uint8): (n: Number)
    ensures n.Type() == TypeUint && n.UintValue() as int == x as int
  {
    UintNumber(x as uint64)
  }

  /** `Number(uint16_t)`. */
  function FromUint16(x: uint16): (n: Number)
    ensures n.Type() == TypeUint && n.UintValue() as int == x as int
  {
    UintNumber(x as uint64)
  }

  /** `Number(uint32_t)`. */
  function FromUint32(x: uint32): (n: Number)
    ensures n.Type() == TypeUint && n.UintValue() as int == x as int
  {
    UintNumber(x as uint64)
  }

  /** `Number(uint64_t)`. */
  function FromUint64(x: uint64): (n: Number)
    ensures n.Type() == TypeUint && n.UintValue() == x
  {
    UintNumber(x)
  }

  /** `Number(int8_t)`. */
  function FromInt8(x: int8): (n: Number)
    ensures n.Type() == TypeInt && n.IntValue() as int == x as int
  {
    IntNumber(x as int64)
  }

  /** `Number(int16_t)`. */
  function FromInt16(x: int16): (n: Number)
    ensures n.Type() == TypeInt && n.IntValue() as int == x as int
  {
    IntNumber(x as int64)
  }

  /** `Number(int32_t)`. */
  function FromInt32(x: int32): (n: Number)
    ensures n.Type() == TypeInt && n.IntValue() as int == x as int
  {
    IntNumber(x as int64)
  }

  /** `Number(int64_t)`. */
  function FromInt64(x: int64): (n: Number)
    ensures n.Type() == TypeInt && n.IntValue() == x
  {
    IntNumber(x)
  }

  /** `Number(float)`, `Number(double)` and `Number(long double)`, given the `long double` value. */
  function FromFp(x: Float): (n: Number)
    ensures n.Type() == TypeFp && n.FpValue() == x
  {
    FpNumber(x)
  }

  /**
   * The signedness of the constructor decides the type tag, not the value:
   * the same 1 built from `uint8_t` and from `int8_t` gives two numbers that
   * are not equal.
   */
  lemma SignednessDecidesType(x: uint8, y: int8)
    requires x as int == y as int
    ensures FromUint8(x) != FromInt8(y)
    ensures FromUint8(x).Type() == TypeUint && FromInt8(y).Type() == TypeInt
  {
  }
}
