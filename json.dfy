/**
 * The value data model of include/jsoncc.h: the tagged union `Value`, its
 * `Number` payload with a three-way type tag, object members, and the error
 * type with its location. Values are owned exclusively by their parent, so a
 * Dafny datatype carries the same meaning as the source's deep-copying
 * classes.
 */
module Json {
  import opened Types

  /** The `long double` payload of an FP number: an opaque value with equality. */
  type Float(==)

  datatype Tag = TagInvalid | TagNull | TagTrue | TagFalse | TagNumber | TagString | TagObject | TagArray

  /** `Number::Type`. */
  datatype NumberType = TypeInvalid | TypeInt | TypeUint | TypeFp

  /** `Number`: the type tag together with the member of the union it selects. */
  datatype Number =
    | InvalidNumber
    | IntNumber(i: int64)
    | UintNumber(u: uint64)
    | FpNumber(f: Float)
  {
    function Type(): NumberType
    {
      match this
      case InvalidNumber => TypeInvalid
      case IntNumber(_) => TypeInt
      case UintNumber(_) => TypeUint
      case FpNumber(_) => TypeFp
    }

    /** `int_value()`; its `assert` is the precondition. */
    function IntValue(): int64
      requires Type() == TypeInt
    {
      this.i
    }

    /** `uint_value()`. */
    function UintValue(): uint64
      requires Type() == TypeUint
    {
      this.u
    }

    /** `fp_value()`. */
    function FpValue(): Float
      requires Type() == TypeFp
    {
      this.f
    }
  }

  /** `Value`: a tag and the payload it selects; `String` is its byte string. */
  datatype Value =
    | Invalid
    | Null
    | True
    | False
    | Num(number: Number)
    | Str(str: bytes)
    | Obj(members: seq<Member>)
    | Arr(elements: seq<Value>)
  {
    function Tag(): Tag
    {
      match this
      case Invalid => TagInvalid
      case Null => TagNull
      case True => TagTrue
      case False => TagFalse
      case Num(_) => TagNumber
      case Str(_) => TagString
      case Obj(_) => TagObject
      case Arr(_) => TagArray
    }
  }

  /** `Member`: a key and a value, both copied on construction. */
  datatype Member = Member(key: bytes, value: Value)

  /** `explicit operator bool` of `Value` (include/jsoncc.h:110-113). */
  function ValueIsSet(v: Value): (r: bool)
    ensures r <==> !v.Invalid?
  {
    v.Tag() != TagInvalid
  }

  /** `Error::Type`, in declaration order. */
  datatype ErrorType =
    | Ok
    | StreamZero
    | Utf8Invalid
    | TokenInvalid
    | LiteralInvalid
    | StringCtrl
    | StringQuote
    | EscapeInvalid
    | UescapeInvalid
    | UescapeZero
    | UescapeSurrogate
    | NumberInvalid
    | NumberOverflow
    | ParserOverflow
    | BadTokenDocument
    | BadTokenArrayStart
    | BadTokenArrayValue
    | BadTokenArrayNext
    | BadTokenObjectStart
    | BadTokenObjectName
    | BadTokenObjectSep
    | BadTokenObjectValue
    | BadTokenObjectNext
    | InternalError

  /** `Location`: byte offset, character and line (the last two default to 0). */
  datatype Location = Location(offs: nat, character: nat, line: nat)

  datatype Error = Error(kind: ErrorType, location: Location)

  /** `explicit operator bool` of `Error` (include/jsoncc.h:326-329). */
  function ErrorIsSet(e: Error): (r: bool)
    ensures r <==> e.kind != Ok
  {
    !e.kind.Ok?
  }

  /**
   * What a call can throw: a `Json::Error`, or a plain `std::runtime_error`
   * carrying its message (the lexer throws those for bad tokens and literals).
   */
  datatype Exception = Raised(error: Error) | RuntimeError(what: bytes)

  /** The outcome of a call that returns a value or throws. */
  datatype Outcome<T> = Return(value: T) | Throw(exception: Exception)
}
