/**
 * The token produced by src/token-stream.cc: its kind, string payload and
 * number payload, the whitespace test, and the choice of scanner from the
 * lead byte.
 */
module Tokens {
  import opened Types
  import Json

  /** `Token::Type`. */
  datatype TokenType =
    | Invalid
    | BeginArray
    | BeginObject
    | EndArray
    | EndObject
    | NameSeparator
    | ValueSeparator
    | TrueLiteral
    | FalseLiteral
    | NullLiteral
    | String
    | Number
  {
    /** The lead byte each kind stands for: `Token::Type(c)` is this inverse. */
    function Code(): byte
    {
      match this
      case Invalid => 0
      case BeginArray => 0x5B        // '['
      case BeginObject => 0x7B       // '{'
      case EndArray => 0x5D          // ']'
      case EndObject => 0x7D         // '}'
      case NameSeparator => 0x3A     // ':'
      case ValueSeparator => 0x2C    // ','
      case TrueLiteral => 0x74       // 't'
      case FalseLiteral => 0x66      // 'f'
      case NullLiteral => 0x6E       // 'n'
      case String => 0x22            // '"'
      case Number => 0x30            // '0'
    }

    /** The enumerator values as src/token-stream.h declares them. */
    function HeaderCode(): byte
    {
      if this == BeginObject then 0x7D else Code()
    }
  }

  /** `Token::Type(c)`: the kind whose code is `c`, if any. */
  function TypeOf(c: byte): (t: Option<TokenType>)
    ensures t.Some? ==> t.value.Code() == c
    ensures forall k: TokenType :: k.Code() == c ==> t == Some(k)
  {
    match c
    case 0 => Some(Invalid)
    case 0x5B => Some(BeginArray)
    case 0x7B => Some(BeginObject)
    case 0x5D => Some(EndArray)
    case 0x7D => Some(EndObject)
    case 0x3A => Some(NameSeparator)
    case 0x2C => Some(ValueSeparator)
    case 0x74 => Some(TrueLiteral)
    case 0x66 => Some(FalseLiteral)
    case 0x6E => Some(NullLiteral)
    case 0x22 => Some(String)
    case 0x30 => Some(Number)
    case _ => None
  }

  /** With the header's values, `{` has no kind and `}` has two. */
  lemma HeaderBeginObjectCollides()
    ensures BeginObject.HeaderCode() == EndObject.HeaderCode()
    ensures forall t: TokenType :: t.HeaderCode() != 0x7B
  {
  }

  /** With the corrected values, distinct kinds have distinct codes. */
  lemma {:induction false} CodeInjective(t: TokenType, u: TokenType)
    ensures t.Code() == u.Code() ==> t == u
  {
    var k := TypeOf(t.Code());
    assert k == Some(t);
  }

  /** `Token::NumberType`. */
  datatype NumberKind = KindNone | KindInt | KindFloat

  /**
   * The token as the lexer uses it: kind, `str_value`, `number_type`,
   * `int_value` and `float_value` (`None` stands for the zero it is reset to).
   */
  datatype Token = Token(kind: TokenType, str: bytes, numberType: NumberKind, intValue: int64, floatValue: Option<Json.Float>)

  /** `token.reset()`: every field back to its initial value. */
  const ResetToken: Token := Token(Invalid, [], KindNone, 0, None)

  /** `is_ws`: the four whitespace bytes of section 2 of RFC 7159. */
  predicate IsWs(c: int)
  {
    c == 0x20 || c == 0x09 || c == 0x0D || c == 0x0A
  }

  /** The member functions `select_scanner` can return. */
  datatype Scanner = SelectStructural | SelectTrue | SelectFalse | SelectNull | SelectString | SelectNumber | SelectInvalid

  /** The choice of scanner, the kind stored in the token, and whether the lead byte is pushed back. */
  datatype Selection = Selection(scanner: Scanner, kind: TokenType, unget: bool)

  function Select(c: byte): (r: Selection)
    // structural bytes: their own kind, nothing pushed back
    ensures r.scanner == SelectStructural <==> c in {0x5B, 0x7B, 0x5D, 0x7D, 0x3A, 0x2C}
    // the number scanner re-reads its lead byte; nothing else does
    ensures r.unget <==> r.scanner == SelectNumber
    ensures r.scanner == SelectNumber <==> c == 0x2D || 0x30 <= c <= 0x39
    ensures r.scanner == SelectInvalid <==> r.kind == Invalid
    // every other kind is the lead byte's own kind
    ensures r.scanner !in {SelectNumber, SelectInvalid} ==> r.kind.Code() == c
    ensures r.scanner == SelectNumber ==> r.kind == Number
  {
    match c
    case 0x5B => Selection(SelectStructural, BeginArray, false)
    case 0x7B => Selection(SelectStructural, BeginObject, false)
    case 0x5D => Selection(SelectStructural, EndArray, false)
    case 0x7D => Selection(SelectStructural, EndObject, false)
    case 0x3A => Selection(SelectStructural, NameSeparator, false)
    case 0x2C => Selection(SelectStructural, ValueSeparator, false)
    case 0x74 => Selection(SelectTrue, TrueLiteral, false)
    case 0x6E => Selection(SelectNull, NullLiteral, false)
    case 0x66 => Selection(SelectFalse, FalseLiteral, false)
    case 0x22 => Selection(SelectString, String, false)
    case _ =>
      if c == 0x2D || 0x30 <= c <= 0x39 then Selection(SelectNumber, Number, true)
      else Selection(SelectInvalid, Invalid, false)
  }

  /** The literal `scan_literal` is given for each literal scanner. */
  function LiteralOf(s: Scanner): (lit: bytes)
    requires s in {SelectTrue, SelectFalse, SelectNull}
    ensures |lit| >= 4
  {
    match s
    case SelectTrue => [0x74, 0x72, 0x75, 0x65]           // "true"
    case SelectFalse => [0x66, 0x61, 0x6C, 0x73, 0x65]    // "false"
    case SelectNull => [0x6E, 0x75, 0x6C, 0x6C]           // "null"
  }
}
