/**
 * `TaggedType` of src/tagged-type.cc: a tag and a union holding the payload
 * the tag selects. Null, True and False point at shared singletons and carry
 * no data; numbers, strings, objects and arrays are owned copies, so copying a
 * TaggedType copies the payload deeply. Here the union is a datatype and an
 * owned copy is a value; allocation and `memset` have no counterpart.
 */
module TaggedTypes {
  import opened Types
  import J = Json

  /** The union `type_`: empty after `clear`, a singleton, or an owned payload. */
  datatype Payload =
    | Zeroed
    | NullSingleton
    | TrueSingleton
    | FalseSingleton
    | NumberPtr(number: J.Number)
    | StringPtr(str: bytes)
    | ObjectPtr(members: seq<J.Member>)
    | ArrayPtr(elements: seq<J.Value>)

  /**
   * The payload a tag requires (the `assert`s of `clone`, `clear` and the
   * accessors). Under TAG_INVALID the union is not looked at: it is zeroed by
   * the default constructor and by `clear`, and left as it was otherwise.
   */
  predicate Matches(tag: J.Tag, p: Payload)
  {
    match tag
    case TagInvalid => true
    case TagNull => p.NullSingleton?
    case TagTrue => p.TrueSingleton?
    case TagFalse => p.FalseSingleton?
    case TagNumber => p.NumberPtr?
    case TagString => p.StringPtr?
    case TagObject => p.ObjectPtr?
    case TagArray => p.ArrayPtr?
  }

  /** The value a matching tag and payload stand for. */
  function Denote(tag: J.Tag, p: Payload): (v: J.Value)
    requires Matches(tag, p)
    ensures v.Tag() == tag
  {
    match tag
    case TagInvalid => J.Invalid
    case TagNull => J.Null
    case TagTrue => J.True
    case TagFalse => J.False
    case TagNumber => J.Num(p.number)
    case TagString => J.Str(p.str)
    case TagObject => J.Obj(p.members)
    case TagArray => J.Arr(p.elements)
  }

  /** The payload that stands for `v`: the partner of `Denote`. */
  function PayloadOf(v: J.Value): (p: Payload)
    ensures Matches(v.Tag(), p) && Denote(v.Tag(), p) == v
  {
    match v
    case Invalid => Zeroed
    case Null => NullSingleton
    case True => TrueSingleton
    case False => FalseSingleton
    case Num(n) => NumberPtr(n)
    case Str(s) => StringPtr(s)
    case Obj(ms) => ObjectPtr(ms)
    case Arr(es) => ArrayPtr(es)
  }

  class TaggedType {
    var tag: J.Tag
    var payload: Payload

    ghost predicate Valid()
      reads this
    {
      Matches(tag, payload)
    }

    /** The value held. */
    function Content(): J.Value
      reads this
      requires Valid()
    {
      Denote(tag, payload)
    }

    /** `TaggedType()`: TAG_INVALID with a zeroed union. */
    constructor ()
      ensures Valid() && Content() == J.Invalid
    {
      tag := J.TagInvalid;
      payload := Zeroed;
    }

    /** `TaggedType(TaggedType const&)`: a deep copy. */
    constructor Copy(o: TaggedType)
      requires o.Valid()
      ensures Valid() && Content() == o.Content()
    {
      tag := o.tag;
      payload := o.payload;
    }

    /** `clone`: copies the tag, then the payload the tag selects. */
    method Clone(o: TaggedType)
      requires o != this && o.Valid()
      modifies this
      ensures Valid() && Content() == o.Content()
    {
      tag := o.tag;
      match tag {
        case TagInvalid =>
        case TagTrue => payload := TrueSingleton;
        case TagFalse => payload := FalseSingleton;
        case TagNull => payload := NullSingleton;
        case TagNumber => payload := NumberPtr(o.payload.number);
        case TagString => payload := StringPtr(o.payload.str);
        case TagObject => payload := ObjectPtr(o.payload.members);
        case TagArray => payload := ArrayPtr(o.payload.elements);
      }
    }

    /** `clear`: frees an owned payload and leaves TAG_INVALID, whatever the tag was. */
    method Clear()
      modifies this
      ensures Valid() && Content() == J.Invalid
    {
      if tag == J.TagInvalid {
        return;
      }
      tag := J.TagInvalid;
      payload := Zeroed;
    }

    /** `operator=`: on another object, clear and clone; self-assignment changes nothing. */
    method Assign(o: TaggedType)
      requires Valid() && o.Valid()
      modifies this
      ensures Valid() && Content() == old(o.Content())
    {
      if o != this {
        Clear();
        Clone(o);
      }
    }

    /** `set(Null)`. */
    method SetNull()
      modifies this
      ensures Valid() && Content() == J.Null
    {
      Clear();
      tag, payload := J.TagNull, NullSingleton;
    }

    /** `set(True)`. */
    method SetTrue()
      modifies this
      ensures Valid() && Content() == J.True
    {
      Clear();
      tag, payload := J.TagTrue, TrueSingleton;
    }

    /** `set(False)`. */
    method SetFalse()
      modifies this
      ensures Valid() && Content() == J.False
    {
      Clear();
      tag, payload := J.TagFalse, FalseSingleton;
    }

    /** `set(Number)`: a copy of the number. */
    method SetNumber(n: J.Number)
      modifies this
      ensures Valid() && Content() == J.Num(n)
    {
      Clear();
      tag, payload := J.TagNumber, NumberPtr(n);
    }

    /** `set(String)`. */
    method SetString(s: bytes)
      modifies this
      ensures Valid() && Content() == J.Str(s)
    {
      Clear();
      tag, payload := J.TagString, StringPtr(s);
    }

    /** `set(Object)`: a copy of the member list. */
    method SetObject(ms: seq<J.Member>)
      modifies this
      ensures Valid() && Content() == J.Obj(ms)
    {
      Clear();
      tag, payload := J.TagObject, ObjectPtr(ms);
    }

    /** `set(Array)`: a copy of the element list. */
    method SetArray(es: seq<J.Value>)
      modifies this
      ensures Valid() && Content() == J.Arr(es)
    {
      Clear();
      tag, payload := J.TagArray, ArrayPtr(es);
    }

    /** `tag()`. */
    function Tag(): (t: J.Tag)
      reads this
      requires Valid()
      ensures t == Content().Tag()
    {
      tag
    }

    /** `number()`; its `assert` is the precondition. */
    function Number(): (n: J.Number)
      reads this
      requires Valid() && tag == J.TagNumber
      ensures Content() == J.Num(n)
    {
      payload.number
    }

    /** `string()`. */
    function String(): (s: bytes)
      reads this
      requires Valid() && tag == J.TagString
      ensures Content() == J.Str(s)
    {
      payload.str
    }

    /** `object()`. */
    function Object(): (ms: seq<J.Member>)
      reads this
      requires Valid() && tag == J.TagObject
      ensures Content() == J.Obj(ms)
    {
      payload.members
    }

    /** `array()`. */
    function Array(): (es: seq<J.Value>)
      reads this
      requires Valid() && tag == J.TagArray
      ensures Content() == J.Arr(es)
    {
      payload.elements
    }
  }
}
