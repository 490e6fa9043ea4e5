/**
 * `Value` of src/value.cc: a wrapper around one TaggedType. Every constructor
 * but the copy starts from the default (TAG_INVALID) and then calls `set`;
 * every `set` delegates to the TaggedType. The `ValueFactory` specialisations
 * for `bool` and the fixed-width integers build a Value by calling `set`.
 */
module Values {
  import opened Types
  import J = Json
  import Numbers
  import TaggedTypes
  import Arrays
  import Objects

  class Value {
    const value: TaggedTypes.TaggedType

    ghost predicate Valid()
      reads this, value
    {
      value.Valid()
    }

    /** The value held. */
    function Content(): J.Value
      reads this, value
      requires Valid()
    {
      value.Content()
    }

    /** `tag()`. */
    function Tag(): (t: J.Tag)
      reads this, value
      requires Valid()
      ensures t == Content().Tag()
    {
      value.Tag()
    }

    /** `operator bool`: true iff the tag is not TAG_INVALID. */
    function IsSet(): (b: bool)
      reads this, value
      requires Valid()
      ensures b <==> Tag() != J.TagInvalid
      ensures b == J.ValueIsSet(Content())
    {
      value.Tag() != J.TagInvalid
    }

    /** `Value()`: TAG_INVALID. */
    constructor ()
      ensures Valid() && Content() == J.Invalid && fresh(value)
    {
      value := new TaggedTypes.TaggedType();
    }

    /** `Value(Value const&)`: a deep copy into a TaggedType of its own. */
    constructor Copy(o: Value)
      requires o.Valid()
      ensures Valid() && Content() == o.Content() && fresh(value)
    {
      value := new TaggedTypes.TaggedType.Copy(o.value);
    }

    /** `Value(Null const&)`. */
    constructor OfNull()
      ensures Valid() && Content() == J.Null && fresh(value)
    {
      value := new TaggedTypes.TaggedType();
      new;
      value.SetNull();
    }

    /** `Value(True const&)`. */
    constructor OfTrue()
      ensures Valid() && Content() == J.True && fresh(value)
    {
      value := new TaggedTypes.TaggedType();
      new;
      value.SetTrue();
    }

    /** `Value(False const&)`. */
    constructor OfFalse()
      ensures Valid() && Content() == J.False && fresh(value)
    {
      value := new TaggedTypes.TaggedType();
      new;
      value.SetFalse();
    }

    /** `Value(Number const&)`. */
    constructor OfNumber(n: J.Number)
      ensures Valid() && Content() == J.Num(n) && fresh(value)
    {
      value := new TaggedTypes.TaggedType();
      new;
      value.SetNumber(n);
    }

    /** `Value(String const&)`. */
    constructor OfString(s: bytes)
      ensures Valid() && Content() == J.Str(s) && fresh(value)
    {
      value := new TaggedTypes.TaggedType();
      new;
      value.SetString(s);
    }

    /** `Value(Object const&)`: a copy of the object's members. */
    constructor OfObject(o: Objects.Object)
      ensures Valid() && Content() == J.Obj(o.members) && fresh(value)
    {
      value := new TaggedTypes.TaggedType();
      new;
      value.SetObject(o.members);
    }

    /** `Value(Array const&)`: a copy of the array's elements. */
    constructor OfArray(a: Arrays.Array)
      ensures Valid() && Content() == J.Arr(a.elements) && fresh(value)
    {
      value := new TaggedTypes.TaggedType();
      new;
      value.SetArray(a.elements);
    }

    /** `operator=(Value const&)`: self-assignment changes nothing. */
    method Assign(o: Value)
      requires Valid() && o.Valid()
      modifies value
      ensures Valid() && Content() == old(o.Content())
    {
      if o != this {
        value.Assign(o.value);
      }
    }

    /** `set(Null const&)`. */
    method SetNull()
      modifies value
      ensures Valid() && Content() == J.Null
    {
      value.SetNull();
    }

    /** `set(True const&)`. */
    method SetTrue()
      modifies value
      ensures Valid() && Content() == J.True
    {
      value.SetTrue();
    }

    /** `set(False const&)`. */
    method SetFalse()
      modifies value
      ensures Valid() && Content() == J.False
    {
      value.SetFalse();
    }

    /** `set(Number const&)`. */
    method SetNumber(n: J.Number)
      modifies value
      ensures Valid() && Content() == J.Num(n)
    {
      value.SetNumber(n);
    }

    /** `set(String const&)`. */
    method SetString(s: bytes)
      modifies value
      ensures Valid() && Content() == J.Str(s)
    {
      value.SetString(s);
    }

    /** `set(Object const&)`. */
    method SetObject(o: Objects.Object)
      modifies value
      ensures Valid() && Content() == J.Obj(o.members)
    {
      value.SetObject(o.members);
    }

    /** `set(Array const&)`. */
    method SetArray(a: Arrays.Array)
      modifies value
      ensures Valid() && Content() == J.Arr(a.elements)
    {
      value.SetArray(a.elements);
    }
  }

  /** `ValueFactory<bool>::build`: true gives TAG_TRUE, false gives TAG_FALSE. */
  method BuildBool(b: bool, res: Value)
    modifies res.value
    ensures res.Valid() && res.Tag() == (if b then J.TagTrue else J.TagFalse)
  {
    if b {
      res.SetTrue();
    } else {
      res.SetFalse();
    }
  }

  /** `ValueFactory<uint8_t>::build`: a TYPE_UINT number with the same value. */
  method BuildUint8(x: uint8, res: Value)
    modifies res.value
    ensures res.Valid() && res.Content() == J.Num(Numbers.FromUint8(x))
    ensures res.Content().number.Type() == J.TypeUint && res.Content().number.UintValue() as int == x as int
  {
    res.SetNumber(Numbers.FromUint8(x));
  }

  /** `ValueFactory<uint16_t>::build`. */
  method BuildUint16(x: uint16, res: Value)
    modifies res.value
    ensures res.Valid() && res.Content() == J.Num(Numbers.FromUint16(x))
    ensures res.Content().number.Type() == J.TypeUint && res.Content().number.UintValue() as int == x as int
  {
    res.SetNumber(Numbers.FromUint16(x));
  }

  /** `ValueFactory<uint32_t>::build`. */
  method BuildUint32(x: uint32, res: Value)
    modifies res.value
    ensures res.Valid() && res.Content() == J.Num(Numbers.FromUint32(x))
    ensures res.Content().number.Type() == J.TypeUint && res.Content().number.UintValue() as int == x as int
  {
    res.SetNumber(Numbers.FromUint32(x));
  }

  /** `ValueFactory<uint64_t>::build`. */
  method BuildUint64(x: uint64, res: Value)
    modifies res.value
    ensures res.Valid() && res.Content() == J.Num(Numbers.FromUint64(x))
    ensures res.Content().number.Type() == J.TypeUint && res.Content().number.UintValue() == x
  {
    res.SetNumber(Numbers.FromUint64(x));
  }

  /** `ValueFactory<int8_t>::build`: a TYPE_INT number with the same value. */
  method BuildInt8(x: int8, res: Value)
    modifies res.value
    ensures res.Valid() && res.Content() == J.Num(Numbers.FromInt8(x))
    ensures res.Content().number.Type() == J.TypeInt && res.Content().number.IntValue() as int == x as int
  {
    res.SetNumber(Numbers.FromInt8(x));
  }

  /** `ValueFactory<int16_t>::build`. */
  method BuildInt16(x: int16, res: Value)
    modifies res.value
    ensures res.Valid() && res.Content() == J.Num(Numbers.FromInt16(x))
    ensures res.Content().number.Type() == J.TypeInt && res.Content().number.IntValue() as int == x as int
  {
    res.SetNumber(Numbers.FromInt16(x));
  }

  /** `ValueFactory<int32_t>::build`. */
  method BuildInt32(x: int32, res: Value)
    modifies res.value
    ensures res.Valid() && res.Content() == J.Num(Numbers.FromInt32(x))
    ensures res.Content().number.Type() == J.TypeInt && res.Content().number.IntValue() as int == x as int
  {
    res.SetNumber(Numbers.FromInt32(x));
  }

  /** `ValueFactory<int64_t>::build`. */
  method BuildInt64(x: int64, res: Value)
    modifies res.value
    ensures res.Valid() && res.Content() == J.Num(Numbers.FromInt64(x))
    ensures res.Content().number.Type() == J.TypeInt && res.Content().number.IntValue() == x
  {
    res.SetNumber(Numbers.FromInt64(x));
  }

  /** `ValueFactory<float>`, `<double>` and `<long double>::build`, given the `long double` value. */
  method BuildFp(x: J.Float, res: Value)
    modifies res.value
    ensures res.Valid() && res.Content() == J.Num(Numbers.FromFp(x))
    ensures res.Content().number.Type() == J.TypeFp
  {
    res.SetNumber(Numbers.FromFp(x));
  }
}
