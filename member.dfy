/**
 * `Member` of src/member.cc: a key and a value, both copied on construction
 * and assignment. The constructor from a key and a value asserts that the key
 * is not empty; the default member has an empty key and an INVALID value.
 */
module Members {
  import opened Types
  import J = Json

  class Member {
    var key: bytes
    var value: J.Value

    /** `Member()`. */
    constructor ()
      ensures key == [] && value == J.Invalid
    {
      key, value := [], J.Invalid;
    }

    /** `Member(std::string const&, Value const&)`; the `assert` is the precondition. */
    constructor Of(k: bytes, v: J.Value)
      requires k != []
      ensures key == k && value == v
    {
      key, value := k, v;
    }

    /** `Member(Member const&)` and `Member(Member&&)`: both fields. */
    constructor Copy(o: Member)
      ensures key == o.key && value == o.value
    {
      key, value := o.key, o.value;
    }

    /** `operator=`, copying or moving: both fields; self-assignment changes nothing. */
    method Assign(o: Member)
      modifies this
      ensures key == old(o.key) && value == old(o.value)
    {
      if o != this {
        key, value := o.key, o.value;
      }
    }

    /** `key()`. */
    function Key(): (k: bytes)
      reads this
      ensures k == key
    {
      key
    }

    /** `value()`. */
    function Value(): (v: J.Value)
      reads this
      ensures v == value
    {
      value
    }

    /** The member as the value it stands for inside an object. */
    function Content(): (m: J.Member)
      reads this
      ensures m.key == key && m.value == value
    {
      J.Member(key, value)
    }
  }
}
