/**
 * `Object` of src/object.cc: an insertion-ordered vector of members. Members
 * with the same key are all kept; `member(key)` finds the first one.
 */
module Objects {
  import opened Types
  import J = Json

  /** The index of the first member with `key`, or `|ms|` when there is none (the `find_if`). */
  function FirstWithKey(ms: seq<J.Member>, key: bytes): (i: nat)
    ensures i <= |ms|
    ensures i < |ms| ==> ms[i].key == key
    ensures forall j :: 0 <= j < i ==> ms[j].key != key
  {
    if ms == [] then 0
    else if ms[0].key == key then 0
    else 1 + FirstWithKey(ms[1..], key)
  }

  /** `member(key)`: the value of the first member with `key`, or an INVALID value. */
  function Lookup(ms: seq<J.Member>, key: bytes): (v: J.Value)
    ensures (forall j :: 0 <= j < |ms| ==> ms[j].key != key) ==> v == J.Invalid
    ensures (exists j :: 0 <= j < |ms| && ms[j].key == key) ==>
      exists i :: 0 <= i < |ms| && ms[i].key == key && v == ms[i].value &&
        forall j :: 0 <= j < i ==> ms[j].key != key
  {
    var i := FirstWithKey(ms, key);
    if i < |ms| then ms[i].value else J.Invalid
  }

  /** Appending never changes what an existing key finds: duplicates are shadowed. */
  lemma {:induction false} LookupAppendPresent(ms: seq<J.Member>, m: J.Member, key: bytes)
    requires exists j :: 0 <= j < |ms| && ms[j].key == key
    ensures Lookup(ms + [m], key) == Lookup(ms, key)
  {
    FirstWithKeyAppend(ms, m, key);
  }

  /** Appending a member with a new key makes that key find it. */
  lemma {:induction false} LookupAppendAbsent(ms: seq<J.Member>, m: J.Member)
    requires forall j :: 0 <= j < |ms| ==> ms[j].key != m.key
    ensures Lookup(ms + [m], m.key) == m.value
  {
    FirstWithKeyAppend(ms, m, m.key);
  }

  /** How `FirstWithKey` behaves on an appended member. */
  lemma {:induction false} FirstWithKeyAppend(ms: seq<J.Member>, m: J.Member, key: bytes)
    ensures FirstWithKey(ms + [m], key) ==
      if FirstWithKey(ms, key) < |ms| then FirstWithKey(ms, key) else |ms| + (if m.key == key then 0 else 1)
  {
    if ms != [] {
      assert (ms + [m])[0] == ms[0];
      assert (ms + [m])[1..] == ms[1..] + [m];
      FirstWithKeyAppend(ms[1..], m, key);
    }
  }

  class Object {
    var members: seq<J.Member>

    /** `Object()`: no members. */
    constructor ()
      ensures members == []
    {
      members := [];
    }

    /** `Object(std::initializer_list<Member>)`: the listed members in the listed order, duplicates included. */
    constructor OfList(l: seq<J.Member>)
      ensures members == l
    {
      members := l;
    }

    /** `Object(Object const&)`. */
    constructor Copy(o: Object)
      ensures members == o.members
    {
      members := o.members;
    }

    /** `Object(Object&&)`: takes the members and leaves the source empty. */
    constructor Move(o: Object)
      modifies o
      ensures members == old(o.members) && o.members == []
    {
      members := o.members;
      new;
      o.members := [];
    }

    /** `operator=(Object const&)`: self-assignment changes nothing. */
    method Assign(o: Object)
      modifies this
      ensures members == old(o.members)
    {
      if o != this {
        members := o.members;
      }
    }

    /** `operator=(Object&&)`: the source is left empty unless it is this object. */
    method MoveAssign(o: Object)
      modifies this, o
      ensures members == old(o.members)
      ensures o != this ==> o.members == []
    {
      if o != this {
        members := o.members;
        o.members := [];
      }
    }

    /**
     * `operator<<(Member)`: appends at the end, even when the key is already
     * present; lookups of keys already present are unchanged.
     */
    method Append(m: J.Member)
      modifies this
      ensures members == old(members) + [m]
      ensures forall key :: FirstWithKey(old(members), key) < |old(members)| ==>
        Member(key) == Lookup(old(members), key)
    {
      members := members + [m];
      forall key | FirstWithKey(old(members), key) < |old(members)|
        ensures Member(key) == Lookup(old(members), key)
      {
        LookupAppendPresent(old(members), m, key);
      }
    }

    /** `members()`. */
    function Members(): (ms: seq<J.Member>)
      reads this
      ensures ms == members
    {
      members
    }

    /** `member(key)`. */
    function Member(key: bytes): (v: J.Value)
      reads this
      ensures v == Lookup(members, key)
    {
      Lookup(members, key)
    }

    /** The object as the value it stands for. */
    function Content(): (v: J.Value)
      reads this
      ensures v.Obj? && v.members == members
    {
      J.Obj(members)
    }
  }
}
