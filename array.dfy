/**
 * `Array` of src/array.cc: an insertion-ordered vector of values that
 * `operator<<` appends to and assignment overwrites. Elements are held as
 * values, so copying an Array copies its elements.
 */
module Arrays {
  import J = Json

  class Array {
    var elements: seq<J.Value>

    /** `Array()`: empty. */
    constructor ()
      ensures elements == []
    {
      elements := [];
    }

    /** `Array(std::initializer_list<Value>)`: the listed values in the listed order. */
    constructor OfList(l: seq<J.Value>)
      ensures elements == l
    {
      elements := l;
    }

    /** `Array(first, last)`: exactly the values of the range, in order. */
    constructor Range(src: seq<J.Value>, first: nat, last: nat)
      requires first <= last <= |src|
      ensures |elements| == last - first
      ensures forall i :: 0 <= i < |elements| ==> elements[i] == src[first + i]
    {
      elements := src[first..last];
    }

    /** `Array(Array const&)`. */
    constructor Copy(o: Array)
      ensures elements == o.elements
    {
      elements := o.elements;
    }

    /** `Array(Array&&)`: takes the elements and leaves the source empty. */
    constructor Move(o: Array)
      modifies o
      ensures elements == old(o.elements) && o.elements == []
    {
      elements := o.elements;
      new;
      o.elements := [];
    }

    /** `operator=(Array const&)`: self-assignment changes nothing. */
    method Assign(o: Array)
      modifies this
      ensures elements == old(o.elements)
    {
      if o != this {
        elements := o.elements;
      }
    }

    /** `operator=(Array&&)`: the source is left empty unless it is this array. */
    method MoveAssign(o: Array)
      modifies this, o
      ensures elements == old(o.elements)
      ensures o != this ==> o.elements == []
    {
      if o != this {
        elements := o.elements;
        o.elements := [];
      }
    }

    /** `operator<<(Value const&)`: appends at the end. */
    method Append(v: J.Value)
      modifies this
      ensures elements == old(elements) + [v]
      ensures |elements| == |old(elements)| + 1
      ensures elements[..|old(elements)|] == old(elements) && elements[|elements| - 1] == v
    {
      elements := elements + [v];
    }

    /** `elements()`. */
    function Elements(): (es: seq<J.Value>)
      reads this
      ensures es == elements
    {
      elements
    }

    /** The array as the value it stands for. */
    function Content(): (v: J.Value)
      reads this
      ensures v.Arr? && v.elements == elements
    {
      J.Arr(elements)
    }
  }
}
