/**
 * The strict `operator==` of src/comparison.cc: the same tag, the same
 * payload, and for arrays and objects the same sequence compared element by
 * element in order. It is identity of values, and it implies `Json::equal`.
 */
module Comparison {
  import opened Types
  import opened Json
  import Equality

  /** `operator==(Number, Number)`. */
  predicate NumberEq(l: Number, r: Number)
  {
    if l.Type() != r.Type() then false
    else
      match l.Type()
      case TypeInvalid => true
      case TypeUint => l.UintValue() == r.UintValue()
      case TypeInt => l.IntValue() == r.IntValue()
      case TypeFp => l.FpValue() == r.FpValue()
  }

  /** `operator==(Value, Value)`: Null, True and False always equal themselves. */
  predicate ValueEq(l: Value, r: Value)
    decreases l, 1
  {
    if l.Tag() != r.Tag() then false
    else
      match l
      case Invalid => true
      case Null => true
      case True => true
      case False => true
      case Num(n) => NumberEq(n, r.number)
      case Str(s) => s == r.str
      case Obj(ms) => MembersEq(ms, r.members)
      case Arr(es) => ElementsEq(es, r.elements)
  }

  /** `operator==` of `std::vector<Value>`, as `Array ==` uses it: the same size and pairwise `==` in order. */
  predicate ElementsEq(l: seq<Value>, r: seq<Value>)
    decreases l, 0
  {
    |l| == |r| && (l == [] || (ValueEq(l[0], r[0]) && ElementsEq(l[1..], r[1..])))
  }

  /** `operator==(Member, Member)`: the same key and `==` values. */
  predicate MemberEq(l: Member, r: Member)
    decreases l, 0
  {
    l.key == r.key && ValueEq(l.value, r.value)
  }

  /** `operator==` of `std::vector<Member>`, as `Object ==` uses it: in order. */
  predicate MembersEq(l: seq<Member>, r: seq<Member>)
    decreases l, 0
  {
    |l| == |r| && (l == [] || (MemberEq(l[0], r[0]) && MembersEq(l[1..], r[1..])))
  }

  /** Strict `==` is identity of the value trees. */
  lemma {:induction false} ValueEqIsIdentity(l: Value, r: Value)
    ensures ValueEq(l, r) <==> l == r
    decreases l, 1
  {
    match l
    case Obj(ms) =>
      if r.Obj? { MembersEqIsIdentity(ms, r.members); }
    case Arr(es) =>
      if r.Arr? { ElementsEqIsIdentity(es, r.elements); }
    case _ =>
  }

  lemma {:induction false} ElementsEqIsIdentity(l: seq<Value>, r: seq<Value>)
    ensures ElementsEq(l, r) <==> l == r
    decreases l, 0
  {
    if |l| == |r| && l != [] {
      ValueEqIsIdentity(l[0], r[0]);
      ElementsEqIsIdentity(l[1..], r[1..]);
      if l[0] == r[0] && l[1..] == r[1..] {
        assert l == [l[0]] + l[1..];
        assert r == [r[0]] + r[1..];
      }
    }
  }

  lemma {:induction false} MembersEqIsIdentity(l: seq<Member>, r: seq<Member>)
    ensures MembersEq(l, r) <==> l == r
    decreases l, 0
  {
    if |l| == |r| && l != [] {
      ValueEqIsIdentity(l[0].value, r[0].value);
      MembersEqIsIdentity(l[1..], r[1..]);
      if l[0] == r[0] && l[1..] == r[1..] {
        assert l == [l[0]] + l[1..];
        assert r == [r[0]] + r[1..];
      }
    }
  }

  /** Strict `==` implies `Json::equal`. */
  lemma StrictImpliesEqual(l: Value, r: Value)
    ensures ValueEq(l, r) ==> Equality.Equal(l, r)
  {
    ValueEqIsIdentity(l, r);
    Equality.EqualReflexive(l);
  }

  /** Unlike `Json::equal`, strict `==` sees the order of object members. */
  lemma StrictSeesOrder()
    ensures var a, b := Member([0x61], Null), Member([0x62], Null);
      !ValueEq(Obj([a, b]), Obj([b, a])) && Equality.Equal(Obj([a, b]), Obj([b, a]))
  {
    var a, b := Member([0x61], Null), Member([0x62], Null);
    ValueEqIsIdentity(Obj([a, b]), Obj([b, a]));
    assert Obj([a, b]).members[0] != Obj([b, a]).members[0];
    Equality.ObjectOrderIgnored(a, b);
  }
}
