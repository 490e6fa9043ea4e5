/**
 * `Json::equal` of src/equal.cc: structural equality in which the members of
 * an object may come in any order (`std::is_permutation`) but duplicates
 * still count. Each overload of the source is one function here; the object
 * case is the search that `is_permutation` performs for an equivalence: find
 * a member of the right-hand list equal to the first member on the left,
 * remove it, and go on with the rest.
 *
 * Its partner is a normal form in which every object becomes the multiset of
 * its normalised members: two values are `equal` exactly when their normal
 * forms are identical, from which reflexivity, symmetry and transitivity
 * follow.
 */
module Equality {
  import opened Types
  import opened Json

  /** `equal(Number, Number)`: the same type tag and, for a set type, the same payload. */
  predicate NumberEqual(l: Number, r: Number)
  {
    if l.Type() != r.Type() then false
    else
      match l.Type()
      case TypeInvalid => true
      case TypeUint => l.UintValue() == r.UintValue()
      case TypeInt => l.IntValue() == r.IntValue()
      case TypeFp => l.FpValue() == r.FpValue()
  }

  /** `equal(Value, Value)`: different tags are unequal, two INVALID values are equal. */
  predicate Equal(l: Value, r: Value)
    decreases l, 2
  {
    if l.Tag() != r.Tag() then false
    else
      match l
      case Invalid => true
      case Null => true
      case True => true
      case False => true
      case Num(n) => NumberEqual(n, r.number)
      case Str(s) => s == r.str
      case Obj(ms) => ObjectEqual(ms, r.members)
      case Arr(es) => ArrayEqual(es, r.elements)
  }

  /** `equal(Array, Array)`: the same size, then `std::equal` element by element in order. */
  predicate ArrayEqual(l: seq<Value>, r: seq<Value>)
    decreases l, 1
  {
    |l| == |r| && ElementsEqual(l, r)
  }

  /** `std::equal` with `equal` as the predicate, over ranges of the same length. */
  predicate ElementsEqual(l: seq<Value>, r: seq<Value>)
    requires |l| == |r|
    decreases l, 0
  {
    l == [] || (Equal(l[0], r[0]) && ElementsEqual(l[1..], r[1..]))
  }

  /** `equal(Member, Member)`: equal keys (byte strings) and equal values. */
  predicate MemberEqual(l: Member, r: Member)
    decreases l, 0
  {
    l.key == r.key && Equal(l.value, r.value)
  }

  /** `equal(Object, Object)`: the same size, then `std::is_permutation` with `equal` as the predicate. */
  predicate ObjectEqual(l: seq<Member>, r: seq<Member>)
    decreases l, 2
  {
    |l| == |r| && IsPermutation(l, r)
  }

  /**
   * `std::is_permutation` for an equivalence: the first left member is matched
   * with the first right member equal to it, which is then removed.
   */
  predicate IsPermutation(l: seq<Member>, r: seq<Member>)
    decreases l, 1
  {
    if l == [] then r == []
    else
      var j := FirstEqual(l[0], r, 0);
      j < |r| && IsPermutation(l[1..], r[..j] + r[j + 1..])
  }

  /** The first index from `k` on of a member of `r` equal to `m`, or `|r|` if there is none. */
  function FirstEqual(m: Member, r: seq<Member>, k: nat): (j: nat)
    requires k <= |r|
    ensures k <= j <= |r|
    ensures j < |r| ==> MemberEqual(m, r[j])
    ensures forall i :: k <= i < j ==> !MemberEqual(m, r[i])
    decreases m, 1, |r| - k
  {
    if k == |r| then |r|
    else if MemberEqual(m, r[k]) then k
    else FirstEqual(m, r, k + 1)
  }

  /** The normal form: objects become multisets of normalised members, arrays stay sequences. */
  datatype NValue =
    | NInvalid
    | NNull
    | NTrue
    | NFalse
    | NNum(number: Number)
    | NStr(str: bytes)
    | NObj(members: multiset<NMember>)
    | NArr(elements: seq<NValue>)

  datatype NMember = NMember(key: bytes, value: NValue)

  function Norm(v: Value): NValue
    decreases v, 1
  {
    match v
    case Invalid => NInvalid
    case Null => NNull
    case True => NTrue
    case False => NFalse
    case Num(n) => NNum(n)
    case Str(s) => NStr(s)
    case Obj(ms) => NObj(multiset(NormMembers(ms)))
    case Arr(es) => NArr(NormElements(es))
  }

  function NormMember(m: Member): NMember
    decreases m, 2
  {
    NMember(m.key, Norm(m.value))
  }

  function NormMembers(ms: seq<Member>): (r: seq<NMember>)
    ensures |r| == |ms|
    decreases ms, 3
  {
    if ms == [] then [] else [NormMember(ms[0])] + NormMembers(ms[1..])
  }

  function NormElements(es: seq<Value>): (r: seq<NValue>)
    ensures |r| == |es|
    decreases es, 2
  {
    if es == [] then [] else [Norm(es[0])] + NormElements(es[1..])
  }

  /** `equal` on numbers is identity of the tagged payload: int 1, uint 1 and fp 1 differ. */
  lemma NumberEqualIsIdentity(l: Number, r: Number)
    ensures NumberEqual(l, r) <==> l == r
  {
  }

  lemma NormMembersAt(ms: seq<Member>, i: nat)
    requires i < |ms|
    ensures NormMembers(ms)[i] == NormMember(ms[i])
    decreases ms
  {
    if i > 0 {
      NormMembersAt(ms[1..], i - 1);
    }
  }

  /** Removing the member at `j` removes its normal form from the multiset. */
  lemma NormMembersRemove(ms: seq<Member>, j: nat)
    requires j < |ms|
    ensures multiset(NormMembers(ms[..j] + ms[j + 1..])) == multiset(NormMembers(ms)) - multiset{NormMember(ms[j])}
  {
    NormMembersSplit(ms, j);
    NormMembersAppend(ms[..j], ms[j + 1..]);
    MultisetRemove(NormMembers(ms[..j]), NormMember(ms[j]), NormMembers(ms[j + 1..]));
  }

  lemma NormMembersSplit(ms: seq<Member>, j: nat)
    requires j < |ms|
    ensures NormMembers(ms) == NormMembers(ms[..j]) + ([NormMember(ms[j])] + NormMembers(ms[j + 1..]))
  {
    assert ms == ms[..j] + ([ms[j]] + ms[j + 1..]);
    NormMembersAppend(ms[..j], [ms[j]] + ms[j + 1..]);
    NormMembersCons(ms[j], ms[j + 1..]);
  }

  lemma NormMembersCons(m: Member, ms: seq<Member>)
    ensures NormMembers([m] + ms) == [NormMember(m)] + NormMembers(ms)
  {
    assert ([m] + ms)[1..] == ms;
  }

  lemma MultisetRemove<T>(a: seq<T>, x: T, b: seq<T>)
    ensures multiset(a + b) == multiset(a + ([x] + b)) - multiset{x}
  {
    assert multiset(a + ([x] + b)) == multiset(a) + multiset{x} + multiset(b);
  }

  lemma {:induction false} NormMembersAppend(a: seq<Member>, b: seq<Member>)
    ensures NormMembers(a + b) == NormMembers(a) + NormMembers(b)
    decreases a
  {
    if a == [] {
      assert a + b == b;
    } else {
      assert (a + b)[0] == a[0];
      assert (a + b)[1..] == a[1..] + b;
      NormMembersAppend(a[1..], b);
      assert NormMembers(a + b) == [NormMember(a[0])] + NormMembers(a[1..] + b);
    }
  }

  /**
   * `equal` holds exactly when the normal forms are identical: the order of
   * object members is ignored, their number is not.
   */
  lemma {:induction false} EqualIffNorm(l: Value, r: Value)
    ensures Equal(l, r) <==> Norm(l) == Norm(r)
    decreases l, 2
  {
    match l
    case Num(n) =>
      if r.Num? { NumberEqualIsIdentity(n, r.number); }
    case Obj(ms) =>
      if r.Obj? { ObjectEqualIffNorm(ms, r.members); }
    case Arr(es) =>
      if r.Arr? { ArrayEqualIffNorm(es, r.elements); }
    case _ =>
  }

  lemma {:induction false} ArrayEqualIffNorm(l: seq<Value>, r: seq<Value>)
    ensures ArrayEqual(l, r) <==> NormElements(l) == NormElements(r)
    decreases l, 1
  {
    if |l| == |r| {
      ElementsEqualIffNorm(l, r);
    }
  }

  lemma {:induction false} ElementsEqualIffNorm(l: seq<Value>, r: seq<Value>)
    requires |l| == |r|
    ensures ElementsEqual(l, r) <==> NormElements(l) == NormElements(r)
    decreases l, 0
  {
    if l != [] {
      EqualIffNorm(l[0], r[0]);
      ElementsEqualIffNorm(l[1..], r[1..]);
      assert NormElements(l) == [Norm(l[0])] + NormElements(l[1..]);
      assert NormElements(r) == [Norm(r[0])] + NormElements(r[1..]);
      if NormElements(l) == NormElements(r) {
        assert NormElements(l)[0] == NormElements(r)[0];
        assert NormElements(l)[1..] == NormElements(r)[1..];
      }
    }
  }

  lemma {:induction false} MemberEqualIffNorm(l: Member, r: Member)
    ensures MemberEqual(l, r) <==> NormMember(l) == NormMember(r)
    decreases l, 0
  {
    EqualIffNorm(l.value, r.value);
  }

  lemma {:induction false} ObjectEqualIffNorm(l: seq<Member>, r: seq<Member>)
    ensures ObjectEqual(l, r) <==> multiset(NormMembers(l)) == multiset(NormMembers(r))
    decreases l, 2
  {
    IsPermutationIffNorm(l, r);
    if multiset(NormMembers(l)) == multiset(NormMembers(r)) {
      assert |NormMembers(l)| == |multiset(NormMembers(l))|;
      assert |NormMembers(r)| == |multiset(NormMembers(r))|;
    }
  }

  lemma {:induction false} IsPermutationIffNorm(l: seq<Member>, r: seq<Member>)
    ensures IsPermutation(l, r) <==> multiset(NormMembers(l)) == multiset(NormMembers(r))
    decreases l, 1
  {
    if l == [] {
      if multiset(NormMembers(r)) == multiset{} {
        assert |NormMembers(r)| == 0;
      }
    } else {
      var m := NormMember(l[0]);
      assert NormMembers(l) == [m] + NormMembers(l[1..]);
      var j := FirstEqual(l[0], r, 0);
      FirstEqualIffNorm(l[0], r, 0);
      if j < |r| {
        IsPermutationIffNorm(l[1..], r[..j] + r[j + 1..]);
        MatchFound(l, r, j);
      } else {
        NoMatch(l, r);
      }
    }
  }

  /** Matching the first member with `r[j]` leaves the rest to match the rest. */
  lemma MatchFound(l: seq<Member>, r: seq<Member>, j: nat)
    requires l != [] && j < |r| && NormMember(r[j]) == NormMember(l[0])
    ensures multiset(NormMembers(l)) == multiset(NormMembers(r)) <==>
            multiset(NormMembers(l[1..])) == multiset(NormMembers(r[..j] + r[j + 1..]))
  {
    NormMembersCons(l[0], l[1..]);
    assert [l[0]] + l[1..] == l;
    NormMembersRemove(r, j);
    NormMembersAt(r, j);
    MultisetCancel(NormMember(l[0]), NormMembers(l[1..]), NormMembers(r), multiset(NormMembers(r[..j] + r[j + 1..])));
  }

  lemma MultisetCancel<T>(x: T, l: seq<T>, r: seq<T>, rest: multiset<T>)
    requires x in r && rest == multiset(r) - multiset{x}
    ensures multiset([x] + l) == multiset(r) <==> multiset(l) == rest
  {
    assert multiset([x] + l) == multiset{x} + multiset(l);
    assert multiset(r) == rest + multiset{x};
  }

  /** A first member equal to nothing on the right cannot be matched. */
  lemma NoMatch(l: seq<Member>, r: seq<Member>)
    requires l != [] && forall i :: 0 <= i < |r| ==> NormMember(r[i]) != NormMember(l[0])
    ensures multiset(NormMembers(l)) != multiset(NormMembers(r))
  {
    var m := NormMember(l[0]);
    assert NormMembers(l) == [m] + NormMembers(l[1..]);
    assert m in multiset(NormMembers(l));
    if m in multiset(NormMembers(r)) {
      var i :| 0 <= i < |r| && NormMembers(r)[i] == m;
      NormMembersAt(r, i);
    }
  }

  /** The search finds a member whose normal form is that of `m`, the first one from `k` on. */
  lemma {:induction false} FirstEqualIffNorm(m: Member, r: seq<Member>, k: nat)
    requires k <= |r|
    ensures var j := FirstEqual(m, r, k);
      (j < |r| ==> NormMember(r[j]) == NormMember(m)) &&
      (forall i :: k <= i < j ==> NormMember(r[i]) != NormMember(m))
    decreases m, 1, |r| - k
  {
    if k < |r| {
      MemberEqualIffNorm(m, r[k]);
      if !MemberEqual(m, r[k]) {
        FirstEqualIffNorm(m, r, k + 1);
      }
    }
  }

  /** `equal` is reflexive. */
  lemma EqualReflexive(v: Value)
    ensures Equal(v, v)
  {
    EqualIffNorm(v, v);
  }

  /** `equal` is symmetric. */
  lemma EqualSymmetric(l: Value, r: Value)
    ensures Equal(l, r) <==> Equal(r, l)
  {
    EqualIffNorm(l, r);
    EqualIffNorm(r, l);
  }

  /** `equal` is transitive. */
  lemma EqualTransitive(a: Value, b: Value, c: Value)
    requires Equal(a, b) && Equal(b, c)
    ensures Equal(a, c)
  {
    EqualIffNorm(a, b);
    EqualIffNorm(b, c);
    EqualIffNorm(a, c);
  }

  /** The members of an object may be listed in any order. */
  lemma ObjectOrderIgnored(a: Member, b: Member)
    ensures Equal(Obj([a, b]), Obj([b, a]))
  {
    EqualIffNorm(Obj([a, b]), Obj([b, a]));
    assert NormMembers([a, b]) == [NormMember(a), NormMember(b)];
    assert NormMembers([b, a]) == [NormMember(b), NormMember(a)];
  }

  /** Duplicate members count: an object is not equal to one with an extra copy. */
  lemma DuplicatesCount(a: Member)
    ensures !Equal(Obj([a]), Obj([a, a]))
  {
  }
}
