/**
 * The container `ValueFactory` specialisations of include/jsoncc.h: a
 * vector, a list or a set becomes an ARRAY built by the range constructor over
 * the container's iterators, each element converted by its own
 * `ValueFactory`. The element factory is a parameter here.
 */
module Factories {
  import opened Types
  import J = Json
  import Arrays
  import Values

  /**
   * `ValueFactory<std::vector<E>>::build` and `ValueFactory<std::list<E>>::build`:
   * both iterate front to back, so the array holds the converted elements in
   * the container's order.
   */
  method BuildSequence<E>(v: seq<E>, elem: E -> J.Value, res: Values.Value)
    modifies res.value
    ensures res.Valid() && res.Content().Arr?
    ensures |res.Content().elements| == |v|
    ensures forall i :: 0 <= i < |v| ==> res.Content().elements[i] == elem(v[i])
  {
    var converted := seq(|v|, i requires 0 <= i < |v| => elem(v[i]));
    var a := new Arrays.Array.Range(converted, 0, |converted|);
    res.SetArray(a);
  }

  /** Every non-empty set of integers has a least element. */
  lemma {:induction false} MinExists(t: set<int64>)
    requires t != {}
    ensures exists m :: m in t && forall y :: y in t ==> m <= y
    decreases |t|
  {
    var x :| x in t;
    var rest := t - {x};
    assert forall y :: y in t ==> y == x || y in rest;
    if rest != {} {
      MinExists(rest);
      var m :| m in rest && forall y :: y in rest ==> m <= y;
      if x < m {
        assert forall y :: y in t ==> x <= y;
      } else {
        assert forall y :: y in t ==> m <= y;
      }
    } else {
      assert forall y :: y in t ==> y == x;
    }
  }

  /**
   * The iteration order of `std::set<int64_t>`: ascending. The set is
   * drained by repeatedly taking its least element.
   */
  method InOrder(s: set<int64>) returns (r: seq<int64>)
    ensures forall i, j :: 0 <= i < j < |r| ==> r[i] < r[j]
    ensures forall x :: x in s <==> x in r
    ensures |r| == |s|
  {
    r := [];
    var rest := s;
    while rest != {}
      invariant forall i, j :: 0 <= i < j < |r| ==> r[i] < r[j]
      invariant forall x :: x in s <==> (x in r || x in rest)
      invariant forall i, y :: 0 <= i < |r| && y in rest ==> r[i] < y
      invariant |r| + |rest| == |s|
      decreases |rest|
    {
      MinExists(rest);
      var m :| m in rest && forall y :: y in rest ==> m <= y;
      r := r + [m];
      rest := rest - {m};
    }
  }

  /** `ValueFactory<std::set<E>>::build`: the converted elements in ascending order, no duplicates. */
  method BuildSet(s: set<int64>, elem: int64 -> J.Value, res: Values.Value)
    modifies res.value
    ensures res.Valid() && res.Content().Arr?
    ensures |res.Content().elements| == |s|
    ensures exists order: seq<int64> ::
      |order| == |s| && (forall x :: x in s <==> x in order) &&
      (forall i, j :: 0 <= i < j < |order| ==> order[i] < order[j]) &&
      (forall i :: 0 <= i < |order| ==> res.Content().elements[i] == elem(order[i]))
  {
    var order := InOrder(s);
    BuildSequence(order, elem, res);
  }
}
