/** Lists in the order of a comparison, one insertion at a time. */
module SortedLists {

  ghost predicate SortedBy<T(!new)>(less: (T, T) -> bool, list: seq<T>) {
    forall i, j :: 0 <= i < j < |list| ==> less(list[i], list[j])
  }

  ghost predicate Transitive<T(!new)>(less: (T, T) -> bool) {
    forall x, y, z :: less(x, y) && less(y, z) ==> less(x, z)
  }

  ghost function Insert<T(!new)>(less: (T, T) -> bool, list: seq<T>, x: T): (r: seq<T>)
    requires SortedBy(less, list) && Transitive(less) && forall y :: y in list ==> less(x, y) || less(y, x)
    ensures SortedBy(less, r) && forall y :: y in r <==> y == x || y in list
  {
    if list == [] || less(x, list[0]) then
      [x] + list
    else
      var rest := Insert(less, list[1..], x);
      assert forall y :: y in rest ==> less(list[0], y);
      [list[0]] + rest
  }

  lemma {:induction false} SortSet<T(!new)>(less: (T, T) -> bool, elements: set<T>) returns (list: seq<T>)
    requires Transitive(less) && forall x, y :: x in elements && y in elements && x != y ==> less(x, y) || less(y, x)
    ensures SortedBy(less, list) && forall x :: x in list <==> x in elements
    decreases elements
  {
    list := [];
    if elements != {} {
      var x :| x in elements;
      list := SortSet(less, elements - {x});
      list := Insert(less, list, x);
    }
  }
}
