/** Sorted enumerations of finite sets, as the store's iterators produce them. */
module Ordering {

  ghost predicate StrictTotal<T(!new)>(less: (T, T) -> bool) {
    && (forall a :: !less(a, a))
    && (forall a, b :: a == b || less(a, b) || less(b, a))
    && (forall a, b, c :: less(a, b) && less(b, c) ==> less(a, c))
  }

  ghost predicate Ascending<T>(ks: seq<T>, less: (T, T) -> bool) {
    forall i, j :: 0 <= i < j < |ks| ==> less(ks[i], ks[j])
  }

  ghost predicate Least<T>(m: T, s: set<T>, less: (T, T) -> bool) {
    m in s && forall x :: x in s && x != m ==> less(m, x)
  }

  lemma {:induction false} LeastExists<T(!new)>(s: set<T>, less: (T, T) -> bool)
    requires s != {} && StrictTotal(less)
    ensures exists m :: Least(m, s, less)
  {
    var y :| y in s;
    if s == {y} {
      assert Least(y, s, less);
    } else {
      LeastExists(s - {y}, less);
      var m :| Least(m, s - {y}, less);
      if less(m, y) {
        assert Least(m, s, less);
      } else {
        assert Least(y, s, less);
      }
    }
  }
}
