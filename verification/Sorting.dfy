/** Sorting by a strict order, as `sort_by` leaves a vector whose keys are distinct. */
module Sorting {

  ghost predicate StrictOrder<T(!new)>(less: (T, T) -> bool) {
    && (forall a :: !less(a, a))
    && (forall a, b, c :: less(a, b) && less(b, c) ==> less(a, c))
  }

  /** Each element before the next: no two compare equal. */
  ghost predicate Ascending<T>(s: seq<T>, less: (T, T) -> bool) {
    forall i, j :: 0 <= i < j < |s| ==> less(s[i], s[j])
  }

  function Insert<T>(s: seq<T>, x: T, less: (T, T) -> bool): seq<T> {
    if s == [] || less(x, s[0]) then [x] + s else [s[0]] + Insert(s[1..], x, less)
  }

  function SortBy<T>(s: seq<T>, less: (T, T) -> bool): seq<T> {
    if s == [] then [] else Insert(SortBy(s[1..], less), s[0], less)
  }

  lemma {:induction false} InsertKeepsElements<T>(s: seq<T>, x: T, less: (T, T) -> bool)
    ensures |Insert(s, x, less)| == |s| + 1
    ensures forall y :: y in Insert(s, x, less) <==> y == x || y in s
  {
    if s != [] && !less(x, s[0]) {
      InsertKeepsElements(s[1..], x, less);
      assert forall y :: y in s <==> y == s[0] || y in s[1..];
    }
  }

  lemma {:induction false} InsertAscends<T(!new)>(s: seq<T>, x: T, less: (T, T) -> bool)
    requires StrictOrder(less) && Ascending(s, less)
    requires forall y :: y in s ==> less(x, y) || less(y, x)
    ensures Ascending(Insert(s, x, less), less)
  {
    if s == [] {
    } else if less(x, s[0]) {
      assert forall j :: 0 < j < |s| ==> less(s[0], s[j]);
    } else {
      InsertAscends(s[1..], x, less);
      InsertKeepsElements(s[1..], x, less);
      var t := Insert(s[1..], x, less);
      assert s[0] in s;
      forall j | 0 <= j < |t|
        ensures less(s[0], t[j])
      {
        assert t[j] in t;
      }
    }
  }

  /** Sorting a vector whose elements are pairwise comparable loses nothing and leaves it strictly ascending. */
  lemma {:induction false} SortByAscends<T(!new)>(s: seq<T>, less: (T, T) -> bool)
    requires StrictOrder(less)
    requires forall i, j :: 0 <= i < j < |s| ==> less(s[i], s[j]) || less(s[j], s[i])
    ensures Ascending(SortBy(s, less), less)
    ensures |SortBy(s, less)| == |s|
    ensures forall y :: y in SortBy(s, less) <==> y in s
  {
    if s != [] {
      SortByAscends(s[1..], less);
      var t := SortBy(s[1..], less);
      forall y | y in t
        ensures less(s[0], y) || less(y, s[0])
      {
        var j :| 0 <= j < |s[1..]| && s[1..][j] == y;
        assert s[j + 1] == y;
      }
      InsertAscends(t, s[0], less);
      InsertKeepsElements(t, s[0], less);
    }
  }

  /** There is only one way to list a set in order, so the order in which a hash map was walked cannot show. */
  lemma {:induction false} AscendingIsUnique<T(!new)>(a: seq<T>, b: seq<T>, less: (T, T) -> bool)
    requires StrictOrder(less) && Ascending(a, less) && Ascending(b, less)
    requires forall x :: x in a <==> x in b
    ensures a == b
  {
    assert b != [] ==> b[0] in b;
    if a != [] {
      assert a[0] in a && a[0] in b;
      var i :| 0 <= i < |a| && a[i] == b[0];
      var j :| 0 <= j < |b| && b[j] == a[0];
      assert a[0] == b[0];
      forall x
        ensures x in a[1..] <==> x in b[1..]
      {
        assert x in a <==> x == a[0] || x in a[1..];
        assert x in b <==> x == b[0] || x in b[1..];
      }
      AscendingIsUnique(a[1..], b[1..], less);
    }
  }
}
