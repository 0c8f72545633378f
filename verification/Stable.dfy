/** Stable sorting of any list by a comparison that may have ties. */
module Stable {
  /** A comparison: never both ways, and what lies between is on one side or the other. */
  ghost predicate WeakOrder<T(!new)>(before: (T, T) -> bool) {
    && (forall a, b :: before(a, b) ==> !before(b, a))
    && (forall a, b, c :: before(a, b) ==> before(a, c) || before(c, b))
  }

  /** A later element goes after its ties. */
  function Insert<T>(s: seq<T>, x: T, before: (T, T) -> bool): seq<T> {
    if s == [] then [x] else if before(x, s[0]) then [x] + s else [s[0]] + Insert(s[1..], x, before)
  }

  function SortBy<T>(s: seq<T>, before: (T, T) -> bool): seq<T> {
    if s == [] then [] else Insert(SortBy(s[..|s| - 1], before), s[|s| - 1], before)
  }

  ghost predicate Sorted<T>(s: seq<T>, before: (T, T) -> bool) {
    forall i, j | 0 <= i < j < |s| :: !before(s[j], s[i])
  }

  lemma {:induction false} InsertKeeps<T>(s: seq<T>, x: T, before: (T, T) -> bool)
    ensures multiset(Insert(s, x, before)) == multiset(s) + multiset{x}
    ensures forall y :: y in Insert(s, x, before) <==> y == x || y in s
  {
    if s != [] && !before(x, s[0]) {
      InsertKeeps(s[1..], x, before);
      assert s == [s[0]] + s[1..];
    }
  }

  lemma {:induction false} InsertSorts<T(!new)>(s: seq<T>, x: T, before: (T, T) -> bool)
    requires WeakOrder(before) && Sorted(s, before)
    ensures Sorted(Insert(s, x, before), before)
  {
    if s != [] && !before(x, s[0]) {
      InsertSorts(s[1..], x, before);
      InsertKeeps(s[1..], x, before);
      var r := Insert(s[1..], x, before);
      forall j | 0 <= j < |r| ensures !before(r[j], s[0]) {
        assert r[j] in r;
        if r[j] != x {
          var i :| 0 <= i < |s[1..]| && s[1..][i] == r[j];
          assert s[i + 1] == r[j];
        }
      }
    } else if s != [] {
      forall j | 0 <= j < |s| ensures !before(s[j], x) { assert before(x, s[0]); }
    }
  }

  /** The result is a sorted arrangement of the same elements. */
  lemma {:induction false} SortBySorts<T(!new)>(s: seq<T>, before: (T, T) -> bool)
    requires WeakOrder(before)
    ensures Sorted(SortBy(s, before), before) && multiset(SortBy(s, before)) == multiset(s)
    ensures |SortBy(s, before)| == |s| && forall x :: x in SortBy(s, before) <==> x in s
  {
    if s != [] {
      SortBySorts(s[..|s| - 1], before);
      InsertSorts(SortBy(s[..|s| - 1], before), s[|s| - 1], before);
      InsertKeeps(SortBy(s[..|s| - 1], before), s[|s| - 1], before);
      assert s == s[..|s| - 1] + [s[|s| - 1]];
    }
    assert |SortBy(s, before)| == |multiset(SortBy(s, before))| == |s|;
    assert forall x :: x in SortBy(s, before) <==> x in multiset(SortBy(s, before));
    assert forall x :: x in s <==> x in multiset(s);
  }
}
