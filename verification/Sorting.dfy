/** Sorting a sequence by a strict order that may leave ties. */
module Sorting {

  /** A strict order whose ties are transitive. */
  ghost predicate WeakOrder<T(!new)>(before: (T, T) -> bool) {
    && (forall a, b :: before(a, b) ==> !before(b, a))
    && (forall a, b, c :: !before(b, a) && !before(c, b) ==> !before(c, a))
  }

  ghost predicate Sorted<T>(before: (T, T) -> bool, s: seq<T>) {
    forall i, j :: 0 <= i < j < |s| ==> !before(s[j], s[i])
  }

  function Insert<T>(before: (T, T) -> bool, a: T, s: seq<T>): (r: seq<T>)
    ensures multiset(r) == multiset(s) + multiset{a}
  {
    if s == [] || before(a, s[0]) then
      assert s == [] ==> [a] + s == [a];
      [a] + s
    else
      assert s == [s[0]] + s[1..];
      [s[0]] + Insert(before, a, s[1..])
  }

  /** The sorts of the source are library calls; this insertion sort stands for them. */
  function Sort<T>(before: (T, T) -> bool, s: seq<T>): (r: seq<T>)
    ensures multiset(r) == multiset(s)
  {
    if s == [] then []
    else
      assert s == [s[0]] + s[1..];
      Insert(before, s[0], Sort(before, s[1..]))
  }

  lemma SortedCons<T(!new)>(before: (T, T) -> bool, a: T, s: seq<T>)
    requires Sorted(before, s) && forall x :: x in s ==> !before(x, a)
    ensures Sorted(before, [a] + s)
  {
  }

  lemma {:induction false} InsertSorted<T(!new)>(before: (T, T) -> bool, a: T, s: seq<T>)
    requires WeakOrder(before) && Sorted(before, s)
    ensures Sorted(before, Insert(before, a, s))
  {
    if s == [] {
    } else if before(a, s[0]) {
      forall x | x in s ensures !before(x, a) {
        var i :| 0 <= i < |s| && s[i] == x;
        assert !before(s[0], a);
        assert !before(x, s[0]);
      }
      SortedCons(before, a, s);
    } else {
      var rest := Insert(before, a, s[1..]);
      InsertSorted(before, a, s[1..]);
      forall x | x in rest ensures !before(x, s[0]) {
        assert x in multiset(rest);
        assert x == a || x in multiset(s[1..]);
      }
      SortedCons(before, s[0], rest);
    }
  }

  lemma {:induction false} SortSorts<T(!new)>(before: (T, T) -> bool, s: seq<T>)
    requires WeakOrder(before)
    ensures Sorted(before, Sort(before, s))
  {
    if s != [] {
      SortSorts(before, s[1..]);
      InsertSorted(before, s[0], Sort(before, s[1..]));
    }
  }
}
