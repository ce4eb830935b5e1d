/** Sorted arrangements under a strict order given as a relation. */
module Order {

  ghost predicate Sorted<T>(less: (T, T) -> bool, s: seq<T>) {
    forall i, j | 0 <= i < j < |s| :: less(s[i], s[j])
  }

  ghost predicate Asymmetric<T(!new)>(less: (T, T) -> bool) {
    forall a, b :: !(less(a, b) && less(b, a))
  }

  ghost predicate Transitive<T(!new)>(less: (T, T) -> bool) {
    forall a, b, c :: less(a, b) && less(b, c) ==> less(a, c)
  }

  lemma SameFirst<T(!new)>(less: (T, T) -> bool, a: seq<T>, b: seq<T>)
    requires Asymmetric(less) && Sorted(less, a) && Sorted(less, b)
    requires a != [] && b != [] && multiset(a) == multiset(b)
    ensures a[0] == b[0]
  {
    assert a[0] in multiset(b) && b[0] in multiset(a);
    var i :| 0 <= i < |b| && b[i] == a[0];
    var j :| 0 <= j < |a| && a[j] == b[0];
    assert i > 0 ==> less(b[0], b[i]);
    assert j > 0 ==> less(a[0], a[j]);
  }

  lemma RestMultiset<T>(s: seq<T>)
    requires s != []
    ensures s == [s[0]] + s[1..] && multiset(s[1..]) == multiset(s) - multiset{s[0]}
  {
    assert s == [s[0]] + s[1..];
  }

  /** Under an asymmetric relation, two sorted arrangements of the same elements are equal. */
  lemma {:induction false} SortedIsUnique<T(!new)>(less: (T, T) -> bool, a: seq<T>, b: seq<T>)
    requires Asymmetric(less) && Sorted(less, a) && Sorted(less, b)
    requires multiset(a) == multiset(b)
    ensures a == b
  {
    if a == [] {
      assert |multiset(b)| == 0;
    } else {
      assert a[0] in multiset(b);
      SameFirst(less, a, b);
      RestMultiset(a);
      RestMultiset(b);
      SortedIsUnique(less, a[1..], b[1..]);
    }
  }

  function Insert<T>(less: (T, T) -> bool, x: T, s: seq<T>): seq<T> {
    if s == [] || less(x, s[0]) then [x] + s else [s[0]] + Insert(less, x, s[1..])
  }

  /** A sorting of the elements. */
  function Sort<T>(less: (T, T) -> bool, s: seq<T>): seq<T> {
    if s == [] then [] else Insert(less, s[0], Sort(less, s[1..]))
  }

  lemma {:induction false} InsertMultiset<T>(less: (T, T) -> bool, x: T, s: seq<T>)
    ensures multiset(Insert(less, x, s)) == multiset(s) + multiset{x}
  {
    if !(s == [] || less(x, s[0])) {
      InsertMultiset(less, x, s[1..]);
      RestMultiset(s);
    }
  }

  lemma {:induction false} InsertIsSorted<T(!new)>(less: (T, T) -> bool, x: T, s: seq<T>)
    requires Transitive(less) && Sorted(less, s)
    requires forall y | y in s :: less(x, y) || less(y, x)
    ensures Sorted(less, Insert(less, x, s))
  {
    if s == [] || less(x, s[0]) {
      var r := [x] + s;
      forall i, j | 0 <= i < j < |r| ensures less(r[i], r[j]) {
        assert i == 0 && j > 1 ==> less(s[0], s[j - 1]);
      }
    } else {
      InsertIsSorted(less, x, s[1..]);
      InsertMultiset(less, x, s[1..]);
      PrependIsSorted(less, s[0], x, s[1..], Insert(less, x, s[1..]));
    }
  }

  lemma PrependIsSorted<T(!new)>(less: (T, T) -> bool, head: T, x: T, tail: seq<T>, rest: seq<T>)
    requires Sorted(less, rest) && multiset(rest) == multiset(tail) + multiset{x}
    requires less(head, x) && forall y | y in tail :: less(head, y)
    ensures Sorted(less, [head] + rest)
  {
    forall y | y in rest ensures less(head, y) {
      assert y in multiset(rest);
    }
  }

  /** If any two different positions hold comparable elements, sorting arranges them all. */
  lemma {:induction false} SortIsSorted<T(!new)>(less: (T, T) -> bool, s: seq<T>)
    requires Transitive(less)
    requires forall i, j | 0 <= i < j < |s| :: less(s[i], s[j]) || less(s[j], s[i])
    ensures Sorted(less, Sort(less, s)) && multiset(Sort(less, s)) == multiset(s)
  {
    if s != [] {
      var rest := s[1..];
      assert forall i | 0 <= i < |rest| :: rest[i] == s[i + 1];
      SortIsSorted(less, rest);
      forall y | y in Sort(less, rest) ensures less(s[0], y) || less(y, s[0]) {
        assert y in multiset(Sort(less, rest));
        assert y in rest;
        var k :| 0 <= k < |rest| && rest[k] == y;
        assert s[k + 1] == y;
      }
      InsertIsSorted(less, s[0], Sort(less, rest));
      InsertMultiset(less, s[0], Sort(less, rest));
      RestMultiset(s);
    }
  }
}
