/** Stable sorting by an integer key, as Python's `sorted` and `list.sort` do it. */
module Sorting {
  function Insert<T>(x: T, s: seq<T>, key: T -> int): seq<T> {
    if s == [] || key(x) <= key(s[0]) then [x] + s else [s[0]] + Insert(x, s[1..], key)
  }

  function SortBy<T>(s: seq<T>, key: T -> int): seq<T> {
    if s == [] then [] else Insert(s[0], SortBy(s[1..], key), key)
  }

  predicate SortedBy<T>(s: seq<T>, key: T -> int) {
    |s| <= 1 || (key(s[0]) <= key(s[1]) && SortedBy(s[1..], key))
  }

  lemma {:induction false} HeadLeast<T>(s: seq<T>, key: T -> int)
    requires SortedBy(s, key) && s != []
    ensures forall x | x in s :: key(s[0]) <= key(x)
  {
    if |s| > 1 {
      HeadLeast(s[1..], key);
      assert s == [s[0]] + s[1..];
    }
  }

  lemma {:induction false} InsertSorted<T>(x: T, s: seq<T>, key: T -> int)
    requires SortedBy(s, key)
    ensures SortedBy(Insert(x, s, key), key)
    ensures Insert(x, s, key) != [] && Insert(x, s, key)[0] == if s == [] || key(x) <= key(s[0]) then x else s[0]
  {
    if s == [] {
    } else if key(x) <= key(s[0]) {
      assert ([x] + s)[1..] == s;
    } else {
      InsertSorted(x, s[1..], key);
      assert Insert(x, s, key)[1..] == Insert(x, s[1..], key);
    }
  }

  lemma {:induction false} InsertKeepsElements<T>(x: T, s: seq<T>, key: T -> int)
    ensures multiset(Insert(x, s, key)) == multiset{x} + multiset(s)
  {
    if s != [] && key(x) > key(s[0]) {
      InsertKeepsElements(x, s[1..], key);
      assert s == [s[0]] + s[1..];
    }
  }

  /** Sorting yields an ordered permutation. */
  lemma {:induction false} SortBySorts<T>(s: seq<T>, key: T -> int)
    ensures SortedBy(SortBy(s, key), key)
    ensures multiset(SortBy(s, key)) == multiset(s)
  {
    if s != [] {
      SortBySorts(s[1..], key);
      InsertSorted(s[0], SortBy(s[1..], key), key);
      InsertKeepsElements(s[0], SortBy(s[1..], key), key);
      assert s == [s[0]] + s[1..];
    }
  }

  lemma SameElements<T>(a: seq<T>, b: seq<T>)
    requires multiset(a) == multiset(b)
    ensures |a| == |b|
    ensures forall x :: x in a <==> x in b
  {
    assert |a| == |multiset(a)| == |multiset(b)| == |b|;
    forall x ensures x in a <==> x in b {
      assert x in multiset(a) <==> x in multiset(b);
    }
  }

  lemma SameTails<T>(a: seq<T>, b: seq<T>)
    requires a != [] && b != [] && a[0] == b[0] && multiset(a) == multiset(b)
    ensures multiset(a[1..]) == multiset(b[1..])
  {
    assert a == [a[0]] + a[1..] && b == [b[0]] + b[1..];
    assert multiset(a[1..]) == multiset(a) - multiset{a[0]};
    assert multiset(b[1..]) == multiset(b) - multiset{b[0]};
  }

  ghost predicate DistinctKeys<T>(s: seq<T>, key: T -> int) {
    forall i, j | 0 <= i < j < |s| :: key(s[i]) != key(s[j])
  }

  /** With distinct keys there is only one ordered arrangement. */
  lemma {:induction false} SortedUnique<T>(a: seq<T>, b: seq<T>, key: T -> int)
    requires SortedBy(a, key) && SortedBy(b, key) && multiset(a) == multiset(b) && DistinctKeys(b, key)
    ensures a == b
  {
    SameElements(a, b);
    if a != [] {
      HeadLeast(a, key);
      HeadLeast(b, key);
      assert a[0] in b && b[0] in a;
      assert a[0] == b[0];
      SameTails(a, b);
      SortedUnique(a[1..], b[1..], key);
    }
  }
}
