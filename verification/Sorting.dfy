/** Sorting by a two-part key: SQL's ORDER BY and Go's sort.Slice over unique keys. */
module Sorting {

  datatype Key = Key(major: int, minor: int)

  predicate Before(a: Key, b: Key) {
    a.major < b.major || (a.major == b.major && a.minor < b.minor)
  }

  function Insert<T>(key: T -> Key, x: T, s: seq<T>): seq<T> {
    if s == [] || Before(key(x), key(s[0])) then [x] + s else [s[0]] + Insert(key, x, s[1..])
  }

  function Sort<T>(key: T -> Key, s: seq<T>): seq<T> {
    if s == [] then [] else Insert(key, s[0], Sort(key, s[1..]))
  }

  ghost predicate Sorted<T(!new)>(key: T -> Key, s: seq<T>) {
    forall i, j | 0 <= i < j < |s| :: Before(key(s[i]), key(s[j]))
  }

  ghost predicate UniqueKeys<T(!new)>(key: T -> Key, s: seq<T>) {
    forall i, j | 0 <= i < j < |s| :: key(s[i]) != key(s[j])
  }

  function Filter<T>(p: T -> bool, s: seq<T>): seq<T> {
    if s == [] then [] else (if p(s[0]) then [s[0]] else []) + Filter(p, s[1..])
  }

  function Map<T, U>(f: T -> U, s: seq<T>): (r: seq<U>)
    ensures |r| == |s| && forall i | 0 <= i < |s| :: r[i] == f(s[i])
  {
    seq(|s|, i requires 0 <= i < |s| => f(s[i]))
  }

  lemma {:induction false} InsertPermutes<T(!new)>(key: T -> Key, x: T, s: seq<T>)
    ensures multiset(Insert(key, x, s)) == multiset([x] + s)
  {
    if s != [] && !Before(key(x), key(s[0])) {
      InsertPermutes(key, x, s[1..]);
      assert s == [s[0]] + s[1..];
    }
  }

  lemma {:induction false} SortPermutes<T(!new)>(key: T -> Key, s: seq<T>)
    ensures multiset(Sort(key, s)) == multiset(s)
  {
    if s == [] {
    } else {
      SortPermutes(key, s[1..]);
      InsertPermutes(key, s[0], Sort(key, s[1..]));
      assert s == [s[0]] + s[1..];
    }
  }

  lemma {:induction false} InsertSorts<T(!new)>(key: T -> Key, x: T, s: seq<T>)
    requires Sorted(key, s) && forall y | y in s :: key(y) != key(x)
    ensures Sorted(key, Insert(key, x, s))
  {
    if s != [] && !Before(key(x), key(s[0])) {
      InsertSorts(key, x, s[1..]);
      InsertPermutes(key, x, s[1..]);
      var t := Insert(key, x, s[1..]);
      forall y | y in t
        ensures Before(key(s[0]), key(y))
      {
        assert y in multiset(t) && y in multiset([x] + s[1..]);
      }
    }
  }

  lemma {:induction false} SortSorts<T(!new)>(key: T -> Key, s: seq<T>)
    requires UniqueKeys(key, s)
    ensures Sorted(key, Sort(key, s))
  {
    if s == [] {
    } else {
      SortSorts(key, s[1..]);
      SortPermutes(key, s[1..]);
      forall y | y in Sort(key, s[1..])
        ensures key(y) != key(s[0])
      {
        assert y in multiset(Sort(key, s[1..])) && y in multiset(s[1..]) && y in s[1..];
      }
      InsertSorts(key, s[0], Sort(key, s[1..]));
    }
  }

  /** Nothing comes before what it is sorted behind, equal keys or not. */
  ghost predicate Ordered<T(!new)>(key: T -> Key, s: seq<T>) {
    forall i, j | 0 <= i < j < |s| :: !Before(key(s[j]), key(s[i]))
  }

  lemma {:induction false} InsertOrders<T(!new)>(key: T -> Key, x: T, s: seq<T>)
    requires Ordered(key, s)
    ensures Ordered(key, Insert(key, x, s))
  {
    if s == [] || Before(key(x), key(s[0])) {
    } else {
      InsertOrders(key, x, s[1..]);
      InsertPermutes(key, x, s[1..]);
      var t := Insert(key, x, s[1..]);
      forall y | y in t
        ensures !Before(key(y), key(s[0]))
      {
        assert y in multiset(t) && y in multiset([x] + s[1..]);
      }
    }
  }

  /** Sorting orders any list. */
  lemma {:induction false} SortOrders<T(!new)>(key: T -> Key, s: seq<T>)
    ensures Ordered(key, Sort(key, s))
  {
    if s == [] {
    } else {
      SortOrders(key, s[1..]);
      InsertOrders(key, s[0], Sort(key, s[1..]));
    }
  }

  ghost predicate SameMembers<T(!new)>(a: seq<T>, b: seq<T>) {
    forall x :: x in a <==> x in b
  }

  lemma SortMembers<T(!new)>(key: T -> Key, s: seq<T>)
    ensures SameMembers(Sort(key, s), s) && |Sort(key, s)| == |s|
  {
    SortPermutes(key, s);
    assert |Sort(key, s)| == |multiset(Sort(key, s))| == |multiset(s)| == |s|;
    forall x
      ensures x in Sort(key, s) <==> x in s
    {
      assert x in multiset(Sort(key, s)) <==> x in multiset(s);
    }
  }

  lemma SortedTail<T(!new)>(key: T -> Key, a: seq<T>)
    requires Sorted(key, a) && a != []
    ensures Sorted(key, a[1..])
    ensures forall x :: x in a[1..] <==> x in a && x != a[0]
  {
    assert a == [a[0]] + a[1..];
  }

  /** A sorted list is determined by its elements. */
  lemma {:induction false} SortedUnique<T(!new)>(key: T -> Key, a: seq<T>, b: seq<T>)
    requires Sorted(key, a) && Sorted(key, b) && SameMembers(a, b)
    ensures a == b
  {
    assert a != [] ==> a[0] in b;
    assert b != [] ==> b[0] in a;
    if a != [] && b != [] {
      assert a[0] == b[0];
      SortedTail(key, a);
      SortedTail(key, b);
      SortedUnique(key, a[1..], b[1..]);
    }
  }

  /** Sorting gives the one sorted arrangement. */
  lemma SortIs<T(!new)>(key: T -> Key, s: seq<T>, t: seq<T>)
    requires UniqueKeys(key, s) && Sorted(key, t) && SameMembers(s, t)
    ensures Sort(key, s) == t
  {
    SortSorts(key, s);
    SortMembers(key, s);
    SortedUnique(key, Sort(key, s), t);
  }

  lemma {:induction false} FilterMember<T(!new)>(p: T -> bool, s: seq<T>)
    ensures forall x :: x in Filter(p, s) <==> x in s && p(x)
  {
    if s == [] {
    } else {
      FilterMember(p, s[1..]);
      assert s == [s[0]] + s[1..];
    }
  }

  lemma {:induction false} FilterConcat<T(!new)>(p: T -> bool, s: seq<T>, t: seq<T>)
    ensures Filter(p, s + t) == Filter(p, s) + Filter(p, t)
  {
    if s == [] {
      assert s + t == t;
    } else {
      var u := s + t;
      assert u[0] == s[0] && u[1..] == s[1..] + t;
      FilterConcat(p, s[1..], t);
      var first := if p(s[0]) then [s[0]] else [];
      assert Filter(p, u) == first + Filter(p, u[1..]);
      assert Filter(p, s) == first + Filter(p, s[1..]);
    }
  }

  /** Filtering keeps a sorted list sorted. */
  lemma {:induction false} FilterSorted<T(!new)>(key: T -> Key, p: T -> bool, s: seq<T>)
    requires Sorted(key, s)
    ensures Sorted(key, Filter(p, s))
  {
    if s == [] {
    } else {
      SortedTail(key, s);
      FilterSorted(key, p, s[1..]);
      FilterMember(p, s[1..]);
      forall y | y in Filter(p, s[1..])
        ensures Before(key(s[0]), key(y))
      {
        assert y in s[1..];
      }
    }
  }

  lemma {:induction false} FilterUnique<T(!new)>(key: T -> Key, p: T -> bool, s: seq<T>)
    requires UniqueKeys(key, s)
    ensures UniqueKeys(key, Filter(p, s))
  {
    if s == [] {
    } else {
      FilterUnique(key, p, s[1..]);
      FilterMember(p, s[1..]);
      forall y | y in Filter(p, s[1..])
        ensures key(y) != key(s[0])
      {
        assert y in s[1..];
      }
    }
  }

  /** Sorting and filtering commute. */
  lemma SortFilter<T(!new)>(key: T -> Key, p: T -> bool, s: seq<T>)
    requires UniqueKeys(key, s)
    ensures Sort(key, Filter(p, s)) == Filter(p, Sort(key, s))
  {
    SortSorts(key, s);
    SortMembers(key, s);
    FilterMember(p, s);
    FilterMember(p, Sort(key, s));
    FilterSorted(key, p, Sort(key, s));
    FilterUnique(key, p, s);
    SortIs(key, Filter(p, s), Filter(p, Sort(key, s)));
  }
}
